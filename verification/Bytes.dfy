/** Bytes and the little-endian words both processes put on the wire and into hash keys. */
module Bytes {

  type byte = x: int | 0 <= x < 256

  /** The n low-order bytes of v, least significant first. */
  function LittleEndian(v: nat, n: nat): (r: seq<byte>)
    ensures |r| == n
  {
    if n == 0 then [] else [v % 256] + LittleEndian(v / 256, n - 1)
  }

  function Pow256(n: nat): (p: nat)
    ensures p > 0
  {
    if n == 0 then 1 else 256 * Pow256(n - 1)
  }

  function Value(bs: seq<byte>): (v: nat)
  {
    if bs == [] then 0 else bs[0] + 256 * Value(bs[1..])
  }

  lemma {:induction false} ValueOfWord(v: nat, n: nat)
    requires v < Pow256(n)
    ensures Value(LittleEndian(v, n)) == v
  {
    if n > 0 {
      var rest := LittleEndian(v / 256, n - 1);
      assert LittleEndian(v, n)[1..] == rest;
      ValueOfWord(v / 256, n - 1);
    }
  }

  /** Words of the same width are equal only for equal values. */
  lemma WordsDiffer(v: nat, w: nat, n: nat)
    requires v < Pow256(n) && w < Pow256(n)
    requires LittleEndian(v, n) == LittleEndian(w, n)
    ensures v == w
  {
    ValueOfWord(v, n);
    ValueOfWord(w, n);
  }
}
