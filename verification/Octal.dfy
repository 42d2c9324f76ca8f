/**
 Octal symbol names: the server names a translated function after its guest address
 in octal, and the client's runtime linker reads the address back out of the name.
 */
module Octal {
  import opened Common

  type u64 = x: int | 0 <= x < TWO_64

  datatype Status = Ok | EInval

  function Digit(d: nat): (c: char)
    requires d < 8
    ensures IsOctal(c) && DigitValue(c) == d
  {
    '0' + d as char
  }

  predicate IsOctal(c: char) {
    '0' <= c < '8'
  }

  function DigitValue(c: char): (d: nat)
    requires IsOctal(c)
    ensures d < 8
  {
    c as int - '0' as int
  }

  /** The value of a digit string, most significant digit first. */
  function Value(s: string): nat
    requires forall c :: c in s ==> IsOctal(c)
  {
    if s == [] then 0 else 8 * Value(s[..|s|-1]) + DigitValue(s[|s|-1])
  }

  /** The value of a digit string, least significant digit first (the order the emitter produces). */
  function ValueReversed(s: string): nat
    requires forall c :: c in s ==> IsOctal(c)
  {
    if s == [] then 0 else DigitValue(s[0]) + 8 * ValueReversed(s[1..])
  }

  function Reverse(s: string): (r: string)
    ensures |r| == |s|
    ensures forall i :: 0 <= i < |s| ==> r[i] == s[|s| - 1 - i]
  {
    if s == [] then [] else Reverse(s[1..]) + [s[0]]
  }

  lemma {:induction false} ReverseValue(s: string)
    requires forall c :: c in s ==> IsOctal(c)
    ensures forall c :: c in Reverse(s) ==> IsOctal(c)
    ensures Value(Reverse(s)) == ValueReversed(s)
  {
    if s != [] {
      ReverseValue(s[1..]);
      var r := Reverse(s[1..]) + [s[0]];
      assert r[..|r|-1] == Reverse(s[1..]);
    }
  }

  /** A digit string without leading zeros; the one for zero is "0". */
  predicate Canonical(s: string) {
    && |s| >= 1
    && (forall c :: c in s ==> IsOctal(c))
    && (|s| > 1 ==> s[0] != '0')
  }

  function Pow8(n: nat): (p: nat)
    ensures p >= 1
  {
    if n == 0 then 1 else 8 * Pow8(n - 1)
  }

  lemma {:induction false} ValueReversedAppend(s: string, d: nat)
    requires forall c :: c in s ==> IsOctal(c)
    requires d < 8
    ensures forall c :: c in s + [Digit(d)] ==> IsOctal(c)
    ensures ValueReversed(s + [Digit(d)]) == ValueReversed(s) + d * Pow8(|s|)
  {
    var t := s + [Digit(d)];
    if s == [] {
      assert t[1..] == [];
    } else {
      assert t[1..] == s[1..] + [Digit(d)];
      ValueReversedAppend(s[1..], d);
      assert d * Pow8(|s|) == 8 * (d * Pow8(|s| - 1));
    }
  }

  lemma SplitLowDigit(a: nat, n: nat)
    ensures a * Pow8(n) == (a % 8) * Pow8(n) + (a / 8) * Pow8(n + 1)
  {
    var p, q, r := Pow8(n), a / 8, a % 8;
    assert a == 8 * q + r;
    assert (8 * q + r) * p == q * (8 * p) + r * p;
  }

  /** The digit loop of the emitter, followed by the in-place reverse. */
  method EmitDigits(addr: u64) returns (digits: string)
    ensures Canonical(digits)
    ensures Value(digits) == addr
  {
    var a: nat := addr;
    var octal := [Digit(a % 8)];
    a := a / 8;
    while a != 0
      invariant |octal| >= 1
      invariant forall c :: c in octal ==> IsOctal(c)
      invariant addr == ValueReversed(octal) + a * Pow8(|octal|)
      invariant a == 0 && |octal| > 1 ==> octal[|octal| - 1] != '0'
      decreases a
    {
      ValueReversedAppend(octal, a % 8);
      SplitLowDigit(a, |octal|);
      octal := octal + [Digit(a % 8)];
      a := a / 8;
    }
    ReverseValue(octal);
    digits := Reverse(octal);
  }

  /** Where the digits of a name end: at the first '_', at a NUL, or at the end. */
  function Stem(name: string): (s: string)
  {
    if name == [] || name[0] == '\0' || name[0] == '_' then []
    else [name[0]] + Stem(name[1..])
  }

  predicate Prefixed(name: string) {
    |name| >= 1 && (name[0] == 'Z' || name[0] == 'S')
  }

  predicate AllOctal(s: string) {
    forall c :: c in s ==> IsOctal(c)
  }

  /** What the client's name decoder yields: a status and the value left in the out-parameter. */
  function Decoded(name: string, skew: u64, out: u64): (r: (Status, u64))
  {
    if !Prefixed(name) then (EInval, out)
    else if !AllOctal(Stem(name[1..])) then (Ok, out)
    else
      var v := Residue(Stem(name[1..]));
      (Ok, if name[0] == 'S' then (v + skew) % TWO_64 else v)
  }

  lemma {:induction false} StemPrefix(name: string, k: nat)
    requires k < |name|
    requires AllOctal(name[..k])
    ensures if name[k] == '\0' || name[k] == '_' then Stem(name) == name[..k]
            else name[k] in Stem(name)
  {
    if k > 0 {
      assert IsOctal(name[..k][0]);
      assert name[..k] == [name[0]] + name[1..][..k-1];
      StemPrefix(name[1..], k - 1);
    }
  }

  lemma {:induction false} StemWhole(name: string)
    requires AllOctal(name)
    ensures Stem(name) == name
  {
    if name != [] {
      assert IsOctal(name[0]);
      StemWhole(name[1..]);
    }
  }

  /** Shifting one digit into a 64-bit register. */
  function ShiftIn(a: u64, d: nat): (r: u64)
    requires d < 8
  {
    var q := 8 * a / TWO_64;
    assert (8 * a) % TWO_64 == 8 * a - q * TWO_64 == 8 * (a - q * (TWO_64 / 8));
    (8 * a) % TWO_64 + d
  }

  function Residue(s: string): u64
    requires AllOctal(s)
  {
    Value(s) % TWO_64
  }

  lemma ModuloOf(k: int, r: int)
    requires 0 <= r < TWO_64
    ensures (k * TWO_64 + r) % TWO_64 == r
  {
  }

  lemma ShiftModulo(a: u64, v: nat, d: nat)
    requires a == v % TWO_64
    requires d < 8
    ensures ShiftIn(a, d) == (8 * v + d) % TWO_64
  {
    var q := v / TWO_64;
    var q' := 8 * a / TWO_64;
    assert v == q * TWO_64 + a;
    assert 8 * v + d == (8 * q + q') * TWO_64 + ShiftIn(a, d);
    ModuloOf(8 * q + q', ShiftIn(a, d));
  }

  lemma ResidueStep(s: string, k: nat)
    requires k < |s| && AllOctal(s[..k]) && IsOctal(s[k])
    ensures AllOctal(s[..k+1])
    ensures Residue(s[..k+1]) == ShiftIn(Residue(s[..k]), DigitValue(s[k]))
  {
    assert s[..k+1] == s[..k] + [s[k]];
    assert s[..k+1][..k] == s[..k];
    ShiftModulo(Residue(s[..k]), Value(s[..k]), DigitValue(s[k]));
  }

  /** rtld_elf_decode_name: shift in three bits per digit, modulo 2^64, then add the skew. */
  method DecodeName(name: string, skew: u64, out: u64) returns (status: Status, result: u64)
    ensures (status, result) == Decoded(name, skew, out)
  {
    if |name| == 0 || (name[0] != 'Z' && name[0] != 'S') {
      return EInval, out;
    }
    var digits := name[1..];
    var addr: u64 := 0;
    var k := 0;
    while k < |digits| && digits[k] != '\0' && digits[k] != '_'
      invariant k <= |digits|
      invariant AllOctal(digits[..k])
      invariant addr == Residue(digits[..k])
    {
      if digits[k] < '0' || digits[k] >= '8' {
        StemPrefix(digits, k);
        return Ok, out;
      }
      ResidueStep(digits, k);
      addr := ShiftIn(addr, DigitValue(digits[k]));
      k := k + 1;
    }
    if k < |digits| {
      StemPrefix(digits, k);
    } else {
      assert digits[..k] == digits;
      StemWhole(digits);
    }
    return Ok, if name[0] == 'S' then (addr + skew) % TWO_64 else addr;
  }

  lemma {:induction false} StemOfDigits(digits: string, suffix: string)
    requires AllOctal(digits)
    requires suffix == [] || suffix[0] == '_'
    ensures Stem(digits + suffix) == digits
  {
    if digits != [] {
      assert (digits + suffix)[1..] == digits[1..] + suffix;
      StemOfDigits(digits[1..], suffix);
      assert IsOctal(digits[0]);
      assert digits == [digits[0]] + digits[1..];
    } else {
      assert digits + suffix == suffix;
    }
  }

  /** Names round-trip, with or without a suffix: `Z` gives the value, `S` the value plus the skew. */
  lemma RoundTrip(v: u64, digits: string, suffix: string, skew: u64, out: u64)
    requires AllOctal(digits) && Value(digits) == v
    requires suffix == [] || suffix[0] == '_'
    ensures Decoded("Z" + digits + suffix, skew, out) == (Ok, v)
    ensures Decoded("S" + digits + suffix, skew, out) == (Ok, (v + skew) % TWO_64)
  {
    StemOfDigits(digits, suffix);
    hide Stem, Value, AllOctal;
    Named('Z', digits, suffix);
    Named('S', digits, suffix);
  }

  lemma Named(prefix: char, digits: string, suffix: string)
    ensures var name := [prefix] + digits + suffix; name[0] == prefix && name[1..] == digits + suffix
  {
  }

  lemma StemStops(digits: string, rest: string)
    requires AllOctal(digits) && (rest == [] || !IsOctal(rest[0]))
    ensures if rest == [] || rest[0] == '\0' || rest[0] == '_' then Stem(digits + rest) == digits
            else !AllOctal(Stem(digits + rest))
  {
    var name, k := digits + rest, |digits|;
    assert name[..k] == digits;
    if rest == [] {
      assert name == digits;
      StemWhole(name);
    } else {
      StemPrefix(name, k);
    }
  }

  /**
   Every string but the empty one is a character, octal digits and a rest. A wrong first character is refused; at the
   end or at a terminator the value counts modulo 2^64; any other character ends the decoder with success and no value.
   */
  lemma DecodedAs(prefix: char, digits: string, rest: string, skew: u64, out: u64)
    requires AllOctal(digits) && (rest == [] || !IsOctal(rest[0]))
    ensures Decoded([prefix] + digits + rest, skew, out) ==
      if prefix != 'Z' && prefix != 'S' then (EInval, out)
      else if rest != [] && rest[0] != '\0' && rest[0] != '_' then (Ok, out)
      else (Ok, (Value(digits) + if prefix == 'S' then skew else 0) % TWO_64)
  {
    StemStops(digits, rest);
    Named(prefix, digits, rest);
    hide Stem, Value, AllOctal;
    if AllOctal(Stem(digits + rest)) {
      AddModulo(Value(digits), skew);
    }
  }

  lemma AddModulo(v: nat, skew: u64)
    ensures (v % TWO_64 + skew) % TWO_64 == (v + skew) % TWO_64
  {
    var q, r := v / TWO_64, v % TWO_64;
    var q', r' := (r + skew) / TWO_64, (r + skew) % TWO_64;
    assert v + skew == (q + q') * TWO_64 + r';
    ModuloOf(q + q', r');
  }

  lemma PositiveLeading(s: string)
    requires Canonical(s) && Value(s) > 0
    ensures s[0] != '0'
  {
    if |s| == 1 {
      assert s[..0] == [];
    }
  }

  /** The digits of a value as a function, so that names can be mentioned in specifications. */
  function Digits(v: nat): (s: string)
    ensures Canonical(s) && Value(s) == v
    decreases v
  {
    if v < 8 then [Digit(v)]
    else
      var s := Digits(v / 8) + [Digit(v % 8)];
      assert s[..|s|-1] == Digits(v / 8);
      assert Digits(v / 8)[0] != '0' by { PositiveLeading(Digits(v / 8)); }
      s
  }

  lemma {:induction false} CanonicalPositive(s: string)
    requires Canonical(s) && s[0] != '0'
    ensures Value(s) > 0
    decreases |s|
  {
    if |s| > 1 {
      CanonicalPositive(s[..|s|-1]);
    }
  }

  /** Canonical digit strings are determined by their value, so distinct addresses get distinct names. */
  lemma {:induction false} CanonicalUnique(s: string, t: string)
    requires Canonical(s) && Canonical(t)
    requires Value(s) == Value(t)
    ensures s == t
    decreases |s| + |t|
  {
    var s', t' := s[..|s|-1], t[..|t|-1];
    assert Value(s) == 8 * Value(s') + DigitValue(s[|s|-1]);
    assert Value(t) == 8 * Value(t') + DigitValue(t[|t|-1]);
    assert Value(s') == Value(t') && s[|s|-1] == t[|t|-1];
    assert s == s' + [s[|s|-1]] && t == t' + [t[|t|-1]];
    if |s| > 1 { CanonicalPositive(s'); }
    if |t| > 1 { CanonicalPositive(t'); }
    if |s| > 1 && |t| > 1 {
      CanonicalUnique(s', t');
    }
  }
}
