/**
 The buffer from which the cache key is computed: the configuration, the address unless the code is
 position-independent, and every code range with its relative start, its size and its bytes.
 */
module HashKey {
  import opened Common
  import opened Bytes

  datatype Range = Range(start: nat, end: nat)

  /** What goes into the buffer for one range. */
  datatype Entry = Entry(rel: nat, code: seq<byte>)

  predicate ValidEntry(e: Entry) {
    e.rel < TWO_64 && |e.code| < TWO_64
  }

  predicate ValidEntries(es: seq<Entry>) {
    forall i :: 0 <= i < |es| ==> ValidEntry(es[i])
  }

  function EncodeEntry(e: Entry): seq<byte> {
    LittleEndian(e.rel, 8) + LittleEndian(|e.code|, 8) + e.code
  }

  function EncodeEntries(es: seq<Entry>): seq<byte> {
    if es == [] then [] else EncodeEntries(es[..|es| - 1]) + EncodeEntry(es[|es| - 1])
  }

  function Key(config: seq<byte>, addr: nat, es: seq<Entry>): (r: seq<byte>)
    ensures config <= r
  {
    config + LittleEndian(addr, 8) + EncodeEntries(es)
  }

  /** Guest code bytes of a range, as the decoder has just read them. */
  type Code = Range -> seq<byte>

  predicate ValidRange(code: Code, r: Range) {
    r.start <= r.end < TWO_64 && |code(r)| == r.end - r.start
  }

  /** A list ends with the first range that is all zero. */
  predicate Ends(ranges: seq<Range>, n: nat) {
    && n < |ranges| && ranges[n] == Range(0, 0)
    && forall i :: 0 <= i < n ==> ranges[i] != Range(0, 0)
  }

  function EntryOf(code: Code, addr: nat, r: Range): Entry
    requires addr < TWO_64
  {
    Entry((r.start + TWO_64 - addr) % TWO_64, code(r))
  }

  function EntriesOf(code: Code, addr: nat, ranges: seq<Range>): seq<Entry>
    requires addr < TWO_64
  {
    seq(|ranges|, i requires 0 <= i < |ranges| => EntryOf(code, addr, ranges[i]))
  }

  class Hasher {
    var buffer: seq<byte>      // holds the configuration between translations
    const pic: bool

    constructor (config: seq<byte>, pic: bool)
      ensures buffer == config && this.pic == pic
    {
      buffer := config;
      this.pic := pic;
    }

    /** What the key of one translation is computed from; nothing if decoding failed. The buffer is as before in any case. */
    method Translate(code: Code, addr: nat, failed: bool, ranges: seq<Range>, ghost n: nat) returns (key: seq<byte>)
      requires addr < TWO_64 && Ends(ranges, n) && forall i :: 0 <= i < n ==> ValidRange(code, ranges[i])
      modifies this
      ensures buffer == old(buffer)
      ensures !failed ==> key == Key(old(buffer), if pic then 0 else addr, EntriesOf(code, addr, ranges[..n]))
      ensures !failed ==> ValidEntries(EntriesOf(code, addr, ranges[..n]))
    {
      hide Key, EncodeEntries, LittleEndian;
      if failed {
        return [];
      }
      Begun(buffer, if pic then 0 else addr);
      var configEnd := |buffer|;
      var hashAddr := if pic then 0 else addr;
      buffer := buffer + LittleEndian(hashAddr, 8);
      var i := 0;
      assert EntriesOf(code, addr, ranges[..0]) == [];
      while ranges[i].start != 0 || ranges[i].end != 0
        invariant 0 <= i <= n
        invariant buffer == Key(old(buffer), hashAddr, EntriesOf(code, addr, ranges[..i]))
        decreases n - i
      {
        var rel := (ranges[i].start + TWO_64 - addr) % TWO_64;
        var size := ranges[i].end - ranges[i].start;
        Appended(old(buffer), hashAddr, EntriesOf(code, addr, ranges[..i]), EntryOf(code, addr, ranges[i]));
        assert EntriesOf(code, addr, ranges[..i + 1]) == EntriesOf(code, addr, ranges[..i]) + [EntryOf(code, addr, ranges[i])];
        buffer := buffer + (LittleEndian(rel, 8) + LittleEndian(size, 8) + code(ranges[i]));
        i := i + 1;
      }
      key := buffer;
      buffer := buffer[..configEnd];
      assert old(buffer) <= key;
    }
  }

  lemma Begun(config: seq<byte>, addr: nat)
    ensures Key(config, addr, []) == config + LittleEndian(addr, 8)
  {
  }

  lemma Appended(config: seq<byte>, addr: nat, es: seq<Entry>, e: Entry)
    ensures Key(config, addr, es + [e]) == Key(config, addr, es) + EncodeEntry(e)
  {
    assert (es + [e])[..|es|] == es;
  }

  // ---- Unique decoding ---------------------------------------------------------------

  /** Reading entries from the front. */
  function Front(es: seq<Entry>): seq<byte> {
    if es == [] then [] else EncodeEntry(es[0]) + Front(es[1..])
  }

  lemma {:induction false} FrontAppend(es: seq<Entry>, e: Entry)
    ensures Front(es + [e]) == Front(es) + EncodeEntry(e)
    decreases |es|
  {
    if es == [] {
      assert Front([e]) == EncodeEntry(e) + Front([e][1..]);
      assert [e][1..] == [] && es + [e] == [e];
    } else {
      FrontAppend(es[1..], e);
      assert (es + [e])[1..] == es[1..] + [e];
      assert EncodeEntry(es[0]) + (Front(es[1..]) + EncodeEntry(e)) == EncodeEntry(es[0]) + Front(es[1..]) + EncodeEntry(e);
    }
  }

  lemma {:induction false} SameFromFront(es: seq<Entry>)
    ensures EncodeEntries(es) == Front(es)
    decreases |es|
  {
    if es != [] {
      var n := |es| - 1;
      SameFromFront(es[..n]);
      FrontAppend(es[..n], es[n]);
      assert es[..n] + [es[n]] == es;
    }
  }

  lemma Pow256Is64()
    ensures Pow256(8) == TWO_64
  {
    assert Pow256(2) == 0x1_0000;
    assert Pow256(4) == 0x1_0000_0000;
    assert Pow256(6) == 0x1_0000_0000_0000;
  }

  /** Two encodings that agree begin with the same entry. */
  lemma FirstEntry(e: Entry, rest: seq<byte>, e': Entry, rest': seq<byte>)
    requires ValidEntry(e) && ValidEntry(e') && EncodeEntry(e) + rest == EncodeEntry(e') + rest'
    ensures e == e' && rest == rest'
  {
    var all := EncodeEntry(e) + rest;
    Pow256Is64();
    assert LittleEndian(e.rel, 8) == all[..8] == LittleEndian(e'.rel, 8);
    assert LittleEndian(|e.code|, 8) == all[8..16] == LittleEndian(|e'.code|, 8);
    WordsDiffer(e.rel, e'.rel, 8);
    WordsDiffer(|e.code|, |e'.code|, 8);
    assert e.code == all[16..16 + |e.code|] == e'.code;
    assert rest == all[16 + |e.code|..] == rest';
  }

  lemma {:induction false} FrontUnique(es: seq<Entry>, es': seq<Entry>)
    requires ValidEntries(es) && ValidEntries(es') && Front(es) == Front(es')
    ensures es == es'
    decreases |es|
  {
    if es == [] || es' == [] {
      assert es != [] ==> |Front(es)| >= 16;
      assert es' != [] ==> |Front(es')| >= 16;
    } else {
      FirstEntry(es[0], Front(es[1..]), es'[0], Front(es'[1..]));
      FrontUnique(es[1..], es'[1..]);
      assert es == [es[0]] + es[1..] && es' == [es'[0]] + es'[1..];
    }
  }

  /** For configurations of one length, equal buffers mean equal configurations, addresses and lists of ranges with their code. */
  lemma KeyUnique(config: seq<byte>, addr: nat, es: seq<Entry>, config': seq<byte>, addr': nat, es': seq<Entry>)
    requires |config| == |config'| && addr < TWO_64 && addr' < TWO_64 && ValidEntries(es) && ValidEntries(es')
    requires Key(config, addr, es) == Key(config', addr', es')
    ensures config == config' && addr == addr' && es == es'
  {
    var key, c := Key(config, addr, es), |config|;
    assert config == key[..c] == config';
    assert LittleEndian(addr, 8) == key[c..c + 8] == LittleEndian(addr', 8);
    assert EncodeEntries(es) == key[c + 8..] == EncodeEntries(es');
    Pow256Is64();
    WordsDiffer(addr, addr', 8);
    SameFromFront(es);
    SameFromFront(es');
    FrontUnique(es, es');
  }

  // ---- What the key says about a translation -----------------------------------------

  lemma Relative(start: nat, addr: nat)
    requires addr < TWO_64
    ensures (start + TWO_64 - addr) % TWO_64 == (start - addr) % TWO_64
  {
  }

  predicate AllValid(code: Code, ranges: seq<Range>) {
    forall i :: 0 <= i < |ranges| ==> ValidRange(code, ranges[i])
  }

  /** The same code at the same place relative to the address. */
  predicate SameCode(code: Code, addr: nat, r: Range, code': Code, addr': nat, r': Range) {
    (r.start - addr) % TWO_64 == (r'.start - addr') % TWO_64 && r.end - r.start == r'.end - r'.start && code(r) == code'(r')
  }

  lemma EntryTells(code: Code, addr: nat, r: Range, code': Code, addr': nat, r': Range)
    requires addr < TWO_64 && addr' < TWO_64 && ValidRange(code, r) && ValidRange(code', r')
    ensures EntryOf(code, addr, r) == EntryOf(code', addr', r') <==> SameCode(code, addr, r, code', addr', r')
  {
    Relative(r.start, addr);
    Relative(r'.start, addr');
  }

  lemma SamePlace(addr: nat, r: Range, r': Range)
    requires addr < TWO_64 && r.start <= r.end < TWO_64 && r'.start <= r'.end < TWO_64
    requires (r.start - addr) % TWO_64 == (r'.start - addr) % TWO_64 && r.end - r.start == r'.end - r'.start
    ensures r == r'
  {
    var a, b := r.start - addr, r'.start - addr;
    assert a == TWO_64 * (a / TWO_64) + a % TWO_64 && b == TWO_64 * (b / TWO_64) + b % TWO_64;
  }

  /**
   Two translations have the same key exactly if configuration and address agree, the latter unless the code is
   position-independent, and their lists of ranges hold the same code at the same relative places, in the same order.
   */
  lemma KeyExactly(pic: bool, config: seq<byte>, addr: nat, code: Code, ranges: seq<Range>,
                   config': seq<byte>, addr': nat, code': Code, ranges': seq<Range>)
    requires |config| == |config'| && addr < TWO_64 && addr' < TWO_64 && AllValid(code, ranges) && AllValid(code', ranges')
    ensures var key, key' := Key(config, if pic then 0 else addr, EntriesOf(code, addr, ranges)),
                             Key(config', if pic then 0 else addr', EntriesOf(code', addr', ranges'));
      key == key' <==>
        && config == config' && (pic || addr == addr') && |ranges| == |ranges'|
        && forall i :: 0 <= i < |ranges| ==> SameCode(code, addr, ranges[i], code', addr', ranges'[i])
  {
    var es, es' := EntriesOf(code, addr, ranges), EntriesOf(code', addr', ranges');
    var a, a' := if pic then 0 else addr, if pic then 0 else addr';
    EntriesValid(code, addr, ranges);
    EntriesValid(code', addr', ranges');
    if Key(config, a, es) == Key(config', a', es') {
      KeyUnique(config, a, es, config', a', es');
      forall i | 0 <= i < |ranges| ensures SameCode(code, addr, ranges[i], code', addr', ranges'[i]) {
        assert es[i] == es'[i];
        EntryTells(code, addr, ranges[i], code', addr', ranges'[i]);
      }
    }
    if |ranges| == |ranges'| && forall i :: 0 <= i < |ranges| ==> SameCode(code, addr, ranges[i], code', addr', ranges'[i]) {
      forall i | 0 <= i < |ranges| ensures es[i] == es'[i] {
        EntryTells(code, addr, ranges[i], code', addr', ranges'[i]);
      }
      assert es == es';
    }
  }

  lemma EntriesValid(code: Code, addr: nat, ranges: seq<Range>)
    requires addr < TWO_64 && AllValid(code, ranges)
    ensures ValidEntries(EntriesOf(code, addr, ranges))
  {
    forall i | 0 <= i < |ranges| ensures ValidEntry(EntriesOf(code, addr, ranges)[i]) {
      assert ValidRange(code, ranges[i]);
    }
  }

  /** With the address in the key, the ranges themselves are the same. */
  lemma RangesTold(config: seq<byte>, addr: nat, code: Code, ranges: seq<Range>,
                   config': seq<byte>, addr': nat, code': Code, ranges': seq<Range>)
    requires |config| == |config'| && addr < TWO_64 && addr' < TWO_64 && AllValid(code, ranges) && AllValid(code', ranges')
    requires Key(config, addr, EntriesOf(code, addr, ranges)) == Key(config', addr', EntriesOf(code', addr', ranges'))
    ensures config == config' && addr == addr' && ranges == ranges'
    ensures forall i :: 0 <= i < |ranges| ==> code(ranges[i]) == code'(ranges[i])
  {
    hide Key, EntriesOf;
    KeyExactly(false, config, addr, code, ranges, config', addr', code', ranges');
    forall i | 0 <= i < |ranges| ensures ranges[i] == ranges'[i] {
      assert SameCode(code, addr, ranges[i], code', addr', ranges'[i]);
      assert ValidRange(code, ranges[i]) && ValidRange(code', ranges'[i]);
      SamePlace(addr, ranges[i], ranges'[i]);
    }
  }
}
