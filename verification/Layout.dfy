/**
 Placing an object's sections in one allocation and copying them there. Section headers are updated in place:
 first with offsets into the allocation, then with final addresses.
 */
module Layout {
  import opened Common
  import opened Arith
  import opened Bytes
  import Arena

  datatype Section = Section(
    supported: bool,      // no flags beyond the known ones
    alloc: bool,          // SHF_ALLOC
    progbits: bool,       // SHT_PROGBITS
    align: nat,           // sh_addralign
    size: nat,            // sh_size
    addr: int,            // sh_addr
    data: seq<byte>)      // relocated contents, for SHT_PROGBITS

  predicate ValidSection(s: Section) {
    (s.align == 0 || PowerOfTwo(s.align)) && (s.progbits ==> |s.data| == s.size)
  }

  predicate ValidSections(secs: seq<Section>) {
    forall i :: 0 <= i < |secs| ==> ValidSection(secs[i])
  }

  /** ALIGN_UP by masking: an alignment of zero masks everything away. */
  function AlignMask(v: nat, a: nat): (r: nat) {
    if a == 0 then 0 else AlignUp(v, a)
  }

  /** Where the next section may start after the first n. */
  function Total(secs: seq<Section>, n: nat): nat
    requires n <= |secs|
  {
    if n == 0 then 0
    else if secs[n - 1].alloc then AlignMask(Total(secs, n - 1), secs[n - 1].align) + secs[n - 1].size
    else Total(secs, n - 1)
  }

  function Offset(secs: seq<Section>, i: nat): nat
    requires i < |secs|
  {
    AlignMask(Total(secs, i), secs[i].align)
  }

  function MaxAlign(secs: seq<Section>, n: nat): nat
    requires n <= |secs|
  {
    if n == 0 then 1
    else if secs[n - 1].alloc && MaxAlign(secs, n - 1) < secs[n - 1].align then secs[n - 1].align
    else MaxAlign(secs, n - 1)
  }

  /** The header with the address that layout gives it, relative to base. */
  function Placed(secs: seq<Section>, base: int, i: nat): Section
    requires i < |secs|
  {
    if secs[i].alloc then secs[i].(addr := base + Offset(secs, i)) else secs[i]
  }

  function PlacedAll(secs: seq<Section>, base: int): (r: seq<Section>)
    ensures |r| == |secs|
  {
    seq(|secs|, i requires 0 <= i < |secs| => Placed(secs, base, i))
  }

  /** First pass: offsets, total size and alignment; refused at the first unsupported section. */
  method AssignOffsets(a: array<Section>) returns (ok: bool, size: nat, align: nat)
    requires ValidSections(a[..])
    modifies a
    ensures ok <==> forall i :: 0 <= i < a.Length ==> old(a[i]).supported
    ensures ok ==> a[..] == PlacedAll(old(a[..]), 0)
    ensures ok ==> size == Total(old(a[..]), a.Length) && align == MaxAlign(old(a[..]), a.Length)
  {
    ghost var was := a[..];
    size, align := 0, 1;
    for i := 0 to a.Length
      invariant size == Total(was, i) && align == MaxAlign(was, i)
      invariant forall k :: 0 <= k < i ==> was[k].supported && a[k] == Placed(was, 0, k)
      invariant forall k :: i <= k < a.Length ==> a[k] == was[k]
    {
      assert a[i] == was[i];
      if !a[i].supported {
        return false, size, align;
      }
      if a[i].alloc {
        size := AlignMask(size, a[i].align);
        a[i] := a[i].(addr := size);
        size := size + a[i].size;
        if align < a[i].align {
          align := a[i].align;
        }
      }
    }
    ok := true;
  }

  /** The allocation is made; offsets become addresses. */
  method Rebase(a: array<Section>, base: int)
    modifies a
    ensures forall i :: 0 <= i < a.Length ==>
      a[i] == if old(a[i]).alloc then old(a[i]).(addr := old(a[i]).addr + base) else old(a[i])
  {
    for i := 0 to a.Length
      invariant forall k :: 0 <= k < i ==>
        a[k] == if old(a[k]).alloc then old(a[k]).(addr := old(a[k]).addr + base) else old(a[k])
      invariant forall k :: i <= k < a.Length ==> a[k] == old(a[k])
    {
      if a[i].alloc {
        a[i] := a[i].(addr := a[i].addr + base);
      }
    }
  }

  type Memory = int -> byte

  function Write(mem: Memory, addr: int, data: seq<byte>): Memory {
    (k: int) => if addr <= k < addr + |data| then data[k - addr] else mem(k)
  }

  /** Memory after the first n sections are copied. */
  function Copied(mem: Memory, secs: seq<Section>, n: nat): Memory
    requires n <= |secs|
  {
    if n == 0 then mem
    else if secs[n - 1].progbits then Write(Copied(mem, secs, n - 1), secs[n - 1].addr, secs[n - 1].data)
    else Copied(mem, secs, n - 1)
  }

  /** Third pass: all PROGBITS sections, allocated or not, go to the address in their header. */
  method CopySections(a: array<Section>, mem: Memory) returns (r: Memory)
    ensures r == Copied(mem, a[..], a.Length)
  {
    r := mem;
    for i := 0 to a.Length
      invariant r == Copied(mem, a[..], i)
    {
      if a[i].progbits {
        r := Write(r, a[i].addr, a[i].data);
      }
    }
  }

  // ---- What the copy leaves ----------------------------------------------------------

  /** Section i is copied over address k. */
  predicate Covers(s: Section, k: int) {
    s.progbits && s.addr <= k < s.addr + |s.data|
  }

  /** Memory that no PROGBITS section covers keeps its contents. */
  lemma {:induction false} OutsideKept(mem: Memory, secs: seq<Section>, n: nat, k: int)
    requires n <= |secs| && forall i :: 0 <= i < n ==> !Covers(secs[i], k)
    ensures Copied(mem, secs, n)(k) == mem(k)
  {
    if n > 0 {
      OutsideKept(mem, secs, n - 1, k);
    }
  }

  /** Where sections overlap, the last one is what memory holds. */
  lemma {:induction false} LastWins(mem: Memory, secs: seq<Section>, n: nat, i: nat, k: int)
    requires i < n <= |secs| && Covers(secs[i], k) && forall j :: i < j < n ==> !Covers(secs[j], k)
    ensures Copied(mem, secs, n)(k) == secs[i].data[k - secs[i].addr]
  {
    if i < n - 1 {
      LastWins(mem, secs, n - 1, i, k);
    }
  }

  // ---- Disjoint, aligned, inside -----------------------------------------------------

  /** An ALLOC section with alignment zero is harmless only while nothing has been placed yet. */
  predicate ZerosFirst(secs: seq<Section>) {
    forall i :: 0 <= i < |secs| && secs[i].alloc && secs[i].align == 0 ==> Total(secs, i) == 0
  }

  lemma PowerPositive(a: int)
    requires PowerOfTwo(a)
    ensures a >= 1
  {
  }

  lemma OffsetBehind(secs: seq<Section>, i: nat)
    requires ZerosFirst(secs) && i < |secs| && secs[i].alloc
    ensures Total(secs, i) <= Offset(secs, i) && Offset(secs, i) + secs[i].size == Total(secs, i + 1)
  {
  }

  lemma {:induction false} TotalGrows(secs: seq<Section>, i: nat, n: nat)
    requires ZerosFirst(secs) && i <= n <= |secs|
    ensures Total(secs, i) <= Total(secs, n)
  {
    if i < n {
      TotalGrows(secs, i, n - 1);
      if secs[n - 1].alloc {
        OffsetBehind(secs, n - 1);
      }
    }
  }

  /** Each section lies behind all earlier ones, and before the total size. */
  lemma OffsetsOrdered(secs: seq<Section>, i: nat, n: nat)
    requires ZerosFirst(secs) && i < n <= |secs| && secs[i].alloc
    ensures Total(secs, i) <= Offset(secs, i) && Offset(secs, i) + secs[i].size <= Total(secs, n)
  {
    OffsetBehind(secs, i);
    TotalGrows(secs, i + 1, n);
  }

  /** A smaller power of two divides a larger one. */
  lemma {:induction false} PowersDivide(a: int, b: int)
    requires PowerOfTwo(a) && PowerOfTwo(b) && a <= b
    ensures a >= 1 && b % a == 0
    decreases b
  {
    if a == 1 {
    } else {
      PowersDivide(a / 2, b / 2);
      var q := (b / 2) / (a / 2);
      assert b / 2 == q * (a / 2);
      assert b == q * a;
      MultipleMod(q, a);
    }
  }

  lemma {:induction false} MaxAlignIs(secs: seq<Section>, n: nat)
    requires ValidSections(secs) && n <= |secs|
    ensures PowerOfTwo(MaxAlign(secs, n))
    ensures forall i :: 0 <= i < n && secs[i].alloc ==> secs[i].align <= MaxAlign(secs, n)
  {
    if n > 0 {
      MaxAlignIs(secs, n - 1);
    }
  }

  /** The alignment asked for is no larger than needed: it is that of some section, or one. */
  lemma {:induction false} MaxAlignTight(secs: seq<Section>, n: nat)
    requires n <= |secs|
    ensures MaxAlign(secs, n) == 1 || exists i :: 0 <= i < n && secs[i].alloc && secs[i].align == MaxAlign(secs, n)
  {
    if n > 0 {
      MaxAlignTight(secs, n - 1);
      if MaxAlign(secs, n) == MaxAlign(secs, n - 1) {
        if i :| 0 <= i < n - 1 && secs[i].alloc && secs[i].align == MaxAlign(secs, n - 1) {
          assert secs[i].align == MaxAlign(secs, n);
        }
      } else {
        assert secs[n - 1].alloc && secs[n - 1].align == MaxAlign(secs, n);
      }
    }
  }

  /** The end of the last section before n that is allocated. */
  ghost predicate EndsAt(secs: seq<Section>, n: nat, end: nat)
    requires n <= |secs|
  {
    || (end == 0 && forall i :: 0 <= i < n ==> !secs[i].alloc)
    || (exists i :: 0 <= i < n && secs[i].alloc && (forall j :: i < j < n ==> !secs[j].alloc) && end == Offset(secs, i) + secs[i].size)
  }

  lemma {:induction false} TotalEnds(secs: seq<Section>, n: nat)
    requires n <= |secs|
    ensures EndsAt(secs, n, Total(secs, n))
  {
    if n > 0 {
      TotalEnds(secs, n - 1);
      if secs[n - 1].alloc {
        assert Total(secs, n) == Offset(secs, n - 1) + secs[n - 1].size;
      } else if !(forall i :: 0 <= i < n ==> !secs[i].alloc) {
        var i :| 0 <= i < n - 1 && secs[i].alloc && (forall j :: i < j < n - 1 ==> !secs[j].alloc)
          && Total(secs, n - 1) == Offset(secs, i) + secs[i].size;
        assert forall j :: i < j < n ==> !secs[j].alloc;
      }
    }
  }

  /** Sections are packed: each starts at the first aligned offset at or behind the end of the one before, and the last ends at the total. */
  lemma Packed(secs: seq<Section>, i: nat, end: nat, offset: nat)
    requires ValidSections(secs) && i < |secs| && secs[i].alloc && secs[i].align > 0
    requires EndsAt(secs, i, end) && end <= offset && offset % secs[i].align == 0
    ensures end <= Offset(secs, i) <= offset && Offset(secs, i) % secs[i].align == 0
    ensures EndsAt(secs, |secs|, Total(secs, |secs|))
  {
    TotalEnds(secs, i);
    TotalEnds(secs, |secs|);
    OneEnd(secs, i, end, Total(secs, i));
    hide EndsAt;
    AlignUpBelow(end, offset, secs[i].align);
  }

  lemma OneEnd(secs: seq<Section>, n: nat, end: nat, end': nat)
    requires n <= |secs| && EndsAt(secs, n, end) && EndsAt(secs, n, end')
    ensures end == end'
  {
    if i :| 0 <= i < n && secs[i].alloc && (forall j :: i < j < n ==> !secs[j].alloc) && end == Offset(secs, i) + secs[i].size {
      var i' :| 0 <= i' < n && secs[i'].alloc && (forall j :: i' < j < n ==> !secs[j].alloc) && end' == Offset(secs, i') + secs[i'].size;
      assert i == i';
    }
  }

  lemma MultipleOfMultiple(v: int, b: int, a: int)
    requires a > 0 && b > 0 && v % b == 0 && b % a == 0
    ensures v % a == 0
  {
    var p, q := v / b, b / a;
    assert v == p * b && b == q * a;
    assert v == (p * q) * a;
    MultipleMod(p * q, a);
  }

  /** All ALLOC sections are inside the allocation, and no two that are not empty overlap. */
  ghost predicate WellPlaced(secs: seq<Section>) {
    && (forall i :: 0 <= i < |secs| && secs[i].alloc ==> Offset(secs, i) + secs[i].size <= Total(secs, |secs|))
    && (forall i, j :: 0 <= i < j < |secs| && Solid(secs[i]) && Solid(secs[j]) ==>
          Offset(secs, i) + secs[i].size <= Offset(secs, j) || Offset(secs, j) + secs[j].size <= Offset(secs, i))
  }

  predicate Solid(s: Section) {
    s.alloc && s.size > 0
  }

  /** The first section that is not empty starts at the beginning. */
  lemma {:induction false} SomethingAtStart(secs: seq<Section>, i: nat, n: nat) returns (q: nat)
    requires i <= n <= |secs| && Total(secs, i) == 0 && Total(secs, n) > 0 && ValidSections(secs)
    ensures i <= q < n && Solid(secs[q]) && Offset(secs, q) == 0
    decreases n
  {
    if Total(secs, n - 1) > 0 {
      q := SomethingAtStart(secs, i, n - 1);
    } else {
      q := n - 1;
      if secs[q].align > 0 {
        PowerPositive(secs[q].align);
        AlignUpBelow(0, 0, secs[q].align);
      }
    }
  }

  /** A section with alignment zero behind a section that is not empty makes the layout overlap or overrun. */
  lemma LateZeroBreaks(secs: seq<Section>, k: nat)
    requires ValidSections(secs) && k < |secs| && secs[k].alloc && secs[k].align == 0 && Total(secs, k) > 0
    ensures !WellPlaced(secs)
  {
    var q := SomethingAtStart(secs, 0, k);
    assert Offset(secs, k) == 0 && Total(secs, k + 1) == secs[k].size;
    if secs[k].size > 0 {
      assert Solid(secs[k]);
    } else if Total(secs, |secs|) > 0 {
      var r := SomethingAtStart(secs, k + 1, |secs|);
      assert Solid(secs[q]) && Solid(secs[r]);
    } else {
      assert Offset(secs, q) + secs[q].size > Total(secs, |secs|);
    }
  }

  lemma ZerosFirstPlaces(secs: seq<Section>)
    requires ZerosFirst(secs)
    ensures WellPlaced(secs)
  {
    forall i | 0 <= i < |secs| && secs[i].alloc ensures Offset(secs, i) + secs[i].size <= Total(secs, |secs|) {
      OffsetsOrdered(secs, i, |secs|);
    }
    forall i, j | 0 <= i < j < |secs| && Solid(secs[i]) && Solid(secs[j])
      ensures Offset(secs, i) + secs[i].size <= Offset(secs, j)
    {
      OffsetsOrdered(secs, i, j);
      OffsetsOrdered(secs, j, |secs|);
    }
  }

  /** Sections are inside the allocation and disjoint exactly if no alignment of zero comes after something was placed. */
  lemma PlacedExactly(secs: seq<Section>)
    requires ValidSections(secs)
    ensures WellPlaced(secs) <==> ZerosFirst(secs)
  {
    if ZerosFirst(secs) {
      ZerosFirstPlaces(secs);
    } else {
      var k :| 0 <= k < |secs| && secs[k].alloc && secs[k].align == 0 && Total(secs, k) > 0;
      LateZeroBreaks(secs, k);
    }
  }

  predicate Inside(s: Section, base: int, size: nat) {
    base <= s.addr && s.addr + s.size <= base + size
  }

  predicate AlignedBase(secs: seq<Section>, base: int) {
    MaxAlign(secs, |secs|) > 0 && base % MaxAlign(secs, |secs|) == 0
  }

  /** At any base that is aligned to the largest alignment, ALLOC sections are aligned, inside the allocation and disjoint. */
  lemma LayoutCorrect(secs: seq<Section>, base: int, i: nat)
    requires ValidSections(secs) && ZerosFirst(secs) && i < |secs| && secs[i].alloc && AlignedBase(secs, base)
    ensures secs[i].align > 0 ==> Placed(secs, base, i).addr % secs[i].align == 0
    ensures Inside(Placed(secs, base, i), base, Total(secs, |secs|))
    ensures forall j :: 0 <= j < i && secs[j].alloc ==>
      Placed(secs, base, j).addr + secs[j].size <= Placed(secs, base, i).addr
  {
    var most, a := MaxAlign(secs, |secs|), secs[i].align;
    OffsetsOrdered(secs, i, |secs|);
    if a > 0 {
      MaxAlignIs(secs, |secs|);
      PowersDivide(a, most);
      MultipleOfMultiple(base, most, a);
      SumOfMultiples(base, Offset(secs, i), a);
    }
    forall j | 0 <= j < i && secs[j].alloc
      ensures Placed(secs, base, j).addr + secs[j].size <= Placed(secs, base, i).addr
    {
      OffsetsOrdered(secs, j, i);
    }
  }

  // ---- Contents ----------------------------------------------------------------------

  /** The copied bytes of section i are where its header says. */
  ghost predicate Intact(mem: Memory, s: Section) {
    forall k :: 0 <= k < |s.data| ==> mem(s.addr + k) == s.data[k]
  }

  /** No byte in common. */
  predicate Apart(s: Section, t: Section) {
    s.data == [] || t.data == [] || s.addr + |s.data| <= t.addr || t.addr + |t.data| <= s.addr
  }

  lemma WriteKeeps(mem: Memory, s: Section, t: Section)
    requires Intact(mem, s) && Apart(s, t)
    ensures Intact(Write(mem, t.addr, t.data), s)
  {
    var mem' := Write(mem, t.addr, t.data);
    forall k | 0 <= k < |s.data| ensures mem'(s.addr + k) == s.data[k] {
      assert mem'(s.addr + k) == mem(s.addr + k);
    }
  }

  lemma WritePuts(mem: Memory, s: Section)
    ensures Intact(Write(mem, s.addr, s.data), s)
  {
  }

  /** A section that was copied stays until a later one hits it. */
  lemma {:induction false} CopyKeeps(mem: Memory, secs: seq<Section>, t: Section, i: nat, n: nat)
    requires i < n <= |secs| && Intact(Copied(mem, secs, i + 1), t)
    requires forall j :: i < j < n && secs[j].progbits ==> Apart(t, secs[j])
    ensures Intact(Copied(mem, secs, n), t)
  {
    hide Intact, Write;
    if n > i + 1 {
      CopyKeeps(mem, secs, t, i, n - 1);
      if secs[n - 1].progbits {
        WriteKeeps(Copied(mem, secs, n - 1), t, secs[n - 1]);
      }
    }
  }

  /** PROGBITS sections that are not allocated are copied all the same; those after section i must not hit it. */
  predicate StraysApart(secs: seq<Section>, base: int, i: nat)
    requires i < |secs|
  {
    forall j :: i < j < |secs| && secs[j].progbits && !secs[j].alloc ==> Apart(Placed(secs, base, i), secs[j])
  }

  lemma AllocsApart(secs: seq<Section>, base: int, i: nat, j: nat)
    requires ValidSections(secs) && ZerosFirst(secs) && AlignedBase(secs, base)
    requires i < j < |secs| && secs[i].alloc && secs[j].alloc && secs[i].progbits && secs[j].progbits
    ensures Apart(Placed(secs, base, i), Placed(secs, base, j))
  {
    LayoutCorrect(secs, base, j);
  }

  /** After the copy, an ALLOC PROGBITS section's bytes are intact at its final address. */
  lemma SectionsIntact(secs: seq<Section>, base: int, mem: Memory, i: nat)
    requires ValidSections(secs) && ZerosFirst(secs) && AlignedBase(secs, base)
    requires i < |secs| && secs[i].alloc && secs[i].progbits && StraysApart(secs, base, i)
    ensures Intact(Copied(mem, PlacedAll(secs, base), |secs|), Placed(secs, base, i))
  {
    var now := PlacedAll(secs, base);
    forall j | i < j < |now| && now[j].progbits ensures Apart(now[i], now[j]) {
      if secs[j].alloc {
        AllocsApart(secs, base, i, j);
      }
    }
    WritePuts(Copied(mem, now, i), now[i]);
    CopyKeeps(mem, now, now[i], i, |now|);
  }

  /** The same sections with other contents. */
  predicate SameShape(secs: seq<Section>, secs': seq<Section>) {
    |secs'| == |secs| && forall j :: 0 <= j < |secs| ==> secs'[j] == secs[j].(data := secs'[j].data) && |secs'[j].data| == |secs[j].data|
  }

  ghost predicate IntactAt(secs: seq<Section>, base: int, mem: Memory, i: nat)
    requires i < |secs|
  {
    Intact(Copied(mem, PlacedAll(secs, base), |secs|), Placed(secs, base, i))
  }

  /** Whatever the sections contain, section i comes out intact. */
  ghost predicate AlwaysIntact(secs: seq<Section>, base: int, mem: Memory, i: nat)
    requires i < |secs|
  {
    forall secs' :: SameShape(secs, secs') ==> IntactAt(secs', base, mem, i)
  }

  lemma {:induction false} SameTotals(secs: seq<Section>, secs': seq<Section>, n: nat)
    requires SameShape(secs, secs') && n <= |secs|
    ensures Total(secs', n) == Total(secs, n) && MaxAlign(secs', n) == MaxAlign(secs, n)
  {
    if n > 0 {
      SameTotals(secs, secs', n - 1);
    }
  }

  lemma ShapeKept(secs: seq<Section>, secs': seq<Section>, base: int)
    requires SameShape(secs, secs') && ValidSections(secs) && ZerosFirst(secs) && AlignedBase(secs, base)
    ensures ValidSections(secs') && ZerosFirst(secs') && AlignedBase(secs', base)
    ensures forall j :: 0 <= j < |secs| ==> Placed(secs', base, j).addr == Placed(secs, base, j).addr
  {
    forall n: nat | n <= |secs| ensures Total(secs', n) == Total(secs, n) && MaxAlign(secs', n) == MaxAlign(secs, n) {
      SameTotals(secs, secs', n);
    }
  }

  lemma {:induction false} LastStray(secs: seq<Section>, base: int, i: nat, n: nat) returns (j: nat)
    requires i < n <= |secs|
    requires exists j :: i < j < n && secs[j].progbits && !secs[j].alloc && !Apart(Placed(secs, base, i), secs[j])
    ensures i < j < n && secs[j].progbits && !secs[j].alloc && !Apart(Placed(secs, base, i), secs[j])
    ensures forall k :: j < k < n && secs[k].progbits && !secs[k].alloc ==> Apart(Placed(secs, base, i), secs[k])
    decreases n
  {
    if secs[n - 1].progbits && !secs[n - 1].alloc && !Apart(Placed(secs, base, i), secs[n - 1]) && n - 1 > i {
      j := n - 1;
    } else {
      j := LastStray(secs, base, i, n - 1);
    }
  }

  /** One byte, as a section of its own. */
  function OneByte(addr: int, b: byte): Section {
    Section(true, false, true, 1, 1, addr, [b])
  }

  lemma ByteWritten(mem: Memory, now: seq<Section>, j: nat, hit: int)
    requires j < |now| && now[j].progbits && now[j].addr <= hit < now[j].addr + |now[j].data|
    ensures Intact(Copied(mem, now, j + 1), OneByte(hit, now[j].data[hit - now[j].addr]))
  {
    assert Copied(mem, now, j + 1)(hit + 0) == now[j].data[hit - now[j].addr];
  }

  lemma ByteApart(s: Section, t: Section, addr: int, b: byte)
    requires Apart(s, t) && s.addr <= addr < s.addr + |s.data|
    ensures Apart(OneByte(addr, b), t)
  {
  }

  lemma ByteDiffers(mem: Memory, s: Section, addr: int, b: byte)
    requires Intact(mem, OneByte(addr, b)) && s.addr <= addr < s.addr + |s.data| && s.data[addr - s.addr] != b
    ensures !Intact(mem, s)
  {
    assert mem(addr + 0) == OneByte(addr, b).data[0];
    assert s.addr + (addr - s.addr) == addr;
  }

  /** A later stray that hits section i breaks it, with suitable contents. */
  lemma StrayBreaks(secs: seq<Section>, base: int, mem: Memory, i: nat) returns (secs': seq<Section>)
    requires ValidSections(secs) && ZerosFirst(secs) && AlignedBase(secs, base)
    requires i < |secs| && secs[i].alloc && secs[i].progbits && !StraysApart(secs, base, i)
    ensures SameShape(secs, secs') && !IntactAt(secs', base, mem, i)
  {
    hide Intact, Copied, Total, MaxAlign, Offset;
    var j := LastStray(secs, base, i, |secs|);
    var s, t := Placed(secs, base, i), secs[j];
    var hit := if s.addr < t.addr then t.addr else s.addr;
    var other: byte := if s.data[hit - s.addr] == 0 then 1 else 0;
    secs' := secs[j := t.(data := t.data[hit - t.addr := other])];
    ShapeKept(secs, secs', base);
    var now := PlacedAll(secs', base);
    ByteWritten(mem, now, j, hit);
    forall k | j < k < |now| && now[k].progbits ensures Apart(OneByte(hit, other), now[k]) {
      if secs[k].alloc {
        AllocsApart(secs', base, i, k);
      }
      ByteApart(now[i], now[k], hit, other);
    }
    CopyKeeps(mem, now, OneByte(hit, other), j, |now|);
    ByteDiffers(Copied(mem, now, |now|), now[i], hit, other);
  }

  /** A section's bytes survive every contents of the others exactly if no later stray hits it. */
  lemma IntactExactly(secs: seq<Section>, base: int, mem: Memory, i: nat)
    requires ValidSections(secs) && ZerosFirst(secs) && AlignedBase(secs, base)
    requires i < |secs| && secs[i].alloc && secs[i].progbits
    ensures AlwaysIntact(secs, base, mem, i) <==> StraysApart(secs, base, i)
  {
    if StraysApart(secs, base, i) {
      forall secs' | SameShape(secs, secs') ensures IntactAt(secs', base, mem, i) {
        ShapeKept(secs, secs', base);
        SectionsIntact(secs', base, mem, i);
      }
    } else {
      var secs' := StrayBreaks(secs, base, mem, i);
    }
  }

  // ---- All passes --------------------------------------------------------------------

  /** What the code arena returns is aligned as asked, and to its own minimum. */
  ghost predicate Allocates(allocate: (nat, nat) -> Option<int>) {
    forall size: nat, align: nat :: PowerOfTwo(align) && allocate(size, align).Some? ==>
      AllocatedFor(allocate(size, align).value, size, align)
  }

  predicate AllocatedFor(base: int, size: nat, align: nat) {
    var a := Arena.Alignment(Arena.Request(size, align));
    a > 0 && base % a == 0
  }

  lemma BaseAligned(secs: seq<Section>, base: int)
    requires ValidSections(secs) && AllocatedFor(base, Total(secs, |secs|), MaxAlign(secs, |secs|))
    ensures AlignedBase(secs, base)
  {
    var most := MaxAlign(secs, |secs|);
    var a := Arena.Alignment(Arena.Request(Total(secs, |secs|), most));
    MaxAlignIs(secs, |secs|);
    assert PowerOfTwo(0x40) && PowerOfTwo(a);
    PowersDivide(most, a);
    MultipleOfMultiple(base, a, most);
  }

  /** Offsets, allocation, addresses, copy: afterwards every ALLOC PROGBITS section that no later stray hits is intact. */
  method LoadSections(a: array<Section>, allocate: (nat, nat) -> Option<int>, mem: Memory)
    returns (ok: bool, base: int, r: Memory)
    requires ValidSections(a[..]) && Allocates(allocate)
    modifies a
    ensures ok <==>
      && (forall i :: 0 <= i < a.Length ==> old(a[i]).supported)
      && allocate(Total(old(a[..]), a.Length), MaxAlign(old(a[..]), a.Length)).Some?
    ensures ok ==> allocate(Total(old(a[..]), a.Length), MaxAlign(old(a[..]), a.Length)) == Some(base)
    ensures ok ==> a[..] == PlacedAll(old(a[..]), base) && r == Copied(mem, a[..], a.Length)
    ensures ok ==> forall k :: (forall i :: 0 <= i < a.Length ==> !Covers(a[i], k)) ==> r(k) == mem(k)
    ensures !ok ==> r == mem
    ensures ok && ZerosFirst(old(a[..])) ==>
      forall i :: 0 <= i < a.Length && a[i].alloc && a[i].progbits && StraysApart(old(a[..]), base, i) ==> Intact(r, a[i])
  {
    ghost var secs := a[..];
    var size, align;
    ok, size, align := AssignOffsets(a);
    if !ok {
      return false, 0, mem;
    }
    MaxAlignIs(secs, |secs|);
    var got := allocate(size, align);
    if got.None? {
      return false, 0, mem;
    }
    base := got.value;
    assert AllocatedFor(base, size, align);
    BaseAligned(secs, base);
    Rebase(a, base);
    assert a[..] == PlacedAll(secs, base);
    r := CopySections(a, mem);
    forall k | forall i :: 0 <= i < a.Length ==> !Covers(a[i], k) ensures r(k) == mem(k) {
      OutsideKept(mem, a[..], a.Length, k);
    }
    if ZerosFirst(secs) {
      forall i | 0 <= i < a.Length && a[i].alloc && a[i].progbits && StraysApart(secs, base, i) ensures Intact(r, a[i]) {
        SectionsIntact(secs, base, mem, i);
      }
    }
  }
}
