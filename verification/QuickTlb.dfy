/**
 Dispatch: finding the translated function for a guest address, through a direct-mapped cache
 in front of a translation table, translating on demand. A guest thread has a cache and a table
 of its own; the runs below allow any number of caches in front of one table.
 */
module QuickTlb {
  import opened Common
  import opened HashTable
  import opened ObjectLoad

  const TLB_SIZE: nat := 1024

  datatype Entry = Entry(addr: bv64, func: nat)

  /** QUICK_TLB_HASH: ten bits of the address, above the lowest four. */
  function Index(addr: bv64): (h: nat)
    ensures h < TLB_SIZE
  {
    ((addr >> 4) & 0x3ff) as nat
  }

  /** The assembly masks the address in place; that is the byte offset of the entry, 16 bytes each. */
  lemma MaskIsByteOffset(addr: bv64)
    ensures 16 * Index(addr) == (addr & (0x3ff << 4)) as nat
  {
    var h := (addr >> 4) & 0x3ff;
    MaskedBits(addr);
    SixteenTimes(h);
  }

  lemma MaskedBits(addr: bv64)
    ensures addr & (0x3ff << 4) == 16 * ((addr >> 4) & 0x3ff) && (addr >> 4) & 0x3ff < 0x400
  {
  }

  lemma SixteenTimes(h: bv64)
    requires h < 0x400
    ensures (16 * h) as nat == 16 * h as nat
  {
  }

  /** Every used entry agrees with the table. */
  ghost predicate Agrees(tlb: seq<Entry>, m: map<nat, Obj>) {
    && |tlb| == TLB_SIZE
    && forall h :: 0 <= h < TLB_SIZE && tlb[h].addr != 0 ==>
         (tlb[h].addr as nat) in m && m[tlb[h].addr as nat].entry == tlb[h].func
  }

  lemma AgreesLater(tlb: seq<Entry>, m: map<nat, Obj>, m': map<nat, Obj>)
    requires Agrees(tlb, m) && Extends(m, m')
    ensures Agrees(tlb, m')
  {
  }

  class Cpu {
    var quick: array<Entry>
    const trace: bool

    ghost predicate Valid(table: Table)
      reads this, quick, table, table.slots
    {
      table.Valid() && Agrees(quick[..], table.contents)
    }

    constructor (trace: bool)
      ensures fresh(quick) && quick.Length == TLB_SIZE && forall h :: 0 <= h < TLB_SIZE ==> quick[h].addr == 0
      ensures this.trace == trace
    {
      quick := new Entry[TLB_SIZE](_ => Entry(0, 0));
      this.trace := trace;
    }

    /** Enters a resolved address in the cache. */
    method Remember(addr: bv64, func: nat, ghost m: map<nat, Obj>)
      requires Agrees(quick[..], m) && (addr as nat) in m && m[addr as nat].entry == func
      modifies quick
      ensures quick[..] == old(quick[..])[Index(addr) := Entry(addr, func)] && Agrees(quick[..], m)
    {
      var hash := Index(addr);
      AgreesUpdated(quick[..], m, addr, hash);
      quick[hash] := Entry(addr, func);
      assert quick[..] == old(quick[..])[hash := Entry(addr, func)];
    }

    /** Called when the cache misses, and by patchable call stubs. */
    method ResolveFunc(table: Table, addr: bv64, t: Translation) returns (out: Outcome)
      requires Valid(table)
      modifies quick, table.slots, table`contents
      ensures table.Valid() && Agrees(quick[..], table.contents)
      ensures (out, table.contents) == Resolved(old(table.contents), addr as nat, t)
      ensures Right(old(table.contents), addr as nat, t, out)
      ensures quick[..] == if out.Func? && !trace then old(quick[..])[Index(addr) := Entry(addr, out.func)] else old(quick[..])
    {
      table.Bounded();
      ResolvedRight(table.contents, addr as nat, t);
      hide Right, Resolved;
      ResolvedExtends(table.contents, addr as nat, t);
      out := Find(table, addr as nat, t);
      assert quick[..] == old(quick[..]);
      AgreesLater(quick[..], old(table.contents), table.contents);
      if out.Func? && !trace {
        Remember(addr, out.func, table.contents);
      }
    }

    /** The fast path first. A zeroed entry matches address zero, which the table reserves. */
    method Dispatch(table: Table, addr: bv64, t: Translation) returns (out: Outcome)
      requires Valid(table)
      modifies quick, table.slots, table`contents
      ensures table.Valid() && Agrees(quick[..], table.contents)
      ensures addr != 0 || old(quick[Index(0)].addr) != 0 ==>
        (out, table.contents) == Resolved(old(table.contents), addr as nat, t)
      ensures addr == 0 && old(quick[Index(0)].addr) == 0 ==>
        out == Func(old(quick[Index(0)].func)) && table.contents == old(table.contents)
      ensures addr != 0 ==> Right(old(table.contents), addr as nat, t, out)
      ensures addr != 0 && out.Func? && !trace ==> quick[Index(addr)] == Entry(addr, out.func)
      ensures forall h :: 0 <= h < TLB_SIZE && h != Index(addr) ==> quick[h] == old(quick[h])
    {
      hide Index;
      var hash := Index(addr);
      var func := quick[hash].func;
      if quick[hash].addr != addr {
        hide Resolved, Right, Agrees;
        out := ResolveFunc(table, addr, t);
      } else {
        out := Func(func);
        Hit(quick[..], table.contents, addr, t);
        hide Resolved, Right, Agrees;
      }
    }
  }

  /** A used entry holds what resolving gives. */
  lemma Hit(tlb: seq<Entry>, m: map<nat, Obj>, addr: bv64, t: Translation)
    requires Agrees(tlb, m) && tlb[Index(addr)].addr == addr
    ensures addr != 0 ==> Resolved(m, addr as nat, t) == (Func(tlb[Index(addr)].func), m)
    ensures addr != 0 ==> Right(m, addr as nat, t, Func(tlb[Index(addr)].func))
  {
    if addr != 0 {
      NonzeroNat(addr);
    }
  }

  lemma NonzeroNat(addr: bv64)
    requires addr != 0
    ensures addr as nat != 0
  {
  }

  lemma AgreesUpdated(tlb: seq<Entry>, m: map<nat, Obj>, addr: bv64, h: nat)
    requires Agrees(tlb, m) && h < TLB_SIZE && (addr as nat) in m
    ensures Agrees(tlb[h := Entry(addr, m[addr as nat].entry)], m)
  {
  }

  /** The table first, then the server. */
  method Find(table: Table, addr: nat, t: Translation) returns (out: Outcome)
    requires table.Valid()
    modifies table.slots, table`contents
    ensures table.Valid() && (out, table.contents) == Resolved(old(table.contents), addr, t)
  {
    var status, func := table.Resolve(addr);
    if status == Ok {
      return Func(func);
    }
    if t.NoObject? {
      return Exit;
    }
    status := AddObject(table, t.symbols);
    if status != Ok {
      return Exit;
    }
    status, func := table.Resolve(addr);
    if status != Ok {
      return Exit;
    }
    return Func(func);
  }

  /** Registers the functions of an object. */
  method AddObject(table: Table, symbols: seq<Symbol>) returns (status: Status)
    requires table.Valid()
    modifies table.slots, table`contents
    ensures table.Valid()
    ensures (status, table.contents) == Loaded(old(table.contents), symbols)
  {
    var i := 0;
    while i < |symbols|
      invariant 0 <= i <= |symbols| && table.Valid()
      invariant Loaded(table.contents, symbols[i..]) == Loaded(old(table.contents), symbols)
    {
      assert symbols[i..][1..] == symbols[i + 1..];
      if symbols[i].Undecodable? {
        return EInval;
      }
      if symbols[i].addr == 0 {
        return Ok;
      }
      status := table.Set(symbols[i].addr, symbols[i].obj);
      if status != Ok {
        return status;
      }
      i := i + 1;
    }
    return Ok;
  }

  // ---- Whole runs --------------------------------------------------------------------

  /** A dispatch by one of the guest's threads. */
  datatype Request = Request(cpu: nat, addr: bv64, t: Translation)

  /** The plain map after the first requests, in the order in which they take effect. */
  function Contents(m: map<nat, Obj>, run: seq<Request>): map<nat, Obj> {
    if run == [] then m
    else
      var n := |run| - 1;
      Resolved(Contents(m, run[..n]), run[n].addr as nat, run[n].t).1
  }

  /** What the plain map alone gives for the i-th request. */
  function OutcomeOf(m: map<nat, Obj>, run: seq<Request>, i: nat): Outcome
    requires i < |run|
  {
    Resolved(Contents(m, run[..i]), run[i].addr as nat, run[i].t).0
  }

  lemma {:induction false} ContentsExtend(m: map<nat, Obj>, run: seq<Request>, i: nat, j: nat)
    requires i <= j <= |run|
    ensures Extends(Contents(m, run[..i]), Contents(m, run[..j]))
    decreases j
  {
    if i < j {
      ContentsExtend(m, run, i, j - 1);
      assert run[..j][..j - 1] == run[..j - 1];
      ResolvedExtends(Contents(m, run[..j - 1]), run[j - 1].addr as nat, run[j - 1].t);
    }
  }

  lemma NextContents(m: map<nat, Obj>, run: seq<Request>, n: nat)
    requires n < |run|
    ensures Resolved(Contents(m, run[..n]), run[n].addr as nat, run[n].t) == (OutcomeOf(m, run, n), Contents(m, run[..n + 1]))
  {
    assert run[..n + 1][..n] == run[..n];
  }

  /** Once resolved, an address gives the same function ever after. */
  lemma ResolvedOnce(m: map<nat, Obj>, run: seq<Request>, outs: seq<Outcome>)
    requires |outs| <= |run| && forall k :: 0 <= k < |outs| ==> outs[k] == OutcomeOf(m, run, k)
    ensures forall i, j :: 0 <= i < j < |outs| && run[i].addr == run[j].addr && outs[i].Func? ==> outs[j] == outs[i]
  {
    hide OutcomeOf;
    forall i, j | 0 <= i < j < |outs| && run[i].addr == run[j].addr && outs[i].Func? ensures outs[j] == outs[i] {
      PlainResolvedOnce(m, run, i, j);
    }
  }

  lemma PlainResolvedOnce(m: map<nat, Obj>, run: seq<Request>, i: nat, j: nat)
    requires i < j < |run| && run[i].addr == run[j].addr && OutcomeOf(m, run, i).Func?
    ensures OutcomeOf(m, run, j) == OutcomeOf(m, run, i)
  {
    assert run[..i + 1][..i] == run[..i];
    ResolvedExtends(Contents(m, run[..i]), run[i].addr as nat, run[i].t);
    ContentsExtend(m, run, i + 1, j);
  }

  /** Every cache in front of the table agrees with it. */
  ghost predicate AllAgree(cpus: seq<Cpu>, m: map<nat, Obj>)
    reads cpus, set c: Cpu | c in cpus :: c.quick
  {
    forall c :: 0 <= c < |cpus| ==> Agrees(cpus[c].quick[..], m)
  }

  /** The caches are different arrays. */
  ghost predicate Separate(cpus: seq<Cpu>)
    reads cpus
  {
    forall c, d :: 0 <= c < d < |cpus| ==> cpus[c].quick != cpus[d].quick
  }

  /** One dispatch through one cache among others: these stay right although the table grows. */
  method DispatchOne(cpus: seq<Cpu>, table: Table, rq: Request) returns (out: Outcome)
    requires table.Valid() && Separate(cpus) && AllAgree(cpus, table.contents)
    requires rq.cpu < |cpus| && rq.addr != 0
    modifies table.slots, table`contents, cpus[rq.cpu].quick
    ensures table.Valid() && AllAgree(cpus, table.contents)
    ensures (out, table.contents) == Resolved(old(table.contents), rq.addr as nat, rq.t)
    ensures Right(old(table.contents), rq.addr as nat, rq.t, out)
  {
    ghost var m := table.contents;
    ghost var quicks := seq(|cpus|, c requires 0 <= c < |cpus| reads cpus, set d: Cpu | d in cpus :: d.quick => cpus[c].quick[..]);
    out := cpus[rq.cpu].Dispatch(table, rq.addr, rq.t);
    ResolvedExtends(m, rq.addr as nat, rq.t);
    forall c | 0 <= c < |cpus| && c != rq.cpu ensures Agrees(cpus[c].quick[..], table.contents) {
      assert cpus[c].quick[..] == quicks[c];
      AgreesLater(quicks[c], m, table.contents);
    }
  }

  /**
   Any sequence of dispatches to nonzero addresses by any number of threads, up to the first that ends the process:
   each thread, through its own cache, picks the function that the plain map gives, and an address that was resolved
   gives the same function in every later dispatch of every thread.
   */
  method DispatchAll(cpus: seq<Cpu>, table: Table, run: seq<Request>) returns (outs: seq<Outcome>)
    requires table.Valid() && Separate(cpus) && AllAgree(cpus, table.contents)
    requires forall k :: 0 <= k < |run| ==> run[k].cpu < |cpus| && run[k].addr != 0
    modifies table.slots, table`contents, set c: Cpu | c in cpus :: c.quick
    ensures table.Valid() && AllAgree(cpus, table.contents)
    ensures |outs| <= |run| && table.contents == Contents(old(table.contents), run[..|outs|])
    ensures forall k :: 0 <= k < |outs| ==> outs[k] == OutcomeOf(old(table.contents), run, k)
    ensures forall k :: 0 <= k < |outs| ==> Right(Contents(old(table.contents), run[..k]), run[k].addr as nat, run[k].t, outs[k])
    ensures |outs| < |run| ==> outs != [] && outs[|outs| - 1] == Exit
    ensures forall i, j :: 0 <= i < j < |outs| && run[i].addr == run[j].addr && outs[i].Func? ==> outs[j] == outs[i]
  {
    hide Contents, OutcomeOf, Resolved, Agrees, AllAgree, Separate, Right;
    ghost var m := table.contents;
    outs := [];
    NoneYet(m, run);
    while |outs| < |run|
      invariant table.Valid() && AllAgree(cpus, table.contents)
      invariant |outs| <= |run| && table.contents == Contents(m, run[..|outs|])
      invariant forall k :: 0 <= k < |outs| ==> outs[k] == OutcomeOf(m, run, k)
      invariant forall k :: 0 <= k < |outs| ==> Right(Contents(m, run[..k]), run[k].addr as nat, run[k].t, outs[k])
      decreases |run| - |outs|
    {
      var n := |outs|;
      NextContents(m, run, n);
      var out := DispatchOne(cpus, table, run[n]);
      outs := outs + [out];
      if out.Exit? {
        break;
      }
    }
    ResolvedOnce(m, run, outs);
  }

  lemma NoneYet(m: map<nat, Obj>, run: seq<Request>)
    ensures Contents(m, run[..0]) == m
  {
  }
}
