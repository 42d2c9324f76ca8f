/**
 When the register file does not escape: along every path, an argument or PHI that stands
 for a field holds what the last producer on that path left there.
 */
module CallConvPaths {
  import opened Common
  import opened Octal
  import opened CallConvIr
  import opened CallConvPass
  import opened CallConvProof

  /** The field values the last producer in a history left: the results of the last call, or the arguments. */
  function LastProduced(m: Machine, nf: nat, args: seq<int>, trace: seq<Event>): (r: seq<int>)
    requires |args| == nf
    ensures |r| == nf
  {
    if trace == [] then args
    else
      var before, e := trace[..|trace| - 1], trace[|trace| - 1];
      if e.Called? then Fit(m.callee(before, e.fields, e.other).fields, nf)
      else LastProduced(m, nf, args, before)
  }

  lemma LastAppend(m: Machine, nf: nat, args: seq<int>, trace: seq<Event>, e: Event)
    requires |args| == nf
    ensures LastProduced(m, nf, args, trace + [e]) ==
            if e.Called? then Fit(m.callee(trace, e.fields, e.other).fields, nf)
            else LastProduced(m, nf, args, trace)
  {
    assert (trace + [e])[..|trace|] == trace;
  }

  /** Fields without a pending store still hold the last producer's values. */
  ghost predicate Kept(m: Machine, nf: nat, args: seq<int>, b: nat, bl: Block, i: nat, o: St)
    requires i <= |bl.code| && |args| == nf
  {
    && |o.fields| == nf
    && forall f: nat :: f < nf && Pending(b, bl.code, i, f).None? ==>
         o.fields[f] == LastProduced(m, nf, args, o.trace)[f]
  }

  lemma KeptStep(m: Machine, nf: nat, args: seq<int>, b: nat, bl: Block, i: nat, o: St)
    requires i < |bl.code| && |args| == nf
    requires LiftedInstr(nf, bl.code[i]) && !BlockEscapes(b, bl)
    requires Kept(m, nf, args, b, bl, i, o)
    ensures Kept(m, nf, args, b, bl, i + 1, Step(m, nf, bl.code[i], o))
  {
    var x := bl.code[i];
    var o' := Step(m, nf, x, o);
    assert !Keeps(b, bl, i);
    if o'.trace != o.trace {
      LastAppend(m, nf, args, o.trace, o'.trace[|o.trace|]);
    }
    if !x.CallMem? {
      var k := i + 1;
      forall f: nat | f < nf && Pending(b, bl.code, k, f).None?
        ensures o'.fields[f] == LastProduced(m, nf, args, o'.trace)[f]
      {
        if Stops(b, bl.code, i) && Pending(b, bl.code, i, f).Some? {
          PendingReaches(b, bl, i, f);
        }
      }
    }
  }

  lemma {:induction false} KeptPrefix(m: Machine, nf: nat, args: seq<int>, b: nat, bl: Block, i: nat, o: St)
    requires i <= |bl.code| && |args| == nf
    requires forall j :: 0 <= j < |bl.code| ==> LiftedInstr(nf, bl.code[j])
    requires !BlockEscapes(b, bl)
    requires o.fields == LastProduced(m, nf, args, o.trace)
    ensures Kept(m, nf, args, b, bl, i, Exec(m, nf, bl.code[..i], o))
  {
    if i > 0 {
      KeptPrefix(m, nf, args, b, bl, i - 1, o);
      assert bl.code[..i][..i - 1] == bl.code[..i - 1];
      KeptStep(m, nf, args, b, bl, i - 1, Exec(m, nf, bl.code[..i - 1], o));
    }
  }

  /** A block that branches on leaves all fields as its last producer did: every store was folded elsewhere. */
  lemma BranchKeeps(m: Machine, fn: Func, args: seq<int>, b: nat, o: St)
    requires Lifted(fn) && !Escapes(fn) && b < |fn.blocks| && |args| == fn.nf
    requires fn.blocks[b].term.Branch?
    requires o.fields == LastProduced(m, fn.nf, args, o.trace)
    ensures var s := Exec(m, fn.nf, fn.blocks[b].code, o);
            s.fields == LastProduced(m, fn.nf, args, s.trace)
  {
    var bl := fn.blocks[b];
    assert LiftedBlock(fn.nf, |fn.blocks|, b, bl) && !BlockEscapes(b, bl);
    KeptPrefix(m, fn.nf, args, b, bl, |bl.code|, o);
    assert bl.code[..|bl.code|] == bl.code;
    forall f: nat | f < fn.nf ensures Pending(b, bl.code, |bl.code|, f).None? {
      if Pending(b, bl.code, |bl.code|, f).Some? {
        PendingReaches(b, bl, |bl.code|, f);
      }
    }
  }

  lemma {:induction false} MemoryIsLastProduced(m: Machine, fn: Func, regs: nat -> int, fields: seq<int>,
                                                other: map<int, int>, k: nat)
    requires Lifted(fn) && !Escapes(fn) && |fields| == fn.nf
    ensures var c := Run(m, fn, EntryMem(regs, fields, other), k);
            c.At? ==> c.b < |fn.blocks| && c.st.fields == LastProduced(m, fn.nf, fields, c.st.trace)
  {
    if k > 0 {
      MemoryIsLastProduced(m, fn, regs, fields, other, k - 1);
      var c := Run(m, fn, EntryMem(regs, fields, other), k - 1);
      if c.At? && fn.blocks[c.b].term.Branch? {
        BranchKeeps(m, fn, fields, c.b, c.st);
      }
    }
  }

  /**
   On every path into a block, each PHI wired there, and each argument standing in for a
   field when there are no calls, holds the value left by the last producer on that path.
   */
  lemma WiredValues(m: Machine, plan: Plan, fn: Func, regs: nat -> int, fields: seq<int>,
                    stale: seq<int>, other: map<int, int>, k: nat, f: nat)
    requires Lifted(fn) && PlanFor(plan, fn) && !plan.escapes
    requires |fields| == fn.nf && |stale| == fn.nf && f < fn.nf
    ensures var c := Run(m, Rewrite(plan, fn), EntryReg(regs, fields, stale, other), k);
            c.At? ==>
              && (c.b != 0 && (c.b, f) in plan.wires ==>
                    c.st.env(PhiOf(c.b, f)) == LastProduced(m, fn.nf, fields, c.st.trace)[f])
              && (!plan.calls ==> c.st.env(Arg(f)) == LastProduced(m, fn.nf, fields, c.st.trace)[f])
  {
    hide Exec, Enter, NewPhis, LastProduced;
    var c := EntryMem(regs, fields, other);
    var d := EntryReg(regs, fields, stale, other);
    PlanFits(plan, fn);
    SimRun(m, plan, fn, fields, c, d, k);
    MemoryIsLastProduced(m, fn, regs, fields, other, k);
    var c', d' := Run(m, fn, c, k), Run(m, Rewrite(plan, fn), d, k);
    if d'.At? {
      assert Holds(m, d'.st.env, HomeSrc(plan, d'.b, fn.blocks[d'.b].code, 0, f), c'.st.fields[f]);
      assert fn.blocks[d'.b].code[..0] == [];
    }
  }
}
