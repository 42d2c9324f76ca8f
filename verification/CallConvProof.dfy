/**
 The rewrite preserves meaning: on every run, the rewritten function passes every call,
 tail call and return the same field values and leaves the same other memory.
 */
module CallConvProof {
  import opened Common
  import opened Octal
  import opened CallConvIr
  import opened CallConvPass

  // ---- The simulation relation -------------------------------------------------------

  ghost predicate RegsAgree(e: Name -> int, e': Name -> int) {
    forall r: nat :: e(Reg(r)) == e'(Reg(r))
  }

  ghost predicate ArgsHold(args: seq<int>, env: Name -> int) {
    forall f: nat :: f < |args| ==> env(Arg(f)) == args[f]
  }

  /** Where the rewritten function keeps field f before instruction i, outside memory. */
  function HomeSrc(plan: Plan, b: nat, code: seq<Instr>, i: nat, f: nat): Option<Src>
    requires i <= |code|
  {
    if b == 0 || !plan.calls then Some(Use(Arg(f)))
    else
      match FirstCall(code[..i])
      case Some(k) => Some(Use(Result(b, k, f)))
      case None => if (b, f) in plan.wires then Some(Use(PhiOf(b, f))) else None
  }

  ghost predicate Holds(m: Machine, env: Name -> int, s: Option<Src>, v: int) {
    s.Some? ==> Eval(m, env, s.value) == v
  }

  ghost predicate FieldHolds(m: Machine, plan: Plan, b: nat, bl: Block, i: nat, f: nat, o: St, n: St)
    requires i <= |bl.code| && f < |o.fields| && f < |n.fields|
  {
    var p := Pending(b, bl.code, i, f);
    if p.Some? && (plan.escapes ==> ReachesSite(b, bl, i)) then Eval(m, n.env, p.value) == o.fields[f]
    else if plan.escapes then n.fields[f] == o.fields[f]
    else Holds(m, n.env, HomeSrc(plan, b, bl.code, i, f), o.fields[f])
  }

  ghost predicate ProducerHolds(m: Machine, b: nat, bl: Block, i: nat, o: St, n: St)
    requires i <= |bl.code|
  {
    var p := ProducerAt(b, bl.code, i);
    !p.NoProducer? ==> forall f: nat :: f < |o.fields| ==> Eval(m, n.env, ProducerSrc(b, p, f)) == o.fields[f]
  }

  ghost predicate Shape(nf: nat, args: seq<int>, o: St, n: St) {
    && |args| == nf && |o.fields| == nf && |n.fields| == nf
    && o.other == n.other && o.trace == n.trace
    && RegsAgree(o.env, n.env)
    && ArgsHold(args, n.env)
  }

  ghost predicate Rel(m: Machine, plan: Plan, nf: nat, args: seq<int>, b: nat, bl: Block, i: nat, o: St, n: St)
    requires i <= |bl.code|
  {
    && Shape(nf, args, o, n)
    && ProducerHolds(m, b, bl, i, o, n)
    && forall f: nat :: f < nf ==> FieldHolds(m, plan, b, bl, i, f, o, n)
  }

  /** What the block must satisfy for one-block reasoning, given the plan. */
  ghost predicate Sound(plan: Plan, nf: nat, b: nat, bl: Block) {
    && nf > 0
    && (forall j :: 0 <= j < |bl.code| ==> LiftedInstr(nf, bl.code[j]))
    && Dominated(bl.code)
    && (!plan.escapes ==>
          && !BlockEscapes(b, bl)
          && (forall i: nat :: IsSite(bl, i) ==> b != 0 && forall k: nat :: IsSite(bl, k) ==> k == i)
          && (forall i: nat :: IsCall(bl, i) ==> plan.calls)
          && (plan.calls ==>
                forall i: nat, f: nat :: IsSite(bl, i) && f < nf && Pending(b, bl.code, i, f).None? ==> (b, f) in plan.wires))
  }

  // ---- Facts about one block ---------------------------------------------------------

  lemma EvalAgrees(m: Machine, e: Name -> int, e': Name -> int, s: Src)
    requires LiftedSrc(s) && RegsAgree(e, e')
    ensures Eval(m, e, s) == Eval(m, e', s)
  {
    if s.Use? { assert e(Reg(s.n.id)) == e'(Reg(s.n.id)); }
  }

  lemma EvalAllAgrees(m: Machine, e: Name -> int, e': Name -> int, ss: seq<Src>)
    requires LiftedSrcs(ss) && RegsAgree(e, e')
    ensures EvalAll(m, e, ss) == EvalAll(m, e', ss)
  {
    forall k | 0 <= k < |ss| ensures Eval(m, e, ss[k]) == Eval(m, e', ss[k]) {
      EvalAgrees(m, e, e', ss[k]);
    }
  }

  /** A pending value is the operand of an earlier store of the block. */
  lemma {:induction false} PendingStore(b: nat, code: seq<Instr>, i: nat, f: nat) returns (j: nat)
    requires i <= |code| && Pending(b, code, i, f).Some?
    ensures j < i && code[j].StoreField? && code[j].f == f && Pending(b, code, i, f) == Some(code[j].v)
  {
    if code[i - 1].StoreField? && code[i - 1].f == f {
      j := i - 1;
    } else {
      j := PendingStore(b, code, i - 1, f);
    }
  }

  /** Only the names the instruction defines may differ. */
  ghost predicate Untouched(x: Instr, e: Name -> int, e': Name -> int) {
    forall n :: !Defines(x, n) ==> e'(n) == e(n)
  }

  /** The next instruction does not change a pending value. */
  lemma PendingKept(m: Machine, nf: nat, b: nat, code: seq<Instr>, i: nat, f: nat, e: Name -> int, e': Name -> int)
    requires i < |code| && Pending(b, code, i, f).Some?
    requires Dominated(code)
    requires Untouched(code[i], e, e')
    ensures Eval(m, e', Pending(b, code, i, f).value) == Eval(m, e, Pending(b, code, i, f).value)
  {
    var j := PendingStore(b, code, i, f);
    if code[j].v.Use? { assert !Defines(code[i], code[j].v.n); }
  }

  /** Without escape every pending store reaches the call or return it is folded into. */
  lemma {:induction false} PendingReaches(b: nat, bl: Block, i: nat, f: nat)
    requires i <= |bl.code| && Pending(b, bl.code, i, f).Some?
    requires !BlockEscapes(b, bl)
    ensures ReachesSite(b, bl, i)
  {
    if bl.code[i - 1].StoreField? && bl.code[i - 1].f == f {
      assert !Keeps(b, bl, i - 1);
    } else {
      PendingReaches(b, bl, i - 1, f);
    }
  }

  lemma HomeNext(plan: Plan, b: nat, code: seq<Instr>, i: nat, f: nat)
    requires i < |code| && !code[i].CallMem?
    ensures HomeSrc(plan, b, code, i + 1, f) == HomeSrc(plan, b, code, i, f)
  {
    assert code[..i + 1][..i] == code[..i];
  }

  predicate Plain(x: Instr) {
    x.Compute? || x.External? || x.LoadOther? || x.StoreOther?
  }

  /** How the bookkeeping moves over an instruction that is neither a call nor a field access. */
  lemma PlainNext(plan: Plan, b: nat, bl: Block, i: nat, f: nat)
    requires i < |bl.code| && Plain(bl.code[i])
    requires !plan.escapes ==> !BlockEscapes(b, bl)
    ensures HomeSrc(plan, b, bl.code, i + 1, f) == HomeSrc(plan, b, bl.code, i, f)
    ensures Stops(b, bl.code, i) ==> Pending(b, bl.code, i + 1, f).None? && !ReachesSite(b, bl, i)
    ensures Stops(b, bl.code, i) && !plan.escapes ==> Pending(b, bl.code, i, f).None?
    ensures !Stops(b, bl.code, i) ==>
              && Pending(b, bl.code, i + 1, f) == Pending(b, bl.code, i, f)
              && ReachesSite(b, bl, i) == ReachesSite(b, bl, i + 1)
  {
    HomeNext(plan, b, bl.code, i, f);
    if Stops(b, bl.code, i) && !plan.escapes && Pending(b, bl.code, i, f).Some? {
      PendingReaches(b, bl, i, f);
    }
  }

  /** A field keeps its place over an instruction that changes neither the fields nor any name it is kept in. */
  lemma FieldNext(m: Machine, plan: Plan, nf: nat, b: nat, bl: Block, i: nat, f: nat, o: St, n: St, o': St, n': St)
    requires i < |bl.code| && Plain(bl.code[i])
    requires Sound(plan, nf, b, bl)
    requires f < |o.fields| && f < |n.fields|
    requires o'.fields == o.fields && n'.fields == n.fields
    requires Untouched(bl.code[i], n.env, n'.env)
    requires FieldHolds(m, plan, b, bl, i, f, o, n)
    ensures FieldHolds(m, plan, b, bl, i + 1, f, o', n')
  {
    assert LiftedInstr(nf, bl.code[i]);
    PlainNext(plan, b, bl, i, f);
    if Pending(b, bl.code, i, f).Some? {
      PendingKept(m, nf, b, bl.code, i, f, n.env, n'.env);
    }
  }

  lemma ProducerNext(m: Machine, nf: nat, b: nat, bl: Block, i: nat, o: St, n: St, o': St, n': St)
    requires i < |bl.code| && !bl.code[i].CallMem? && LiftedInstr(nf, bl.code[i])
    requires MayWrite(bl.code[i]) || o'.fields == o.fields
    requires Untouched(bl.code[i], n.env, n'.env)
    requires ProducerHolds(m, b, bl, i, o, n)
    ensures ProducerHolds(m, b, bl, i + 1, o', n')
  {
    if !MayWrite(bl.code[i]) {
      var p := ProducerAt(b, bl.code, i);
      assert ProducerAt(b, bl.code, i + 1) == p;
      if !p.NoProducer? {
        forall f: nat | f < |o.fields|
          ensures Eval(m, n'.env, ProducerSrc(b, p, f)) == o'.fields[f]
        {
          assert Eval(m, n.env, ProducerSrc(b, p, f)) == o.fields[f];
          assert !Defines(bl.code[i], ProducerSrc(b, p, f).n);
        }
      }
    }
  }

  // ---- One instruction ---------------------------------------------------------------

  lemma ShapePlain(m: Machine, nf: nat, args: seq<int>, x: Instr, o: St, n: St)
    requires Shape(nf, args, o, n) && Plain(x) && LiftedInstr(nf, x)
    ensures Shape(nf, args, Step(m, nf, x, o), Step(m, nf, x, n))
    ensures Step(m, nf, x, o).fields == o.fields && Step(m, nf, x, n).fields == n.fields
    ensures Untouched(x, n.env, Step(m, nf, x, n).env)
  {
    match x
    case Compute(d, op, ss) => EvalAllAgrees(m, o.env, n.env, ss);
    case External(d, id, ss, _) => EvalAllAgrees(m, o.env, n.env, ss);
    case LoadOther(d, off) =>
    case StoreOther(off, v) => EvalAgrees(m, o.env, n.env, v);
  }

  lemma SimPlain(m: Machine, plan: Plan, nf: nat, args: seq<int>, b: nat, bl: Block, i: nat, o: St, n: St)
    requires i < |bl.code| && Plain(bl.code[i])
    requires Sound(plan, nf, b, bl)
    requires Rel(m, plan, nf, args, b, bl, i, o, n)
    ensures Rel(m, plan, nf, args, b, bl, i + 1, Step(m, nf, bl.code[i], o),
                Exec(m, nf, Expand(plan, nf, b, bl, i), n))
  {
    var x := bl.code[i];
    ExecOne(m, nf, x, n);
    var o', n' := Step(m, nf, x, o), Step(m, nf, x, n);
    ShapePlain(m, nf, args, x, o, n);
    ProducerNext(m, nf, b, bl, i, o, n, o', n');
    var k := i + 1;
    forall f: nat | f < nf ensures FieldHolds(m, plan, b, bl, k, f, o', n') {
      FieldNext(m, plan, nf, b, bl, i, f, o, n, o', n');
    }
  }

  /** How the bookkeeping moves over a load of a field. */
  lemma LoadNext(plan: Plan, b: nat, bl: Block, i: nat, f: nat)
    requires i < |bl.code| && bl.code[i].LoadField?
    requires !plan.escapes ==> !BlockEscapes(b, bl)
    ensures HomeSrc(plan, b, bl.code, i + 1, f) == HomeSrc(plan, b, bl.code, i, f)
    ensures !plan.escapes ==> FoldedLoad(b, bl.code, i)
    ensures FoldedLoad(b, bl.code, i) ==>
              && Pending(b, bl.code, i + 1, f) == Pending(b, bl.code, i, f)
              && ReachesSite(b, bl, i) == ReachesSite(b, bl, i + 1)
    ensures !FoldedLoad(b, bl.code, i) ==> Pending(b, bl.code, i + 1, f).None? && !ReachesSite(b, bl, i)
  {
    HomeNext(plan, b, bl.code, i, f);
    if !plan.escapes {
      assert !Keeps(b, bl, i);
    }
  }

  lemma LoadValue(m: Machine, plan: Plan, nf: nat, args: seq<int>, b: nat, bl: Block, i: nat, o: St, n: St)
    requires i < |bl.code| && bl.code[i].LoadField?
    requires Sound(plan, nf, b, bl)
    requires Rel(m, plan, nf, args, b, bl, i, o, n)
    ensures Exec(m, nf, Expand(plan, nf, b, bl, i), n) ==
            n.(env := Exec(m, nf, Expand(plan, nf, b, bl, i), n).env)
    ensures Shape(nf, args, Step(m, nf, bl.code[i], o), Exec(m, nf, Expand(plan, nf, b, bl, i), n))
    ensures Untouched(bl.code[i], n.env, Exec(m, nf, Expand(plan, nf, b, bl, i), n).env)
  {
    var x := bl.code[i];
    assert LiftedInstr(nf, x);
    LoadNext(plan, b, bl, i, x.f);
    assert FieldHolds(m, plan, b, bl, i, x.f, o, n);
    var e := Expand(plan, nf, b, bl, i);
    ExecOne(m, nf, e[0], n);
    if FoldedLoad(b, bl.code, i) {
      assert Eval(m, n.env, ProducerSrc(b, ProducerAt(b, bl.code, i), x.f)) == o.fields[x.f];
    } else {
      assert n.fields[x.f] == o.fields[x.f];
    }
  }

  lemma SimLoad(m: Machine, plan: Plan, nf: nat, args: seq<int>, b: nat, bl: Block, i: nat, o: St, n: St)
    requires i < |bl.code| && bl.code[i].LoadField?
    requires Sound(plan, nf, b, bl)
    requires Rel(m, plan, nf, args, b, bl, i, o, n)
    ensures Rel(m, plan, nf, args, b, bl, i + 1, Step(m, nf, bl.code[i], o),
                Exec(m, nf, Expand(plan, nf, b, bl, i), n))
  {
    var x := bl.code[i];
    assert LiftedInstr(nf, x);
    var o', n' := Step(m, nf, x, o), Exec(m, nf, Expand(plan, nf, b, bl, i), n);
    LoadValue(m, plan, nf, args, b, bl, i, o, n);
    ProducerNext(m, nf, b, bl, i, o, n, o', n');
    var k := i + 1;
    forall f: nat | f < nf ensures FieldHolds(m, plan, b, bl, k, f, o', n') {
      assert FieldHolds(m, plan, b, bl, i, f, o, n);
      LoadNext(plan, b, bl, i, f);
      if Pending(b, bl.code, i, f).Some? {
        PendingKept(m, nf, b, bl.code, i, f, n.env, n'.env);
      }
    }
  }

  lemma SimStore(m: Machine, plan: Plan, nf: nat, args: seq<int>, b: nat, bl: Block, i: nat, o: St, n: St)
    requires i < |bl.code| && bl.code[i].StoreField?
    requires Sound(plan, nf, b, bl)
    requires Rel(m, plan, nf, args, b, bl, i, o, n)
    ensures Rel(m, plan, nf, args, b, bl, i + 1, Step(m, nf, bl.code[i], o),
                Exec(m, nf, Expand(plan, nf, b, bl, i), n))
  {
    var x := bl.code[i];
    assert LiftedInstr(nf, x);
    var o' := Step(m, nf, x, o);
    EvalAgrees(m, o.env, n.env, x.v);
    ExecOne(m, nf, x, n);
    var n' := Exec(m, nf, Expand(plan, nf, b, bl, i), n);
    if !plan.escapes { assert !Keeps(b, bl, i); }
    var k := i + 1;
    forall f: nat | f < nf ensures FieldHolds(m, plan, b, bl, k, f, o', n') {
      assert FieldHolds(m, plan, b, bl, i, f, o, n);
      HomeNext(plan, b, bl.code, i, f);
    }
  }

  lemma SimHelper(m: Machine, plan: Plan, nf: nat, args: seq<int>, b: nat, bl: Block, i: nat, o: St, n: St)
    requires i < |bl.code| && bl.code[i].Helper?
    requires Sound(plan, nf, b, bl)
    requires Rel(m, plan, nf, args, b, bl, i, o, n)
    ensures Rel(m, plan, nf, args, b, bl, i + 1, Step(m, nf, bl.code[i], o),
                Exec(m, nf, Expand(plan, nf, b, bl, i), n))
  {
    assert plan.escapes by {
      assert Keeps(b, bl, i);
    }
    assert o.fields == n.fields by {
      forall f: nat | f < nf ensures o.fields[f] == n.fields[f] {
        assert FieldHolds(m, plan, b, bl, i, f, o, n);
      }
    }
    ExecOne(m, nf, bl.code[i], n);
  }

  // ---- Calls and returns -------------------------------------------------------------

  /** The loads placed before a call or return read the fields no store was folded for. */
  lemma {:induction false} ReloadsExec(m: Machine, plan: Plan, nf: nat, b: nat, code: seq<Instr>, i: nat, k: nat, n: St)
    requires i <= |code| && k <= |n.fields|
    ensures var r := Exec(m, nf, Reloads(plan, b, code, i, k), n);
            && r == n.(env := r.env)
            && (forall x: Name :: !x.Reload? ==> r.env(x) == n.env(x))
            && (plan.escapes ==> forall f: nat :: f < k && Pending(b, code, i, f).None? ==>
                  r.env(Reload(b, i, f)) == n.fields[f])
  {
    if k > 0 && plan.escapes {
      var before := Reloads(plan, b, code, i, k - 1);
      ReloadsExec(m, plan, nf, b, code, i, k - 1, n);
      if Pending(b, code, i, k - 1).None? {
        var x := LoadField(Reload(b, i, k - 1), k - 1);
        ExecConcat(m, nf, before, [x], n);
        ExecOne(m, nf, x, Exec(m, nf, before, n));
      } else {
        assert before + [] == before;
      }
    }
  }

  lemma PendingLifted(nf: nat, b: nat, code: seq<Instr>, i: nat, f: nat)
    requires i <= |code| && Pending(b, code, i, f).Some?
    requires forall j :: 0 <= j < |code| ==> LiftedInstr(nf, code[j])
    ensures LiftedSrc(Pending(b, code, i, f).value)
  {
    var j := PendingStore(b, code, i, f);
    assert LiftedInstr(nf, code[j]);
  }

  /** At a lone call or return the field still lives in the PHI of its block. */
  lemma HomeAtSite(plan: Plan, nf: nat, b: nat, bl: Block, i: nat, f: nat)
    requires i <= |bl.code| && IsSite(bl, i) && f < nf
    requires Sound(plan, nf, b, bl) && !plan.escapes
    requires Pending(b, bl.code, i, f).None?
    ensures HomeSrc(plan, b, bl.code, i, f) == Some(SiteSrc(plan, b, bl.code, i, f))
  {
    var r := FirstCall(bl.code[..i]);
    assert r.Some? ==> IsSite(bl, r.value);
  }

  /** The values gathered for a call or return are the values the fields have in memory in the original. */
  lemma SiteValue(m: Machine, plan: Plan, nf: nat, args: seq<int>, b: nat, bl: Block, i: nat, f: nat, o: St, n: St)
    requires i <= |bl.code| && IsSite(bl, i) && f < nf
    requires Sound(plan, nf, b, bl)
    requires Rel(m, plan, nf, args, b, bl, i, o, n)
    ensures Eval(m, Exec(m, nf, Reloads(plan, b, bl.code, i, nf), n).env, SiteSrc(plan, b, bl.code, i, f)) == o.fields[f]
  {
    ReloadsExec(m, plan, nf, b, bl.code, i, nf, n);
    assert FieldHolds(m, plan, b, bl, i, f, o, n);
    if Pending(b, bl.code, i, f).Some? {
      PendingLifted(nf, b, bl.code, i, f);
    } else if !plan.escapes {
      HomeAtSite(plan, nf, b, bl, i, f);
    }
  }

  lemma SiteValues(m: Machine, plan: Plan, nf: nat, args: seq<int>, b: nat, bl: Block, i: nat, o: St, n: St)
    requires i <= |bl.code| && IsSite(bl, i)
    requires Sound(plan, nf, b, bl)
    requires Rel(m, plan, nf, args, b, bl, i, o, n)
    ensures EvalAll(m, Exec(m, nf, Reloads(plan, b, bl.code, i, nf), n).env,
                    SiteSrcs(plan, nf, b, bl.code, i)) == o.fields
  {
    forall f: nat | f < nf
      ensures Eval(m, Exec(m, nf, Reloads(plan, b, bl.code, i, nf), n).env,
                   SiteSrcs(plan, nf, b, bl.code, i)[f]) == o.fields[f]
    {
      SiteValue(m, plan, nf, args, b, bl, i, f, o, n);
    }
  }

  lemma SymbolDecodes(m: Machine, env: Name -> int, pc: Src)
    requires SymbolFor(pc).Some?
    ensures Decoded(SymbolFor(pc).value, m.base, 0).1 == Eval(m, env, pc)
  {
    var ds := Digits(pc.v);
    RoundTrip(pc.v, ds, [], m.base, 0);
    assert "Z" + ds + [] == "Z" + ds && "S" + ds + [] == "S" + ds;
  }

  /** Naming the target after a constant address passes the same program counter as passing the address. */
  lemma SymbolPassesPc(m: Machine, env: Name -> int, srcs: seq<Src>)
    ensures Passed(m, TargetFor(srcs), EvalAll(m, env, ParamsFor(srcs))) == EvalAll(m, env, srcs)
  {
    if |srcs| > 0 && SymbolFor(srcs[0]).Some? {
      SymbolDecodes(m, env, srcs[0]);
      var pc := Decoded(SymbolFor(srcs[0]).value, m.base, 0).1;
      assert EvalAll(m, env, srcs[0 := Undef])[0 := pc] == EvalAll(m, env, srcs);
    }
  }

  lemma SpillResultsNext(m: Machine, nf: nat, b: nat, i: nat, k: nat, n: St)
    ensures Exec(m, nf, SpillResults(b, i, 0), n) == n
    ensures k > 0 ==>
      Exec(m, nf, SpillResults(b, i, k), n) ==
      Step(m, nf, StoreField(k - 1, Use(Result(b, i, k - 1))), Exec(m, nf, SpillResults(b, i, k - 1), n))
  {
    hide Step;
    if k > 0 {
      var x := StoreField(k - 1, Use(Result(b, i, k - 1)));
      ExecConcat(m, nf, SpillResults(b, i, k - 1), [x], n);
      ExecOne(m, nf, x, Exec(m, nf, SpillResults(b, i, k - 1), n));
    }
  }

  lemma {:induction false} SpillResultsExec(m: Machine, nf: nat, b: nat, i: nat, k: nat, n: St)
    requires k <= |n.fields|
    ensures var r := Exec(m, nf, SpillResults(b, i, k), n);
            && r == n.(fields := r.fields) && |r.fields| == |n.fields|
            && forall f: nat :: f < k ==> r.fields[f] == n.env(Result(b, i, f))
  {
    hide Exec, SpillResults;
    SpillResultsNext(m, nf, b, i, k, n);
    if k > 0 {
      SpillResultsExec(m, nf, b, i, k - 1, n);
      var r := Exec(m, nf, SpillResults(b, i, k - 1), n);
      assert Exec(m, nf, SpillResults(b, i, k), n).fields == r.fields[k - 1 := n.env(Result(b, i, k - 1))];
    }
  }

  lemma SpillArgsNext(m: Machine, nf: nat, k: nat, n: St)
    ensures Exec(m, nf, SpillArgs(0), n) == n
    ensures k > 0 ==>
      Exec(m, nf, SpillArgs(k), n) ==
      Step(m, nf, StoreField(k - 1, Use(Arg(k - 1))), Exec(m, nf, SpillArgs(k - 1), n))
  {
    hide Step;
    if k > 0 {
      var x := StoreField(k - 1, Use(Arg(k - 1)));
      ExecConcat(m, nf, SpillArgs(k - 1), [x], n);
      ExecOne(m, nf, x, Exec(m, nf, SpillArgs(k - 1), n));
    }
  }

  lemma {:induction false} SpillArgsExec(m: Machine, nf: nat, k: nat, n: St)
    requires k <= |n.fields|
    ensures var r := Exec(m, nf, SpillArgs(k), n);
            && r == n.(fields := r.fields) && |r.fields| == |n.fields|
            && forall f: nat :: f < k ==> r.fields[f] == n.env(Arg(f))
  {
    hide Exec, SpillArgs;
    SpillArgsNext(m, nf, k, n);
    if k > 0 {
      SpillArgsExec(m, nf, k - 1, n);
      var r := Exec(m, nf, SpillArgs(k - 1), n);
      assert Exec(m, nf, SpillArgs(k), n).fields == r.fields[k - 1 := n.env(Arg(k - 1))];
    }
  }

  /** A call site runs its reloads, the call and the spills. */
  lemma CallExec(m: Machine, plan: Plan, nf: nat, b: nat, bl: Block, i: nat, n: St)
    requires i < |bl.code| && bl.code[i].CallMem?
    ensures var srcs := SiteSrcs(plan, nf, b, bl.code, i);
            var n1 := Exec(m, nf, Reloads(plan, b, bl.code, i, nf), n);
            var n2 := Step(m, nf, CallReg(b, i, TargetFor(srcs), ParamsFor(srcs)), n1);
            Exec(m, nf, Expand(plan, nf, b, bl, i), n) ==
            if plan.escapes then Exec(m, nf, SpillResults(b, i, nf), n2) else n2
  {
    hide Reloads, SpillResults, SiteSrcs, TargetFor, ParamsFor, Step;
    var srcs := SiteSrcs(plan, nf, b, bl.code, i);
    var call := CallReg(b, i, TargetFor(srcs), ParamsFor(srcs));
    var loads := Reloads(plan, b, bl.code, i, nf);
    var spill := if plan.escapes then SpillResults(b, i, nf) else [];
    ExecConcat(m, nf, loads, [call], n);
    ExecOne(m, nf, call, Exec(m, nf, loads, n));
    ExecConcat(m, nf, loads + [call], spill, n);
    assert Expand(plan, nf, b, bl, i) == loads + [call] + spill;
  }

  /** A call that passes the fields as parameters leaves what the call through memory leaves. */
  lemma CallAgrees(m: Machine, nf: nat, args: seq<int>, b: nat, i: nat, srcs: seq<Src>, o: St, n1: St)
    requires Shape(nf, args, o, n1) && EvalAll(m, n1.env, srcs) == o.fields
    ensures var o' := Step(m, nf, CallMem, o);
            var n2 := Step(m, nf, CallReg(b, i, TargetFor(srcs), ParamsFor(srcs)), n1);
            && Shape(nf, args, o', n2)
            && (forall f: nat :: f < nf ==> n2.env(Result(b, i, f)) == o'.fields[f])
  {
    SymbolPassesPc(m, n1.env, srcs);
    hide EvalAll, TargetFor, ParamsFor, Passed;
  }

  /** State right after the call itself: the callee saw the same fields and memory. */
  lemma CallStep(m: Machine, plan: Plan, nf: nat, args: seq<int>, b: nat, bl: Block, i: nat, o: St, n: St) returns (n2: St)
    requires i < |bl.code| && bl.code[i].CallMem?
    requires Sound(plan, nf, b, bl)
    requires Rel(m, plan, nf, args, b, bl, i, o, n)
    ensures var o' := Step(m, nf, CallMem, o);
            && Shape(nf, args, o', n2)
            && (forall f: nat :: f < nf ==> n2.env(Result(b, i, f)) == o'.fields[f])
    ensures Exec(m, nf, Expand(plan, nf, b, bl, i), n) ==
            if plan.escapes then Exec(m, nf, SpillResults(b, i, nf), n2) else n2
  {
    hide Exec, Expand, Reloads, SpillResults, Step, SiteSrcs, Sound, TargetFor, ParamsFor, FieldHolds, ProducerHolds;
    var srcs := SiteSrcs(plan, nf, b, bl.code, i);
    var n1 := Exec(m, nf, Reloads(plan, b, bl.code, i, nf), n);
    ReloadsExec(m, plan, nf, b, bl.code, i, nf, n);
    SiteValues(m, plan, nf, args, b, bl, i, o, n);
    CallAgrees(m, nf, args, b, i, srcs, o, n1);
    CallExec(m, plan, nf, b, bl, i, n);
    n2 := Step(m, nf, CallReg(b, i, TargetFor(srcs), ParamsFor(srcs)), n1);
  }

  lemma HomeAfterCall(plan: Plan, nf: nat, b: nat, bl: Block, i: nat, f: nat)
    requires i < |bl.code| && bl.code[i].CallMem?
    requires Sound(plan, nf, b, bl) && !plan.escapes
    ensures HomeSrc(plan, b, bl.code, i + 1, f) == Some(Use(Result(b, i, f)))
  {
    assert IsSite(bl, i) && IsCall(bl, i);
    var r := FirstCall(bl.code[..i + 1]);
    assert bl.code[..i + 1][i].CallMem?;
    assert r.Some? && IsSite(bl, r.value);
  }

  lemma SimCall(m: Machine, plan: Plan, nf: nat, args: seq<int>, b: nat, bl: Block, i: nat, o: St, n: St)
    requires i < |bl.code| && bl.code[i].CallMem?
    requires Sound(plan, nf, b, bl)
    requires Rel(m, plan, nf, args, b, bl, i, o, n)
    ensures Rel(m, plan, nf, args, b, bl, i + 1, Step(m, nf, bl.code[i], o),
                Exec(m, nf, Expand(plan, nf, b, bl, i), n))
  {
    hide Exec, Expand, SpillResults, Sound;
    var o' := Step(m, nf, CallMem, o);
    var n2 := CallStep(m, plan, nf, args, b, bl, i, o, n);
    var n' := Exec(m, nf, Expand(plan, nf, b, bl, i), n);
    if plan.escapes {
      SpillResultsExec(m, nf, b, i, nf, n2);
    }
    var k := i + 1;
    assert ProducerAt(b, bl.code, k) == CallAt(i);
    forall f: nat | f < nf ensures FieldHolds(m, plan, b, bl, k, f, o', n') {
      if !plan.escapes {
        HomeAfterCall(plan, nf, b, bl, i, f);
      }
    }
  }

  // ---- One block ---------------------------------------------------------------------

  lemma SimInstr(m: Machine, plan: Plan, nf: nat, args: seq<int>, b: nat, bl: Block, i: nat, o: St, n: St)
    requires i < |bl.code|
    requires Sound(plan, nf, b, bl)
    requires Rel(m, plan, nf, args, b, bl, i, o, n)
    ensures Rel(m, plan, nf, args, b, bl, i + 1, Step(m, nf, bl.code[i], o),
                Exec(m, nf, Expand(plan, nf, b, bl, i), n))
  {
    assert LiftedInstr(nf, bl.code[i]);
    match bl.code[i] {
      case LoadField(_, _) => SimLoad(m, plan, nf, args, b, bl, i, o, n);
      case StoreField(_, _) => SimStore(m, plan, nf, args, b, bl, i, o, n);
      case Helper(_) => SimHelper(m, plan, nf, args, b, bl, i, o, n);
      case CallMem => SimCall(m, plan, nf, args, b, bl, i, o, n);
      case _ => SimPlain(m, plan, nf, args, b, bl, i, o, n);
    }
  }

  /** The states at the head of a block, before any instruction of either version has run. */
  ghost predicate Heads(m: Machine, plan: Plan, nf: nat, args: seq<int>, b: nat, bl: Block, o: St, n: St) {
    && Shape(nf, args, o, n)
    && (b == 0 ==> o.fields == args)
    && (plan.escapes && b != 0 ==> n.fields == o.fields)
    && (!plan.escapes ==> forall f: nat :: f < nf ==> Holds(m, n.env, HomeSrc(plan, b, bl.code, 0, f), o.fields[f]))
  }

  lemma {:induction false} SimPrefix(m: Machine, plan: Plan, nf: nat, args: seq<int>, b: nat, bl: Block, i: nat, o: St, n: St)
    requires i <= |bl.code|
    requires Sound(plan, nf, b, bl)
    requires Heads(m, plan, nf, args, b, bl, o, n)
    ensures Rel(m, plan, nf, args, b, bl, i, Exec(m, nf, bl.code[..i], o),
                Exec(m, nf, ExpandUpTo(plan, nf, b, bl, i), n))
  {
    if i == 0 {
      if plan.escapes && b == 0 {
        SpillArgsExec(m, nf, nf, n);
      }
    } else {
      SimPrefix(m, plan, nf, args, b, bl, i - 1, o, n);
      assert bl.code[..i][..i - 1] == bl.code[..i - 1];
      SimInstr(m, plan, nf, args, b, bl, i - 1, Exec(m, nf, bl.code[..i - 1], o),
               Exec(m, nf, ExpandUpTo(plan, nf, b, bl, i - 1), n));
      ExecConcat(m, nf, ExpandUpTo(plan, nf, b, bl, i - 1), Expand(plan, nf, b, bl, i - 1), n);
    }
  }

  // ---- Across blocks -----------------------------------------------------------------

  lemma {:induction false} IncomingOf(fn: Func, f: nat, preds: seq<nat>, p: nat)
    requires forall q :: q in preds ==> q < |fn.blocks|
    requires p in preds
    ensures Incoming(Edges(fn, f, preds), p) == WireSrc(fn, p, f)
  {
    if preds[0] != p {
      assert forall q :: q in preds[1..] ==> q in preds;
      IncomingOf(fn, f, preds[1..], p);
      assert Edges(fn, f, preds)[1..] == Edges(fn, f, preds[1..]);
    }
  }

  lemma {:induction false} NewPhiAt(plan: Plan, b: nat, n: nat, f: nat) returns (k: nat)
    requires f < n && (b, f) in plan.wires && !plan.escapes
    ensures k < |NewPhis(plan, b, n)|
    ensures NewPhis(plan, b, n)[k] == Phi(PhiOf(b, f), plan.wires[(b, f)])
    ensures forall j :: k < j < |NewPhis(plan, b, n)| ==> NewPhis(plan, b, n)[j].d != PhiOf(b, f)
  {
    if f == n - 1 {
      k := |NewPhis(plan, b, n)| - 1;
    } else {
      k := NewPhiAt(plan, b, n - 1, f);
    }
  }

  /** Original PHIs see the same registers; the added PHIs bind no register. */
  lemma {:induction false} EnterAgrees(m: Machine, phis: seq<Phi>, extra: seq<Phi>, pred: nat, e: Name -> int, e': Name -> int)
    requires forall k :: 0 <= k < |phis| ==> LiftedPhi(phis[k])
    requires forall k :: 0 <= k < |extra| ==> extra[k].d.PhiOf?
    requires RegsAgree(e, e')
    ensures RegsAgree(Enter(m, phis, pred, e), Enter(m, phis + extra, pred, e'))
    decreases |phis| + |extra|
  {
    var all := phis + extra;
    if extra != [] {
      assert all[..|all| - 1] == phis + extra[..|extra| - 1];
      EnterAgrees(m, phis, extra[..|extra| - 1], pred, e, e');
      assert all[|all| - 1] == extra[|extra| - 1];
    } else if phis != [] {
      assert all == phis;
      var p := phis[|phis| - 1];
      var init := phis[..|phis| - 1];
      EnterAgrees(m, init, [], pred, e, e');
      assert init + [] == init;
      IncomingLifted(p.inc, pred);
      EvalIncoming(m, e, e', p.inc, pred);
    }
  }

  lemma {:induction false} IncomingLifted(inc: seq<(nat, Src)>, pred: nat)
    requires forall k :: 0 <= k < |inc| ==> LiftedSrc(inc[k].1)
    ensures Incoming(inc, pred) == Undef || LiftedSrc(Incoming(inc, pred))
  {
    if inc != [] && inc[0].0 != pred {
      IncomingLifted(inc[1..], pred);
    }
  }

  lemma EvalIncoming(m: Machine, e: Name -> int, e': Name -> int, inc: seq<(nat, Src)>, pred: nat)
    requires Incoming(inc, pred) == Undef || LiftedSrc(Incoming(inc, pred))
    requires RegsAgree(e, e')
    ensures Eval(m, e, Incoming(inc, pred)) == Eval(m, e', Incoming(inc, pred))
  {
    if Incoming(inc, pred) != Undef {
      EvalAgrees(m, e, e', Incoming(inc, pred));
    }
  }

  /** A plan that fits the function; a plan that spills everything fits any function. */
  ghost predicate Fits(plan: Plan, fn: Func) {
    && (forall b :: 0 <= b < |fn.blocks| ==> Sound(plan, fn.nf, b, fn.blocks[b]))
    && (forall b :: 0 <= b < |fn.blocks| ==> LiftedTerm(fn.blocks[b].term, |fn.blocks|))
    && (forall b :: 0 <= b < |fn.blocks| ==>
          forall k :: 0 <= k < |fn.blocks[b].phis| ==> LiftedPhi(fn.blocks[b].phis[k]))
    && (!plan.escapes ==> forall b: nat, f: nat :: (b, f) in plan.wires ==>
          WiredAt(fn, plan.wires, b, f) && ClosedAt(fn, plan.wires, b, f))
  }

  lemma PlanFits(plan: Plan, fn: Func)
    requires Lifted(fn) && PlanFor(plan, fn)
    ensures Fits(plan, fn)
  {
    forall b | 0 <= b < |fn.blocks|
      ensures Sound(plan, fn.nf, b, fn.blocks[b])
    {
      var bl := fn.blocks[b];
      assert LiftedBlock(fn.nf, |fn.blocks|, b, bl);
      if !plan.escapes {
        assert !BlockEscapes(b, bl);
        forall i: nat | IsCall(bl, i) ensures plan.calls {
          assert i <= |fn.blocks[b].code|;
        }
        forall i: nat, f: nat | plan.calls && IsSite(bl, i) && f < fn.nf && Pending(b, bl.code, i, f).None?
          ensures (b, f) in plan.wires
        {
          assert NeedsPhi(fn, b, f);
        }
      }
    }
    forall b | 0 <= b < |fn.blocks|
      ensures LiftedTerm(fn.blocks[b].term, |fn.blocks|)
      ensures forall k :: 0 <= k < |fn.blocks[b].phis| ==> LiftedPhi(fn.blocks[b].phis[k])
    {
      assert LiftedBlock(fn.nf, |fn.blocks|, b, fn.blocks[b]);
    }
  }

  /** At the end of a block that branches, a field's home is the value wired to the successors. */
  lemma HomeAtEnd(m: Machine, plan: Plan, fn: Func, args: seq<int>, p: nat, t: nat, f: nat, o: St, n: St)
    requires Fits(plan, fn) && !plan.escapes
    requires p < |fn.blocks| && fn.blocks[p].term.Branch? && t in fn.blocks[p].term.targets && f < fn.nf
    requires Rel(m, plan, fn.nf, args, p, fn.blocks[p], |fn.blocks[p].code|, o, n)
    ensures !plan.calls ==> n.env(Arg(f)) == o.fields[f]
    ensures plan.calls && (t, f) in plan.wires ==> Eval(m, n.env, WireSrc(fn, p, f)) == o.fields[f]
  {
    var bl := fn.blocks[p];
    var e := |bl.code|;
    assert Sound(plan, fn.nf, p, bl);
    assert FieldHolds(m, plan, p, bl, e, f, o, n);
    if Pending(p, bl.code, e, f).Some? {
      PendingReaches(p, bl, e, f);
    }
    assert bl.code[..e] == bl.code;
    if plan.calls && (t, f) in plan.wires {
      assert ClosedAt(fn, plan.wires, t, f);
      assert p in Preds(fn, t);
    }
  }

  lemma PhiArrives(m: Machine, plan: Plan, fn: Func, p: nat, t: nat, f: nat, env: Name -> int)
    requires Fits(plan, fn) && !plan.escapes
    requires p < |fn.blocks| && t < |fn.blocks| && p in Preds(fn, t)
    requires f < fn.nf && (t, f) in plan.wires
    ensures Enter(m, fn.blocks[t].phis + NewPhis(plan, t, fn.nf), p, env)(PhiOf(t, f)) == Eval(m, env, WireSrc(fn, p, f))
  {
    hide Enter, NewPhis, Sound, Edges;
    var phis, extra := fn.blocks[t].phis, NewPhis(plan, t, fn.nf);
    var k := NewPhiAt(plan, t, fn.nf, f);
    assert (phis + extra)[|phis| + k] == extra[k];
    forall j | |phis| + k < j < |phis + extra| ensures (phis + extra)[j].d != PhiOf(t, f) {
      assert (phis + extra)[j] == extra[j - |phis|];
    }
    EnterSets(m, phis + extra, p, env, |phis| + k);
    assert WiredAt(fn, plan.wires, t, f);
    IncomingOf(fn, f, Preds(fn, t), p);
  }

  /** Following an edge re-establishes the relation at the head of the target. */
  lemma SimEdge(m: Machine, plan: Plan, fn: Func, args: seq<int>, p: nat, t: nat, o: St, n: St)
    requires Fits(plan, fn)
    requires p < |fn.blocks| && fn.blocks[p].term.Branch? && t in fn.blocks[p].term.targets
    requires Rel(m, plan, fn.nf, args, p, fn.blocks[p], |fn.blocks[p].code|, o, n)
    ensures 0 < t < |fn.blocks|
    ensures Heads(m, plan, fn.nf, args, t, fn.blocks[t],
                  o.(env := Enter(m, fn.blocks[t].phis, p, o.env)),
                  n.(env := Enter(m, fn.blocks[t].phis + NewPhis(plan, t, fn.nf), p, n.env)))
  {
    hide Rel, Sound, Enter, NewPhis, HomeSrc, Shape;
    assert LiftedTerm(fn.blocks[p].term, |fn.blocks|);
    EdgeShape(m, plan, fn, args, p, t, o, n);
    if plan.escapes {
      EdgeFields(m, plan, fn, args, p, t, o, n);
    } else {
      forall f: nat | f < fn.nf
        ensures f < |o.fields|
        ensures Holds(m, Enter(m, fn.blocks[t].phis + NewPhis(plan, t, fn.nf), p, n.env), HomeSrc(plan, t, fn.blocks[t].code, 0, f), o.fields[f])
      {
        EdgeHome(m, plan, fn, args, p, t, f, o, n);
      }
    }
  }

  lemma EdgeShape(m: Machine, plan: Plan, fn: Func, args: seq<int>, p: nat, t: nat, o: St, n: St)
    requires Fits(plan, fn)
    requires p < |fn.blocks| && fn.blocks[p].term.Branch? && t in fn.blocks[p].term.targets
    requires Rel(m, plan, fn.nf, args, p, fn.blocks[p], |fn.blocks[p].code|, o, n)
    requires t < |fn.blocks|
    ensures Shape(fn.nf, args, o.(env := Enter(m, fn.blocks[t].phis, p, o.env)),
                  n.(env := Enter(m, fn.blocks[t].phis + NewPhis(plan, t, fn.nf), p, n.env)))
  {
    hide Enter, NewPhis, FieldHolds, ProducerHolds, Sound;
    var phis, extra := fn.blocks[t].phis, NewPhis(plan, t, fn.nf);
    EnterAgrees(m, phis, extra, p, o.env, n.env);
    forall f: nat | f < fn.nf ensures Enter(m, phis + extra, p, n.env)(Arg(f)) == n.env(Arg(f)) {
      ArgKept(m, phis, extra, p, n.env, f);
    }
  }

  lemma EdgeFields(m: Machine, plan: Plan, fn: Func, args: seq<int>, p: nat, t: nat, o: St, n: St)
    requires Fits(plan, fn)
    requires p < |fn.blocks| && fn.blocks[p].term.Branch? && t in fn.blocks[p].term.targets
    requires Rel(m, plan, fn.nf, args, p, fn.blocks[p], |fn.blocks[p].code|, o, n)
    requires plan.escapes
    ensures n.fields == o.fields
  {
    forall f: nat | f < fn.nf ensures n.fields[f] == o.fields[f] {
      assert FieldHolds(m, plan, p, fn.blocks[p], |fn.blocks[p].code|, f, o, n);
    }
  }

  lemma EdgeHome(m: Machine, plan: Plan, fn: Func, args: seq<int>, p: nat, t: nat, f: nat, o: St, n: St)
    requires Fits(plan, fn)
    requires p < |fn.blocks| && fn.blocks[p].term.Branch? && t in fn.blocks[p].term.targets
    requires Rel(m, plan, fn.nf, args, p, fn.blocks[p], |fn.blocks[p].code|, o, n)
    requires !plan.escapes && 0 < t < |fn.blocks| && f < fn.nf
    ensures f < |o.fields|
    ensures Holds(m, Enter(m, fn.blocks[t].phis + NewPhis(plan, t, fn.nf), p, n.env), HomeSrc(plan, t, fn.blocks[t].code, 0, f), o.fields[f])
  {
    var phis, extra := fn.blocks[t].phis, NewPhis(plan, t, fn.nf);
    hide Enter, NewPhis, Sound, FieldHolds, ProducerHolds;
    HomeAtEnd(m, plan, fn, args, p, t, f, o, n);
    ArgKept(m, phis, extra, p, n.env, f);
    if plan.calls && (t, f) in plan.wires {
      assert p in Preds(fn, t);
      PhiArrives(m, plan, fn, p, t, f, n.env);
    }
  }

  lemma ArgKept(m: Machine, phis: seq<Phi>, extra: seq<Phi>, p: nat, env: Name -> int, f: nat)
    requires forall k :: 0 <= k < |phis| ==> LiftedPhi(phis[k])
    requires forall k :: 0 <= k < |extra| ==> extra[k].d.PhiOf?
    ensures Enter(m, phis + extra, p, env)(Arg(f)) == env(Arg(f))
  {
    forall k | 0 <= k < |phis + extra| ensures (phis + extra)[k].d != Arg(f) {
      if k < |phis| { assert LiftedPhi(phis[k]); }
    }
    EnterKeeps(m, phis + extra, p, env, Arg(f));
  }

  /** Configurations of the two versions that correspond. */
  ghost predicate Match(m: Machine, plan: Plan, fn: Func, args: seq<int>, c: Config, d: Config) {
    match (c, d)
    case (At(b, o), At(b', n)) =>
      b == b' && b < |fn.blocks| && Heads(m, plan, fn.nf, args, b, fn.blocks[b], o, n)
    case (Done(_, _, _, _), Done(_, _, _, _)) => c == d
    case _ => false
  }

  lemma SimExit(m: Machine, plan: Plan, fn: Func, args: seq<int>, b: nat, o: St, n: St)
    requires b < |fn.blocks| && IsSite(fn.blocks[b], |fn.blocks[b].code|)
    requires Fits(plan, fn)
    requires Rel(m, plan, fn.nf, args, b, fn.blocks[b], |fn.blocks[b].code|, o, n)
    ensures var srcs := SiteSrcs(plan, fn.nf, b, fn.blocks[b].code, |fn.blocks[b].code|);
            var n' := Exec(m, fn.nf, TermReloads(plan, fn.nf, b, fn.blocks[b]), n);
            && n'.other == o.other && n'.trace == o.trace
            && EvalAll(m, n'.env, srcs) == o.fields
            && Passed(m, TargetFor(srcs), EvalAll(m, n'.env, ParamsFor(srcs))) == o.fields
  {
    var bl := fn.blocks[b];
    assert Sound(plan, fn.nf, b, bl);
    var srcs := SiteSrcs(plan, fn.nf, b, bl.code, |bl.code|);
    ReloadsExec(m, plan, fn.nf, b, bl.code, |bl.code|, fn.nf, n);
    SiteValues(m, plan, fn.nf, args, b, bl, |bl.code|, o, n);
    SymbolPassesPc(m, Exec(m, fn.nf, TermReloads(plan, fn.nf, b, bl), n).env, srcs);
  }

  lemma CondAgrees(m: Machine, plan: Plan, fn: Func, args: seq<int>, b: nat, o: St, n: St)
    requires b < |fn.blocks| && fn.blocks[b].term.Branch? && LiftedTerm(fn.blocks[b].term, |fn.blocks|)
    requires Rel(m, plan, fn.nf, args, b, fn.blocks[b], |fn.blocks[b].code|, o, n)
    ensures Eval(m, o.env, fn.blocks[b].term.cond) == Eval(m, n.env, fn.blocks[b].term.cond)
  {
    EvalAgrees(m, o.env, n.env, fn.blocks[b].term.cond);
  }

  lemma SimBlock(m: Machine, plan: Plan, fn: Func, args: seq<int>, c: Config, d: Config)
    requires Fits(plan, fn)
    requires Match(m, plan, fn, args, c, d)
    ensures Match(m, plan, fn, args, StepBlock(m, fn, c), StepBlock(m, Rewrite(plan, fn), d))
  {
    hide Heads, Exec, Fits, Rewrite, StepBlock;
    if c.At? {
      if fn.blocks[c.b].term.Branch? {
        SimBranch(m, plan, fn, args, c.b, c.st, d.st);
      } else {
        SimLeave(m, plan, fn, args, c.b, c.st, d.st);
      }
    } else {
      SimDone(m, plan, fn, c);
    }
  }

  lemma SimDone(m: Machine, plan: Plan, fn: Func, c: Config)
    requires c.Done?
    ensures StepBlock(m, fn, c) == c && StepBlock(m, Rewrite(plan, fn), c) == c
  {
  }

  /** The states after the code of a block, before what the rewrite adds for its terminator. */
  lemma SimBody(m: Machine, plan: Plan, fn: Func, args: seq<int>, b: nat, o: St, n: St) returns (o': St, n': St)
    requires Fits(plan, fn) && b < |fn.blocks| && Heads(m, plan, fn.nf, args, b, fn.blocks[b], o, n)
    ensures Rel(m, plan, fn.nf, args, b, fn.blocks[b], |fn.blocks[b].code|, o', n')
    ensures o' == Exec(m, fn.nf, fn.blocks[b].code, o)
    ensures Exec(m, fn.nf, Rewrite(plan, fn).blocks[b].code, n) == Exec(m, fn.nf, TermReloads(plan, fn.nf, b, fn.blocks[b]), n')
  {
    hide Rel, Heads, Exec, ExpandUpTo, NewPhis, TermReloads, RewriteTerm;
    var bl := fn.blocks[b];
    var body := ExpandUpTo(plan, fn.nf, b, bl, |bl.code|);
    assert Sound(plan, fn.nf, b, bl);
    SimPrefix(m, plan, fn.nf, args, b, bl, |bl.code|, o, n);
    assert bl.code[..|bl.code|] == bl.code;
    o', n' := Exec(m, fn.nf, bl.code, o), Exec(m, fn.nf, body, n);
    ExecConcat(m, fn.nf, body, TermReloads(plan, fn.nf, b, bl), n);
  }

  lemma SimBranch(m: Machine, plan: Plan, fn: Func, args: seq<int>, b: nat, o: St, n: St)
    requires Fits(plan, fn) && b < |fn.blocks| && fn.blocks[b].term.Branch?
    requires Heads(m, plan, fn.nf, args, b, fn.blocks[b], o, n)
    ensures Match(m, plan, fn, args, StepBlock(m, fn, At(b, o)), StepBlock(m, Rewrite(plan, fn), At(b, n)))
  {
    hide Rel, Heads, ExpandUpTo, Enter, NewPhis, Sound, SiteSrcs;
    var bl := fn.blocks[b];
    assert LiftedTerm(bl.term, |fn.blocks|);
    var o', n' := SimBody(m, plan, fn, args, b, o, n);
    assert Exec(m, fn.nf, [], n') == n';
    hide Exec;
    CondAgrees(m, plan, fn, args, b, o', n');
    SimEdge(m, plan, fn, args, b, Pick(Eval(m, o'.env, bl.term.cond), bl.term.targets), o', n');
  }

  lemma SimLeave(m: Machine, plan: Plan, fn: Func, args: seq<int>, b: nat, o: St, n: St)
    requires Fits(plan, fn) && b < |fn.blocks| && !fn.blocks[b].term.Branch?
    requires Heads(m, plan, fn.nf, args, b, fn.blocks[b], o, n)
    ensures Match(m, plan, fn, args, StepBlock(m, fn, At(b, o)), StepBlock(m, Rewrite(plan, fn), At(b, n)))
  {
    hide Rel, Heads, ExpandUpTo, Enter, NewPhis, Sound, SiteSrcs, Exec, TermReloads;
    assert LiftedTerm(fn.blocks[b].term, |fn.blocks|);
    var o', n' := SimBody(m, plan, fn, args, b, o, n);
    SimExit(m, plan, fn, args, b, o', n');
  }

  lemma {:induction false} SimRun(m: Machine, plan: Plan, fn: Func, args: seq<int>, c: Config, d: Config, k: nat)
    requires Fits(plan, fn)
    requires Match(m, plan, fn, args, c, d)
    ensures Match(m, plan, fn, args, Run(m, fn, c, k), Run(m, Rewrite(plan, fn), d, k))
  {
    hide Match, StepBlock, Rewrite, Fits;
    if k > 0 {
      SimRun(m, plan, fn, args, c, d, k - 1);
      SimBlock(m, plan, fn, args, Run(m, fn, c, k - 1), Run(m, Rewrite(plan, fn), d, k - 1));
    }
  }

  /**
   The rewrite preserves meaning, whether or not the register file escapes: for every
   machine, entry state and number of steps, both versions have made the same calls with
   the same field values and are in the same block, or have left with the same values.
   */
  lemma MeaningPreserved(m: Machine, plan: Plan, fn: Func, regs: nat -> int, fields: seq<int>,
                         stale: seq<int>, other: map<int, int>, k: nat)
    requires Lifted(fn) && PlanFor(plan, fn)
    requires |fields| == fn.nf && |stale| == fn.nf
    ensures Agree(Run(m, fn, EntryMem(regs, fields, other), k),
                  Run(m, Rewrite(plan, fn), EntryReg(regs, fields, stale, other), k))
  {
    PlanFits(plan, fn);
    SimRun(m, plan, fn, fields, EntryMem(regs, fields, other), EntryReg(regs, fields, stale, other), k);
  }
}
