/**
 A small SSA form for lifted guest functions, with the guest register file behind a
 pointer (`sptr`), and its meaning. Register-file memory is split into the mapped
 fields (field 0 is the program counter) and everything else. The same form holds
 functions before the calling-convention rewrite, where a dispatch call passes the
 register file in memory, and after it, where the fields travel in arguments and results.
 */
module CallConvIr {
  import opened Common
  import opened Octal

  /** SSA names. Lifted code uses only `Reg`; the rewrite introduces the others. */
  datatype Name =
    | Reg(id: nat)
    | Arg(f: nat)                        // function argument that carries field f
    | Result(b: nat, i: nat, f: nat)     // field f of the struct returned by the call at (b, i)
    | PhiOf(b: nat, f: nat)              // PHI for field f at the head of block b
    | Reload(b: nat, i: nat, f: nat)     // load of field f placed before the call or return at (b, i)

  datatype Src =
    | Const(v: u64)
    | BaseRel(v: u64)                    // instrew_baseaddr + v
    | Use(n: Name)
    | Undef

  datatype Target = Dispatch | Symbol(name: string)

  datatype Instr =
    | Compute(d: Name, op: int, args: seq<Src>)
    | External(d: Name, id: int, args: seq<Src>, writes: bool)  // guest memory access, helper without sptr
    | LoadField(d: Name, f: nat)
    | StoreField(f: nat, v: Src)
    | LoadOther(d: Name, off: int)
    | StoreOther(off: int, v: Src)
    | Helper(id: int)                    // helper that is handed sptr, e.g. a system call
    | CallMem                            // dispatch call, fields in memory
    | CallReg(b: nat, i: nat, target: Target, args: seq<Src>)
    | Copy(d: Name, v: Src)

  datatype Term =
    | Branch(cond: Src, targets: seq<nat>)
    | RetMem
    | TailMem
    | RetReg(vals: seq<Src>)
    | TailReg(target: Target, args: seq<Src>)

  datatype Phi = Phi(d: Name, inc: seq<(nat, Src)>)

  datatype Block = Block(phis: seq<Phi>, code: seq<Instr>, term: Term)

  datatype Func = Func(nf: nat, blocks: seq<Block>)

  /** What the world outside the function sees. */
  datatype Event =
    | Called(fields: seq<int>, other: map<int, int>)
    | Helped(id: int, fields: seq<int>, other: map<int, int>)
    | Touched(id: int, args: seq<int>)

  datatype Effect = Effect(fields: seq<int>, other: map<int, int>)

  /**
   Everything a function cannot see: arithmetic, guest memory and helpers, and callees,
   each an arbitrary function of the history so far. `junk` is what a callee of the new
   convention leaves in the memory of the mapped fields.
   */
  datatype Machine = Machine(
    compute: (int, seq<int>) -> int,
    external: (seq<Event>, int, seq<int>) -> int,
    helper: (seq<Event>, int, seq<int>, map<int, int>) -> Effect,
    callee: (seq<Event>, seq<int>, map<int, int>) -> Effect,
    junk: seq<Event> -> seq<int>,
    undef: int,
    base: u64)

  datatype St = St(env: Name -> int, fields: seq<int>, other: map<int, int>, trace: seq<Event>)

  datatype Exit = Returned | TailCalled

  datatype Config =
    | At(b: nat, st: St)
    | Done(exit: Exit, fields: seq<int>, other: map<int, int>, trace: seq<Event>)

  function Fit(s: seq<int>, n: nat): (r: seq<int>)
    ensures |r| == n
    ensures |s| == n ==> r == s
  {
    seq(n, i => if 0 <= i < |s| then s[i] else 0)
  }

  function Get(other: map<int, int>, off: int): int {
    if off in other then other[off] else 0
  }

  function Eval(m: Machine, env: Name -> int, s: Src): int {
    match s
    case Const(v) => v
    case BaseRel(v) => (v + m.base) % TWO_64
    case Use(n) => env(n)
    case Undef => m.undef
  }

  function EvalAll(m: Machine, env: Name -> int, ss: seq<Src>): (r: seq<int>)
    ensures |r| == |ss|
    ensures forall k :: 0 <= k < |ss| ==> r[k] == Eval(m, env, ss[k])
  {
    seq(|ss|, k requires 0 <= k < |ss| => Eval(m, env, ss[k]))
  }

  function Set(env: Name -> int, d: Name, v: int): Name -> int {
    (n: Name) => if n == d then v else env(n)
  }

  function SetResults(env: Name -> int, b: nat, i: nat, res: seq<int>): Name -> int {
    (n: Name) => if n.Result? && n.b == b && n.i == i && n.f < |res| then res[n.f] else env(n)
  }

  /** The fields a callee receives: a symbol stands for the guest address the linker decodes from it. */
  function Passed(m: Machine, target: Target, vals: seq<int>): (r: seq<int>)
    ensures |r| == |vals|
  {
    match target
    case Dispatch => vals
    case Symbol(name) => if |vals| == 0 then vals else vals[0 := Decoded(name, m.base, 0).1]
  }

  function Step(m: Machine, nf: nat, x: Instr, s: St): (r: St) {
    match x
    case Compute(d, op, args) =>
      s.(env := Set(s.env, d, m.compute(op, EvalAll(m, s.env, args))))
    case External(d, id, args, _) =>
      var vs := EvalAll(m, s.env, args);
      s.(env := Set(s.env, d, m.external(s.trace, id, vs)), trace := s.trace + [Touched(id, vs)])
    case LoadField(d, f) =>
      s.(env := Set(s.env, d, if f < |s.fields| then s.fields[f] else 0))
    case StoreField(f, v) =>
      if f < |s.fields| then s.(fields := s.fields[f := Eval(m, s.env, v)]) else s
    case LoadOther(d, off) =>
      s.(env := Set(s.env, d, Get(s.other, off)))
    case StoreOther(off, v) =>
      s.(other := s.other[off := Eval(m, s.env, v)])
    case Helper(id) =>
      var e := m.helper(s.trace, id, s.fields, s.other);
      s.(fields := Fit(e.fields, nf), other := e.other,
         trace := s.trace + [Helped(id, s.fields, s.other)])
    case CallMem =>
      var e := m.callee(s.trace, s.fields, s.other);
      s.(fields := Fit(e.fields, nf), other := e.other,
         trace := s.trace + [Called(s.fields, s.other)])
    case CallReg(b, i, target, args) =>
      var passed := Passed(m, target, EvalAll(m, s.env, args));
      var e := m.callee(s.trace, passed, s.other);
      St(SetResults(s.env, b, i, Fit(e.fields, nf)), Fit(m.junk(s.trace), nf), e.other,
         s.trace + [Called(passed, s.other)])
    case Copy(d, v) =>
      s.(env := Set(s.env, d, Eval(m, s.env, v)))
  }

  function Exec(m: Machine, nf: nat, code: seq<Instr>, s: St): (r: St) {
    if code == [] then s
    else Step(m, nf, code[|code| - 1], Exec(m, nf, code[..|code| - 1], s))
  }

  function Incoming(inc: seq<(nat, Src)>, pred: nat): Src {
    if inc == [] then Undef
    else if inc[0].0 == pred then inc[0].1
    else Incoming(inc[1..], pred)
  }

  /** All PHIs of a block read the state at the end of the predecessor. */
  function Enter(m: Machine, phis: seq<Phi>, pred: nat, env: Name -> int): (r: Name -> int) {
    if phis == [] then env
    else
      var rest := Enter(m, phis[..|phis| - 1], pred, env);
      var p := phis[|phis| - 1];
      Set(rest, p.d, Eval(m, env, Incoming(p.inc, pred)))
  }

  function Pick(v: int, targets: seq<nat>): (t: nat)
    requires |targets| > 0
    ensures t in targets
  {
    if 0 <= v < |targets| then targets[v] else targets[|targets| - 1]
  }

  /** Run one whole block and take its terminator. */
  function StepBlock(m: Machine, fn: Func, c: Config): (r: Config) {
    if c.Done? || c.b >= |fn.blocks| then c
    else
      var s := Exec(m, fn.nf, fn.blocks[c.b].code, c.st);
      match fn.blocks[c.b].term
      case Branch(cond, targets) =>
        if |targets| == 0 then c
        else
          var t := Pick(Eval(m, s.env, cond), targets);
          if t >= |fn.blocks| then c
          else At(t, s.(env := Enter(m, fn.blocks[t].phis, c.b, s.env)))
      case RetMem => Done(Returned, s.fields, s.other, s.trace)
      case TailMem => Done(TailCalled, s.fields, s.other, s.trace)
      case RetReg(vals) => Done(Returned, EvalAll(m, s.env, vals), s.other, s.trace)
      case TailReg(target, args) =>
        Done(TailCalled, Passed(m, target, EvalAll(m, s.env, args)), s.other, s.trace)
  }

  function Run(m: Machine, fn: Func, c: Config, n: nat): (r: Config) {
    if n == 0 then c else StepBlock(m, fn, Run(m, fn, c, n - 1))
  }

  /** Entry with the register file in memory; register contents are undefined. */
  function EntryMem(regs: nat -> int, fields: seq<int>, other: map<int, int>): Config {
    At(0, St((n: Name) => if n.Reg? then regs(n.id) else 0, fields, other, []))
  }

  /** Entry with the fields in arguments; the memory of the mapped fields holds anything. */
  function EntryReg(regs: nat -> int, fields: seq<int>, stale: seq<int>, other: map<int, int>): Config {
    At(0, St((n: Name) => if n.Reg? then regs(n.id) else if n.Arg? && n.f < |fields| then fields[n.f] else 0,
             stale, other, []))
  }

  /** Same block, same history of calls, same non-field memory; at an exit also the same field values. */
  ghost predicate Agree(a: Config, b: Config) {
    match (a, b)
    case (At(p, s), At(q, t)) => p == q && s.trace == t.trace && s.other == t.other
    case (Done(_, _, _, _), Done(_, _, _, _)) => a == b
    case _ => false
  }

  lemma {:induction false} ExecConcat(m: Machine, nf: nat, a: seq<Instr>, b: seq<Instr>, s: St)
    ensures Exec(m, nf, a + b, s) == Exec(m, nf, b, Exec(m, nf, a, s))
    decreases |b|
  {
    if b == [] {
      assert a + b == a;
    } else {
      assert (a + b)[..|a + b| - 1] == a + b[..|b| - 1];
      ExecConcat(m, nf, a, b[..|b| - 1], s);
    }
  }

  lemma ExecOne(m: Machine, nf: nat, x: Instr, s: St)
    ensures Exec(m, nf, [x], s) == Step(m, nf, x, s)
  {
    assert [x][..0] == [];
  }

  /** Names that are not PHI destinations keep their value across an edge. */
  lemma {:induction false} EnterKeeps(m: Machine, phis: seq<Phi>, pred: nat, env: Name -> int, n: Name)
    requires forall k :: 0 <= k < |phis| ==> phis[k].d != n
    ensures Enter(m, phis, pred, env)(n) == env(n)
  {
    if phis != [] {
      EnterKeeps(m, phis[..|phis| - 1], pred, env, n);
    }
  }

  /** A destination bound by exactly one PHI gets that PHI's incoming value. */
  lemma {:induction false} EnterSets(m: Machine, phis: seq<Phi>, pred: nat, env: Name -> int, k: nat)
    requires k < |phis|
    requires forall j :: k < j < |phis| ==> phis[j].d != phis[k].d
    ensures Enter(m, phis, pred, env)(phis[k].d) == Eval(m, env, Incoming(phis[k].inc, pred))
  {
    if k < |phis| - 1 {
      EnterSets(m, phis[..|phis| - 1], pred, env, k);
    }
  }
}
