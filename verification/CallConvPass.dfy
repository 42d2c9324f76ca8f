/**
 The calling-convention rewrite, as a specification: which loads and stores are folded,
 when the register file escapes, which PHIs are wired, and what the rewritten function is.
 */
module CallConvPass {
  import opened Common
  import opened Octal
  import opened CallConvIr

  // ---- Folding loads -----------------------------------------------------------------

  datatype Producer = NoProducer | Arguments | CallAt(i: nat)

  predicate MayWrite(x: Instr) {
    match x
    case External(_, _, _, writes) => writes
    case StoreField(_, _) => true
    case StoreOther(_, _) => true
    case Helper(_) => true
    case CallMem => true
    case _ => false
  }

  /** The producer whose values the fields still hold before instruction i, if nothing was written since. */
  function ProducerAt(b: nat, code: seq<Instr>, i: nat): (p: Producer)
    requires i <= |code|
    ensures p.CallAt? ==> p.i < i && code[p.i].CallMem?
  {
    if i == 0 then (if b == 0 then Arguments else NoProducer)
    else if code[i - 1].CallMem? then CallAt(i - 1)
    else if MayWrite(code[i - 1]) then NoProducer
    else ProducerAt(b, code, i - 1)
  }

  function ProducerSrc(b: nat, p: Producer, f: nat): Src
    requires !p.NoProducer?
  {
    match p
    case Arguments => Use(Arg(f))
    case CallAt(i) => Use(Result(b, i, f))
  }

  predicate FoldedLoad(b: nat, code: seq<Instr>, j: nat) {
    j < |code| && code[j].LoadField? && !ProducerAt(b, code, j).NoProducer?
  }

  // ---- Folding stores ----------------------------------------------------------------

  /** Instructions that end the backward search for stores: remaining register-file reads, and calls handed sptr. */
  predicate Stops(b: nat, code: seq<Instr>, j: nat)
    requires j < |code|
  {
    match code[j]
    case LoadField(_, _) => !FoldedLoad(b, code, j)
    case LoadOther(_, _) => true
    case Helper(_) => true
    case CallMem => true
    case _ => false
  }

  /** A call, return or tail call stands at position i; the terminator counts as position |code|. */
  predicate IsSite(bl: Block, i: nat) {
    if i < |bl.code| then bl.code[i].CallMem?
    else i == |bl.code| && (bl.term.RetMem? || bl.term.TailMem?)
  }

  /** From position i on, a call or return comes before anything that reads the register file. */
  predicate ReachesSite(b: nat, bl: Block, i: nat)
    requires i <= |bl.code|
    decreases |bl.code| - i
  {
    IsSite(bl, i) || (i < |bl.code| && !Stops(b, bl.code, i) && ReachesSite(b, bl, i + 1))
  }

  predicate FoldedStore(b: nat, bl: Block, j: nat) {
    j < |bl.code| && bl.code[j].StoreField? && ReachesSite(b, bl, j + 1)
  }

  /** The value stored to field f most recently before position i, as far back as the search goes. */
  function Pending(b: nat, code: seq<Instr>, i: nat, f: nat): Option<Src>
    requires i <= |code|
  {
    if i == 0 || Stops(b, code, i - 1) then None
    else if code[i - 1].StoreField? && code[i - 1].f == f then Some(code[i - 1].v)
    else Pending(b, code, i - 1, f)
  }

  /** The code's "dead store" assertion: no store is overwritten before the call or return it is folded into. */
  ghost predicate NoDeadStore(b: nat, bl: Block) {
    forall j: nat :: FoldedStore(b, bl, j) ==> FirstAgain(b, bl, j + 1, bl.code[j].f)
  }

  predicate FirstAgain(b: nat, bl: Block, i: nat, f: nat)
    requires i <= |bl.code|
    decreases |bl.code| - i
  {
    || i == |bl.code|
    || Stops(b, bl.code, i)
    || (!(bl.code[i].StoreField? && bl.code[i].f == f) && FirstAgain(b, bl, i + 1, f))
  }

  // ---- Escape analysis ---------------------------------------------------------------

  /** Instruction j still needs the register file in memory after folding. */
  predicate Keeps(b: nat, bl: Block, j: nat)
    requires j < |bl.code|
  {
    match bl.code[j]
    case Helper(_) => true
    case LoadField(_, _) => !FoldedLoad(b, bl.code, j)
    case StoreField(_, _) => !FoldedStore(b, bl, j)
    case _ => false
  }

  predicate BlockEscapes(b: nat, bl: Block) {
    exists j :: 0 <= j < |bl.code| && Keeps(b, bl, j)
  }

  predicate Escapes(fn: Func) {
    exists b :: 0 <= b < |fn.blocks| && BlockEscapes(b, fn.blocks[b])
  }

  predicate IsCall(bl: Block, i: nat) {
    if i < |bl.code| then bl.code[i].CallMem? else i == |bl.code| && bl.term.TailMem?
  }

  predicate HasCalls(fn: Func) {
    exists b :: 0 <= b < |fn.blocks| && exists i :: 0 <= i <= |fn.blocks[b].code| && IsCall(fn.blocks[b], i)
  }

  // ---- PHI wiring --------------------------------------------------------------------

  type Wiring = map<(nat, nat), seq<(nat, Src)>>

  function Repeat(p: nat, targets: seq<nat>, b: nat): (r: seq<nat>)
    ensures forall q :: q in r ==> q == p
    ensures p in r <==> b in targets
  {
    if targets == [] then []
    else (if targets[0] == b then [p] else []) + Repeat(p, targets[1..], b)
  }

  function TargetsOf(t: Term): seq<nat> {
    if t.Branch? then t.targets else []
  }

  function PredsBelow(fn: Func, b: nat, n: nat): (r: seq<nat>)
    requires n <= |fn.blocks|
    ensures forall p :: p in r <==> 0 <= p < n && b in TargetsOf(fn.blocks[p].term)
  {
    if n == 0 then []
    else PredsBelow(fn, b, n - 1) + Repeat(n - 1, TargetsOf(fn.blocks[n - 1].term), b)
  }

  /** One entry per control-flow edge into b. */
  function Preds(fn: Func, b: nat): (r: seq<nat>)
    ensures forall p :: p in r <==> 0 <= p < |fn.blocks| && b in TargetsOf(fn.blocks[p].term)
  {
    PredsBelow(fn, b, |fn.blocks|)
  }

  function FirstCall(code: seq<Instr>): (r: Option<nat>)
    ensures r.Some? ==> r.value < |code| && code[r.value].CallMem?
    ensures r.None? ==> forall i :: 0 <= i < |code| ==> !code[i].CallMem?
  {
    if code == [] then None
    else if FirstCall(code[..|code| - 1]).Some? then FirstCall(code[..|code| - 1])
    else if code[|code| - 1].CallMem? then Some(|code| - 1)
    else None
  }

  /** The block is a producer for its successors: it is the entry block or holds a call. */
  predicate Produces(fn: Func, p: nat)
    requires p < |fn.blocks|
  {
    p == 0 || FirstCall(fn.blocks[p].code).Some?
  }

  /** The value of field f at the end of block p. */
  function WireSrc(fn: Func, p: nat, f: nat): Src
    requires p < |fn.blocks|
  {
    if p == 0 then Use(Arg(f))
    else
      match FirstCall(fn.blocks[p].code)
      case Some(i) => Use(Result(p, i, f))
      case None => Use(PhiOf(p, f))
  }

  /** A call or return in block b has no folded store for field f. */
  ghost predicate NeedsPhi(fn: Func, b: nat, f: nat) {
    && b < |fn.blocks| && f < fn.nf
    && exists i :: 0 <= i <= |fn.blocks[b].code| && IsSite(fn.blocks[b], i)
                   && Pending(b, fn.blocks[b].code, i, f).None?
  }

  function Edges(fn: Func, f: nat, preds: seq<nat>): (r: seq<(nat, Src)>)
    requires forall p :: p in preds ==> p < |fn.blocks|
    ensures |r| == |preds|
  {
    seq(|preds|, k requires 0 <= k < |preds| => assert preds[k] in preds; (preds[k], WireSrc(fn, preds[k], f)))
  }

  /** One PHI holds exactly one incoming value per predecessor edge. */
  predicate WiredAt(fn: Func, w: Wiring, b: nat, f: nat) {
    && b < |fn.blocks| && f < fn.nf
    && (b, f) in w
    && w[(b, f)] == Edges(fn, f, Preds(fn, b))
  }

  /** Every PHI that a predecessor forwards exists. */
  predicate ClosedAt(fn: Func, w: Wiring, b: nat, f: nat) {
    forall p :: p in Preds(fn, b) ==> Produces(fn, p) || (p, f) in w
  }

  ghost predicate WellWired(fn: Func, w: Wiring) {
    && (forall b: nat, f: nat :: NeedsPhi(fn, b, f) ==> (b, f) in w)
    && (forall b: nat, f: nat :: (b, f) in w ==> WiredAt(fn, w, b, f) && ClosedAt(fn, w, b, f))
  }

  /** The code's "multiple producer in single block" assertion; the entry block's producer are the arguments. */
  ghost predicate SingleSite(fn: Func) {
    forall b: nat, i: nat :: b < |fn.blocks| && IsSite(fn.blocks[b], i) ==>
      b != 0 && forall k: nat :: IsSite(fn.blocks[b], k) ==> k == i
  }

  // ---- The rewritten function --------------------------------------------------------

  /** `escapes` selects between explicit stores and loads, and values wired through PHIs. */
  datatype Plan = Plan(escapes: bool, calls: bool, wires: Wiring)

  function SiteSrc(plan: Plan, b: nat, code: seq<Instr>, i: nat, f: nat): Src
    requires i <= |code|
  {
    match Pending(b, code, i, f)
    case Some(v) => v
    case None =>
      if plan.escapes then Use(Reload(b, i, f))
      else if plan.calls then Use(PhiOf(b, f))
      else Use(Arg(f))
  }

  function SiteSrcs(plan: Plan, nf: nat, b: nat, code: seq<Instr>, i: nat): (r: seq<Src>)
    requires i <= |code|
    ensures |r| == nf
  {
    seq(nf, f requires 0 <= f < nf => SiteSrc(plan, b, code, i, f))
  }

  /** Loads placed before the call or return at i for the fields no store was folded for. */
  function Reloads(plan: Plan, b: nat, code: seq<Instr>, i: nat, n: nat): seq<Instr>
    requires i <= |code|
  {
    if n == 0 || !plan.escapes then []
    else
      Reloads(plan, b, code, i, n - 1) +
      (if Pending(b, code, i, n - 1).None? then [LoadField(Reload(b, i, n - 1), n - 1)] else [])
  }

  /** Calls to a constant guest address name the target symbol directly. */
  function SymbolFor(pc: Src): Option<string> {
    match pc
    case Const(v) => Some("Z" + Digits(v))
    case BaseRel(v) => Some("S" + Digits(v))
    case _ => None
  }

  function TargetFor(srcs: seq<Src>): Target {
    if |srcs| > 0 && SymbolFor(srcs[0]).Some? then Symbol(SymbolFor(srcs[0]).value) else Dispatch
  }

  function ParamsFor(srcs: seq<Src>): (r: seq<Src>)
    ensures |r| == |srcs|
  {
    if |srcs| > 0 && SymbolFor(srcs[0]).Some? then srcs[0 := Undef] else srcs
  }

  function SpillArgs(n: nat): seq<Instr> {
    if n == 0 then [] else SpillArgs(n - 1) + [StoreField(n - 1, Use(Arg(n - 1)))]
  }

  function SpillResults(b: nat, i: nat, n: nat): seq<Instr> {
    if n == 0 then [] else SpillResults(b, i, n - 1) + [StoreField(n - 1, Use(Result(b, i, n - 1)))]
  }

  /** What instruction j becomes. */
  function Expand(plan: Plan, nf: nat, b: nat, bl: Block, j: nat): seq<Instr>
    requires j < |bl.code|
  {
    var x := bl.code[j];
    match x
    case LoadField(d, f) =>
      if FoldedLoad(b, bl.code, j) then [Copy(d, ProducerSrc(b, ProducerAt(b, bl.code, j), f))] else [x]
    case StoreField(_, _) =>
      if FoldedStore(b, bl, j) then [] else [x]
    case CallMem =>
      var srcs := SiteSrcs(plan, nf, b, bl.code, j);
      Reloads(plan, b, bl.code, j, nf) + [CallReg(b, j, TargetFor(srcs), ParamsFor(srcs))] +
      (if plan.escapes then SpillResults(b, j, nf) else [])
    case _ => [x]
  }

  function ExpandUpTo(plan: Plan, nf: nat, b: nat, bl: Block, i: nat): seq<Instr>
    requires i <= |bl.code|
  {
    if i == 0 then (if plan.escapes && b == 0 then SpillArgs(nf) else [])
    else ExpandUpTo(plan, nf, b, bl, i - 1) + Expand(plan, nf, b, bl, i - 1)
  }

  function NewPhis(plan: Plan, b: nat, n: nat): (r: seq<Phi>)
    ensures forall k :: 0 <= k < |r| ==> r[k].d.PhiOf? && r[k].d.b == b && r[k].d.f < n
  {
    if n == 0 || plan.escapes then []
    else
      NewPhis(plan, b, n - 1) +
      (if (b, n - 1) in plan.wires then [Phi(PhiOf(b, n - 1), plan.wires[(b, n - 1)])] else [])
  }

  function RewriteTerm(plan: Plan, nf: nat, b: nat, bl: Block): Term {
    var srcs := SiteSrcs(plan, nf, b, bl.code, |bl.code|);
    match bl.term
    case RetMem => RetReg(srcs)
    case TailMem => TailReg(TargetFor(srcs), ParamsFor(srcs))
    case _ => bl.term
  }

  function TermReloads(plan: Plan, nf: nat, b: nat, bl: Block): seq<Instr> {
    if IsSite(bl, |bl.code|) then Reloads(plan, b, bl.code, |bl.code|, nf) else []
  }

  function RewriteBlock(plan: Plan, nf: nat, b: nat, bl: Block): Block {
    Block(bl.phis + NewPhis(plan, b, nf),
          ExpandUpTo(plan, nf, b, bl, |bl.code|) + TermReloads(plan, nf, b, bl),
          RewriteTerm(plan, nf, b, bl))
  }

  function Rewrite(plan: Plan, fn: Func): (r: Func)
    ensures r.nf == fn.nf && |r.blocks| == |fn.blocks|
  {
    Func(fn.nf, seq(|fn.blocks|, b requires 0 <= b < |fn.blocks| => RewriteBlock(plan, fn.nf, b, fn.blocks[b])))
  }

  ghost predicate PlanFor(plan: Plan, fn: Func) {
    && plan.escapes == Escapes(fn)
    && plan.calls == HasCalls(fn)
    && (!plan.escapes && plan.calls ==> WellWired(fn, plan.wires))
    && (!plan.escapes && !plan.calls ==> plan.wires == map[])
  }

  // ---- What the lifter delivers ------------------------------------------------------

  predicate LiftedSrc(s: Src) {
    s.Const? || s.BaseRel? || (s.Use? && s.n.Reg?)
  }

  predicate LiftedSrcs(ss: seq<Src>) {
    forall k :: 0 <= k < |ss| ==> LiftedSrc(ss[k])
  }

  predicate LiftedInstr(nf: nat, x: Instr) {
    match x
    case Compute(d, _, args) => d.Reg? && LiftedSrcs(args)
    case External(d, _, args, _) => d.Reg? && LiftedSrcs(args)
    case LoadField(d, f) => d.Reg? && f < nf
    case StoreField(f, v) => f < nf && LiftedSrc(v)
    case LoadOther(d, _) => d.Reg?
    case StoreOther(_, v) => LiftedSrc(v)
    case Helper(_) => true
    case CallMem => true
    case CallReg(_, _, _, _) => false
    case Copy(_, _) => false
  }

  predicate LiftedTerm(t: Term, n: nat) {
    match t
    case Branch(cond, targets) =>
      LiftedSrc(cond) && |targets| > 0 && forall k :: 0 <= k < |targets| ==> 0 < targets[k] < n
    case RetMem => true
    case TailMem => true
    case _ => false
  }

  predicate LiftedPhi(p: Phi) {
    p.d.Reg? && forall k :: 0 <= k < |p.inc| ==> LiftedSrc(p.inc[k].1)
  }

  predicate Defines(x: Instr, n: Name) {
    match x
    case Compute(d, _, _) => d == n
    case External(d, _, _, _) => d == n
    case LoadField(d, _) => d == n
    case LoadOther(d, _) => d == n
    case _ => false
  }

  /** SSA within a block: a stored value is not defined again later in the block. */
  predicate Dominated(code: seq<Instr>) {
    forall j, k :: 0 <= j < k < |code| && code[j].StoreField? && code[j].v.Use? ==>
      !Defines(code[k], code[j].v.n)
  }

  ghost predicate LiftedBlock(nf: nat, n: nat, b: nat, bl: Block) {
    && (forall k :: 0 <= k < |bl.phis| ==> LiftedPhi(bl.phis[k]))
    && (forall j :: 0 <= j < |bl.code| ==> LiftedInstr(nf, bl.code[j]))
    && LiftedTerm(bl.term, n)
    && Dominated(bl.code)
    && NoDeadStore(b, bl)
  }

  /**
   A lifted function: SSA form, no edge into the entry block, field 0 exists, and the
   conditions the rewrite asserts. The single-site assertion is only reached when the
   register file does not escape.
   */
  ghost predicate Lifted(fn: Func) {
    && fn.nf > 0 && |fn.blocks| > 0
    && (forall b :: 0 <= b < |fn.blocks| ==> LiftedBlock(fn.nf, |fn.blocks|, b, fn.blocks[b]))
    && (!Escapes(fn) ==> SingleSite(fn))
  }
}
