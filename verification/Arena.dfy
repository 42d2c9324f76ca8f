/**
 The client's memory arena: a bump pointer claimed by compare-and-swap, and a high-water
 mark of backed pages extended under a spin lock, as interleaved steps of any number of
 threads. Every shared load, store and compare-and-swap is one step.
 */
module Arena {
  import opened Arith

  const EINVAL: int := -22
  const ENOMEM: int := -12
  const MIN_ALIGN: int := 0x40

  /** What never changes: the mapped range and the page size. */
  datatype Config = Config(start: int, end: int, page: int)

  predicate ValidConfig(c: Config) {
    0 <= c.start <= c.end && c.page > 0 && c.start % c.page == 0 && c.end % c.page == 0
  }

  /** A claimed region, in the order in which the bump pointer was moved. */
  datatype Region = Region(addr: int, size: nat, align: int)

  /** The arguments of a call. */
  datatype Request = Request(size: nat, align: int)

  function Alignment(rq: Request): int {
    if rq.align < MIN_ALIGN then MIN_ALIGN else rq.align
  }

  /** A finished call: its arguments and the address it returned, which is that of claim k. */
  datatype Return = Return(rq: Request, addr: int, k: nat)

  /** Where a thread stands in arena_alloc. `k` names the region it claimed. */
  datatype Pc =
    | Idle
    | Enter(rq: Request)                            // before the load of brk
    | Loaded(rq: Request, old_brk: int)             // before the compare-and-swap
    | Claimed(rq: Request, k: nat)                  // before the unlocked read of brkp
    | Spin(rq: Request, k: nat)                     // trying to take the lock
    | Locked(rq: Request, k: nat)                   // before the read of brkp under the lock
    | Reread(rq: Request, k: nat, cur: int)         // before mprotect
    | Extended(rq: Request, k: nat, cur: int, to: int)  // before the store of brkp
    | Unlock(rq: Request, k: nat)                   // before the lock is released
    | Failed(rq: Request, code: int)

  datatype State = State(
    brk: int,
    brkp: int,
    locked: bool,
    backed: iset<int>,         // addresses made accessible by mprotect
    claims: seq<Region>,
    done: seq<Return>,
    pcs: map<nat, Pc>)

  function PcOf(s: State, t: nat): Pc {
    if t in s.pcs then s.pcs[t] else Idle
  }

  function Init(c: Config): State {
    State(c.start, c.start, false, iset{}, [], [], map[])
  }

  /** A call with arguments, or the next step of a running call; `spurious` lets a weak CAS fail. */
  datatype Action = Call(rq: Request) | Proceed(spurious: bool)

  function Moved(s: State, t: nat, pc: Pc): State {
    s.(pcs := s.pcs[t := pc])
  }

  predicate Within(lo: int, a: int, hi: int) {
    lo <= a < hi
  }

  ghost function Span(lo: int, hi: int): iset<int> {
    iset a | Within(lo, a, hi)
  }

  function RegionEnd(r: Region): int {
    r.addr + r.size
  }

  function StepCall(s: State, t: nat, rq: Request): State {
    Moved(s, t, if PowerOfTwo(Alignment(rq)) then Enter(rq) else Failed(rq, EINVAL))
  }

  function StepClaim(c: Config, s: State, t: nat, rq: Request, old_brk: int, spurious: bool): State {
    var result := AlignUp(old_brk, Alignment(rq));
    if result + rq.size > c.end then Moved(s, t, Failed(rq, ENOMEM))
    else if s.brk != old_brk || spurious then Moved(s, t, Enter(rq))
    else
      Moved(s, t, Claimed(rq, |s.claims|)).(
        brk := result + rq.size, claims := s.claims + [Region(result, rq.size, Alignment(rq))])
  }

  function Finish(s: State, t: nat, rq: Request, k: nat): State
    requires k < |s.claims|
  {
    Moved(s, t, Idle).(done := s.done + [Return(rq, s.claims[k].addr, k)])
  }

  ghost function StepBack(c: Config, s: State, t: nat, rq: Request, k: nat, cur: int): State
    requires k < |s.claims| && c.page > 0
  {
    var need := RegionEnd(s.claims[k]);
    if need > cur then
      var to := cur + AlignUp(need - cur, c.page);
      Moved(s, t, Extended(rq, k, cur, to)).(backed := s.backed + Span(cur, to))
    else Moved(s, t, Unlock(rq, k))
  }

  /** One atomic step of thread t. A step that is not possible changes nothing. */
  ghost function Step(c: Config, s: State, t: nat, act: Action): State
    requires c.page > 0
  {
    match act
    case Call(rq) =>
      if PcOf(s, t).Idle? || PcOf(s, t).Failed? then StepCall(s, t, rq) else s
    case Proceed(spurious) =>
      match PcOf(s, t)
      case Enter(rq) => Moved(s, t, Loaded(rq, s.brk))
      case Loaded(rq, old_brk) => StepClaim(c, s, t, rq, old_brk, spurious)
      case Claimed(rq, k) =>
        if k >= |s.claims| then s
        else if RegionEnd(s.claims[k]) <= s.brkp then Finish(s, t, rq, k)
        else Moved(s, t, Spin(rq, k))
      case Spin(rq, k) => if s.locked then s else Moved(s, t, Locked(rq, k)).(locked := true)
      case Locked(rq, k) => Moved(s, t, Reread(rq, k, s.brkp))
      case Reread(rq, k, cur) => if k >= |s.claims| then s else StepBack(c, s, t, rq, k, cur)
      case Extended(rq, k, cur, to) => Moved(s, t, Unlock(rq, k)).(brkp := to)
      case Unlock(rq, k) => if k >= |s.claims| then s else Finish(s, t, rq, k).(locked := false)
      case _ => s
  }

  ghost function Run(c: Config, schedule: seq<(nat, Action)>): State
    requires c.page > 0
  {
    if schedule == [] then Init(c)
    else
      var n := |schedule| - 1;
      Step(c, Run(c, schedule[..n]), schedule[n].0, schedule[n].1)
  }

  // ---- Invariant ---------------------------------------------------------------------

  predicate Holding(pc: Pc) {
    pc.Claimed? || pc.Spin? || Critical(pc)
  }

  predicate Critical(pc: Pc) {
    pc.Locked? || pc.Reread? || pc.Extended? || pc.Unlock?
  }

  /** The claims tile the used part of the arena from left to right. */
  ghost predicate Tiled(c: Config, brk: int, claims: seq<Region>) {
    && c.start <= brk <= c.end
    && (forall i :: 0 <= i < |claims| ==>
          && c.start <= claims[i].addr && RegionEnd(claims[i]) <= brk
          && claims[i].align >= MIN_ALIGN && claims[i].addr % claims[i].align == 0)
    && (forall i, j :: 0 <= i < j < |claims| ==> RegionEnd(claims[i]) <= claims[j].addr)
  }

  ghost predicate Backing(c: Config, s: State) {
    && ValidConfig(c)
    && c.start <= s.brkp <= c.end && s.brkp % c.page == 0
    && Span(c.start, s.brkp) <= s.backed
  }

  ghost predicate Returned(s: State, k: nat) {
    exists i :: 0 <= i < |s.done| && s.done[i].k == k
  }

  /** What a thread may rely on at each point. */
  ghost predicate LocalOk(c: Config, s: State, pc: Pc)
    requires c.page > 0
  {
    && (pc.Enter? || pc.Loaded? ==> PowerOfTwo(Alignment(pc.rq)))
    && (pc.Loaded? ==> pc.old_brk <= s.brk)
    && (Holding(pc) ==>
          && pc.k < |s.claims| && !Returned(s, pc.k)
          && s.claims[pc.k].size == pc.rq.size && s.claims[pc.k].align == Alignment(pc.rq))
    && (pc.Reread? ==> pc.cur == s.brkp)
    && (pc.Extended? ==>
          && pc.cur == s.brkp && pc.cur <= pc.to <= c.end && pc.to % c.page == 0
          && RegionEnd(s.claims[pc.k]) <= pc.to
          && Span(c.start, pc.to) <= s.backed)
    && (pc.Unlock? ==> RegionEnd(s.claims[pc.k]) <= s.brkp)
  }

  /** The lock is held exactly while some thread is in the critical section. */
  ghost predicate LockHeld(s: State) {
    s.locked <==> exists t :: t in s.pcs && Critical(s.pcs[t])
  }

  ghost predicate Exclusive(s: State) {
    && LockHeld(s)
    && (forall t, u :: t in s.pcs && u in s.pcs && Critical(s.pcs[t]) && Critical(s.pcs[u]) ==> t == u)
    && (forall t, u :: t in s.pcs && u in s.pcs && Holding(s.pcs[t]) && Holding(s.pcs[u]) && s.pcs[t].k == s.pcs[u].k ==> t == u)
  }

  ghost predicate ReturnOk(s: State, r: Return) {
    && r.k < |s.claims|
    && s.claims[r.k] == Region(r.addr, r.rq.size, Alignment(r.rq))
    && RegionEnd(s.claims[r.k]) <= s.brkp
  }

  ghost predicate Returns(s: State) {
    && (forall i :: 0 <= i < |s.done| ==> ReturnOk(s, s.done[i]))
    && (forall i, j :: 0 <= i < j < |s.done| ==> s.done[i].k != s.done[j].k)
  }

  ghost predicate Inv(c: Config, s: State) {
    && Tiled(c, s.brk, s.claims)
    && Backing(c, s)
    && (forall t :: t in s.pcs ==> LocalOk(c, s, s.pcs[t]))
    && Exclusive(s)
    && Returns(s)
  }

  lemma InitInv(c: Config)
    requires ValidConfig(c)
    ensures Inv(c, Init(c))
  {
  }

  /** Moving one thread, with the shared state only growing, leaves every other thread's facts in place. */
  ghost predicate Grows(c: Config, s: State, s': State) {
    && s.brk <= s'.brk && s.brkp <= s'.brkp
    && s.backed <= s'.backed
    && s.claims <= s'.claims
  }

  lemma GrowsStep(c: Config, s: State, t: nat, act: Action)
    requires ValidConfig(c) && Inv(c, s)
    ensures Grows(c, s, Step(c, s, t, act))
  {
    if t in s.pcs {
      assert LocalOk(c, s, s.pcs[t]);
    }
  }

  /** A claim extends the tiling to the right. */
  lemma TiledClaim(c: Config, brk: int, claims: seq<Region>, size: nat, align: int)
    requires Tiled(c, brk, claims) && align >= MIN_ALIGN
    requires AlignUp(brk, align) + size <= c.end
    ensures Tiled(c, AlignUp(brk, align) + size, claims + [Region(AlignUp(brk, align), size, align)])
  {
  }

  ghost predicate HandsOut(s: State, s': State, k: nat) {
    |s'.done| == |s.done| + 1 && s'.done[..|s.done|] == s.done && s'.done[|s.done|].k == k
  }

  /** A step of t leaves what the other threads rely on in place. */
  lemma OthersLocal(c: Config, s: State, s': State, t: nat, u: nat)
    requires ValidConfig(c) && Inv(c, s) && Grows(c, s, s')
    requires u in s.pcs && u != t
    requires s'.brkp == s.brkp || (t in s.pcs && Critical(s.pcs[t]))
    requires s'.done == s.done || (t in s.pcs && Holding(s.pcs[t]) && HandsOut(s, s', s.pcs[t].k))
    ensures LocalOk(c, s', s.pcs[u])
  {
    assert LocalOk(c, s, s.pcs[u]);
    assert Critical(s.pcs[u]) && t in s.pcs && Critical(s.pcs[t]) ==> t == u;
  }

  /** How a step of t moves it with respect to the lock and the claims. */
  ghost predicate FairMove(s: State, s': State, t: nat, pc: Pc) {
    && s'.pcs == s.pcs[t := pc]
    && (Critical(pc) ==> s'.locked && (Critical(PcOf(s, t)) || !s.locked))
    && (s'.locked != s.locked ==> !s.locked || Critical(PcOf(s, t)))
    && (s'.locked ==> Critical(pc) || (s.locked && !Critical(PcOf(s, t))))
    && (Holding(pc) ==> (Holding(PcOf(s, t)) && pc.k == PcOf(s, t).k) || pc.k >= |s.claims|)
  }

  lemma ExclusiveMove(c: Config, s: State, s': State, t: nat, pc: Pc)
    requires c.page > 0 && Exclusive(s)
    requires forall u :: u in s.pcs ==> LocalOk(c, s, s.pcs[u])
    requires FairMove(s, s', t, pc)
    ensures Exclusive(s')
  {
    forall u | u in s.pcs && Holding(s.pcs[u]) ensures s.pcs[u].k < |s.claims| {
      assert LocalOk(c, s, s.pcs[u]);
    }
    LockMove(s, s', t, pc);
  }

  lemma LockMove(s: State, s': State, t: nat, pc: Pc)
    requires Exclusive(s) && FairMove(s, s', t, pc)
    ensures LockHeld(s')
  {
    if s'.locked {
      if Critical(pc) {
        assert s'.pcs[t] == pc;
      } else {
        var u :| u in s.pcs && Critical(s.pcs[u]);
        assert s'.pcs[u] == s.pcs[u];
      }
    }
  }

  lemma StepMoves(c: Config, s: State, t: nat, act: Action)
    requires c.page > 0 && Exclusive(s) && LocalOk(c, s, PcOf(s, t))
    ensures var s' := Step(c, s, t, act); s' == s || (t in s'.pcs && FairMove(s, s', t, s'.pcs[t]))
  {
    hide AlignUp, PowerOfTwo, Span, Returned;
    assert Critical(PcOf(s, t)) ==> s.locked;
  }

  lemma StepShares(c: Config, s: State, t: nat, act: Action)
    requires c.page > 0 && LocalOk(c, s, PcOf(s, t))
    ensures var s' := Step(c, s, t, act); s'.brkp == s.brkp || Critical(PcOf(s, t))
    ensures var s' := Step(c, s, t, act); s'.done == s.done || (Holding(PcOf(s, t)) && HandsOut(s, s', PcOf(s, t).k))
  {
    hide AlignUp, PowerOfTwo, Span, Returned;
  }

  /** The thread that steps can rely on its own next facts. */
  lemma OwnLocal(c: Config, s: State, t: nat, act: Action)
    requires Tiled(c, s.brk, s.claims) && Backing(c, s) && Returns(s)
    requires LocalOk(c, s, PcOf(s, t))
    ensures var s' := Step(c, s, t, act); LocalOk(c, s', PcOf(s', t))
  {
    var pc := PcOf(s, t);
    if act.Call? {
    } else if pc.Reread? {
      ExtendLocal(c, s, t, act.spurious);
    } else if pc.Loaded? {
      ClaimLocal(c, s, t, act.spurious);
    } else {
      PlainLocal(c, s, t, act.spurious);
    }
  }

  lemma PlainLocal(c: Config, s: State, t: nat, spurious: bool)
    requires ValidConfig(c)
    requires LocalOk(c, s, PcOf(s, t)) && !PcOf(s, t).Loaded? && !PcOf(s, t).Reread?
    ensures var s' := Step(c, s, t, Proceed(spurious)); LocalOk(c, s', PcOf(s', t))
  {
    hide PowerOfTwo, Span;
  }

  lemma ClaimLocal(c: Config, s: State, t: nat, spurious: bool)
    requires ValidConfig(c) && Returns(s)
    requires LocalOk(c, s, PcOf(s, t)) && PcOf(s, t).Loaded?
    ensures var s' := Step(c, s, t, Proceed(spurious)); LocalOk(c, s', PcOf(s', t))
  {
  }

  lemma ExtendLocal(c: Config, s: State, t: nat, spurious: bool)
    requires Tiled(c, s.brk, s.claims) && Backing(c, s)
    requires LocalOk(c, s, PcOf(s, t)) && PcOf(s, t).Reread?
    ensures var s' := Step(c, s, t, Proceed(spurious)); LocalOk(c, s', PcOf(s', t))
  {
    var pc := PcOf(s, t);
    var need := RegionEnd(s.claims[pc.k]);
    if need > pc.cur {
      var grow := AlignUp(need - pc.cur, c.page);
      SumOfMultiples(c.end, pc.cur, c.page);
      AlignUpBelow(need - pc.cur, c.end - pc.cur, c.page);
      SumOfMultiples(pc.cur, grow, c.page);
      assert forall a :: Within(c.start, a, pc.cur + grow) ==>
        Within(c.start, a, s.brkp) || Within(pc.cur, a, pc.cur + grow);
    }
  }

  lemma TiledInv(c: Config, s: State, t: nat, act: Action)
    requires c.page > 0 && Tiled(c, s.brk, s.claims)
    ensures var s' := Step(c, s, t, act); Tiled(c, s'.brk, s'.claims)
  {
    var pc := PcOf(s, t);
    if pc.Loaded? && AlignUp(s.brk, Alignment(pc.rq)) + pc.rq.size <= c.end {
      TiledClaim(c, s.brk, s.claims, pc.rq.size, Alignment(pc.rq));
    }
    hide Tiled, PowerOfTwo, AlignUp, Span;
  }

  lemma BackingInv(c: Config, s: State, t: nat, act: Action)
    requires Backing(c, s) && LocalOk(c, s, PcOf(s, t))
    ensures Backing(c, Step(c, s, t, act))
  {
    hide PowerOfTwo, AlignUp, Span;
  }

  /** A step hands out at most one claim: that of the thread, once the mark is above it. */
  lemma StepHands(c: Config, s: State, t: nat, act: Action)
    requires c.page > 0 && LocalOk(c, s, PcOf(s, t))
    ensures var s', pc := Step(c, s, t, act), PcOf(s, t);
      s'.done != s.done ==>
        && Holding(pc) && RegionEnd(s.claims[pc.k]) <= s.brkp
        && s'.done == s.done + [Return(pc.rq, s.claims[pc.k].addr, pc.k)]
  {
    hide PowerOfTwo, AlignUp, Span;
  }

  lemma ReturnsKept(c: Config, s: State, s': State)
    requires Returns(s) && Grows(c, s, s') && s'.done == s.done
    ensures Returns(s')
  {
    forall i | 0 <= i < |s'.done| ensures ReturnOk(s', s'.done[i]) {
      assert ReturnOk(s, s.done[i]);
    }
  }

  lemma ReturnsOneMore(c: Config, s: State, s': State, pc: Pc)
    requires Returns(s) && Grows(c, s, s') && c.page > 0 && LocalOk(c, s, pc) && Holding(pc)
    requires RegionEnd(s.claims[pc.k]) <= s.brkp
    requires s'.done == s.done + [Return(pc.rq, s.claims[pc.k].addr, pc.k)]
    ensures Returns(s')
  {
    forall i | 0 <= i < |s'.done| ensures ReturnOk(s', s'.done[i]) {
      if i < |s.done| { assert ReturnOk(s, s.done[i]); }
    }
  }

  lemma ReturnsInv(c: Config, s: State, t: nat, act: Action)
    requires ValidConfig(c) && Inv(c, s) && LocalOk(c, s, PcOf(s, t))
    ensures Returns(Step(c, s, t, act))
  {
    GrowsStep(c, s, t, act);
    StepHands(c, s, t, act);
    hide Step, LocalOk, Returns, Grows;
    var s' := Step(c, s, t, act);
    if s'.done == s.done {
      ReturnsKept(c, s, s');
    } else {
      ReturnsOneMore(c, s, s', PcOf(s, t));
    }
  }

  lemma StepInv(c: Config, s: State, t: nat, act: Action)
    requires ValidConfig(c) && Inv(c, s)
    ensures Inv(c, Step(c, s, t, act))
  {
    var s' := Step(c, s, t, act);
    if s' != s {
      assert t in s.pcs ==> LocalOk(c, s, s.pcs[t]);
      GrowsStep(c, s, t, act);
      StepMoves(c, s, t, act);
      StepShares(c, s, t, act);
      TiledInv(c, s, t, act);
      BackingInv(c, s, t, act);
      ReturnsInv(c, s, t, act);
      OwnLocal(c, s, t, act);
      ExclusiveMove(c, s, s', t, s'.pcs[t]);
      forall u | u in s'.pcs ensures LocalOk(c, s', s'.pcs[u]) {
        if u != t { OthersLocal(c, s, s', t, u); }
      }
    }
  }

  lemma {:induction false} RunInv(c: Config, schedule: seq<(nat, Action)>)
    requires ValidConfig(c)
    ensures Inv(c, Run(c, schedule))
  {
    if schedule == [] {
      InitInv(c);
    } else {
      var n := |schedule| - 1;
      RunInv(c, schedule[..n]);
      StepInv(c, Run(c, schedule[..n]), schedule[n].0, schedule[n].1);
    }
  }

  // ---- What callers get, over every schedule of any number of threads -----------------

  /** Regions handed out to different calls never overlap. */
  lemma ResultsDisjoint(c: Config, schedule: seq<(nat, Action)>, i: nat, j: nat)
    requires ValidConfig(c)
    requires i < |Run(c, schedule).done| && j < |Run(c, schedule).done| && i != j
    ensures var d := Run(c, schedule).done;
            d[i].addr + d[i].rq.size <= d[j].addr || d[j].addr + d[j].rq.size <= d[i].addr
  {
    RunInv(c, schedule);
    var s := Run(c, schedule);
    assert ReturnOk(s, s.done[i]) && ReturnOk(s, s.done[j]);
    assert s.done[i].k != s.done[j].k by {
      if i < j { assert s.done[i].k != s.done[j].k; } else { assert s.done[j].k != s.done[i].k; }
    }
  }

  /** A returned region is aligned as asked, lies inside the arena, and is backed, whatever path the call took. */
  lemma ResultsUsable(c: Config, schedule: seq<(nat, Action)>, i: nat)
    requires ValidConfig(c)
    requires i < |Run(c, schedule).done|
    ensures var s := Run(c, schedule);
            var r := s.done[i];
            && Alignment(r.rq) >= MIN_ALIGN && Alignment(r.rq) >= r.rq.align && r.addr % Alignment(r.rq) == 0
            && c.start <= r.addr && r.addr + r.rq.size <= c.end
            && r.addr + r.rq.size <= s.brkp
            && (forall a :: r.addr <= a < r.addr + r.rq.size ==> a in s.backed)
  {
    RunInv(c, schedule);
    var s := Run(c, schedule);
    var r := s.done[i];
    assert ReturnOk(s, r);
    forall a | r.addr <= a < r.addr + r.rq.size ensures a in s.backed {
      assert Within(c.start, a, s.brkp);
      assert a in Span(c.start, s.brkp);
    }
  }

  /** The high-water mark is page-aligned, inside the arena, and everything below it is accessible. */
  lemma HighWaterMark(c: Config, schedule: seq<(nat, Action)>, a: int)
    requires ValidConfig(c)
    ensures var s := Run(c, schedule);
            && c.start <= s.brk <= c.end
            && c.start <= s.brkp <= c.end && s.brkp % c.page == 0
            && (c.start <= a < s.brkp ==> a in s.backed)
  {
    RunInv(c, schedule);
    var s := Run(c, schedule);
    assert Within(c.start, a, s.brkp) ==> a in Span(c.start, s.brkp);
  }

  /** At most one thread is between taking and releasing the lock, and the lock is held exactly if one is. */
  lemma MutualExclusion(c: Config, schedule: seq<(nat, Action)>)
    requires ValidConfig(c)
    ensures var s := Run(c, schedule);
      && (forall t, u :: Critical(PcOf(s, t)) && Critical(PcOf(s, u)) ==> t == u)
      && (s.locked <==> exists t :: Critical(PcOf(s, t)))
  {
    RunInv(c, schedule);
    var s := Run(c, schedule);
    if s.locked {
      var t :| t in s.pcs && Critical(s.pcs[t]);
      assert Critical(PcOf(s, t));
    }
  }

  lemma DoneGrows(c: Config, s: State, t: nat, act: Action)
    requires c.page > 0 && Inv(c, s)
    ensures s.done <= Step(c, s, t, act).done
  {
    assert t in s.pcs ==> LocalOk(c, s, s.pcs[t]);
    StepShares(c, s, t, act);
  }

  /** Neither pointer ever moves back, and what was handed out stays handed out. */
  lemma {:induction false} Monotone(c: Config, schedule: seq<(nat, Action)>, more: seq<(nat, Action)>)
    requires ValidConfig(c)
    ensures var s, s' := Run(c, schedule), Run(c, schedule + more);
            s.brk <= s'.brk && s.brkp <= s'.brkp && s.done <= s'.done
    decreases |more|
  {
    hide Step, Inv;
    if more == [] {
      assert schedule + more == schedule;
    } else {
      var n := |more| - 1;
      var all := schedule + more;
      assert all[..|all| - 1] == schedule + more[..n];
      Monotone(c, schedule, more[..n]);
      RunInv(c, schedule + more[..n]);
      GrowsStep(c, Run(c, schedule + more[..n]), more[n].0, more[n].1);
      DoneGrows(c, Run(c, schedule + more[..n]), more[n].0, more[n].1);
    }
  }

  lemma AlignUpMonotone(v: int, w: int, a: int)
    requires a > 0 && v <= w
    ensures AlignUp(v, a) <= AlignUp(w, a)
  {
    AlignUpBelow(v, AlignUp(w, a), a);
  }

  /** A call fails only on an alignment that is no power of two, or when the request no longer fits. */
  lemma FailureReason(c: Config, schedule: seq<(nat, Action)>, t: nat, act: Action)
    requires ValidConfig(c)
    requires !PcOf(Run(c, schedule), t).Failed?
    requires PcOf(Step(c, Run(c, schedule), t, act), t).Failed?
    ensures var s := Run(c, schedule);
            var f := PcOf(Step(c, s, t, act), t);
            if f.code == EINVAL then !PowerOfTwo(Alignment(f.rq))
            else f.code == ENOMEM && PowerOfTwo(Alignment(f.rq)) && AlignUp(s.brk, Alignment(f.rq)) + f.rq.size > c.end
  {
    RunInv(c, schedule);
    var s := Run(c, schedule);
    if act.Proceed? {
      var pc := PcOf(s, t);
      assert LocalOk(c, s, pc);
      AlignUpMonotone(pc.old_brk, s.brk, Alignment(pc.rq));
    }
  }

  // ---- Every call comes to its end ---------------------------------------------------

  predicate InCall(pc: Pc) {
    !pc.Idle? && !pc.Failed?
  }

  datatype Result = Address(addr: int) | Refused(code: int)

  /** What a call that has got this far returns if nobody else claims anything first. */
  function Outcome(c: Config, s: State, pc: Pc): Result
    requires InCall(pc)
  {
    if pc.Enter? || pc.Loaded? then
      var addr := AlignUp(s.brk, Alignment(pc.rq));
      if addr + pc.rq.size <= c.end then Address(addr) else Refused(ENOMEM)
    else Address(if 0 <= pc.k < |s.claims| then s.claims[pc.k].addr else 0)
  }

  /** The call has ended so: its address is the last one handed out, or it has failed and nothing was handed out. */
  predicate Ended(s: State, s': State, t: nat, rq: Request, r: Result) {
    match r
    case Address(addr) =>
      && PcOf(s', t).Idle? && |s'.done| == |s.done| + 1
      && s'.done[|s.done|].rq == rq && s'.done[|s.done|].addr == addr
    case Refused(code) => PcOf(s', t) == Failed(rq, code) && s'.done == s.done
  }

  predicate Alone(s: State, t: nat) {
    forall u :: u in s.pcs && Critical(s.pcs[u]) ==> u == t
  }

  /** Steps to go. A stale load of brk costs one more round. */
  function ToGo(s: State, pc: Pc): nat {
    match pc
    case Enter(_) => 8
    case Loaded(_, old_brk) => if old_brk == s.brk then 7 else 9
    case Claimed(_, _) => 6
    case Spin(_, _) => 5
    case Locked(_, _) => 4
    case Reread(_, _, _) => 3
    case Extended(_, _, _, _) => 2
    case Unlock(_, _) => 1
    case _ => 0
  }

  /** The thread moves on its own: the others stay where they are, and once it has its region, so do claims and brk. */
  ghost predicate Apart(s: State, s': State, t: nat) {
    && (forall u :: u != t ==> PcOf(s', u) == PcOf(s, u))
    && (Holding(PcOf(s, t)) ==> s'.brk == s.brk && s'.claims == s.claims)
    && s.done <= s'.done
  }

  /** The call goes on towards the same result. */
  ghost predicate Onward(c: Config, s: State, s': State, t: nat) {
    var pc, pc' := PcOf(s, t), PcOf(s', t);
    && InCall(pc) && InCall(pc') && pc'.rq == pc.rq && ToGo(s', pc') < ToGo(s, pc)
    && Outcome(c, s', pc') == Outcome(c, s, pc) && s'.done == s.done && Alone(s', t)
    && (Holding(pc) ==> Holding(pc'))
  }

  lemma StepApart(c: Config, s: State, t: nat)
    requires c.page > 0
    ensures Apart(s, Step(c, s, t, Proceed(false)), t)
  {
    hide PowerOfTwo, AlignUp, Span;
    var s' := Step(c, s, t, Proceed(false));
    assert s'.pcs == s.pcs || s'.pcs == s.pcs[t := PcOf(s', t)];
  }

  lemma ClaimOnward(c: Config, s: State, t: nat)
    requires ValidConfig(c) && Inv(c, s) && Alone(s, t) && PcOf(s, t).Loaded?
    ensures var s' := Step(c, s, t, Proceed(false));
      Onward(c, s, s', t) || Ended(s, s', t, PcOf(s, t).rq, Outcome(c, s, PcOf(s, t)))
  {
    var pc := PcOf(s, t);
    assert LocalOk(c, s, pc);
    AlignUpMonotone(pc.old_brk, s.brk, Alignment(pc.rq));
    hide PowerOfTwo, AlignUp, Inv;
  }

  lemma OtherOnward(c: Config, s: State, t: nat)
    requires ValidConfig(c) && Inv(c, s) && Alone(s, t) && InCall(PcOf(s, t)) && !PcOf(s, t).Loaded?
    ensures var s' := Step(c, s, t, Proceed(false));
      Onward(c, s, s', t) || Ended(s, s', t, PcOf(s, t).rq, Outcome(c, s, PcOf(s, t)))
  {
    var pc := PcOf(s, t);
    assert LocalOk(c, s, pc);
    assert pc.Spin? ==> !s.locked;
    hide PowerOfTwo, AlignUp, Inv, Span;
  }

  lemma RunThen(c: Config, schedule: seq<(nat, Action)>, t: nat, act: Action)
    requires c.page > 0
    ensures Run(c, schedule + [(t, act)]) == Step(c, Run(c, schedule), t, act)
  {
    var all := schedule + [(t, act)];
    assert all[..|all| - 1] == schedule;
  }

  predicate StepsOf(later: seq<(nat, Action)>, t: nat) {
    forall i :: 0 <= i < |later| ==> later[i] == (t, Proceed(false))
  }

  lemma OnwardAlone(c: Config, s: State, s': State, t: nat)
    requires Onward(c, s, s', t)
    ensures InCall(PcOf(s', t)) && Alone(s', t) && ToGo(s', PcOf(s', t)) < ToGo(s, PcOf(s, t))
  {
    hide Outcome, ToGo, Alone;
  }

  lemma EndedLater(c: Config, s: State, s': State, s'': State, t: nat)
    requires Onward(c, s, s', t) && Apart(s, s', t) && Apart(s', s'', t)
    requires Ended(s', s'', t, PcOf(s', t).rq, Outcome(c, s', PcOf(s', t)))
    ensures Ended(s, s'', t, PcOf(s, t).rq, Outcome(c, s, PcOf(s, t))) && Apart(s, s'', t)
  {
    hide Outcome, ToGo, Alone;
  }

  /** If no other thread holds the lock, a thread ends its call on its own, with the result that is due to it. */
  lemma {:induction false} AloneEnds(c: Config, schedule: seq<(nat, Action)>, t: nat) returns (later: seq<(nat, Action)>)
    requires ValidConfig(c)
    requires var s := Run(c, schedule); InCall(PcOf(s, t)) && Alone(s, t)
    ensures StepsOf(later, t)
    ensures var s, s' := Run(c, schedule), Run(c, schedule + later);
      Ended(s, s', t, PcOf(s, t).rq, Outcome(c, s, PcOf(s, t))) && Apart(s, s', t)
    decreases ToGo(Run(c, schedule), PcOf(Run(c, schedule), t))
  {
    RunInv(c, schedule);
    var s, next := Run(c, schedule), schedule + [(t, Proceed(false))];
    RunThen(c, schedule, t, Proceed(false));
    StepApart(c, s, t);
    hide Run, Step, Inv, Outcome, ToGo;
    if PcOf(s, t).Loaded? {
      ClaimOnward(c, s, t);
    } else {
      OtherOnward(c, s, t);
    }
    hide Apart, Alone, Ended;
    if Onward(c, s, Run(c, next), t) {
      OnwardAlone(c, s, Run(c, next), t);
      var rest := AloneEnds(c, next, t);
      later := [(t, Proceed(false))] + rest;
      assert schedule + later == next + rest;
      EndedLater(c, s, Run(c, next), Run(c, next + rest), t);
    } else {
      later := [(t, Proceed(false))];
    }
  }

  /** A thread that holds the lock does not change what another's call returns. */
  lemma SameOutcome(c: Config, s: State, s': State, t: nat, u: nat)
    requires t != u && InCall(PcOf(s, t)) && Critical(PcOf(s, u)) && Apart(s, s', u)
    ensures PcOf(s', t) == PcOf(s, t) && Outcome(c, s', PcOf(s', t)) == Outcome(c, s, PcOf(s, t))
  {
  }

  lemma NobodyLeft(s: State, s': State, t: nat, u: nat)
    requires Exclusive(s) && Critical(PcOf(s, u)) && Apart(s, s', u) && !Critical(PcOf(s', u))
    ensures Alone(s', t)
  {
    assert forall v :: Critical(PcOf(s, v)) ==> v == u;
    assert forall v :: v in s'.pcs ==> s'.pcs[v] == PcOf(s', v);
  }

  /**
   From every moment of every run, every call can be brought to its end: first the thread that holds the lock ends its
   own, if there is another one, and then the thread gets what was due to it.
   */
  lemma CallEnds(c: Config, schedule: seq<(nat, Action)>, t: nat)
    returns (u: nat, first: seq<(nat, Action)>, later: seq<(nat, Action)>)
    requires ValidConfig(c) && InCall(PcOf(Run(c, schedule), t))
    ensures StepsOf(first, u) && StepsOf(later, t) && (Alone(Run(c, schedule), t) ==> first == [])
    ensures var s := Run(c, schedule);
      Ended(Run(c, schedule + first), Run(c, schedule + first + later), t, PcOf(s, t).rq, Outcome(c, s, PcOf(s, t)))
  {
    RunInv(c, schedule);
    hide Run, Outcome;
    var s := Run(c, schedule);
    if Alone(s, t) {
      u, first := t, [];
      assert schedule + first == schedule;
    } else {
      u :| u in s.pcs && Critical(s.pcs[u]) && u != t;
      first := AloneEnds(c, schedule, u);
      SameOutcome(c, s, Run(c, schedule + first), t, u);
      NobodyLeft(s, Run(c, schedule + first), t, u);
    }
    later := AloneEnds(c, schedule + first, t);
  }

  /** What arena_alloc owes for a request. */
  function Due(c: Config, s: State, rq: Request): Result {
    if !PowerOfTwo(Alignment(rq)) then Refused(EINVAL)
    else if AlignUp(s.brk, Alignment(rq)) + rq.size > c.end then Refused(ENOMEM)
    else Address(AlignUp(s.brk, Alignment(rq)))
  }

  lemma CallStarts(c: Config, s: State, t: nat, rq: Request)
    requires c.page > 0 && !InCall(PcOf(s, t))
    ensures var s' := Step(c, s, t, Call(rq)); var pc := PcOf(s', t);
      && s'.done == s.done
      && (if PowerOfTwo(Alignment(rq)) then InCall(pc) && pc.rq == rq && Outcome(c, s', pc) == Due(c, s, rq)
          else pc == Failed(rq, EINVAL) && Due(c, s, rq) == Refused(EINVAL))
  {
  }

  /** Whatever has happened before, a call can be carried through, and returns what it owes for the request. */
  lemma AllocReturns(c: Config, schedule: seq<(nat, Action)>, t: nat, rq: Request)
    returns (u: nat, first: seq<(nat, Action)>, later: seq<(nat, Action)>)
    requires ValidConfig(c) && !InCall(PcOf(Run(c, schedule), t))
    ensures StepsOf(first, u) && StepsOf(later, t)
    ensures var next := schedule + [(t, Call(rq))];
      Ended(Run(c, next + first), Run(c, next + first + later), t, rq, Due(c, Run(c, schedule), rq))
  {
    var s, next := Run(c, schedule), schedule + [(t, Call(rq))];
    RunThen(c, schedule, t, Call(rq));
    hide Run, Step, Outcome;
    CallStarts(c, s, t, rq);
    if PowerOfTwo(Alignment(rq)) {
      u, first, later := CallEnds(c, next, t);
    } else {
      u, first, later := t, [], [];
      assert next + first == next && next + first + later == next;
    }
  }
}
