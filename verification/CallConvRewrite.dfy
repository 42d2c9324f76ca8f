/**
 The rewrite as the server runs it: scans that fold loads and stores, the escape
 analysis, the PHI worklist, and the construction of the new function.
 */
module CallConvRewrite {
  import opened Common
  import opened Octal
  import opened CallConvIr
  import opened CallConvPass
  import opened CallConvProof

  // ---- Folding loads -----------------------------------------------------------------

  /** A producer's values are available from position s: the entry of the function, or just after a call. */
  predicate StartsProducer(b: nat, code: seq<Instr>, s: nat) {
    s <= |code| && ((b == 0 && s == 0) || (s > 0 && code[s - 1].CallMem?))
  }

  ghost function LoadsFrom(b: nat, code: seq<Instr>, s: nat): set<nat>
    requires StartsProducer(b, code, s)
  {
    set j: nat | s <= j < |code| && code[j].LoadField? && ProducerAt(b, code, j) == ProducerAt(b, code, s)
  }

  lemma {:induction false} ProducerLost(b: nat, code: seq<Instr>, s: nat, k: nat, j: nat)
    requires StartsProducer(b, code, s)
    requires s <= k < j <= |code| && MayWrite(code[k])
    ensures ProducerAt(b, code, j) != ProducerAt(b, code, s)
    decreases j
  {
    if !MayWrite(code[j - 1]) {
      ProducerLost(b, code, s, k, j - 1);
    }
  }

  method FoldLoads(b: nat, code: seq<Instr>, s: nat) returns (dead: set<nat>)
    requires StartsProducer(b, code, s)
    ensures dead == LoadsFrom(b, code, s)
  {
    dead := {};
    var j := s;
    while j < |code| && !MayWrite(code[j])
      invariant s <= j <= |code|
      invariant ProducerAt(b, code, j) == ProducerAt(b, code, s)
      invariant dead == set k: nat | s <= k < j && k in LoadsFrom(b, code, s)
    {
      if code[j].LoadField? {
        dead := dead + {j};
      }
      j := j + 1;
    }
    if j < |code| {
      forall k: nat | j < k < |code| ensures k !in LoadsFrom(b, code, s) {
        ProducerLost(b, code, s, j, k);
      }
    }
  }

  lemma {:induction false} ProducerStart(b: nat, code: seq<Instr>, j: nat) returns (s: nat)
    requires j <= |code| && !ProducerAt(b, code, j).NoProducer?
    ensures s <= j && StartsProducer(b, code, s) && ProducerAt(b, code, s) == ProducerAt(b, code, j)
  {
    if StartsProducer(b, code, j) {
      s := j;
    } else {
      s := ProducerStart(b, code, j - 1);
    }
  }

  /** All loads of a block that are replaced by an argument or a call result. */
  method FoldBlockLoads(b: nat, code: seq<Instr>) returns (dead: set<nat>)
    ensures forall j: nat :: j in dead <==> FoldedLoad(b, code, j)
  {
    dead := {};
    for s := 0 to |code| + 1
      invariant forall j :: j in dead ==> FoldedLoad(b, code, j)
      invariant forall t: nat :: t < s && StartsProducer(b, code, t) ==> LoadsFrom(b, code, t) <= dead
    {
      if (b == 0 && s == 0) || (s > 0 && code[s - 1].CallMem?) {
        var found := FoldLoads(b, code, s);
        dead := dead + found;
      }
    }
    forall j: nat | FoldedLoad(b, code, j) ensures j in dead {
      var t := ProducerStart(b, code, j);
      assert j in LoadsFrom(b, code, t);
    }
  }

  // ---- Folding stores ----------------------------------------------------------------

  /** Nothing between j and i ends the search. */
  ghost predicate Open(b: nat, code: seq<Instr>, j: nat, i: nat)
    requires i <= |code|
  {
    forall k: nat :: j <= k < i ==> !Stops(b, code, k)
  }

  ghost function StoresInto(b: nat, bl: Block, i: nat): set<nat>
    requires i <= |bl.code|
  {
    set j: nat | j < i && bl.code[j].StoreField? && Open(b, bl.code, j + 1, i)
  }

  lemma {:induction false} OpenReaches(b: nat, bl: Block, j: nat, i: nat)
    requires j <= i <= |bl.code| && IsSite(bl, i) && Open(b, bl.code, j, i)
    ensures ReachesSite(b, bl, j)
    decreases i - j
  {
    if j < i {
      assert !Stops(b, bl.code, j);
      OpenReaches(b, bl, j + 1, i);
    }
  }

  lemma {:induction false} ReachesOpen(b: nat, bl: Block, j: nat) returns (i: nat)
    requires j <= |bl.code| && ReachesSite(b, bl, j)
    ensures j <= i <= |bl.code| && IsSite(bl, i) && Open(b, bl.code, j, i)
    decreases |bl.code| - j
  {
    if IsSite(bl, j) {
      i := j;
    } else {
      i := ReachesOpen(b, bl, j + 1);
    }
  }

  lemma {:induction false} NotAgain(b: nat, bl: Block, j: nat, k: nat, i: nat, f: nat)
    requires j <= k < i <= |bl.code| && Open(b, bl.code, j, i)
    requires FirstAgain(b, bl, j, f)
    ensures !(bl.code[k].StoreField? && bl.code[k].f == f)
    decreases k - j
  {
    assert !Stops(b, bl.code, j);
    if j < k {
      NotAgain(b, bl, j + 1, k, i, f);
    }
  }

  /** The values stored for a call or return, found by walking backwards from it. */
  method FoldStores(nf: nat, n: nat, b: nat, bl: Block, i: nat) returns (vals: seq<Option<Src>>, dead: set<nat>)
    requires LiftedBlock(nf, n, b, bl)
    requires i <= |bl.code| && IsSite(bl, i)
    ensures |vals| == nf
    ensures forall f :: 0 <= f < nf ==> vals[f] == Pending(b, bl.code, i, f)
    ensures dead == StoresInto(b, bl, i)
  {
    vals := seq(nf, _ => None);
    dead := {};
    var j := i;
    while j > 0 && !Stops(b, bl.code, j - 1)
      invariant 0 <= j <= i && |vals| == nf
      invariant Open(b, bl.code, j, i)
      invariant forall f: nat :: f < nf ==>
        Pending(b, bl.code, i, f) == if vals[f].Some? then vals[f] else Pending(b, bl.code, j, f)
      invariant forall f: nat :: f < nf && vals[f].Some? ==>
        exists k: nat :: j <= k < i && bl.code[k].StoreField? && bl.code[k].f == f
      invariant dead == set k: nat | j <= k < i && k in StoresInto(b, bl, i)
    {
      var x := bl.code[j - 1];
      assert LiftedInstr(nf, x);
      if x.StoreField? {
        assert vals[x.f].None? by {   // the code's "dead store" assertion
          OpenReaches(b, bl, j, i);
          assert FoldedStore(b, bl, j - 1);
          if vals[x.f].Some? {
            var k: nat :| j <= k < i && bl.code[k].StoreField? && bl.code[k].f == x.f;
            NotAgain(b, bl, j, k, i, x.f);
          }
        }
        vals := vals[x.f := Some(x.v)];
        dead := dead + {j - 1};
      }
      j := j - 1;
    }
    forall k: nat | k < j ensures k !in StoresInto(b, bl, i) {
      if k < j - 1 {
        assert Stops(b, bl.code, j - 1);
      }
    }
  }

  ghost predicate ValsAt(nf: nat, b: nat, bl: Block, i: nat, vals: seq<Option<Src>>) {
    && i <= |bl.code| && |vals| == nf
    && forall f: nat :: f < nf ==> vals[f] == Pending(b, bl.code, i, f)
  }

  /** The values found for every call and return of a block. */
  ghost predicate Gathered(nf: nat, b: nat, bl: Block, vals: map<nat, seq<Option<Src>>>) {
    && (forall i: nat :: i in vals <==> IsSite(bl, i))
    && (forall i: nat :: i in vals ==> ValsAt(nf, b, bl, i, vals[i]))
  }

  /** All stores of a block that are folded into some call or return, with the values per call or return. */
  method FoldBlockStores(nf: nat, n: nat, b: nat, bl: Block) returns (vals: map<nat, seq<Option<Src>>>, dead: set<nat>)
    requires LiftedBlock(nf, n, b, bl)
    ensures Gathered(nf, b, bl, vals)
    ensures forall j: nat :: j in dead <==> FoldedStore(b, bl, j)
  {
    vals, dead := map[], {};
    for i := 0 to |bl.code| + 1
      invariant forall k: nat :: k in vals <==> k < i && IsSite(bl, k)
      invariant forall k: nat :: k in vals ==> ValsAt(nf, b, bl, k, vals[k])
      invariant forall j: nat :: j in dead ==> FoldedStore(b, bl, j)
      invariant forall k: nat :: k < i && IsSite(bl, k) ==> StoresInto(b, bl, k) <= dead
    {
      if IsSite(bl, i) {
        var v, d := FoldStores(nf, n, b, bl, i);
        forall j: nat | j in d ensures FoldedStore(b, bl, j) {
          OpenReaches(b, bl, j + 1, i);
        }
        vals, dead := vals[i := v], dead + d;
      }
    }
    forall j: nat | FoldedStore(b, bl, j) ensures j in dead {
      var i := ReachesOpen(b, bl, j + 1);
      assert j in StoresInto(b, bl, i);
    }
  }

  // ---- Escape analysis ---------------------------------------------------------------

  /** Whether the block still reads the register file or hands it out, and the field stores seen on the way. */
  method FindEscape(b: nat, bl: Block, deadLoads: set<nat>) returns (escapes: bool, stores: set<nat>)
    requires forall j: nat :: j in deadLoads <==> FoldedLoad(b, bl.code, j)
    ensures escapes ==> BlockEscapes(b, bl)
    ensures !escapes ==> stores == set j: nat | j < |bl.code| && bl.code[j].StoreField?
    ensures !escapes ==> forall j: nat :: j < |bl.code| && !bl.code[j].StoreField? ==> !Keeps(b, bl, j)
  {
    escapes, stores := false, {};
    for j := 0 to |bl.code|
      invariant !escapes
      invariant stores == set k: nat | k < j && bl.code[k].StoreField?
      invariant forall k: nat :: k < j && !bl.code[k].StoreField? ==> !Keeps(b, bl, k)
    {
      match bl.code[j] {
        case Helper(_) =>
          assert Keeps(b, bl, j);
          return true, stores;
        case LoadField(_, _) =>
          if j !in deadLoads {
            assert Keeps(b, bl, j);
            return true, stores;
          }
        case StoreField(_, _) =>
          stores := stores + {j};
        case _ =>
      }
    }
  }

  // ---- PHI wiring --------------------------------------------------------------------

  type Key = (nat, nat)

  ghost predicate InRange(fn: Func, k: Key) {
    k.0 < |fn.blocks| && k.1 < fn.nf
  }

  ghost predicate Finished(fn: Func, w: Wiring, k: Key) {
    WiredAt(fn, w, k.0, k.1) && ClosedAt(fn, w, k.0, k.1)
  }

  /** The state of the worklist: queued PHIs have no incoming value yet, all others are complete. */
  ghost predicate Progress(fn: Func, w: Wiring, queue: seq<Key>) {
    && (forall k :: k in w ==> InRange(fn, k))
    && (forall k :: k in queue ==> k in w && w[k] == [])
    && (forall i, j :: 0 <= i < j < |queue| ==> queue[i] != queue[j])
    && (forall k :: k in w && k !in queue ==> Finished(fn, w, k))
  }

  ghost function AllKeys(fn: Func): set<Key> {
    set b: nat, f: nat | b < |fn.blocks| && f < fn.nf :: (b, f)
  }

  /** Growing the set of PHIs keeps finished ones finished. */
  lemma FinishedGrows(fn: Func, w: Wiring, w': Wiring, k: Key)
    requires Finished(fn, w, k)
    requires w.Keys <= w'.Keys && k in w' && w'[k] == w[k]
    ensures Finished(fn, w', k)
  {
  }

  lemma EdgesAppend(fn: Func, f: nat, preds: seq<nat>, p: nat)
    requires forall q :: q in preds ==> q < |fn.blocks|
    requires p < |fn.blocks|
    ensures forall q :: q in preds + [p] ==> q < |fn.blocks|
    ensures Edges(fn, f, preds + [p]) == Edges(fn, f, preds) + [(p, WireSrc(fn, p, f))]
  {
  }

  /** Creating a PHI without incoming values and queueing it. */
  lemma AddPhi(fn: Func, w: Wiring, queue: seq<Key>, k: Key, parent: Key)
    requires Progress(fn, w, queue + [k])
    requires InRange(fn, parent) && parent !in w
    ensures Progress(fn, w[parent := []], queue + [parent] + [k])
  {
    var w', q := w[parent := []], queue + [parent] + [k];
    assert forall j :: j in q <==> j in queue + [k] || j == parent;
    assert parent !in queue + [k];
    assert forall i :: 0 <= i < |queue| ==> (queue + [k])[i] == queue[i];
    forall j | j in w' && j !in q ensures Finished(fn, w', j) {
      FinishedGrows(fn, w, w', j);
    }
    assert (queue + [k])[|queue|] == k;
    forall i, j | 0 <= i < j < |q| ensures q[i] != q[j] {
      if i < |queue| {
        assert (queue + [k])[i] != k;
        if j < |queue| { assert (queue + [k])[i] != (queue + [k])[j]; }
      }
    }
  }

  /** Giving a popped PHI its incoming values. */
  lemma CompletePhi(fn: Func, w: Wiring, queue: seq<Key>, k: Key, inc: seq<(nat, Src)>)
    requires Progress(fn, w, queue + [k]) && k !in queue
    requires inc == Edges(fn, k.1, Preds(fn, k.0))
    requires forall q :: q in Preds(fn, k.0) ==> Produces(fn, q) || (q, k.1) in w
    ensures Progress(fn, w[k := inc], queue)
  {
    var w' := w[k := inc];
    assert k in queue + [k];
    assert forall j :: j in queue ==> j in queue + [k];
    forall j | j in w' && j !in queue ensures Finished(fn, w', j) {
      if j != k {
        assert j !in queue + [k];
        FinishedGrows(fn, w, w', j);
      }
    }
    assert forall i :: 0 <= i < |queue| ==> (queue + [k])[i] == queue[i];
  }

  lemma QueuedEmpty(fn: Func, w: Wiring, queue: seq<Key>, k: Key)
    requires Progress(fn, w, queue) && k in queue
    ensures k in w && w[k] == []
  {
  }

  lemma ProgressKeys(fn: Func, w: Wiring, queue: seq<Key>)
    requires Progress(fn, w, queue)
    ensures w.Keys <= AllKeys(fn)
  {
  }

  /** What the blocks deliver to their successors: the arguments, or the results of their call. */
  ghost predicate Producers(fn: Func, last: map<nat, Option<nat>>) {
    forall p: nat :: p < |fn.blocks| && fn.blocks[p].term.Branch? ==>
      && (p in last <==> Produces(fn, p))
      && (p in last ==> last[p] == if p == 0 then None else FirstCall(fn.blocks[p].code))
  }

  /** GetValue: field f of the given producer. */
  function ValueOf(p: nat, producer: Option<nat>, f: nat): Src {
    match producer
    case None => Use(Arg(f))
    case Some(i) => Use(Result(p, i, f))
  }

  /** Complete one PHI: one incoming value per predecessor edge, creating the PHIs it forwards. */
  method WireOne(fn: Func, last: map<nat, Option<nat>>, k: Key, w0: Wiring, queue0: seq<Key>)
    returns (w: Wiring, queue: seq<Key>)
    requires Producers(fn, last)
    requires InRange(fn, k) && k in w0 && k !in queue0
    requires Progress(fn, w0, queue0 + [k])
    ensures Progress(fn, w, queue)
    ensures w0.Keys <= w.Keys <= AllKeys(fn)
    ensures w.Keys == w0.Keys ==> queue == queue0
  {
    hide Progress, FirstCall, AllKeys, Edges, Preds;
    QueuedEmpty(fn, w0, queue0 + [k], k);
    w, queue := w0, queue0;
    var f := k.1;
    var preds := Preds(fn, k.0);
    var inc: seq<(nat, Src)> := [];
    var e := 0;
    while e < |preds|
      invariant 0 <= e <= |preds|
      invariant k in w && k !in queue && w[k] == []
      invariant w0.Keys <= w.Keys
      invariant w.Keys == w0.Keys ==> queue == queue0
      invariant forall q :: q in preds[..e] ==> q < |fn.blocks|
      invariant inc == Edges(fn, f, preds[..e])
      invariant forall q :: q in preds[..e] ==> Produces(fn, q) || (q, f) in w
      invariant Progress(fn, w, queue + [k])
    {
      var p := preds[e];
      assert p in preds;
      assert preds[..e + 1] == preds[..e] + [p];
      EdgesAppend(fn, f, preds[..e], p);
      if p in last {
        inc := inc + [(p, ValueOf(p, last[p], f))];
      } else {
        if (p, f) !in w {
          AddPhi(fn, w, queue, k, (p, f));
          w := w[(p, f) := []];
          queue := queue + [(p, f)];
        }
        inc := inc + [(p, Use(PhiOf(p, f)))];
      }
      e := e + 1;
    }
    assert preds[..e] == preds;
    CompletePhi(fn, w, queue, k, inc);
    w := w[k := inc];
    ProgressKeys(fn, w, queue);
  }

  /** The start of the worklist: PHIs without incoming values, each queued once, for the blocks below n. */
  ghost predicate Seeded(fn: Func, n: nat, w: Wiring, queue: seq<Key>) {
    && (forall k :: k in w ==> k.0 < n && NeedsPhi(fn, k.0, k.1) && w[k] == [])
    && (forall b: nat, f: nat :: b < n && NeedsPhi(fn, b, f) ==> (b, f) in w)
    && (forall k :: k in queue <==> k in w)
    && (forall i, j :: 0 <= i < j < |queue| ==> queue[i] != queue[j])
  }

  /** Create the PHIs for the call or return of one block. */
  method SeedBlock(fn: Func, b: nat, i: nat, vals: seq<Option<Src>>, w0: Wiring, queue0: seq<Key>)
    returns (w: Wiring, queue: seq<Key>)
    requires b < |fn.blocks| && IsSite(fn.blocks[b], i)
    requires forall k: nat :: IsSite(fn.blocks[b], k) ==> k == i
    requires ValsAt(fn.nf, b, fn.blocks[b], i, vals)
    requires Seeded(fn, b, w0, queue0)
    ensures Seeded(fn, b + 1, w, queue)
  {
    w, queue := w0, queue0;
    for f := 0 to fn.nf
      invariant forall k :: k in w <==> k in w0 || (k.0 == b && k.1 < f && NeedsPhi(fn, b, k.1))
      invariant forall k :: k in w ==> w[k] == []
      invariant forall k :: k in queue <==> k in w
      invariant forall i, j :: 0 <= i < j < |queue| ==> queue[i] != queue[j]
    {
      assert NeedsPhi(fn, b, f) <==> vals[f].None?;
      if vals[f].None? {
        w := w[(b, f) := []];
        queue := queue + [(b, f)];
      }
    }
  }

  lemma NothingSeeded(fn: Func)
    ensures Seeded(fn, 0, map[], [])
  {
  }

  /** A block without a call or return needs no PHI. */
  lemma NoSite(fn: Func, b: nat, w: Wiring, queue: seq<Key>)
    requires b < |fn.blocks| && Seeded(fn, b, w, queue)
    requires forall i: nat :: !IsSite(fn.blocks[b], i)
    ensures Seeded(fn, b + 1, w, queue)
  {
    assert forall f: nat :: !NeedsPhi(fn, b, f);
  }

  /** Create the initial PHIs and record which blocks are producers. */
  method Seed(fn: Func, vals: seq<map<nat, seq<Option<Src>>>>)
    returns (w: Wiring, queue: seq<Key>, last: map<nat, Option<nat>>)
    requires |fn.blocks| > 0 && SingleSite(fn)
    requires |vals| == |fn.blocks|
    requires forall b :: 0 <= b < |vals| ==> Gathered(fn.nf, b, fn.blocks[b], vals[b])
    ensures Seeded(fn, |fn.blocks|, w, queue)
    ensures Producers(fn, last)
  {
    hide Seeded, Pending;
    NothingSeeded(fn);
    w, queue, last := map[], [], map[0 := None];
    for b := 0 to |fn.blocks|
      invariant Seeded(fn, b, w, queue)
      invariant 0 in last && last[0] == None
      invariant forall p: nat :: p in last ==> p == 0 || p < b
      invariant forall p: nat :: 0 < p < b && fn.blocks[p].term.Branch? ==>
        && (p in last <==> FirstCall(fn.blocks[p].code).Some?)
        && (p in last ==> last[p] == FirstCall(fn.blocks[p].code))
    {
      var bl := fn.blocks[b];
      var site := FirstCall(bl.code);
      if site.None? && IsSite(bl, |bl.code|) {
        site := Some(|bl.code|);
      }
      if site.Some? {
        assert IsSite(bl, site.value);
        assert b !in last;                   // the code's "multiple producer" assertion
        last := last[b := site];
        w, queue := SeedBlock(fn, b, site.value, vals[b][site.value], w, queue);
      } else {
        NoSite(fn, b, w, queue);
      }
    }
  }

  lemma SeededProgress(fn: Func, w: Wiring, queue: seq<Key>)
    requires Seeded(fn, |fn.blocks|, w, queue)
    ensures Progress(fn, w, queue)
  {
  }

  lemma Popped(fn: Func, w: Wiring, rest: seq<Key>, k: Key)
    requires Progress(fn, w, rest + [k])
    ensures InRange(fn, k) && k in w && k !in rest
  {
    var queue := rest + [k];
    assert k in queue && queue[|rest|] == k;
    assert forall i :: 0 <= i < |rest| ==> queue[i] == rest[i];
  }

  lemma AllFinished(fn: Func, w: Wiring)
    requires Progress(fn, w, [])
    ensures forall b: nat, f: nat :: (b, f) in w ==> WiredAt(fn, w, b, f) && ClosedAt(fn, w, b, f)
  {
    forall b: nat, f: nat | (b, f) in w ensures WiredAt(fn, w, b, f) && ClosedAt(fn, w, b, f) {
      assert Finished(fn, w, (b, f));
    }
  }

  /**
   The PHI worklist. It terminates on every control-flow graph, creates at most one PHI
   per block and field, and gives every PHI one incoming value per predecessor edge.
   */
  method WirePhis(fn: Func, vals: seq<map<nat, seq<Option<Src>>>>) returns (w: Wiring)
    requires |fn.blocks| > 0 && SingleSite(fn)
    requires |vals| == |fn.blocks|
    requires forall b :: 0 <= b < |vals| ==> Gathered(fn.nf, b, fn.blocks[b], vals[b])
    ensures WellWired(fn, w)
  {
    hide Progress;
    var queue, last;
    w, queue, last := Seed(fn, vals);
    SeededProgress(fn, w, queue);
    ghost var seeds := w.Keys;
    while queue != []
      invariant Progress(fn, w, queue)
      invariant seeds <= w.Keys
      decreases AllKeys(fn) - w.Keys, |queue|
    {
      var k, rest := queue[|queue| - 1], queue[..|queue| - 1];
      assert queue == rest + [k];
      Popped(fn, w, rest, k);
      ghost var before := w.Keys;
      w, queue := WireOne(fn, last, k, w, rest);
      assert AllKeys(fn) - w.Keys <= AllKeys(fn) - before;
      if w.Keys != before {
        var j :| j in w.Keys && j !in before;
        assert j in AllKeys(fn) - before;
      }
    }
    AllFinished(fn, w);
  }

  // ---- Building the new function -----------------------------------------------------

  /** UpdateCallRet: the value passed for each field, and the loads needed before. */
  method UpdateSite(plan: Plan, nf: nat, b: nat, bl: Block, i: nat, vals: seq<Option<Src>>)
    returns (loads: seq<Instr>, srcs: seq<Src>)
    requires ValsAt(nf, b, bl, i, vals)
    ensures loads == Reloads(plan, b, bl.code, i, nf)
    ensures srcs == SiteSrcs(plan, nf, b, bl.code, i)
  {
    loads, srcs := [], [];
    for f := 0 to nf
      invariant loads == Reloads(plan, b, bl.code, i, f)
      invariant |srcs| == f && forall g :: 0 <= g < f ==> srcs[g] == SiteSrc(plan, b, bl.code, i, g)
    {
      if vals[f].Some? {
        srcs := srcs + [vals[f].value];
      } else if plan.escapes {
        loads := loads + [LoadField(Reload(b, i, f), f)];
        srcs := srcs + [Use(Reload(b, i, f))];
      } else {
        srcs := srcs + [if plan.calls then Use(PhiOf(b, f)) else Use(Arg(f))];
      }
    }
  }

  /** CreateStores: write all fields back to memory after a producer. */
  method CreateStores(nf: nat, b: nat, call: Option<nat>) returns (code: seq<Instr>)
    ensures code == if call.None? then SpillArgs(nf) else SpillResults(b, call.value, nf)
  {
    code := [];
    for f := 0 to nf
      invariant code == if call.None? then SpillArgs(f) else SpillResults(b, call.value, f)
    {
      code := code + [StoreField(f, ValueOf(b, call, f))];
    }
  }

  /** The rewritten instructions of one block. */
  method RewriteCode(plan: Plan, nf: nat, b: nat, bl: Block, deadLoads: set<nat>, deadStores: set<nat>,
                     vals: map<nat, seq<Option<Src>>>) returns (code: seq<Instr>)
    requires forall j: nat :: j in deadLoads <==> FoldedLoad(b, bl.code, j)
    requires forall j: nat :: j in deadStores <==> FoldedStore(b, bl, j)
    requires Gathered(nf, b, bl, vals)
    ensures code == ExpandUpTo(plan, nf, b, bl, |bl.code|)
  {
    code := [];
    if plan.escapes && b == 0 {
      code := CreateStores(nf, b, None);
    }
    for j := 0 to |bl.code|
      invariant code == ExpandUpTo(plan, nf, b, bl, j)
    {
      var x := bl.code[j];
      if x.LoadField? && j in deadLoads {
        code := code + [Copy(x.d, ProducerSrc(b, ProducerAt(b, bl.code, j), x.f))];
      } else if x.StoreField? && j in deadStores {
        assert code + [] == code;
      } else if x.CallMem? {
        assert IsSite(bl, j);
        var loads, srcs := UpdateSite(plan, nf, b, bl, j, vals[j]);
        var stores := [];
        if plan.escapes {
          stores := CreateStores(nf, b, Some(j));
        }
        code := code + (loads + [CallReg(b, j, TargetFor(srcs), ParamsFor(srcs))] + stores);
      } else {
        code := code + [x];
      }
    }
  }

  method RewriteOne(plan: Plan, nf: nat, b: nat, bl: Block, deadLoads: set<nat>, deadStores: set<nat>,
                    vals: map<nat, seq<Option<Src>>>) returns (r: Block)
    requires forall j: nat :: j in deadLoads <==> FoldedLoad(b, bl.code, j)
    requires forall j: nat :: j in deadStores <==> FoldedStore(b, bl, j)
    requires Gathered(nf, b, bl, vals)
    requires bl.term.Branch? || bl.term.RetMem? || bl.term.TailMem?
    ensures r == RewriteBlock(plan, nf, b, bl)
  {
    var code := RewriteCode(plan, nf, b, bl, deadLoads, deadStores, vals);
    var phis := bl.phis + NewPhis(plan, b, nf);
    if IsSite(bl, |bl.code|) {
      var loads, srcs := UpdateSite(plan, nf, b, bl, |bl.code|, vals[|bl.code|]);
      r := Block(phis, code + loads,
                 if bl.term.RetMem? then RetReg(srcs) else TailReg(TargetFor(srcs), ParamsFor(srcs)));
    } else {
      assert code + [] == code;
      r := Block(phis, code, bl.term);
    }
  }

  /** What the scans found for one block. */
  datatype Scan = Scan(deadLoads: set<nat>, deadStores: set<nat>, vals: map<nat, seq<Option<Src>>>)

  ghost predicate Scanned(nf: nat, b: nat, bl: Block, s: Scan) {
    && (forall j: nat :: j in s.deadLoads <==> FoldedLoad(b, bl.code, j))
    && (forall j: nat :: j in s.deadStores <==> FoldedStore(b, bl, j))
    && Gathered(nf, b, bl, s.vals)
  }

  /** One block: fold its loads, look for escapes, fold its stores; a store left over is an escape too. */
  method ScanBlock(nf: nat, n: nat, b: nat, bl: Block) returns (s: Scan, escapes: bool)
    requires LiftedBlock(nf, n, b, bl)
    ensures Scanned(nf, b, bl, s)
    ensures escapes == BlockEscapes(b, bl)
  {
    var deadLoads := FoldBlockLoads(b, bl.code);
    var esc, stores := FindEscape(b, bl, deadLoads);
    var vals, deadStores := FoldBlockStores(nf, n, b, bl);
    s := Scan(deadLoads, deadStores, vals);
    escapes := esc || stores - deadStores != {};
    if !esc {
      if stores - deadStores != {} {
        var j :| j in stores - deadStores;
        assert Keeps(b, bl, j);
      } else {
        forall j: nat | j < |bl.code| ensures !Keeps(b, bl, j) {
          if bl.code[j].StoreField? {
            assert j in stores && j !in stores - deadStores;
          }
        }
      }
    }
  }

  method FindCalls(fn: Func) returns (calls: bool)
    ensures calls == HasCalls(fn)
  {
    for b := 0 to |fn.blocks|
      invariant forall p :: 0 <= p < b ==> forall i :: 0 <= i <= |fn.blocks[p].code| ==> !IsCall(fn.blocks[p], i)
    {
      for i := 0 to |fn.blocks[b].code| + 1
        invariant forall k :: 0 <= k < i ==> !IsCall(fn.blocks[b], k)
      {
        if IsCall(fn.blocks[b], i) {
          return true;
        }
      }
    }
    return false;
  }

  method ScanAll(fn: Func) returns (scans: seq<Scan>, escapes: bool)
    requires Lifted(fn)
    ensures |scans| == |fn.blocks|
    ensures forall b :: 0 <= b < |scans| ==> Scanned(fn.nf, b, fn.blocks[b], scans[b])
    ensures escapes == Escapes(fn)
  {
    scans, escapes := [], false;
    for b := 0 to |fn.blocks|
      invariant |scans| == b
      invariant forall p :: 0 <= p < b ==> Scanned(fn.nf, p, fn.blocks[p], scans[p])
      invariant escapes <==> exists p :: 0 <= p < b && BlockEscapes(p, fn.blocks[p])
    {
      assert LiftedBlock(fn.nf, |fn.blocks|, b, fn.blocks[b]);
      var s, esc := ScanBlock(fn.nf, |fn.blocks|, b, fn.blocks[b]);
      scans := scans + [s];
      escapes := escapes || esc;
    }
  }

  method MakePlan(fn: Func, scans: seq<Scan>, escapes: bool) returns (plan: Plan)
    requires Lifted(fn) && escapes == Escapes(fn)
    requires |scans| == |fn.blocks|
    requires forall b :: 0 <= b < |scans| ==> Scanned(fn.nf, b, fn.blocks[b], scans[b])
    ensures PlanFor(plan, fn)
  {
    var calls := FindCalls(fn);
    var wires := map[];
    if !escapes && calls {
      var vals := seq(|scans|, b requires 0 <= b < |scans| => scans[b].vals);
      wires := WirePhis(fn, vals);
    }
    plan := Plan(escapes, calls, wires);
  }

  /**
   The whole rewrite. Whatever the machine does, at every moment of every run the result
   has made the same calls with the same field values as the original, and it leaves with
   the same values and the same other memory.
   */
  method ChangeCallConv(fn: Func) returns (r: Func)
    requires Lifted(fn)
    ensures exists plan :: PlanFor(plan, fn) && r == Rewrite(plan, fn)
    ensures forall m: Machine, regs: nat -> int, fields: seq<int>, stale: seq<int>, other: map<int, int>, k: nat ::
              |fields| == fn.nf && |stale| == fn.nf ==>
              Agree(Run(m, fn, EntryMem(regs, fields, other), k),
                    Run(m, r, EntryReg(regs, fields, stale, other), k))
  {
    hide Run, Agree, RewriteBlock, FoldedLoad, FoldedStore, Gathered, PlanFor;
    var scans, escapes := ScanAll(fn);
    var plan := MakePlan(fn, scans, escapes);
    var blocks: seq<Block> := [];
    for b := 0 to |fn.blocks|
      invariant |blocks| == b
      invariant forall p :: 0 <= p < b ==> blocks[p] == RewriteBlock(plan, fn.nf, p, fn.blocks[p])
    {
      var s := scans[b];
      assert LiftedBlock(fn.nf, |fn.blocks|, b, fn.blocks[b]);
      assert Scanned(fn.nf, b, fn.blocks[b], s);
      var bl := RewriteOne(plan, fn.nf, b, fn.blocks[b], s.deadLoads, s.deadStores, s.vals);
      blocks := blocks + [bl];
    }
    r := Func(fn.nf, blocks);
    assert r == Rewrite(plan, fn);
    forall m: Machine, regs: nat -> int, fields: seq<int>, stale: seq<int>, other: map<int, int>, k: nat
      | |fields| == fn.nf && |stale| == fn.nf
      ensures Agree(Run(m, fn, EntryMem(regs, fields, other), k),
                    Run(m, r, EntryReg(regs, fields, stale, other), k))
    {
      MeaningPreserved(m, plan, fn, regs, fields, stale, other, k);
    }
  }
}
