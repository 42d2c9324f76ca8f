/**
 One writer and any number of readers on the translation table at once. The writer fills a slot
 field by field and stores the address last; readers load an address and then, if it matches, the entry.
 Loads and stores interleave in any order that keeps each thread's own order.
 */
module TableReaders {
  import opened Common
  import opened HashTable

  datatype Writer =
    | WDone(status: Status)
    | WProbe(addr: nat, obj: Obj, i: nat)       // about to load the address of the i-th slot
    | WEntry(addr: nat, obj: Obj, i: nat)       // about to store entry
    | WBase(addr: nat, obj: Obj, i: nat)
    | WSize(addr: nat, obj: Obj, i: nat)
    | WAddr(addr: nat, obj: Obj, i: nat)        // about to publish

  /** due is what was published under the address when the lookup began. */
  datatype Reader =
    | RIdle
    | RProbe(addr: nat, due: Option<Obj>, i: nat)
    | REntry(addr: nat, due: Option<Obj>, i: nat)
    | RDone(addr: nat, due: Option<Obj>, result: Option<nat>)

  datatype State = State(slots: seq<Slot>, published: map<nat, Obj>, writer: Writer, readers: seq<Reader>)

  datatype Act = Set(addr: nat, obj: Obj) | Write | Lookup(r: nat, addr: nat) | Read(r: nat)

  function Initial(readers: nat): State {
    State(seq(SLOTS, _ => Slot(0, Obj(0, 0, 0))), map[], WDone(Ok), seq(readers, _ => RIdle))
  }

  function Store(s: State, k: nat, obj: Obj, writer: Writer): State
    requires k < |s.slots|
  {
    s.(slots := s.slots[k := Slot(s.slots[k].addr, obj)], writer := writer)
  }

  function WriteStep(s: State): State
    requires Sized(s.slots)
  {
    match s.writer
    case WDone(_) => s
    case WProbe(addr, obj, i) =>
      if i >= SLOTS then s.(writer := WDone(ENoSpc))
      else if s.slots[At(addr, i)].addr == addr then s.(writer := WDone(EExist))
      else if s.slots[At(addr, i)].addr == 0 then s.(writer := WEntry(addr, obj, i))
      else s.(writer := WProbe(addr, obj, i + 1))
    case WEntry(addr, obj, i) =>
      Store(s, At(addr, i), s.slots[At(addr, i)].obj.(entry := obj.entry), WBase(addr, obj, i))
    case WBase(addr, obj, i) =>
      Store(s, At(addr, i), s.slots[At(addr, i)].obj.(base := obj.base), WSize(addr, obj, i))
    case WSize(addr, obj, i) =>
      Store(s, At(addr, i), s.slots[At(addr, i)].obj.(size := obj.size), WAddr(addr, obj, i))
    case WAddr(addr, obj, i) =>
      s.(slots := s.slots[At(addr, i) := s.slots[At(addr, i)].(addr := addr)],
         published := s.published[addr := obj], writer := WDone(Ok))
  }

  function ReadStep(s: State, reader: Reader): Reader
    requires Sized(s.slots)
  {
    match reader
    case RProbe(addr, due, i) =>
      if i >= SLOTS || s.slots[At(addr, i)].addr == 0 then RDone(addr, due, None)
      else if s.slots[At(addr, i)].addr == addr then REntry(addr, due, i)
      else RProbe(addr, due, i + 1)
    case REntry(addr, due, i) => RDone(addr, due, Some(s.slots[At(addr, i)].obj.entry))
    case _ => reader
  }

  function Step(s: State, act: Act): State
    requires Sized(s.slots)
  {
    match act
    case Set(addr, obj) =>
      if !s.writer.WDone? then s
      else s.(writer := if addr == 0 then WDone(EInval) else WProbe(addr, obj, 0))
    case Write => WriteStep(s)
    case Lookup(r, addr) =>
      if r >= |s.readers| || !(s.readers[r].RIdle? || s.readers[r].RDone?) then s
      else
        var due := if addr in s.published then Some(s.published[addr]) else None;
        s.(readers := s.readers[r := if addr == 0 then RDone(addr, due, None) else RProbe(addr, due, 0)])
    case Read(r) =>
      if r >= |s.readers| then s else s.(readers := s.readers[r := ReadStep(s, s.readers[r])])
  }

  function Run(readers: nat, schedule: seq<Act>): (s: State)
    ensures Sized(s.slots)
  {
    if schedule == [] then Initial(readers)
    else
      var n := |schedule| - 1;
      Step(Run(readers, schedule[..n]), schedule[n])
  }

  // ---- Invariant ---------------------------------------------------------------------

  ghost predicate TableInv(s: State) {
    Represents(s.slots, s.published) && Placed(s.slots)
  }

  predicate Found(slots: seq<Slot>, addr: nat, i: nat)
    requires Sized(slots)
  {
    addr != 0 && i < SLOTS && Passed(slots, addr, i) && slots[At(addr, i)].addr == 0
  }

  predicate WriterInv(slots: seq<Slot>, w: Writer)
    requires Sized(slots)
  {
    match w
    case WDone(_) => true
    case WProbe(addr, _, i) => addr != 0 && i <= SLOTS && Passed(slots, addr, i)
    case WEntry(addr, _, i) => Found(slots, addr, i)
    case WBase(addr, obj, i) => Found(slots, addr, i) && slots[At(addr, i)].obj.entry == obj.entry
    case WSize(addr, obj, i) =>
      Found(slots, addr, i) && slots[At(addr, i)].obj.entry == obj.entry && slots[At(addr, i)].obj.base == obj.base
    case WAddr(addr, obj, i) => Found(slots, addr, i) && slots[At(addr, i)].obj == obj
  }

  predicate DueHolds(published: map<nat, Obj>, addr: nat, due: Option<Obj>) {
    due.Some? ==> addr in published && published[addr] == due.value
  }

  predicate ReaderInv(slots: seq<Slot>, published: map<nat, Obj>, r: Reader)
    requires Sized(slots)
  {
    match r
    case RIdle => true
    case RProbe(addr, due, i) => addr != 0 && i <= SLOTS && Passed(slots, addr, i) && DueHolds(published, addr, due)
    case REntry(addr, due, i) => addr != 0 && i < SLOTS && slots[At(addr, i)].addr == addr && DueHolds(published, addr, due)
    case RDone(addr, due, result) =>
      && DueHolds(published, addr, due)
      && (result.Some? ==> addr in published && published[addr].entry == result.value)
      && (result.None? ==> due.None?)
  }

  ghost predicate Inv(s: State) {
    && TableInv(s) && WriterInv(s.slots, s.writer)
    && forall r :: 0 <= r < |s.readers| ==> ReaderInv(s.slots, s.published, s.readers[r])
  }

  /** Taken slots stay as they are. */
  predicate Grows(slots: seq<Slot>, slots': seq<Slot>)
    requires Sized(slots)
  {
    Sized(slots') && forall j :: 0 <= j < SLOTS && slots[j].addr != 0 ==> slots'[j] == slots[j]
  }

  lemma PassedKept(slots: seq<Slot>, slots': seq<Slot>, addr: nat, i: nat)
    requires Sized(slots) && Grows(slots, slots') && Passed(slots, addr, i)
    ensures Passed(slots', addr, i)
  {
  }

  lemma ReaderKept(slots: seq<Slot>, m: map<nat, Obj>, slots': seq<Slot>, m': map<nat, Obj>, r: Reader)
    requires Sized(slots) && Grows(slots, slots') && Extends(m, m') && ReaderInv(slots, m, r)
    ensures ReaderInv(slots', m', r)
  {
    if r.RProbe? {
      PassedKept(slots, slots', r.addr, r.i);
    }
  }

  /** Filling in the fields of a free slot changes nothing that anyone can see. */
  lemma FreeSlotWrite(s: State, k: nat, obj: Obj)
    requires TableInv(s) && k < SLOTS && s.slots[k].addr == 0
    ensures var slots' := s.slots[k := Slot(0, obj)];
      Grows(s.slots, slots') && Represents(slots', s.published) && Placed(slots')
  {
    var slots' := s.slots[k := Slot(0, obj)];
    forall j | 0 <= j < SLOTS && slots'[j].addr != 0 ensures PlacedAt(slots', j) {
      assert PlacedAt(s.slots, j);
      var i: nat :| i < SLOTS && At(s.slots[j].addr, i) == j && Passed(s.slots, s.slots[j].addr, i);
      PassedKept(s.slots, slots', s.slots[j].addr, i);
    }
    forall a | a in s.published ensures exists j :: 0 <= j < SLOTS && slots'[j].addr == a {
      var j :| 0 <= j < SLOTS && s.slots[j].addr == a;
      assert slots'[j].addr == a;
    }
  }

  lemma Absent(s: State, addr: nat, i: nat)
    requires TableInv(s) && Found(s.slots, addr, i)
    ensures addr !in s.published
  {
    forall j | 0 <= j < SLOTS ensures s.slots[j].addr != addr {
      FreeSlotMeansAbsent(s.slots, addr, i, j);
    }
  }

  lemma Publish(s: State, addr: nat, obj: Obj, i: nat)
    requires TableInv(s) && WriterInv(s.slots, WAddr(addr, obj, i))
    ensures var slots' := s.slots[At(addr, i) := s.slots[At(addr, i)].(addr := addr)];
      && Grows(s.slots, slots') && Represents(slots', s.published[addr := obj]) && Placed(slots')
      && addr !in s.published
  {
    Absent(s, addr, i);
    FillKeepsPlaced(s.slots, addr, i, obj);
    Filled(s.slots, s.published, At(addr, i), addr, obj);
  }

  lemma WriteTable(s: State)
    requires Inv(s)
    ensures TableInv(WriteStep(s)) && Grows(s.slots, WriteStep(s).slots) && Extends(s.published, WriteStep(s).published)
  {
    match s.writer
    case WEntry(addr, obj, i) => FreeSlotWrite(s, At(addr, i), s.slots[At(addr, i)].obj.(entry := obj.entry));
    case WBase(addr, obj, i) => FreeSlotWrite(s, At(addr, i), s.slots[At(addr, i)].obj.(base := obj.base));
    case WSize(addr, obj, i) => FreeSlotWrite(s, At(addr, i), s.slots[At(addr, i)].obj.(size := obj.size));
    case WAddr(addr, obj, i) => Publish(s, addr, obj, i);
    case _ =>
  }

  lemma WriteWriter(s: State)
    requires Inv(s)
    ensures WriterInv(WriteStep(s).slots, WriteStep(s).writer)
  {
    WriteTable(s);
    var w := s.writer;
    if w.WEntry? || w.WBase? || w.WSize? {
      PassedKept(s.slots, WriteStep(s).slots, w.addr, w.i);
    }
  }

  /** An address that is published sits in some slot. */
  lemma ReadReader(s: State, r: Reader)
    requires TableInv(s) && ReaderInv(s.slots, s.published, r)
    ensures ReaderInv(s.slots, s.published, ReadStep(s, r))
  {
    if r.RProbe? {
      if r.i >= SLOTS {
        RoundTrip(s.slots, r.addr);
      } else if s.slots[At(r.addr, r.i)].addr == 0 {
        Absent(s, r.addr, r.i);
      }
    }
  }

  lemma StepInv(s: State, act: Act)
    requires Inv(s)
    ensures Inv(Step(s, act)) && Grows(s.slots, Step(s, act).slots) && Extends(s.published, Step(s, act).published)
  {
    match act
    case Write =>
      WriteTable(s);
      WriteWriter(s);
      forall r | 0 <= r < |s.readers| ensures ReaderInv(WriteStep(s).slots, WriteStep(s).published, s.readers[r]) {
        ReaderKept(s.slots, s.published, WriteStep(s).slots, WriteStep(s).published, s.readers[r]);
      }
    case Read(r) =>
      if r < |s.readers| {
        ReadReader(s, s.readers[r]);
      }
    case _ =>
  }

  lemma {:induction false} RunInv(readers: nat, schedule: seq<Act>)
    ensures Inv(Run(readers, schedule))
  {
    if schedule != [] {
      var n := |schedule| - 1;
      RunInv(readers, schedule[..n]);
      StepInv(Run(readers, schedule[..n]), schedule[n]);
    }
  }

  // ---- What readers and the writer may rely on ---------------------------------------

  /** A lookup only ever returns the entry of a published object. */
  lemma ReadersSeePublished(readers: nat, schedule: seq<Act>, r: nat)
    requires r < |Run(readers, schedule).readers|
    ensures var s := Run(readers, schedule); var reader := s.readers[r];
      reader.RDone? && reader.result.Some? ==>
        reader.addr in s.published && s.published[reader.addr].entry == reader.result.value
  {
    RunInv(readers, schedule);
    assert ReaderInv(Run(readers, schedule).slots, Run(readers, schedule).published, Run(readers, schedule).readers[r]);
  }

  /** A lookup finds every address whose insertion finished before the lookup began, and with the object inserted. */
  lemma ReadersFindFinished(readers: nat, schedule: seq<Act>, r: nat)
    requires r < |Run(readers, schedule).readers|
    ensures var reader := Run(readers, schedule).readers[r];
      reader.RDone? && reader.due.Some? ==> reader.result == Some(reader.due.value.entry)
  {
    RunInv(readers, schedule);
    assert ReaderInv(Run(readers, schedule).slots, Run(readers, schedule).published, Run(readers, schedule).readers[r]);
  }

  /** A published object never changes and never goes away. */
  lemma {:induction false} PublishedForGood(readers: nat, schedule: seq<Act>, later: seq<Act>)
    ensures Extends(Run(readers, schedule).published, Run(readers, schedule + later).published)
    decreases |later|
  {
    hide Step, Inv;
    if later == [] {
      assert schedule + later == schedule;
    } else {
      var n := |later| - 1;
      PublishedForGood(readers, schedule, later[..n]);
      var all := schedule + later;
      assert all[..|all| - 1] == schedule + later[..n] && all[|all| - 1] == later[n];
      RunInv(readers, schedule + later[..n]);
      StepInv(Run(readers, schedule + later[..n]), later[n]);
    }
  }

  /** The writer reports what the insertion does to the published map, readers or no readers. */
  lemma WriterReports(readers: nat, schedule: seq<Act>)
    ensures var s := Run(readers, schedule); var s' := WriteStep(s);
      s'.writer.WDone? && !s.writer.WDone? ==>
        (s'.writer.status, s'.published) == Insert(s.published, s.writer.addr, s.writer.obj)
  {
    RunInv(readers, schedule);
    var s := Run(readers, schedule);
    KeysCounted(s.slots, s.published);
    match s.writer
    case WProbe(addr, obj, i) =>
      if i >= SLOTS {
        RoundTrip(s.slots, addr);
      }
    case WAddr(addr, obj, i) => Publish(s, addr, obj, i);
    case _ =>
  }

  // ---- Every call comes to its end ---------------------------------------------------

  lemma RunThen(readers: nat, schedule: seq<Act>, act: Act)
    ensures Run(readers, schedule + [act]) == Step(Run(readers, schedule), act)
  {
    var all := schedule + [act];
    assert all[..|all| - 1] == schedule;
  }

  predicate StepsOf(later: seq<Act>, act: Act) {
    forall i :: 0 <= i < |later| ==> later[i] == act
  }

  function WritesLeft(w: Writer): nat {
    match w
    case WDone(_) => 0
    case WProbe(_, _, i) => 5 + if i < SLOTS then SLOTS - i else 0
    case WEntry(_, _, _) => 4
    case WBase(_, _, _) => 3
    case WSize(_, _, _) => 2
    case WAddr(_, _, _) => 1
  }

  lemma WriteOn(s: State)
    requires Inv(s) && !s.writer.WDone?
    ensures var s' := WriteStep(s);
      s'.writer.WDone? || (WritesLeft(s'.writer) < WritesLeft(s.writer) && s'.published == s.published
                           && s'.writer.addr == s.writer.addr && s'.writer.obj == s.writer.obj)
  {
    hide TableInv, ReaderInv;
  }

  /** From every moment of every run, the writer's own steps finish the insertion, with the effect and status of the map operation. */
  lemma {:induction false} WriterFinishes(readers: nat, schedule: seq<Act>) returns (later: seq<Act>)
    requires !Run(readers, schedule).writer.WDone?
    ensures StepsOf(later, Write)
    ensures var s, s' := Run(readers, schedule), Run(readers, schedule + later);
      s'.writer.WDone? && (s'.writer.status, s'.published) == Insert(s.published, s.writer.addr, s.writer.obj)
    decreases WritesLeft(Run(readers, schedule).writer)
  {
    RunInv(readers, schedule);
    var s := Run(readers, schedule);
    WriteOn(s);
    WriterReports(readers, schedule);
    RunThen(readers, schedule, Write);
    var next := schedule + [Write];
    hide Run, Inv, WriteStep, WritesLeft, Insert;
    if Run(readers, next).writer.WDone? {
      later := [Write];
    } else {
      var rest := WriterFinishes(readers, next);
      later := [Write] + rest;
      assert schedule + later == next + rest;
    }
  }

  function ReadsLeft(r: Reader): nat {
    match r
    case RProbe(_, _, i) => 2 + if i < SLOTS then SLOTS - i else 0
    case REntry(_, _, _) => 1
    case _ => 0
  }

  predicate Looking(r: Reader) {
    r.RProbe? || r.REntry?
  }

  /** What a lookup returns now. */
  function Bound(m: map<nat, Obj>, addr: nat): Option<nat> {
    if addr in m then Some(m[addr].entry) else None
  }

  lemma ReadOn(s: State, r: Reader)
    requires TableInv(s) && ReaderInv(s.slots, s.published, r) && Looking(r)
    ensures var r' := ReadStep(s, r);
      && (r'.RDone? ==> r'.addr == r.addr && r'.result == Bound(s.published, r.addr))
      && (!r'.RDone? ==> Looking(r') && r'.addr == r.addr && ReadsLeft(r') < ReadsLeft(r))
  {
    ReadReader(s, r);
    if r.RProbe? && (r.i >= SLOTS || s.slots[At(r.addr, r.i)].addr == 0) {
      if r.i >= SLOTS {
        RoundTrip(s.slots, r.addr);
      } else {
        Absent(s, r.addr, r.i);
      }
    }
  }

  /** From every moment of every run, a reader's own steps finish the lookup, with what is published. */
  lemma {:induction false} ReaderFinishes(readers: nat, schedule: seq<Act>, r: nat) returns (later: seq<Act>)
    requires var s := Run(readers, schedule); r < |s.readers| && Looking(s.readers[r])
    ensures StepsOf(later, Read(r))
    ensures var s, s' := Run(readers, schedule), Run(readers, schedule + later);
      && s'.published == s.published && r < |s'.readers| && s'.readers[r].RDone?
      && s'.readers[r].addr == s.readers[r].addr && s'.readers[r].result == Bound(s.published, s.readers[r].addr)
    decreases ReadsLeft(Run(readers, schedule).readers[r])
  {
    RunInv(readers, schedule);
    var s := Run(readers, schedule);
    ReadOn(s, s.readers[r]);
    RunThen(readers, schedule, Read(r));
    var next := schedule + [Read(r)];
    hide Run, Inv, ReadStep, ReadsLeft, Bound;
    if Run(readers, next).readers[r].RDone? {
      later := [Read(r)];
    } else {
      var rest := ReaderFinishes(readers, next, r);
      later := [Read(r)] + rest;
      assert schedule + later == next + rest;
    }
  }
}
