/**
 Call sites that are relocated to a lazy stub first and patched once the function is known.
 The stub passes its patch data to the resolver, which finds or makes the translation and patches the site.
 */
module Patch {
  import opened Common
  import opened Reloc

  /** The relocations that calls and branches to guest functions carry. */
  datatype CallKind = Pc32 | Jump | CondBranch | JumpAndLink | CallPair

  function EncodeCall(kind: CallKind, pc: bv64, syma: bv64, far: Far): Field {
    match kind
    case Pc32 => Signed32Field(Minus(syma, pc))
    case Jump => Jump26(pc, syma, far)
    case CondBranch => Branch(Minus(syma, pc))
    case JumpAndLink => Jal(Minus(syma, pc))
    case CallPair => Call(Minus(syma, pc))
  }

  function CallMask(kind: CallKind): bv64 {
    match kind
    case Pc32 => 0xffff_ffff
    case Jump => 0x03ff_ffff
    case CondBranch => 0xfe00_0f80
    case JumpAndLink => 0xffff_f000
    case CallPair => 0xfff0_0000_ffff_f000
  }

  /** The bits that a relocation of this kind does not write. */
  function Rest(kind: CallKind, word: bv64): bv64 { word & !CallMask(kind) }

  /** Which bits are written depends on the kind alone. */
  lemma MaskOfKind(kind: CallKind, pc: bv64, syma: bv64, far: Far)
    requires EncodeCall(kind, pc, syma, far).Field?
    ensures EncodeCall(kind, pc, syma, far).mask == CallMask(kind)
  {
    hide InSigned, Asr2, BranchBits, JumpBits, CallBits;
  }

  lemma Overwritten(t: bv64, m: bv64, d: bv64, d': bv64)
    ensures (d' & m) | (((d & m) | (t & !m)) & !m) == (d' & m) | (t & !m)
  {
    Outside(t, m, d);
  }

  lemma RelocatedTwice(word: bv64, f: Field, g: Field)
    requires f.Field? && g.Field? && f.mask == g.mask
    ensures Relocate(Relocate(word, f), g) == Relocate(word, g)
  {
    Overwritten(word, f.mask, f.data, g.data);
  }

  /** rtld_reloc_at on a call site: the new word, or nothing if the target is out of range. */
  function RelocateCall(word: bv64, kind: CallKind, pc: bv64, syma: bv64, far: Far): Option<bv64> {
    var f := EncodeCall(kind, pc, syma, far);
    if f.Reject? then None else Some(Relocate(word, f))
  }

  /** Relocating to a stub and then to the function gives what relocating to the function at once gives. */
  lemma PatchIsDirect(word: bv64, kind: CallKind, pc: bv64, stub: bv64, far: Far, func: bv64, far': Far)
    requires RelocateCall(word, kind, pc, stub, far).Some?
    ensures RelocateCall(RelocateCall(word, kind, pc, stub, far).value, kind, pc, func, far')
      == RelocateCall(word, kind, pc, func, far')
  {
    hide EncodeCall, Relocate, CallMask;
    var f, g := EncodeCall(kind, pc, stub, far), EncodeCall(kind, pc, func, far');
    MaskOfKind(kind, pc, stub, far);
    if g.Field? {
      MaskOfKind(kind, pc, func, far');
      RelocatedTwice(word, f, g);
    }
  }

  lemma FieldKeeps(word: bv64, kind: CallKind, f: Field)
    requires f.Field? && f.mask == CallMask(kind)
    ensures Rest(kind, Relocate(word, f)) == Rest(kind, word)
  {
    hide Relocate, CallMask;
    OutsideKept(word, f);
  }

  /** Relocating keeps every bit outside the field of the kind. */
  lemma RestKept(word: bv64, kind: CallKind, pc: bv64, syma: bv64, far: Far)
    requires RelocateCall(word, kind, pc, syma, far).Some?
    ensures Rest(kind, RelocateCall(word, kind, pc, syma, far).value) == Rest(kind, word)
  {
    hide EncodeCall, Relocate, CallMask, Rest;
    MaskOfKind(kind, pc, syma, far);
    FieldKeeps(word, kind, EncodeCall(kind, pc, syma, far));
  }

  /** A branch is too far away for its own field, and needs a stub that branches on. */
  predicate NeedsFar(kind: CallKind, pc: bv64, syma: bv64) {
    kind.Jump? && !InSigned(Minus(syma, pc), 0x800_0000)
  }

  // ---- rtld_patch --------------------------------------------------------------------

  datatype PatchData = PatchData(guest: nat, kind: CallKind, size: nat, addend: bv64, pc: bv64)

  /** What the runs below need to know of the linker: how a word is relocated, and when that takes a far stub. */
  datatype Linker = Linker(
    relocate: (bv64, CallKind, bv64, bv64, Far) -> Option<bv64>,
    needsFar: (CallKind, bv64, bv64) -> bool)

  function CallLinker(): Linker { Linker(RelocateCall, NeedsFar) }

  /** What a site holds after patching: unchanged if its size is not supported, and if the range check refuses. */
  function Patched(l: Linker, word: bv64, data: PatchData, func: bv64, far: Far): bv64 {
    if data.size > 8 then word
    else
      var r := l.relocate(word, data.kind, data.pc, Plus(func, data.addend), far);
      if r.Some? then r.value else word
  }

  // ---- Whole runs --------------------------------------------------------------------

  /** A call site: its patch data, what the object held, what it holds now, and the stub made for it, if any. */
  datatype Site = Site(data: PatchData, original: bv64, word: bv64, stub: Option<bv64>)

  /** A far stub at addr, whose code loads and branches to syma. */
  datatype FarMade = FarMade(addr: bv64, syma: bv64)

  /** The translation table, the far stubs, and the call sites. */
  datatype State = State(table: map<nat, bv64>, fars: set<FarMade>, sites: seq<Site>)

  /** far is where the allocator would put a far stub. */
  datatype Act =
    | Load(data: PatchData, original: bv64, stub: bv64, far: Far)    // the loader relocates a new site
    | Register(guest: nat, entry: bv64)                             // the loader registers a function
    | Enter(i: nat, made: Option<bv64>, trace: bool, far: Far)      // a stub is run: resolve, then patch

  function Registered(table: map<nat, bv64>, guest: nat, entry: bv64): map<nat, bv64> {
    if guest == 0 || guest in table then table else table[guest := entry]
  }

  /** Memory that was handed out is not handed out again. */
  function NewFar(fars: set<FarMade>, far: Far): Far {
    if far.StubAt? && (exists f :: f in fars && f.addr == far.addr) then NoStub else far
  }

  /** The far stubs after a relocation, accepted or not. */
  function FarsAfter(l: Linker, fars: set<FarMade>, data: PatchData, target: bv64, far: Far): set<FarMade> {
    if far.StubAt? && l.needsFar(data.kind, data.pc, Plus(target, data.addend))
    then fars + {FarMade(far.addr, Plus(target, data.addend))} else fars
  }

  function LoadSite(l: Linker, s: State, data: PatchData, original: bv64, stub: bv64, far: Far): State {
    var direct := data.guest in s.table;
    var target := if direct then s.table[data.guest] else stub;
    var fars := FarsAfter(l, s.fars, data, target, far);
    var r := l.relocate(original, data.kind, data.pc, Plus(target, data.addend), far);
    if r.None? then s.(fars := fars)
    else State(s.table, fars, s.sites + [Site(data, original, r.value, if direct then None else Some(stub))])
  }

  function EnterStub(l: Linker, s: State, i: nat, made: Option<bv64>, trace: bool, far: Far): State
    requires i < |s.sites|
  {
    var site := s.sites[i];
    var table := if made.Some? then Registered(s.table, site.data.guest, made.value) else s.table;
    if site.data.guest !in table || trace then s.(table := table)
    else
      var func := table[site.data.guest];
      State(table, if site.data.size > 8 then s.fars else FarsAfter(l, s.fars, site.data, func, far),
            s.sites[i := site.(word := Patched(l, site.word, site.data, func, far))])
  }

  function Step(l: Linker, s: State, act: Act): State {
    match act
    case Load(data, original, stub, far) => LoadSite(l, s, data, original, stub, NewFar(s.fars, far))
    case Register(guest, entry) => s.(table := Registered(s.table, guest, entry))
    case Enter(i, made, trace, far) =>
      if i < |s.sites| then EnterStub(l, s, i, made, trace, NewFar(s.fars, far)) else s
  }

  function Run(l: Linker, schedule: seq<Act>): State {
    if schedule == [] then State(map[], {}, [])
    else
      var n := |schedule| - 1;
      Step(l, Run(l, schedule[..n]), schedule[n])
  }

  // ---- Where a site leads ------------------------------------------------------------

  /** The far stub, if one is needed, was made for exactly this address. */
  predicate FarFits(l: Linker, fars: set<FarMade>, data: PatchData, target: bv64, far: Far) {
    l.needsFar(data.kind, data.pc, Plus(target, data.addend)) ==>
      far.StubAt? && FarMade(far.addr, Plus(target, data.addend)) in fars
  }

  /** The site holds exactly what a direct relocation of the object's word to this address gives. */
  ghost predicate RelocatedTo(l: Linker, fars: set<FarMade>, site: Site, target: bv64, far: Far) {
    && l.relocate(site.original, site.data.kind, site.data.pc, Plus(target, site.data.addend), far) == Some(site.word)
    && FarFits(l, fars, site.data, target, far)
  }

  ghost predicate LeadsTo(l: Linker, fars: set<FarMade>, site: Site, target: bv64) {
    exists far :: RelocatedTo(l, fars, site, target, far)
  }

  /** Directly to the table's entry, or to the site's own stub, whose patch data names the same guest address. */
  ghost predicate SiteOk(l: Linker, table: map<nat, bv64>, fars: set<FarMade>, site: Site) {
    || (site.stub.Some? && LeadsTo(l, fars, site, site.stub.value))
    || OnEntry(l, table, fars, site)
  }

  ghost predicate OnEntry(l: Linker, table: map<nat, bv64>, fars: set<FarMade>, site: Site) {
    site.data.guest in table && LeadsTo(l, fars, site, table[site.data.guest])
  }

  /** Relocating again gives what relocating once gives, and nothing is accepted that needs a far stub and has none. */
  ghost predicate WellBehaved(l: Linker) {
    && (forall word, kind, pc, a, far, b, far' :: Overwrites(l, word, kind, pc, a, far, b, far'))
    && (forall word, kind, pc, a :: StubNeeded(l, word, kind, pc, a))
  }

  predicate Overwrites(l: Linker, word: bv64, kind: CallKind, pc: bv64, a: bv64, far: Far, b: bv64, far': Far) {
    l.relocate(word, kind, pc, a, far).Some? ==>
      l.relocate(l.relocate(word, kind, pc, a, far).value, kind, pc, b, far') == l.relocate(word, kind, pc, b, far')
  }

  predicate StubNeeded(l: Linker, word: bv64, kind: CallKind, pc: bv64, a: bv64) {
    l.needsFar(kind, pc, a) ==> l.relocate(word, kind, pc, a, NoStub).None?
  }

  predicate KeepsRest(word: bv64, kind: CallKind, pc: bv64, a: bv64, far: Far) {
    RelocateCall(word, kind, pc, a, far).Some? ==>
      Rest(kind, RelocateCall(word, kind, pc, a, far).value) == Rest(kind, word)
  }

  lemma FarRefused(word: bv64, kind: CallKind, pc: bv64, a: bv64)
    requires NeedsFar(kind, pc, a)
    ensures RelocateCall(word, kind, pc, a, NoStub).None?
  {
  }

  /** The relocations of call sites are of this sort, and keep what is not theirs. */
  lemma CallsOverwrite()
    ensures WellBehaved(CallLinker())
    ensures forall word, kind, pc, a, far :: KeepsRest(word, kind, pc, a, far)
  {
    forall word, kind, pc, a, far ensures KeepsRest(word, kind, pc, a, far) {
      if RelocateCall(word, kind, pc, a, far).Some? {
        RestKept(word, kind, pc, a, far);
      }
    }
    hide RelocateCall, NeedsFar;
    var l := CallLinker();
    forall word, kind, pc, a, far, b, far' ensures Overwrites(l, word, kind, pc, a, far, b, far') {
      if RelocateCall(word, kind, pc, a, far).Some? {
        PatchIsDirect(word, kind, pc, a, far, b, far');
      }
    }
    forall word, kind, pc, a ensures StubNeeded(l, word, kind, pc, a) {
      if NeedsFar(kind, pc, a) {
        FarRefused(word, kind, pc, a);
      }
    }
  }

  // ---- Every step keeps it -----------------------------------------------------------

  /** One stub per address. */
  ghost predicate OneEach(fars: set<FarMade>) {
    forall f, g :: f in fars && g in fars && f.addr == g.addr ==> f == g
  }

  /** The far stubs only grow when a new one is made at a new place. */
  lemma FarsGrow(l: Linker, fars: set<FarMade>, data: PatchData, target: bv64, far: Far)
    requires OneEach(fars)
    ensures var fars' := FarsAfter(l, fars, data, target, NewFar(fars, far)); fars <= fars' && OneEach(fars')
  {
  }

  lemma LeadsLater(l: Linker, fars: set<FarMade>, fars': set<FarMade>, site: Site, target: bv64)
    requires LeadsTo(l, fars, site, target) && fars <= fars'
    ensures LeadsTo(l, fars', site, target)
  {
    var far :| RelocatedTo(l, fars, site, target, far);
    assert RelocatedTo(l, fars', site, target, far);
  }

  lemma SiteKept(l: Linker, s: State, s': State, site: Site)
    requires Extends(s.table, s'.table) && s.fars <= s'.fars
    ensures SiteOk(l, s.table, s.fars, site) ==> SiteOk(l, s'.table, s'.fars, site)
    ensures OnEntry(l, s.table, s.fars, site) ==> OnEntry(l, s'.table, s'.fars, site)
  {
    if site.stub.Some? && LeadsTo(l, s.fars, site, site.stub.value) {
      LeadsLater(l, s.fars, s'.fars, site, site.stub.value);
    }
    if OnEntry(l, s.table, s.fars, site) {
      LeadsLater(l, s.fars, s'.fars, site, s.table[site.data.guest]);
    }
  }

  /** A relocation that was accepted leads where it was asked to, through the stub just made if need be. */
  lemma Accepted(l: Linker, fars: set<FarMade>, site: Site, target: bv64, far: Far)
    requires WellBehaved(l)
    requires l.relocate(site.original, site.data.kind, site.data.pc, Plus(target, site.data.addend), far) == Some(site.word)
    ensures RelocatedTo(l, FarsAfter(l, fars, site.data, target, far), site, target, far)
  {
    var syma := Plus(target, site.data.addend);
    assert StubNeeded(l, site.original, site.data.kind, site.data.pc, syma);
    assert l.needsFar(site.data.kind, site.data.pc, syma) ==> far.StubAt?;
  }

  /** Patching makes a direct relocation to the function, or leaves the site alone. */
  lemma PatchedLeads(l: Linker, fars: set<FarMade>, site: Site, target: bv64, func: bv64, far: Far)
    requires WellBehaved(l) && LeadsTo(l, fars, site, target)
    ensures var site' := site.(word := Patched(l, site.word, site.data, func, far));
      || site'.word == site.word
      || (site.data.size <= 8 && RelocatedTo(l, FarsAfter(l, fars, site.data, func, far), site', func, far))
  {
    hide Plus;
    var k, pc, a := site.data.kind, site.data.pc, site.data.addend;
    var was :| RelocatedTo(l, fars, site, target, was);
    assert Overwrites(l, site.original, k, pc, Plus(target, a), was, Plus(func, a), far);
    var site' := site.(word := Patched(l, site.word, site.data, func, far));
    if site'.word != site.word {
      Accepted(l, fars, site', func, far);
    }
  }

  ghost predicate Inv(l: Linker, s: State) {
    OneEach(s.fars) && forall i :: 0 <= i < |s.sites| ==> SiteOk(l, s.table, s.fars, s.sites[i])
  }

  lemma LoadKeeps(l: Linker, s: State, data: PatchData, original: bv64, stub: bv64, far0: Far)
    requires WellBehaved(l) && Inv(l, s)
    ensures var s' := LoadSite(l, s, data, original, stub, NewFar(s.fars, far0));
      Inv(l, s') && Extends(s.table, s'.table) && s.fars <= s'.fars
  {
    hide Plus, FarFits;
    var far := NewFar(s.fars, far0);
    var s' := LoadSite(l, s, data, original, stub, far);
    var target := if data.guest in s.table then s.table[data.guest] else stub;
    FarsGrow(l, s.fars, data, target, far0);
    forall j | 0 <= j < |s'.sites| ensures SiteOk(l, s'.table, s'.fars, s'.sites[j]) {
      if j < |s.sites| {
        SiteKept(l, s, s', s.sites[j]);
      } else {
        Accepted(l, s.fars, s'.sites[j], target, far);
      }
    }
  }

  /** The site whose stub is run ends up on the table's entry, or where it was. */
  lemma EnteredSite(l: Linker, s: State, i: nat, made: Option<bv64>, trace: bool, far: Far)
    requires WellBehaved(l) && i < |s.sites| && SiteOk(l, s.table, s.fars, s.sites[i])
    ensures var s' := EnterStub(l, s, i, made, trace, far);
      s'.sites[i] == s.sites[i] || (s'.sites[i] == s.sites[i].(word := s'.sites[i].word) && OnEntry(l, s'.table, s'.fars, s'.sites[i]))
  {
    var s', site := EnterStub(l, s, i, made, trace, far), s.sites[i];
    if s'.sites[i] != site {
      var target := if site.stub.Some? && LeadsTo(l, s.fars, site, site.stub.value) then site.stub.value else s.table[site.data.guest];
      PatchedLeads(l, s.fars, site, target, s'.table[site.data.guest], far);
      assert RelocatedTo(l, s'.fars, s'.sites[i], s'.table[site.data.guest], far);
    }
  }

  lemma EnterKeeps(l: Linker, s: State, i: nat, made: Option<bv64>, trace: bool, far0: Far)
    requires WellBehaved(l) && Inv(l, s) && i < |s.sites|
    ensures var s' := EnterStub(l, s, i, made, trace, NewFar(s.fars, far0));
      Inv(l, s') && Extends(s.table, s'.table) && s.fars <= s'.fars
  {
    var far := NewFar(s.fars, far0);
    var s', site := EnterStub(l, s, i, made, trace, far), s.sites[i];
    if site.data.guest in s'.table {
      FarsGrow(l, s.fars, site.data, s'.table[site.data.guest], far0);
    }
    EnteredSite(l, s, i, made, trace, far);
    forall j | 0 <= j < |s'.sites| ensures SiteOk(l, s'.table, s'.fars, s'.sites[j]) {
      SiteKept(l, s, s', s.sites[j]);
    }
  }

  lemma StepKeeps(l: Linker, s: State, act: Act)
    requires WellBehaved(l) && Inv(l, s)
    ensures var s' := Step(l, s, act); Inv(l, s') && Extends(s.table, s'.table) && s.fars <= s'.fars
  {
    match act
    case Load(data, original, stub, far) => LoadKeeps(l, s, data, original, stub, far);
    case Register(guest, entry) =>
      forall j | 0 <= j < |s.sites| ensures SiteOk(l, Registered(s.table, guest, entry), s.fars, s.sites[j]) {
        SiteKept(l, s, Step(l, s, act), s.sites[j]);
      }
    case Enter(i, made, trace, far) =>
      if i < |s.sites| {
        EnterKeeps(l, s, i, made, trace, far);
      }
  }

  /** At every moment of every run, each call site leads to the table's entry for its guest address or to its own stub. */
  lemma {:induction false} SitesLead(l: Linker, schedule: seq<Act>)
    requires WellBehaved(l)
    ensures Inv(l, Run(l, schedule))
  {
    hide WellBehaved, Step, Inv;
    if schedule == [] {
      NoSites(l);
    } else {
      var n := |schedule| - 1;
      SitesLead(l, schedule[..n]);
      StepKeeps(l, Run(l, schedule[..n]), schedule[n]);
    }
  }

  lemma NoSites(l: Linker)
    ensures Inv(l, State(map[], {}, []))
  {
  }

  lemma EntryKept(l: Linker, s: State, act: Act, i: nat)
    requires WellBehaved(l) && Inv(l, s) && i < |s.sites| && OnEntry(l, s.table, s.fars, s.sites[i])
    ensures var s' := Step(l, s, act);
      i < |s'.sites| && s'.sites[i].data == s.sites[i].data && OnEntry(l, s'.table, s'.fars, s'.sites[i])
  {
    hide WellBehaved;
    StepKeeps(l, s, act);
    SiteKept(l, s, Step(l, s, act), s.sites[i]);
    if act.Enter? && act.i == i {
      EnteredSite(l, s, i, act.made, act.trace, NewFar(s.fars, act.far));
    }
  }

  /** A site that has come to lead to the table's entry does so for the rest of the run. */
  lemma {:induction false} PatchedForGood(l: Linker, schedule: seq<Act>, later: seq<Act>, i: nat)
    requires WellBehaved(l) && i < |Run(l, schedule).sites|
    requires var s := Run(l, schedule); OnEntry(l, s.table, s.fars, s.sites[i])
    ensures var s, s' := Run(l, schedule), Run(l, schedule + later);
      i < |s'.sites| && s'.sites[i].data == s.sites[i].data && OnEntry(l, s'.table, s'.fars, s'.sites[i])
    decreases |later|
  {
    hide WellBehaved, Step, OnEntry, Inv;
    if later == [] {
      assert schedule + later == schedule;
    } else {
      var n := |later| - 1;
      var all := schedule + later;
      assert all[..|all| - 1] == schedule + later[..n] && all[|all| - 1] == later[n];
      PatchedForGood(l, schedule, later[..n], i);
      SitesLead(l, schedule + later[..n]);
      EntryKept(l, Run(l, schedule + later[..n]), later[n], i);
    }
  }

  // ---- Decoded -----------------------------------------------------------------------

  /** How far on the processor goes from the site, by the decoders of the instruction sets. */
  function Offset(kind: CallKind, word: bv64): bv64 {
    match kind
    case Pc32 => Extend32(word & 0xffff_ffff)
    case Jump => Imm26Offset(word)
    case CondBranch => BranchOffset(word)
    case JumpAndLink => JalOffset(word)
    case CallPair => CallOffset(word)
  }

  /** The distances that a relocation of this kind, once accepted, encodes exactly. */
  predicate Exact(kind: CallKind, d: bv64) {
    match kind
    case Pc32 => true
    case Jump => d & 3 == 0
    case CondBranch => d & 1 == 0
    case JumpAndLink => d & 1 == 0
    case CallPair => InPairRange(d)
  }

  /** The distance that the site is relocated for: to the address itself, or to the far stub made for it. */
  function Distance(kind: CallKind, pc: bv64, syma: bv64, far: Far): bv64 {
    if NeedsFar(kind, pc, syma) && far.StubAt? then Minus(far.addr, pc) else Minus(syma, pc)
  }

  ghost predicate Decodes(word: bv64, kind: CallKind, pc: bv64, syma: bv64, far: Far) {
    RelocateCall(word, kind, pc, syma, far).Some? ==>
      (Offset(kind, RelocateCall(word, kind, pc, syma, far).value) == Distance(kind, pc, syma, far)
       <==> Exact(kind, Distance(kind, pc, syma, far)))
  }

  lemma Pc32Decodes(word: bv64, pc: bv64, syma: bv64, far: Far)
    ensures Decodes(word, Pc32, pc, syma, far)
  {
    hide Minus, InSigned, Blend, Signed32Field, Branch, Jal, Call, Jump26, Extend32, Imm26Offset, BranchOffset, JalOffset, CallOffset, InPairRange;
    if Signed32Field(Minus(syma, pc)).Field? {
      Signed32Reaches(word, Minus(syma, pc));
    }
  }

  lemma JumpDecodes(word: bv64, pc: bv64, syma: bv64, far: Far)
    ensures Decodes(word, Jump, pc, syma, far)
  {
    hide Minus, InSigned, Blend, Signed32Field, Branch, Jal, Call, Jump26, Extend32, Imm26Offset, BranchOffset, JalOffset, CallOffset, InPairRange;
    if InSigned(Minus(syma, pc), 0x800_0000) {
      JumpReaches(word, pc, syma, far);
    } else if Jump26(pc, syma, far).Field? {
      FarJumpReaches(word, pc, syma, far);
    }
  }

  lemma BranchDecodes(word: bv64, pc: bv64, syma: bv64, far: Far)
    ensures Decodes(word, CondBranch, pc, syma, far)
  {
    hide Minus, InSigned, Blend, Signed32Field, Branch, Jal, Call, Jump26, Extend32, Imm26Offset, BranchOffset, JalOffset, CallOffset, InPairRange;
    if Branch(Minus(syma, pc)).Field? {
      BranchReaches(word, Minus(syma, pc));
    }
  }

  lemma JalDecodes(word: bv64, pc: bv64, syma: bv64, far: Far)
    ensures Decodes(word, JumpAndLink, pc, syma, far)
  {
    hide Minus, InSigned, Blend, Signed32Field, Branch, Jal, Call, Jump26, Extend32, Imm26Offset, BranchOffset, JalOffset, CallOffset, InPairRange;
    if Jal(Minus(syma, pc)).Field? {
      JalReaches(word, Minus(syma, pc));
    }
  }

  lemma CallAccepted(prel: bv64)
    ensures Call(prel).Field?
  {
  }

  lemma CallDecodes(word: bv64, pc: bv64, syma: bv64, far: Far)
    ensures Decodes(word, CallPair, pc, syma, far)
  {
    hide Minus, InSigned, Blend, Signed32Field, Branch, Jal, Call, Jump26, Extend32, Imm26Offset, BranchOffset, JalOffset, CallOffset, InPairRange;
    CallAccepted(Minus(syma, pc));
    CallReaches(word, Minus(syma, pc));
  }

  lemma AllDecode(word: bv64, kind: CallKind, pc: bv64, syma: bv64, far: Far)
    ensures Decodes(word, kind, pc, syma, far)
  {
    hide Decodes;
    match kind
    case Pc32 => Pc32Decodes(word, pc, syma, far);
    case Jump => JumpDecodes(word, pc, syma, far);
    case CondBranch => BranchDecodes(word, pc, syma, far);
    case JumpAndLink => JalDecodes(word, pc, syma, far);
    case CallPair => CallDecodes(word, pc, syma, far);
  }

  /**
   Where a call ends up that was relocated to the target, through this far stub where one is needed (`FarStubLoads`):
   exactly there if and only if the distance is one the kind encodes.
   */
  ghost predicate Arrives(fars: set<FarMade>, site: Site, target: bv64, far: Far) {
    var kind, pc, syma := site.data.kind, site.data.pc, Plus(target, site.data.addend);
    && RelocatedTo(CallLinker(), fars, site, target, far)
    && (Offset(kind, site.word) == Distance(kind, pc, syma, far) <==> Exact(kind, Distance(kind, pc, syma, far)))
  }

  lemma LeadingArrives(fars: set<FarMade>, site: Site, target: bv64, far: Far)
    requires RelocatedTo(CallLinker(), fars, site, target, far)
    ensures Arrives(fars, site, target, far)
    ensures Rest(site.data.kind, site.word) == Rest(site.data.kind, site.original)
  {
    hide RelocateCall, NeedsFar, Offset, Exact, Plus, Minus, Rest;
    var kind, pc, syma := site.data.kind, site.data.pc, Plus(target, site.data.addend);
    AllDecode(site.original, kind, pc, syma, far);
    RestKept(site.original, kind, pc, syma, far);
  }

  /** Each call site leads to its own stub or to the table's entry. */
  ghost predicate ArrivesSomewhere(s: State, site: Site) {
    || (site.stub.Some? && exists far :: Arrives(s.fars, site, site.stub.value, far))
    || (site.data.guest in s.table && exists far :: Arrives(s.fars, site, s.table[site.data.guest], far))
  }

  /** In every run of the linker, each call arrives at the table's entry or at the site's own stub. */
  lemma CallsArrive(schedule: seq<Act>, i: nat)
    requires i < |Run(CallLinker(), schedule).sites|
    ensures OneEach(Run(CallLinker(), schedule).fars)
    ensures var s := Run(CallLinker(), schedule); ArrivesSomewhere(s, s.sites[i])
    ensures var site := Run(CallLinker(), schedule).sites[i];
      Rest(site.data.kind, site.word) == Rest(site.data.kind, site.original)
  {
    hide Arrives, RelocatedTo, Rest, WellBehaved, Run, KeepsRest;
    CallsOverwrite();
    SitesLead(CallLinker(), schedule);
    var s := Run(CallLinker(), schedule);
    var site := s.sites[i];
    assert SiteOk(CallLinker(), s.table, s.fars, site);
    if site.stub.Some? && LeadsTo(CallLinker(), s.fars, site, site.stub.value) {
      var far :| RelocatedTo(CallLinker(), s.fars, site, site.stub.value, far);
      LeadingArrives(s.fars, site, site.stub.value, far);
    } else {
      var far :| RelocatedTo(CallLinker(), s.fars, site, s.table[site.data.guest], far);
      LeadingArrives(s.fars, site, s.table[site.data.guest], far);
    }
  }

  // ---- What loading and entering do --------------------------------------------------

  /** A site holds a relocation of the object's word, so relocating it again is relocating that word. */
  lemma FromOriginal(l: Linker, s: State, site: Site, a: bv64, far: Far)
    requires WellBehaved(l) && SiteOk(l, s.table, s.fars, site)
    ensures l.relocate(site.word, site.data.kind, site.data.pc, a, far) == l.relocate(site.original, site.data.kind, site.data.pc, a, far)
  {
    hide Plus, FarFits;
    var target := if site.stub.Some? && LeadsTo(l, s.fars, site, site.stub.value) then site.stub.value else s.table[site.data.guest];
    var far0 :| RelocatedTo(l, s.fars, site, target, far0);
    assert Overwrites(l, site.original, site.data.kind, site.data.pc, Plus(target, site.data.addend), far0, a, far);
  }

  /** The direct relocation of a site to an entry. */
  function Direct(site: Site, entry: bv64, far: Far): Option<bv64> {
    RelocateCall(site.original, site.data.kind, site.data.pc, Plus(entry, site.data.addend), far)
  }

  lemma EnterWord(s: State, i: nat, made: Option<bv64>, far: Far)
    requires WellBehaved(CallLinker()) && i < |s.sites| && SiteOk(CallLinker(), s.table, s.fars, s.sites[i])
    ensures var s' := EnterStub(CallLinker(), s, i, made, false, far); var site := s.sites[i];
      site.data.guest in s'.table ==>
        var r := Direct(site, s'.table[site.data.guest], far);
        s'.sites == s.sites[i := site.(word := if site.data.size <= 8 && r.Some? then r.value else site.word)]
  {
    hide Plus, RelocateCall, NeedsFar, WellBehaved;
    var l, site := CallLinker(), s.sites[i];
    var s' := EnterStub(l, s, i, made, false, far);
    if site.data.guest in s'.table {
      FromOriginal(l, s, site, Plus(s'.table[site.data.guest], site.data.addend), far);
    }
  }

  lemma EnterArrives(s: State, i: nat, made: Option<bv64>, far: Far)
    requires WellBehaved(CallLinker()) && i < |s.sites| && SiteOk(CallLinker(), s.table, s.fars, s.sites[i])
    ensures var s' := EnterStub(CallLinker(), s, i, made, false, far); var site := s.sites[i];
      site.data.guest in s'.table && site.data.size <= 8 && Direct(site, s'.table[site.data.guest], far).Some? ==>
        Arrives(s'.fars, s'.sites[i], s'.table[site.data.guest], far)
  {
    EnterWord(s, i, made, far);
    hide Plus, RelocateCall, NeedsFar, WellBehaved, SiteOk, Arrives;
    var l, site := CallLinker(), s.sites[i];
    var s' := EnterStub(l, s, i, made, false, far);
    if site.data.guest in s'.table && site.data.size <= 8 && Direct(site, s'.table[site.data.guest], far).Some? {
      var entry := s'.table[site.data.guest];
      DirectFits(s.fars, s'.sites[i], entry, far);
      LeadingArrives(s'.fars, s'.sites[i], entry, far);
    }
  }

  lemma DirectFits(fars: set<FarMade>, site: Site, entry: bv64, far: Far)
    requires Direct(site, entry, far) == Some(site.word)
    ensures RelocatedTo(CallLinker(), FarsAfter(CallLinker(), fars, site.data, entry, far), site, entry, far)
  {
    hide Plus, RelocateCall, NeedsFar;
    var kind, pc, syma := site.data.kind, site.data.pc, Plus(entry, site.data.addend);
    if NeedsFar(kind, pc, syma) && far.NoStub? {
      FarRefused(site.original, kind, pc, syma);
    }
  }

  /** The table after a function may have been made for a guest address. */
  lemma EnterTable(s: State, i: nat, made: Option<bv64>, trace: bool, far: Far)
    requires i < |s.sites|
    ensures var s' := EnterStub(CallLinker(), s, i, made, trace, far); var guest := s.sites[i].data.guest;
      && Extends(s.table, s'.table)
      && (forall g :: g in s'.table ==> g in s.table || (g == guest && made == Some(s'.table[g])))
      && (made.Some? && guest != 0 ==> guest in s'.table)
      && (trace || guest !in s'.table ==> s'.sites == s.sites && s'.fars == s.fars)
  {
    hide RelocateCall, NeedsFar, Plus;
  }

  /**
   In every run, entering a stub patches its site: once the guest address has an entry, the site holds the direct
   relocation of the object's word to it if that is accepted, and arrives there; if it is refused, the site stays.
   */
  lemma EnterPatches(schedule: seq<Act>, i: nat, made: Option<bv64>, far: Far)
    requires i < |Run(CallLinker(), schedule).sites|
    ensures var s := Run(CallLinker(), schedule);
      var s', site, f := Step(CallLinker(), s, Enter(i, made, false, far)), s.sites[i], NewFar(s.fars, far);
      && Extends(s.table, s'.table) && (made.Some? && site.data.guest != 0 ==> site.data.guest in s'.table)
      && (site.data.guest in s'.table ==>
            var entry := s'.table[site.data.guest];
            var r := Direct(site, entry, f);
            && (site.data.guest !in s.table ==> made == Some(entry))
            && s'.sites == s.sites[i := site.(word := if site.data.size <= 8 && r.Some? then r.value else site.word)]
            && (site.data.size <= 8 && r.Some? ==> Arrives(s'.fars, s'.sites[i], entry, f)))
  {
    hide Arrives, RelocatedTo, WellBehaved, Run, KeepsRest, Direct, RelocateCall, NeedsFar;
    CallsOverwrite();
    SitesLead(CallLinker(), schedule);
    var s := Run(CallLinker(), schedule);
    var f := NewFar(s.fars, far);
    assert SiteOk(CallLinker(), s.table, s.fars, s.sites[i]);
    hide SiteOk, EnterStub;
    EnterTable(s, i, made, false, f);
    EnterWord(s, i, made, f);
    EnterArrives(s, i, made, f);
  }

  /**
   In every run, a site that is loaded when its guest address has an entry is on the entry at once and has no stub;
   otherwise it is on the stub made for it. If the relocation is refused, there is no site.
   */
  lemma LoadLeads(schedule: seq<Act>, data: PatchData, original: bv64, stub: bv64, far: Far)
    ensures var s := Run(CallLinker(), schedule);
      var s', f := Step(CallLinker(), s, Load(data, original, stub, far)), NewFar(s.fars, far);
      var target := if data.guest in s.table then s.table[data.guest] else stub;
      var r := RelocateCall(original, data.kind, data.pc, Plus(target, data.addend), f);
      && s'.table == s.table && s'.sites[..|s.sites|] == s.sites
      && (if r.None? then s'.sites == s.sites
          else
            && |s'.sites| == |s.sites| + 1
            && s'.sites[|s.sites|] == Site(data, original, r.value, if data.guest in s.table then None else Some(stub))
            && Arrives(s'.fars, s'.sites[|s.sites|], target, f))
  {
    hide Arrives, RelocatedTo, Run, RelocateCall, NeedsFar, Plus;
    var s := Run(CallLinker(), schedule);
    var f := NewFar(s.fars, far);
    var target := if data.guest in s.table then s.table[data.guest] else stub;
    var s' := Step(CallLinker(), s, Load(data, original, stub, far));
    if RelocateCall(original, data.kind, data.pc, Plus(target, data.addend), f).Some? {
      var site := s'.sites[|s.sites|];
      DirectFits(s.fars, site, target, f);
      LeadingArrives(s'.fars, site, target, f);
    }
  }

  // ---- The stub's own code: the address of the patch data, 16 bytes on, and a jump to the resolver ----

  /** RISC-V: auipc and addi into the patch data register, auipc and jalr to the resolver, diff away from the third. */
  function RvDataUpper(pdr: bv64): bv64 { 0x0000_0017 | (pdr << 7) }
  function RvDataLower(pdr: bv64): bv64 { 0x0100_0013 | (pdr << 7) | (pdr << 15) }
  function RvUpper(y: bv64): bv64 { 0x0000_0297 | ((Asr12(y) << 12) & 0xffff_ffff) }
  function RvJumpUpper(diff: bv64): bv64 { RvUpper(diff + 0x800) }
  function RvJumpLower(diff: bv64): bv64 { 0x0002_8067 | (Low(diff) << 20) }

  lemma RvStubPassesData(pdr: bv64)
    requires pdr < 32
    ensures Top(RvDataUpper(pdr)) == 0 && Low(RvDataLower(pdr) >> 20) == 16
  {
  }

  lemma RvUpperPositive(y: bv64)
    requires y & 0x8000_0000_0000_0000 == 0
    ensures Top(RvUpper(y)) == Top(y)
  {
  }

  lemma RvUpperNegative(y: bv64)
    requires y & 0x8000_0000_0000_0000 != 0
    ensures Top(RvUpper(y)) == Top(y)
  {
  }

  lemma RvUpperField(y: bv64)
    ensures Top(RvUpper(y)) == Top(y)
  {
    if y & 0x8000_0000_0000_0000 == 0 {
      RvUpperPositive(y);
    } else {
      RvUpperNegative(y);
    }
  }

  lemma RvJumpLowerField(diff: bv64)
    ensures Low(RvJumpLower(diff) >> 20) == Low(diff)
  {
  }

  /** The jump goes exactly diff further if and only if diff is in the range of a pair. */
  lemma RvStubJumps(diff: bv64)
    ensures Plus(UImmediate(RvJumpUpper(diff)), IImmediate(RvJumpLower(diff))) == diff <==> InPairRange(diff)
  {
    RvUpperField(diff + 0x800);
    RvJumpLowerField(diff);
    PairSums(diff);
  }

  /** AArch64: adr into the patch data register, then a branch that is range-checked. */
  lemma A64StubPassesData(pdr: bv64)
    requires pdr < 32
    ensures (((((0x1000_0080 + pdr) >> 5) & 0x7_ffff) << 2) | (((0x1000_0080 + pdr) >> 29) & 3)) == 16
  {
    assert 0x1000_0080 + pdr == 0x1000_0080 | pdr;
  }

  lemma A64StubJumps(diff: bv64)
    requires InSigned(diff, 0x800_0000)
    ensures Imm26Offset(Blend(0x1400_0000, 0x03ff_ffff, Asr2(diff))) == diff <==> diff & 3 == 0
  {
    Imm26Reaches(0x1400_0000, diff);
  }

  /** x86-64: the first eight bytes, lea with a RIP-relative operand and the opcode of a jump; then its displacement and two ud2. */
  function X86StubLow(pdr: bv64): bv64 {
    (if pdr >= 8 then 0x4c else 0x48) | (0x8d << 8) | ((5 + ((pdr & 7) << 3)) << 16) | (9 << 24) | (0xe9 << 56)
  }

  function X86StubHigh(diff: bv64): bv64 { (Minus(diff, 12) & 0xffff_ffff) | (0x0b0f_0b0f << 32) }

  /** REX.W lea reg, [rip + disp32], the register's top bit in REX.R, followed by jmp rel32. */
  predicate X86LeaAndJump(w: bv64, reg: bv64, disp: bv64) {
    && w & 0xf8 == 0x48 && (w >> 8) & 0xff == 0x8d
    && (w >> 16) & 0xc7 == 0x05
    && ((w >> 19) & 7) | (((w >> 2) & 1) << 3) == reg
    && (w >> 24) & 0xffff_ffff == disp
    && w >> 56 == 0xe9
  }

  lemma X86LowRegister(pdr: bv64)
    requires pdr < 8
    ensures X86LeaAndJump(X86StubLow(pdr), pdr, 9)
  {
  }

  lemma X86HighRegister(pdr: bv64)
    requires 8 <= pdr < 16
    ensures X86LeaAndJump(X86StubLow(pdr), pdr, 9)
  {
  }

  /** lea is seven bytes long, so the register gets the address 16 bytes behind the stub's start. */
  lemma X86StubPassesData(pdr: bv64)
    requires pdr < 16
    ensures X86LeaAndJump(X86StubLow(pdr), pdr, 9)
  {
    if pdr < 8 {
      X86LowRegister(pdr);
    } else {
      X86HighRegister(pdr);
    }
  }

  /** rel32 of the jump. */
  function X86Rel32(w: bv64): bv64 { w & 0xffff_ffff }

  lemma X86Displacement(diff: bv64)
    ensures X86Rel32(X86StubHigh(diff)) == Minus(diff, 12) & 0xffff_ffff
  {
    hide Minus;
  }

  /** The jump ends 12 bytes into the stub; its displacement is cut to 32 bits unchecked, so it arrives exactly if that fits. */
  lemma X86StubJumps(diff: bv64)
    ensures Extend32(X86Rel32(X86StubHigh(diff))) == Minus(diff, 12) <==> FitsSigned(Minus(diff, 12), 0x8000_0000)
  {
    hide Extend32, FitsSigned, Minus, X86Rel32, X86StubHigh;
    X86Displacement(diff);
    Fits32(Minus(diff, 12));
  }
}
