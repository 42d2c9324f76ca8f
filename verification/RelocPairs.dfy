/**
 Processing a list of relocations: symbols are resolved one relocation at a time, and the lower half of
 a RISC-V address pair finds its offset through the relocation of its upper half.
 Addresses are integers here, and become machine words where a field is encoded.
 */
module RelocPairs {
  import opened Common
  import opened Reloc

  /** The kinds that matter for pairs; other upper halves are looked for, though nothing relocates them. */
  datatype Kind = PcrelUpper | OtherUpper | LowerI | LowerS | Plain(id: nat)

  datatype Rela = Rela(offset: int, kind: Kind, sym: nat, addend: int)

  /** A symbol of the object: an address, a guest function without translation, or nothing the loader knows. */
  datatype Symbol = Known(addr: int) | Lazy | Undefined

  /** What rtld_reloc_at is asked to write: a field of this kind at pc for the address syma. */
  datatype Request = Request(kind: Kind, pc: int, syma: int)

  /**
   The target section and what surrounds it: where the k-th call stub is put, if anywhere,
   and the fields of the kinds that are not part of pairs.
   */
  datatype Env = Env(addr: int, size: int, symbols: seq<Symbol>, stubs: nat -> Option<int>, others: Request -> Field)

  /** The instruction words of the section, by their offset. */
  type Code = int -> bv64

  /** An integer as a machine word. */
  function Word(x: int): bv64 { (x % TWO_64) as bv64 }

  /** The offset that rtld_reloc_at encodes. */
  function Prel(r: Request): bv64 { Word(r.syma - r.pc) }

  /** The field that rtld_reloc_at writes, if it does. */
  function FieldFor(env: Env, r: Request): Field {
    match r.kind
    case PcrelUpper => PcrelHi20(Prel(r))
    case LowerI => Lo12I(Prel(r))
    case LowerS => Lo12S(Prel(r))
    case OtherUpper => Reject
    case Plain(_) => env.others(r)
  }

  function Put(code: Code, offset: int, word: bv64): Code {
    (x: int) => if x == offset then word else code(x)
  }

  function Relocated(code: Code, offset: int, f: Field): Code
    requires f.Field?
  {
    Put(code, offset, Relocate(code(offset), f))
  }

  datatype Resolution = Resolved(addr: int, stubs: nat) | Unresolved

  /** Every resolution of a symbol without translation makes a stub of its own. */
  function Resolve(env: Env, sym: nat, stubs: nat): Resolution {
    if sym == 0 || sym >= |env.symbols| then Unresolved
    else
      match env.symbols[sym]
      case Known(addr) => Resolved(addr, stubs)
      case Lazy => if env.stubs(stubs).Some? then Resolved(env.stubs(stubs).value, stubs + 1) else Unresolved
      case Undefined => Unresolved
  }

  predicate IsUpper(kind: Kind) {
    kind.PcrelUpper? || kind.OtherUpper?
  }

  predicate IsLower(kind: Kind) {
    kind.LowerI? || kind.LowerS?
  }

  predicate UpperAt(relas: seq<Rela>, h: nat, offset: int) {
    && h < |relas| && relas[h].offset == offset && IsUpper(relas[h].kind)
    && forall j :: 0 <= j < h ==> !(relas[j].offset == offset && IsUpper(relas[j].kind))
  }

  /** The first relocation that makes an upper half at the offset. */
  method FindUpper(relas: seq<Rela>, offset: int) returns (found: bool, h: nat)
    ensures found ==> UpperAt(relas, h, offset)
    ensures !found ==> forall j :: 0 <= j < |relas| ==> !(relas[j].offset == offset && IsUpper(relas[j].kind))
  {
    h := 0;
    while h < |relas|
      invariant h <= |relas|
      invariant forall j :: 0 <= j < h ==> !(relas[j].offset == offset && IsUpper(relas[j].kind))
    {
      if relas[h].offset == offset && IsUpper(relas[h].kind) {
        return true, h;
      }
      h := h + 1;
    }
    return false, h;
  }

  lemma OneUpper(relas: seq<Rela>, h: nat, h': nat, offset: int)
    requires UpperAt(relas, h, offset) && UpperAt(relas, h', offset)
    ensures h == h'
  {
  }

  datatype Edit = Edit(request: Request, stubs: nat) | Failed

  function Checked(env: Env, request: Request, stubs: nat): Edit {
    if FieldFor(env, request).Field? then Edit(request, stubs) else Failed
  }

  /** The lower half takes the offset of its upper half, whose symbol is resolved once more. */
  function LowerEdit(env: Env, relas: seq<Rela>, i: nat, h: nat, mark: Resolution): Edit
    requires i < |relas| && h < |relas| && mark.Resolved?
  {
    var target := Resolve(env, relas[h].sym, mark.stubs);
    if target.Unresolved? then Failed
    else Checked(env, Request(relas[i].kind, 0, target.addr + relas[h].addend - mark.addr), target.stubs)
  }

  ghost predicate LowerEdits(env: Env, relas: seq<Rela>, i: nat, mark: Resolution, offset: int, edit: Edit)
    requires i < |relas| && mark.Resolved?
  {
    || (edit == Failed && forall h: nat :: !UpperAt(relas, h, offset))
    || (exists h: nat :: UpperAt(relas, h, offset) && edit == LowerEdit(env, relas, i, h, mark))
  }

  /** What one relocation asks for, with as many stubs made before it. */
  ghost predicate Edits(env: Env, relas: seq<Rela>, i: nat, stubs: nat, edit: Edit)
    requires i < |relas|
  {
    var rela := relas[i];
    var sym := Resolve(env, rela.sym, stubs);
    if rela.offset >= env.size || sym.Unresolved? then edit == Failed
    else if IsLower(rela.kind) then LowerEdits(env, relas, i, sym, sym.addr - env.addr, edit)
    else edit == Checked(env, Request(rela.kind, env.addr + rela.offset, sym.addr + rela.addend), sym.stubs)
  }

  method RelocateOne(env: Env, relas: seq<Rela>, i: nat, stubs: nat) returns (edit: Edit)
    requires i < |relas|
    ensures Edits(env, relas, i, stubs, edit)
  {
    var rela := relas[i];
    if rela.offset >= env.size {
      return Failed;
    }
    var sym := Resolve(env, rela.sym, stubs);
    if sym.Unresolved? {
      return Failed;
    }
    if !IsLower(rela.kind) {
      return Checked(env, Request(rela.kind, env.addr + rela.offset, sym.addr + rela.addend), sym.stubs);
    }
    var found, h := FindUpper(relas, sym.addr - env.addr);
    if !found {
      return Failed;
    }
    edit := LowerEdit(env, relas, i, h, sym);
  }

  /** All requests up to the first failure; before[i] is the number of stubs made before the i-th. */
  ghost predicate Chain(env: Env, relas: seq<Rela>, requests: seq<Request>, before: seq<nat>) {
    && |requests| <= |relas| && |before| == |requests| + 1
    && forall i :: 0 <= i < |requests| ==> Made(env, relas, requests, before, i)
  }

  ghost predicate Made(env: Env, relas: seq<Rela>, requests: seq<Request>, before: seq<nat>, i: nat)
    requires i < |requests| <= |relas| && |before| == |requests| + 1
  {
    Edits(env, relas, i, before[i], Edit(requests[i], before[i + 1]))
  }

  ghost predicate Accepted(env: Env, requests: seq<Request>) {
    forall i :: 0 <= i < |requests| ==> FieldFor(env, requests[i]).Field?
  }

  /** The section after the requests have been written in order. */
  ghost function Written(env: Env, relas: seq<Rela>, requests: seq<Request>, code: Code): Code
    requires |requests| <= |relas| && Accepted(env, requests)
  {
    if requests == [] then code
    else
      var n := |requests| - 1;
      Relocated(Written(env, relas, requests[..n], code), relas[n].offset, FieldFor(env, requests[n]))
  }

  lemma EditAccepted(env: Env, relas: seq<Rela>, i: nat, stubs: nat, edit: Edit)
    requires i < |relas| && Edits(env, relas, i, stubs, edit) && edit.Edit?
    ensures FieldFor(env, edit.request).Field?
  {
  }

  lemma ChainAccepted(env: Env, relas: seq<Rela>, requests: seq<Request>, before: seq<nat>)
    requires Chain(env, relas, requests, before)
    ensures Accepted(env, requests)
  {
    forall i | 0 <= i < |requests| ensures FieldFor(env, requests[i]).Field? {
      assert Made(env, relas, requests, before, i);
      EditAccepted(env, relas, i, before[i], Edit(requests[i], before[i + 1]));
    }
  }

  lemma ChainGrows(env: Env, relas: seq<Rela>, requests: seq<Request>, before: seq<nat>, edit: Edit)
    requires Chain(env, relas, requests, before) && |requests| < |relas| && edit.Edit?
    requires Edits(env, relas, |requests|, before[|requests|], edit)
    ensures Chain(env, relas, requests + [edit.request], before + [edit.stubs])
  {
    var longer, more := before + [edit.stubs], requests + [edit.request];
    forall i | 0 <= i < |more| ensures Made(env, relas, more, longer, i) {
      assert i < |requests| ==> Made(env, relas, requests, before, i);
    }
  }

  /** One relocation after the other, each written before the next is resolved, up to the first failure. */
  method ProcessRela(env: Env, relas: seq<Rela>, stubs: nat, code0: Code)
    returns (ok: bool, code: Code, ghost requests: seq<Request>, ghost before: seq<nat>)
    ensures Chain(env, relas, requests, before) && before[0] == stubs && Accepted(env, requests)
    ensures code == Written(env, relas, requests, code0)
    ensures ok ==> |requests| == |relas|
    ensures !ok ==> |requests| < |relas| && Edits(env, relas, |requests|, before[|requests|], Failed)
  {
    hide Edits, FieldFor, Relocated;
    requests, before := [], [stubs];
    code := code0;
    var made, n := stubs, 0;
    while n < |relas|
      invariant n == |requests| <= |relas|
      invariant Chain(env, relas, requests, before) && before[0] == stubs && made == before[n] && Accepted(env, requests)
      invariant code == Written(env, relas, requests, code0)
    {
      var edit := RelocateOne(env, relas, n, made);
      if edit.Failed? {
        return false, code, requests, before;
      }
      EditAccepted(env, relas, n, made, edit);
      ChainGrows(env, relas, requests, before, edit);
      code := Relocated(code, relas[n].offset, FieldFor(env, edit.request));
      ghost var more := requests + [edit.request];
      assert more[..n] == requests;
      requests, before := more, before + [edit.stubs];
      made, n := edit.stubs, n + 1;
    }
    ok := true;
  }

  // ---- What is asked for, and when it is refused -------------------------------------

  /** There is exactly one answer to a relocation. */
  lemma OneEdit(env: Env, relas: seq<Rela>, i: nat, stubs: nat, e: Edit, e': Edit)
    requires i < |relas| && Edits(env, relas, i, stubs, e) && Edits(env, relas, i, stubs, e')
    ensures e == e'
  {
    var sym := Resolve(env, relas[i].sym, stubs);
    if relas[i].offset < env.size && sym.Resolved? && IsLower(relas[i].kind) {
      var offset := sym.addr - env.addr;
      if h: nat :| UpperAt(relas, h, offset) && e == LowerEdit(env, relas, i, h, sym) {
        var h': nat :| UpperAt(relas, h', offset) && e' == LowerEdit(env, relas, i, h', sym);
        OneUpper(relas, h, h', offset);
      }
    }
  }

  /** A lower half has an upper half whose symbol resolves. */
  ghost predicate HasUpper(env: Env, relas: seq<Rela>, mark: Resolution)
    requires mark.Resolved?
  {
    exists h: nat :: UpperAt(relas, h, mark.addr - env.addr) && Resolve(env, relas[h].sym, mark.stubs).Resolved?
  }

  /** Exactly when a relocation is refused: outside the section, no symbol, no upper half, or a field that is out of range. */
  lemma RefusedExactly(env: Env, relas: seq<Rela>, i: nat, stubs: nat)
    requires i < |relas|
    ensures var rela := relas[i]; var sym := Resolve(env, rela.sym, stubs);
      Edits(env, relas, i, stubs, Failed) <==>
        || rela.offset >= env.size || sym.Unresolved?
        || (IsLower(rela.kind) && !HasUpper(env, relas, sym))
        || (!IsLower(rela.kind) && FieldFor(env, Request(rela.kind, env.addr + rela.offset, sym.addr + rela.addend)).Reject?)
  {
    var rela := relas[i];
    var sym := Resolve(env, rela.sym, stubs);
    if rela.offset < env.size && sym.Resolved? && IsLower(rela.kind) {
      var offset := sym.addr - env.addr;
      if h: nat :| UpperAt(relas, h, offset) {
        forall h': nat | UpperAt(relas, h', offset) ensures h' == h { OneUpper(relas, h, h', offset); }
        assert LowerEdit(env, relas, i, h, sym).Failed? <==> Resolve(env, relas[h].sym, sym.stubs).Unresolved?;
      }
    }
  }

  /** What any other relocation asks for: its kind, the address of its field, and the symbol's address plus the addend. */
  lemma Asked(env: Env, relas: seq<Rela>, requests: seq<Request>, before: seq<nat>, i: nat)
    requires Chain(env, relas, requests, before) && i < |requests| && !IsLower(relas[i].kind)
    ensures var sym := Resolve(env, relas[i].sym, before[i]);
      && sym.Resolved? && relas[i].offset < env.size && before[i + 1] == sym.stubs
      && requests[i] == Request(relas[i].kind, env.addr + relas[i].offset, sym.addr + relas[i].addend)
  {
    assert Made(env, relas, requests, before, i);
  }

  // ---- What the section holds afterwards ---------------------------------------------

  lemma {:induction false} Untouched(env: Env, relas: seq<Rela>, requests: seq<Request>, code: Code, offset: int)
    requires |requests| <= |relas| && Accepted(env, requests)
    requires forall j :: 0 <= j < |requests| ==> relas[j].offset != offset
    ensures Written(env, relas, requests, code)(offset) == code(offset)
  {
    hide FieldFor, Relocate;
    if requests != [] {
      Untouched(env, relas, requests[..|requests| - 1], code, offset);
    }
  }

  /** No other relocation is for the same instruction. */
  predicate Alone(relas: seq<Rela>, k: nat) {
    k < |relas| && forall j :: 0 <= j < |relas| && j != k ==> relas[j].offset != relas[k].offset
  }

  /** An instruction with one relocation ends up with the field made for it. */
  lemma {:induction false} OnceWritten(env: Env, relas: seq<Rela>, requests: seq<Request>, code: Code, k: nat)
    requires k < |requests| <= |relas| && Accepted(env, requests) && Alone(relas, k)
    ensures Written(env, relas, requests, code)(relas[k].offset)
      == Relocate(code(relas[k].offset), FieldFor(env, requests[k]))
    decreases |requests|
  {
    hide FieldFor, Relocate;
    var n := |requests| - 1;
    if k == n {
      Untouched(env, relas, requests[..n], code, relas[k].offset);
    } else {
      OnceWritten(env, relas, requests[..n], code, k);
    }
  }

  /** After the whole list, the section holds a plain relocation's own field, made for the symbol's address plus the addend. */
  lemma PlainInCode(env: Env, relas: seq<Rela>, requests: seq<Request>, before: seq<nat>, code: Code, k: nat, addr: int)
    requires Chain(env, relas, requests, before) && k < |requests| == |relas| && Alone(relas, k)
    requires relas[k].kind.Plain? && relas[k].sym < |env.symbols| && env.symbols[relas[k].sym] == Known(addr)
    ensures Accepted(env, requests)
    ensures var f := env.others(Request(relas[k].kind, env.addr + relas[k].offset, addr + relas[k].addend));
      f.Field? && Written(env, relas, requests, code)(relas[k].offset) == Relocate(code(relas[k].offset), f)
  {
    hide Written, Relocate, Edits;
    ChainAccepted(env, relas, requests, before);
    Asked(env, relas, requests, before, k);
    OnceWritten(env, relas, requests, code, k);
  }

  // ---- Pairs -------------------------------------------------------------------------

  /** Relocation h writes the upper half at address at, and relocation i a lower half that refers to it. */
  ghost predicate Paired(env: Env, relas: seq<Rela>, i: nat, h: nat, at: int) {
    && i < |relas| && IsLower(relas[i].kind)
    && 0 < relas[i].sym < |env.symbols| && env.symbols[relas[i].sym] == Known(at)
    && UpperAt(relas, h, at - env.addr) && relas[h].kind == PcrelUpper
  }

  /** The upper half is made from what its symbol resolves to when its turn comes. */
  lemma UpperRequested(env: Env, relas: seq<Rela>, requests: seq<Request>, before: seq<nat>, i: nat, h: nat, at: int)
    requires Chain(env, relas, requests, before) && |requests| == |relas| && Paired(env, relas, i, h, at)
    ensures Resolve(env, relas[h].sym, before[h]).Resolved?
    ensures requests[h] == Request(PcrelUpper, at, Resolve(env, relas[h].sym, before[h]).addr + relas[h].addend)
  {
    assert Made(env, relas, requests, before, h);
  }

  /** The lower half is made from what the same symbol resolves to the next time. */
  lemma LowerRequested(env: Env, relas: seq<Rela>, requests: seq<Request>, before: seq<nat>, i: nat, h: nat, at: int)
    requires Chain(env, relas, requests, before) && |requests| == |relas| && Paired(env, relas, i, h, at)
    ensures Resolve(env, relas[h].sym, before[i]).Resolved?
    ensures requests[i] ==
      Request(relas[i].kind, 0, Resolve(env, relas[h].sym, before[i]).addr + relas[h].addend - at)
  {
    var edit := Edit(requests[i], before[i + 1]);
    assert Made(env, relas, requests, before, i);
    var mark := Resolved(at, before[i]);
    assert LowerEdits(env, relas, i, mark, at - env.addr, edit);
    var h' :| UpperAt(relas, h', at - env.addr) && edit == LowerEdit(env, relas, i, h', mark);
    OneUpper(relas, h, h', at - env.addr);
  }

  // ---- What the two halves encode ----------------------------------------------------

  function LowerField(kind: Kind, off: bv64): Field
    requires IsLower(kind)
  {
    if kind.LowerI? then Lo12I(off) else Lo12S(off)
  }

  function LowerImmediate(kind: Kind, i: bv64): bv64
    requires IsLower(kind)
  {
    if kind.LowerI? then IImmediate(i) else SImmediate(i)
  }

  /** Where the pair leads, counted from its upper half: any instructions, relocated for offsets p and q. */
  function PairOffset(kind: Kind, upper: bv64, lower: bv64, p: bv64, q: bv64): bv64
    requires IsLower(kind)
  {
    Plus(UImmediate(Relocate(upper, PcrelHi20(p))), LowerImmediate(kind, Relocate(lower, LowerField(kind, q))))
  }

  lemma PairDecodes(kind: Kind, upper: bv64, lower: bv64, p: bv64)
    requires IsLower(kind)
    ensures PairOffset(kind, upper, lower, p, p) == p <==> InPairRange(p)
  {
    if kind.LowerI? {
      PairReachesI(upper, lower, p);
    } else {
      PairReachesS(upper, lower, p);
    }
  }

  /** Halves made for different offsets lead to the upper half's target exactly if it is in range and the offsets agree modulo 4096. */
  lemma MixedDecodes(kind: Kind, upper: bv64, lower: bv64, p: bv64, q: bv64)
    requires IsLower(kind)
    ensures PairOffset(kind, upper, lower, p, q) == p <==> InPairRange(p) && Low(p) == Low(q)
  {
    if kind.LowerI? {
      MixedReachesI(upper, lower, p, q);
    } else {
      MixedReachesS(upper, lower, p, q);
    }
  }

  /** If the upper half's symbol has an address, both halves are made for the offset from the upper half to it. */
  lemma SameOffset(env: Env, relas: seq<Rela>, requests: seq<Request>, before: seq<nat>, i: nat, h: nat, at: int, target: int)
    requires Chain(env, relas, requests, before) && |requests| == |relas| && Paired(env, relas, i, h, at)
    requires relas[h].sym < |env.symbols| && env.symbols[relas[h].sym] == Known(target)
    ensures Prel(requests[h]) == Prel(requests[i]) == Word(target + relas[h].addend - at)
  {
    hide Word;
    UpperRequested(env, relas, requests, before, i, h, at);
    LowerRequested(env, relas, requests, before, i, h, at);
    assert requests[i].syma - requests[i].pc == target + relas[h].addend - at;
  }

  /** Hence they lead there together exactly if it is in the range of a pair. */
  lemma PairLeadsToTarget(env: Env, relas: seq<Rela>, requests: seq<Request>, before: seq<nat>, i: nat, h: nat, at: int,
                          target: int, upper: bv64, lower: bv64)
    requires Chain(env, relas, requests, before) && |requests| == |relas| && Paired(env, relas, i, h, at)
    requires relas[h].sym < |env.symbols| && env.symbols[relas[h].sym] == Known(target)
    ensures PairOffset(relas[i].kind, upper, lower, Prel(requests[h]), Prel(requests[i]))
              == Word(target + relas[h].addend - at)
      <==> InPairRange(Word(target + relas[h].addend - at))
  {
    hide Word;
    SameOffset(env, relas, requests, before, i, h, at, target);
    PairDecodes(relas[i].kind, upper, lower, Word(target + relas[h].addend - at));
  }

  // ---- Pairs whose symbol has no translation yet -------------------------------------

  lemma EditCounts(env: Env, relas: seq<Rela>, i: nat, stubs: nat, edit: Edit)
    requires i < |relas| && edit.Edit? && Edits(env, relas, i, stubs, edit)
    ensures stubs <= edit.stubs
    ensures 0 < relas[i].sym < |env.symbols| && (env.symbols[relas[i].sym].Lazy? ==> stubs < edit.stubs)
  {
  }

  /** The number of stubs only grows. */
  lemma {:induction false} CountGrows(env: Env, relas: seq<Rela>, requests: seq<Request>, before: seq<nat>, i: nat, j: nat)
    requires Chain(env, relas, requests, before) && i <= j <= |requests|
    ensures before[i] <= before[j]
    decreases j
  {
    if i < j {
      CountGrows(env, relas, requests, before, i, j - 1);
      assert Made(env, relas, requests, before, j - 1);
      EditCounts(env, relas, j - 1, before[j - 1], Edit(requests[j - 1], before[j]));
    }
  }

  /** A lower half makes a stub too if the symbol of its upper half needs one. */
  lemma LowerCounts(env: Env, relas: seq<Rela>, requests: seq<Request>, before: seq<nat>, i: nat, h: nat, at: int)
    requires Chain(env, relas, requests, before) && |requests| == |relas| && Paired(env, relas, i, h, at)
    requires 0 < relas[h].sym < |env.symbols| && env.symbols[relas[h].sym] == Lazy
    ensures before[i] < before[i + 1]
  {
    var edit := Edit(requests[i], before[i + 1]);
    assert Made(env, relas, requests, before, i);
    var mark := Resolved(at, before[i]);
    assert LowerEdits(env, relas, i, mark, at - env.addr, edit);
    var h' :| UpperAt(relas, h', at - env.addr) && edit == LowerEdit(env, relas, i, h', mark);
    OneUpper(relas, h, h', at - env.addr);
  }

  /** If the symbol has no translation yet, the two halves are made for two different stubs. */
  lemma OwnStubs(env: Env, relas: seq<Rela>, requests: seq<Request>, before: seq<nat>, i: nat, h: nat, at: int)
    requires Chain(env, relas, requests, before) && |requests| == |relas| && Paired(env, relas, i, h, at)
    requires 0 < relas[h].sym < |env.symbols| && env.symbols[relas[h].sym] == Lazy
    ensures before[h] != before[i]
    ensures env.stubs(before[h]).Some? && env.stubs(before[i]).Some?
    ensures requests[h].syma - requests[h].pc == env.stubs(before[h]).value + relas[h].addend - at
    ensures requests[i].syma - requests[i].pc == env.stubs(before[i]).value + relas[h].addend - at
  {
    UpperRequested(env, relas, requests, before, i, h, at);
    LowerRequested(env, relas, requests, before, i, h, at);
    if h < i {
      assert Made(env, relas, requests, before, h);
      EditCounts(env, relas, h, before[h], Edit(requests[h], before[h + 1]));
      CountGrows(env, relas, requests, before, h + 1, i);
    } else {
      LowerCounts(env, relas, requests, before, i, h, at);
      CountGrows(env, relas, requests, before, i + 1, h);
    }
  }

  /** The allocator never puts two stubs at one address. */
  ghost predicate DistinctStubs(env: Env) {
    forall k: nat, k': nat :: k != k' && env.stubs(k).Some? ==> env.stubs(k) != env.stubs(k')
  }

  /** Offsets of the upper and the lower half to the stubs made for them. */
  ghost predicate ForStubs(env: Env, requests: seq<Request>, i: nat, h: nat, at: int, addend: int, first: int, second: int)
    requires i < |requests| && h < |requests|
  {
    && first != second
    && Prel(requests[h]) == Word(first + addend - at)
    && Prel(requests[i]) == Word(second + addend - at)
  }

  /**
   So the pair leads to the upper half's stub exactly if that is in range and both stubs, though different, lie at
   the same distance from the instruction modulo 4096.
   */
  lemma LazyPair(env: Env, relas: seq<Rela>, requests: seq<Request>, before: seq<nat>, i: nat, h: nat, at: int,
                 upper: bv64, lower: bv64) returns (first: int, second: int)
    requires Chain(env, relas, requests, before) && |requests| == |relas| && Paired(env, relas, i, h, at)
    requires 0 < relas[h].sym < |env.symbols| && env.symbols[relas[h].sym] == Lazy && DistinctStubs(env)
    ensures ForStubs(env, requests, i, h, at, relas[h].addend, first, second)
    ensures var p, q := Word(first + relas[h].addend - at), Word(second + relas[h].addend - at);
      PairOffset(relas[i].kind, upper, lower, Prel(requests[h]), Prel(requests[i])) == p
      <==> InPairRange(p) && Low(p) == Low(q)
  {
    hide Word, PairOffset, InPairRange, Low;
    OwnStubs(env, relas, requests, before, i, h, at);
    first, second := env.stubs(before[h]).value, env.stubs(before[i]).value;
    MixedDecodes(relas[i].kind, upper, lower, Prel(requests[h]), Prel(requests[i]));
  }

  // ---- The pairs as the section holds them -------------------------------------------

  /** Where the instructions at two offsets lead together, counted from the first. */
  function PairAt(code: Code, kind: Kind, upper: int, lower: int): bv64
    requires IsLower(kind)
  {
    Plus(UImmediate(code(upper)), LowerImmediate(kind, code(lower)))
  }

  lemma PairWritten(env: Env, relas: seq<Rela>, requests: seq<Request>, before: seq<nat>, code: Code, i: nat, h: nat, at: int)
    requires Chain(env, relas, requests, before) && |requests| == |relas| && Paired(env, relas, i, h, at)
    requires Alone(relas, i) && Alone(relas, h) && Accepted(env, requests)
    ensures PairAt(Written(env, relas, requests, code), relas[i].kind, relas[h].offset, relas[i].offset)
      == PairOffset(relas[i].kind, code(relas[h].offset), code(relas[i].offset), Prel(requests[h]), Prel(requests[i]))
  {
    hide Prel, Written, PcrelHi20, Lo12I, Lo12S, Relocate, UImmediate, LowerImmediate, Plus;
    UpperRequested(env, relas, requests, before, i, h, at);
    LowerRequested(env, relas, requests, before, i, h, at);
    OnceWritten(env, relas, requests, code, h);
    OnceWritten(env, relas, requests, code, i);
  }

  /** After the whole list, a pair whose symbol has an address leads to it exactly if that is in range. */
  lemma PairInCode(env: Env, relas: seq<Rela>, requests: seq<Request>, before: seq<nat>, code: Code, i: nat, h: nat, at: int,
                   target: int)
    requires Chain(env, relas, requests, before) && |requests| == |relas| && Paired(env, relas, i, h, at)
    requires relas[h].sym < |env.symbols| && env.symbols[relas[h].sym] == Known(target)
    requires Alone(relas, i) && Alone(relas, h)
    ensures Accepted(env, requests)
    ensures var offset := Word(target + relas[h].addend - at);
      PairAt(Written(env, relas, requests, code), relas[i].kind, relas[h].offset, relas[i].offset) == offset
      <==> InPairRange(offset)
  {
    hide Word, Prel, PairOffset, PairAt, Written, InPairRange;
    ChainAccepted(env, relas, requests, before);
    PairWritten(env, relas, requests, before, code, i, h, at);
    PairLeadsToTarget(env, relas, requests, before, i, h, at, target, code(relas[h].offset), code(relas[i].offset));
  }

  /** A pair whose symbol has no translation leads to the first half's stub exactly if that is in range and both stubs agree in twelve bits. */
  lemma LazyPairInCode(env: Env, relas: seq<Rela>, requests: seq<Request>, before: seq<nat>, code: Code, i: nat, h: nat, at: int)
    returns (first: int, second: int)
    requires Chain(env, relas, requests, before) && |requests| == |relas| && Paired(env, relas, i, h, at)
    requires 0 < relas[h].sym < |env.symbols| && env.symbols[relas[h].sym] == Lazy && DistinctStubs(env)
    requires Alone(relas, i) && Alone(relas, h)
    ensures Accepted(env, requests) && ForStubs(env, requests, i, h, at, relas[h].addend, first, second)
    ensures var p, q := Word(first + relas[h].addend - at), Word(second + relas[h].addend - at);
      PairAt(Written(env, relas, requests, code), relas[i].kind, relas[h].offset, relas[i].offset) == p
      <==> InPairRange(p) && Low(p) == Low(q)
  {
    hide Word, Prel, PairOffset, PairAt, Written, InPairRange, Low;
    ChainAccepted(env, relas, requests, before);
    PairWritten(env, relas, requests, before, code, i, h, at);
    first, second := LazyPair(env, relas, requests, before, i, h, at, code(relas[h].offset), code(relas[i].offset));
  }

  // ---- A pair that goes astray -------------------------------------------------------

  /** A load through an auipc at address zero, both for a guest function without translation; stubs are 0x40 apart. */
  function StrayRelas(): seq<Rela> {
    [Rela(0, PcrelUpper, 1, 0), Rela(4, LowerI, 2, 0)]
  }

  function StrayEnv(): Env {
    Env(0, 8, [Undefined, Lazy, Known(0)], (k: nat) => Some(0x7c0 + 0x40 * k), (_: Request) => Reject)
  }

  function StrayRequests(): seq<Request> {
    [Request(PcrelUpper, 0, 0x7c0), Request(LowerI, 0, 0x800)]
  }

  lemma StrayUpper()
    ensures Edits(StrayEnv(), StrayRelas(), 0, 0, Edit(StrayRequests()[0], 1))
  {
    assert Resolve(StrayEnv(), 1, 0) == Resolved(0x7c0, 1);
  }

  lemma StrayLower()
    ensures Edits(StrayEnv(), StrayRelas(), 1, 1, Edit(StrayRequests()[1], 2))
    ensures UpperAt(StrayRelas(), 0, 0)
  {
    var env, relas := StrayEnv(), StrayRelas();
    assert UpperAt(relas, 0, 0);
    assert Resolve(env, 2, 1) == Resolved(0, 1) && Resolve(env, 1, 1) == Resolved(0x800, 2);
    assert LowerEdit(env, relas, 1, 0, Resolved(0, 1)) == Edit(StrayRequests()[1], 2);
    assert LowerEdits(env, relas, 1, Resolved(0, 1), 0, Edit(StrayRequests()[1], 2));
  }

  lemma StrayChain()
    ensures Chain(StrayEnv(), StrayRelas(), StrayRequests(), [0, 1, 2])
    ensures Paired(StrayEnv(), StrayRelas(), 1, 0, 0) && DistinctStubs(StrayEnv())
  {
    StrayUpper();
    StrayLower();
    hide Edits, UpperAt;
    var before: seq<nat> := [0, 1, 2];
    assert Made(StrayEnv(), StrayRelas(), StrayRequests(), before, 0);
    assert Made(StrayEnv(), StrayRelas(), StrayRequests(), before, 1);
  }

  lemma StrayWords()
    ensures Prel(StrayRequests()[0]) == 0x7c0 && Prel(StrayRequests()[1]) == 0x800
  {
    hide Word;
    FirstWord();
    SecondWord();
  }

  lemma SmallWord(x: int)
    requires 0 <= x < TWO_64
    ensures Word(x) == x as bv64
  {
  }

  lemma BackToWord(b: bv64)
    ensures (b as int) as bv64 == b
  {
  }

  lemma InRange(b: bv64)
    ensures 0 <= b as int < TWO_64
  {
  }

  /** Every word is the word of its value. */
  lemma WordOf(b: bv64)
    ensures Word(b as int) == b
  {
    hide Word;
    InRange(b);
    SmallWord(b as int);
    BackToWord(b);
  }

  lemma FirstWord()
    ensures Word(0x7c0) == 0x7c0
  {
    hide Word;
    assert (0x7c0 as bv64) as int == 0x7c0;
    WordOf(0x7c0);
  }

  lemma SecondWord()
    ensures Word(0x800) == 0x800
  {
    hide Word;
    assert (0x800 as bv64) as int == 0x800;
    WordOf(0x800);
  }

  lemma PairParts(upper: bv64, lower: bv64, p: bv64, q: bv64)
    ensures PairOffset(LowerI, upper, lower, p, q) == Plus(Extend32(Top(p + 0x800)), Extend12(Low(q)))
  {
    HiField(upper, p);
    LoIField(lower, q);
  }

  lemma StrayBits()
    ensures Plus(Extend32(Top(0x7c0 + 0x800)), Extend12(Low(0x800))) == 0xffff_ffff_ffff_f800 && InPairRange(0x7c0)
  {
  }

  /** The loader accepts this list; the stubs are 0x7c0 and 0x800 away, and the pair leads to 0x800 before the instruction. */
  lemma LazyPairFails(code: Code)
    ensures Chain(StrayEnv(), StrayRelas(), StrayRequests(), [0, 1, 2]) && Accepted(StrayEnv(), StrayRequests())
    ensures Paired(StrayEnv(), StrayRelas(), 1, 0, 0) && DistinctStubs(StrayEnv())
    ensures Prel(StrayRequests()[0]) == 0x7c0 && Prel(StrayRequests()[1]) == 0x800 && InPairRange(0x7c0)
    ensures PairAt(Written(StrayEnv(), StrayRelas(), StrayRequests(), code), LowerI, 0, 4) == 0xffff_ffff_ffff_f800
  {
    hide PairOffset, PairAt, Word, Chain, Paired, DistinctStubs, Prel, InPairRange, Written, Accepted, StrayEnv;
    StrayChain();
    StrayWords();
    StrayBits();
    ChainAccepted(StrayEnv(), StrayRelas(), StrayRequests(), [0, 1, 2]);
    PairWritten(StrayEnv(), StrayRelas(), StrayRequests(), [0, 1, 2], code, 1, 0, 0);
    PairParts(code(0), code(4), 0x7c0, 0x800);
  }
}
