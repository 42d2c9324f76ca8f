/** Registering the functions of a translated object in the table, and what resolving an address then gives. */
module ObjectLoad {
  import opened Common
  import opened HashTable

  /** What the server answers and the loader finds in it. */
  datatype Symbol = Named(addr: nat, obj: Obj) | Undecodable
  datatype Translation = NoObject | Object(symbols: seq<Symbol>)
  datatype Outcome = Func(func: nat) | Exit

  /** The global functions of an object, registered one after the other until one is refused. */
  function Loaded(m: map<nat, Obj>, symbols: seq<Symbol>): (Status, map<nat, Obj>)
    decreases |symbols|
  {
    if symbols == [] then (Ok, m)
    else if symbols[0].Undecodable? then (EInval, m)
    else if symbols[0].addr == 0 then (Ok, m)   // reported, but with the success code of the decoder
    else
      var r := Insert(m, symbols[0].addr, symbols[0].obj);
      if r.0 != Ok then r else Loaded(r.1, symbols[1..])
  }

  /** Resolving with the plain map alone. */
  function Resolved(m: map<nat, Obj>, addr: nat, t: Translation): (Outcome, map<nat, Obj>) {
    if addr in m then (Func(m[addr].entry), m)
    else if t.NoObject? then (Exit, m)
    else
      var r := Loaded(m, t.symbols);
      (if r.0 == Ok && addr in r.1 then Func(r.1[addr].entry) else Exit, r.1)
  }

  lemma {:induction false} LoadedExtends(m: map<nat, Obj>, symbols: seq<Symbol>)
    ensures Extends(m, Loaded(m, symbols).1)
    decreases |symbols|
  {
    if symbols != [] && symbols[0].Named? && symbols[0].addr != 0 {
      var r := Insert(m, symbols[0].addr, symbols[0].obj);
      LoadedExtends(r.1, symbols[1..]);
    }
  }

  lemma ResolvedExtends(m: map<nat, Obj>, addr: nat, t: Translation)
    ensures var r := Resolved(m, addr, t);
      Extends(m, r.1) && (r.0.Func? ==> addr in r.1 && r.1[addr].entry == r.0.func)
  {
    if t.Object? {
      LoadedExtends(m, t.symbols);
    }
  }

  // ---- What a translation leads to ---------------------------------------------------

  /** The first n symbols can be registered: they are named, not yet bound, different, and there is room. */
  ghost predicate Registers(m: map<nat, Obj>, symbols: seq<Symbol>, n: nat) {
    && n <= |symbols| && |m| + n <= SLOTS
    && (forall k :: 0 <= k < n ==> symbols[k].Named? && symbols[k].addr != 0 && symbols[k].addr !in m)
    && (forall j, k :: 0 <= j < k < n ==> symbols[j].addr != symbols[k].addr)
  }

  /** As many as can be. */
  ghost predicate RegistersUpTo(m: map<nat, Obj>, symbols: seq<Symbol>, n: nat) {
    Registers(m, symbols, n) && (n < |symbols| ==> !Registers(m, symbols, n + 1))
  }

  /** One of the first n symbols is for this address. */
  predicate IsName(symbols: seq<Symbol>, n: nat, a: nat) {
    exists k :: 0 <= k < n && k < |symbols| && symbols[k].Named? && symbols[k].addr == a
  }

  /** m with these symbols bound to their own objects, and nothing else. */
  ghost predicate BoundTo(m: map<nat, Obj>, symbols: seq<Symbol>, n: nat, m': map<nat, Obj>)
    requires Registers(m, symbols, n)
  {
    Extends(m, m') && Values(symbols, n, m') && Only(m, symbols, n, m') && |m'| == |m| + n
  }

  predicate Only(m: map<nat, Obj>, symbols: seq<Symbol>, n: nat, m': map<nat, Obj>) {
    forall a :: a in m' ==> a in m || IsName(symbols, n, a)
  }

  predicate Values(symbols: seq<Symbol>, n: nat, m: map<nat, Obj>) {
    forall k :: 0 <= k < n && k < |symbols| && symbols[k].Named? ==> symbols[k].addr in m && m[symbols[k].addr] == symbols[k].obj
  }

  /** Loading ends well at the end of the list, and at a name that decodes to zero. */
  predicate EndsWell(symbols: seq<Symbol>, n: nat) {
    n >= |symbols| || (symbols[n].Named? && symbols[n].addr == 0)
  }

  lemma Added(m: map<nat, Obj>, a: nat, obj: Obj)
    requires a !in m
    ensures |m[a := obj]| == |m| + 1 && Extends(m, m[a := obj])
  {
    assert m[a := obj].Keys == m.Keys + {a};
    assert |m.Keys| == |m| && |m[a := obj].Keys| == |m[a := obj]|;
  }

  lemma MoreValues(symbols: seq<Symbol>, n: nat, m: map<nat, Obj>)
    requires n < |symbols| && symbols[n].Named? && Values(symbols, n, m) && symbols[n].addr !in m
    ensures Values(symbols, n + 1, m[symbols[n].addr := symbols[n].obj])
  {
  }

  lemma MoreNames(m: map<nat, Obj>, symbols: seq<Symbol>, n: nat, m': map<nat, Obj>)
    requires n < |symbols| && symbols[n].Named? && Only(m, symbols, n, m')
    ensures Only(m, symbols, n + 1, m'[symbols[n].addr := symbols[n].obj])
  {
    var m'' := m'[symbols[n].addr := symbols[n].obj];
    forall a | a in m'' ensures a in m || IsName(symbols, n + 1, a) {
      if a in m' && a !in m {
        var k :| 0 <= k < n && symbols[k].Named? && symbols[k].addr == a;
      }
    }
  }

  lemma NewName(m: map<nat, Obj>, symbols: seq<Symbol>, n: nat, m': map<nat, Obj>)
    requires n < |symbols| && Registers(m, symbols, n + 1) && Only(m, symbols, n, m')
    ensures symbols[n].Named? && symbols[n].addr != 0 && symbols[n].addr !in m' && |m| + n < SLOTS
  {
    assert !IsName(symbols, n, symbols[n].addr);
  }

  lemma OneBound(m: map<nat, Obj>, symbols: seq<Symbol>, n: nat, m': map<nat, Obj>)
    requires n < |symbols| && Registers(m, symbols, n) && Registers(m, symbols, n + 1) && BoundTo(m, symbols, n, m')
    ensures symbols[n].Named? && BoundTo(m, symbols, n + 1, m'[symbols[n].addr := symbols[n].obj])
    ensures Insert(m', symbols[n].addr, symbols[n].obj) == (Ok, m'[symbols[n].addr := symbols[n].obj])
  {
    hide Only, Values, Registers;
    NewName(m, symbols, n, m');
    Added(m', symbols[n].addr, symbols[n].obj);
    MoreValues(symbols, n, m');
    MoreNames(m, symbols, n, m');
  }

  /** A symbol that cannot be registered with the ones before it is zero, bound already, or too many. */
  lemma NotOneMore(m: map<nat, Obj>, symbols: seq<Symbol>, n: nat)
    requires n < |symbols| && Registers(m, symbols, n) && !Registers(m, symbols, n + 1)
    requires symbols[n].Named? && symbols[n].addr != 0 && symbols[n].addr !in m && |m| + n < SLOTS
    ensures IsName(symbols, n, symbols[n].addr)
  {
  }

  lemma NotBound(m: map<nat, Obj>, symbols: seq<Symbol>, n: nat, m': map<nat, Obj>)
    requires n < |symbols| && Registers(m, symbols, n) && BoundTo(m, symbols, n, m') && !Registers(m, symbols, n + 1)
    requires symbols[n].Named? && symbols[n].addr != 0
    ensures var r := Insert(m', symbols[n].addr, symbols[n].obj); r.0 != Ok && r.1 == m'
  {
    var a := symbols[n].addr;
    if |m| + n < SLOTS && a !in m {
      NotOneMore(m, symbols, n);
      hide Registers;
      var k :| 0 <= k < n && symbols[k].Named? && symbols[k].addr == a;
      assert a in m';
    }
    assert |m| + n <= SLOTS;
  }

  lemma {:induction false} LoadedFrom(m: map<nat, Obj>, symbols: seq<Symbol>, i: nat, m': map<nat, Obj>) returns (n: nat)
    requires i <= |symbols| && Registers(m, symbols, i) && BoundTo(m, symbols, i, m')
    ensures RegistersUpTo(m, symbols, n) && BoundTo(m, symbols, n, Loaded(m', symbols[i..]).1)
    ensures Loaded(m', symbols[i..]).0 == Ok <==> EndsWell(symbols, n)
    decreases |symbols| - i
  {
    hide BoundTo, Registers;
    n := i;
    if i < |symbols| {
      assert symbols[i..][0] == symbols[i] && symbols[i..][1..] == symbols[i + 1..];
      if Registers(m, symbols, i + 1) {
        OneBound(m, symbols, i, m');
        NextRegisters(m, symbols, i);
        n := LoadedFrom(m, symbols, i + 1, m'[symbols[i].addr := symbols[i].obj]);
      } else if symbols[i].Named? && symbols[i].addr != 0 {
        NotBound(m, symbols, i, m');
      }
    } else {
      assert symbols[i..] == [];
    }
  }

  lemma NextRegisters(m: map<nat, Obj>, symbols: seq<Symbol>, i: nat)
    requires i < |symbols| && Registers(m, symbols, i + 1)
    ensures symbols[i].Named? && symbols[i].addr != 0
  {
  }

  /** Registering an object, for every list of symbols and every table. */
  lemma LoadedExactly(m: map<nat, Obj>, symbols: seq<Symbol>) returns (n: nat)
    requires |m| <= SLOTS
    ensures RegistersUpTo(m, symbols, n) && BoundTo(m, symbols, n, Loaded(m, symbols).1)
    ensures Loaded(m, symbols).0 == Ok <==> EndsWell(symbols, n)
  {
    assert symbols[0..] == symbols;
    n := LoadedFrom(m, symbols, 0, m);
  }

  lemma OneStop(m: map<nat, Obj>, symbols: seq<Symbol>, n: nat, n': nat)
    requires RegistersUpTo(m, symbols, n) && RegistersUpTo(m, symbols, n')
    ensures n == n'
  {
    assert n < n' ==> Registers(m, symbols, n + 1);
    assert n' < n ==> Registers(m, symbols, n' + 1);
  }

  /** Symbol k of the object is for this address, and the loader gets to the end with it registered. */
  ghost predicate Provides(m: map<nat, Obj>, symbols: seq<Symbol>, addr: nat, k: nat) {
    && k < |symbols| && symbols[k].Named? && symbols[k].addr == addr
    && exists n :: k < n && RegistersUpTo(m, symbols, n) && EndsWell(symbols, n)
  }

  /** The function for an address: the one that is bound to it already, else the one the object provides. */
  ghost predicate Right(m: map<nat, Obj>, addr: nat, t: Translation, out: Outcome) {
    if addr in m then out == Func(m[addr].entry)
    else
      && (forall k :: t.Object? && 0 <= k < |t.symbols| && Provides(m, t.symbols, addr, k) ==> out == Func(t.symbols[k].obj.entry))
      && (out.Func? ==> t.Object? && exists k :: 0 <= k < |t.symbols| && Provides(m, t.symbols, addr, k))
  }

  /** Resolving gives the right function, and ends the process exactly if there is none. */
  lemma ResolvedRight(m: map<nat, Obj>, addr: nat, t: Translation)
    requires |m| <= SLOTS
    ensures Right(m, addr, t, Resolved(m, addr, t).0)
  {
    if addr !in m && t.Object? {
      var n := LoadedExactly(m, t.symbols);
      var r := Loaded(m, t.symbols);
      hide Loaded, RegistersUpTo, EndsWell;
      forall k | 0 <= k < |t.symbols| && Provides(m, t.symbols, addr, k)
        ensures Resolved(m, addr, t).0 == Func(t.symbols[k].obj.entry)
      {
        var n' :| k < n' && RegistersUpTo(m, t.symbols, n') && EndsWell(t.symbols, n');
        OneStop(m, t.symbols, n, n');
        ValueOf(m, t.symbols, n, r.1, k);
      }
      if r.0 == Ok && addr in r.1 {
        var k := NameOf(m, t.symbols, n, r.1, addr);
        assert Provides(m, t.symbols, addr, k);
      }
    }
  }

  lemma ValueOf(m: map<nat, Obj>, symbols: seq<Symbol>, n: nat, m': map<nat, Obj>, k: nat)
    requires Registers(m, symbols, n) && BoundTo(m, symbols, n, m') && k < n
    ensures symbols[k].Named? && symbols[k].addr in m' && m'[symbols[k].addr] == symbols[k].obj
  {
  }

  lemma NameOf(m: map<nat, Obj>, symbols: seq<Symbol>, n: nat, m': map<nat, Obj>, addr: nat) returns (k: nat)
    requires Registers(m, symbols, n) && BoundTo(m, symbols, n, m') && addr in m' && addr !in m
    ensures k < n && symbols[k].Named? && symbols[k].addr == addr
  {
    assert IsName(symbols, n, addr);
    k :| 0 <= k < n && symbols[k].addr == addr;
  }

  /** An object that names different new functions, for which there is room, binds just these and serves each. */
  lemma CleanObject(m: map<nat, Obj>, addr: nat, symbols: seq<Symbol>)
    requires addr !in m && Registers(m, symbols, |symbols|)
    ensures var r := Resolved(m, addr, Object(symbols));
      && BoundTo(m, symbols, |symbols|, r.1)
      && (forall k :: 0 <= k < |symbols| && symbols[k].addr == addr ==> r.0 == Func(symbols[k].obj.entry))
      && (r.0 == Exit <==> forall k :: 0 <= k < |symbols| ==> symbols[k].addr != addr)
  {
    var n := LoadedExactly(m, symbols);
    OneStop(m, symbols, n, |symbols|);
    hide Loaded;
  }
}
