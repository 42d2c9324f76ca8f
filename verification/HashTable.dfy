/**
 The translation table: open addressing with linear probing over a fixed number of slots,
 keyed by guest address, with zero reserved for an empty slot.
 */
module HashTable {

  const SLOTS: nat := 0x20000

  datatype Obj = Obj(entry: nat, base: nat, size: nat)

  datatype Slot = Slot(addr: nat, obj: Obj)

  datatype Status = Ok | EInval | EExist | ENoSpc | ENoEnt

  function Home(addr: nat): (h: nat)
    ensures h < SLOTS
  {
    (addr / 4) % SLOTS
  }

  /** The i-th slot that a probe for addr looks at. */
  function At(addr: nat, i: nat): (j: nat)
    ensures j < SLOTS
  {
    (Home(addr) + i) % SLOTS
  }

  /** A probe sequence visits every slot. */
  lemma Reaches(addr: nat, j: nat) returns (i: nat)
    requires j < SLOTS
    ensures i < SLOTS && At(addr, i) == j
  {
    i := (j + SLOTS - Home(addr)) % SLOTS;
    if j >= Home(addr) {
      assert i == j - Home(addr);
    } else {
      assert i == j + SLOTS - Home(addr);
    }
  }

  predicate Sized(s: seq<Slot>) {
    |s| == SLOTS
  }

  /** The first i slots of the probe sequence are taken, by other addresses. */
  predicate Passed(s: seq<Slot>, addr: nat, i: nat)
    requires Sized(s)
  {
    forall k :: 0 <= k < i ==> s[At(addr, k)].addr != 0 && s[At(addr, k)].addr != addr
  }

  /** Every address sits where its probe sequence first met a free slot. */
  ghost predicate Placed(s: seq<Slot>)
    requires Sized(s)
  {
    forall j :: 0 <= j < SLOTS && s[j].addr != 0 ==> PlacedAt(s, j)
  }

  ghost predicate PlacedAt(s: seq<Slot>, j: nat)
    requires Sized(s) && j < SLOTS
  {
    exists i: nat :: i < SLOTS && At(s[j].addr, i) == j && Passed(s, s[j].addr, i)
  }

  /** The slots hold exactly this map. */
  ghost predicate Represents(s: seq<Slot>, m: map<nat, Obj>) {
    && Sized(s)
    && (forall j :: 0 <= j < SLOTS && s[j].addr != 0 ==> s[j].addr in m && m[s[j].addr] == s[j].obj)
    && (forall a :: a in m ==> a != 0 && exists j :: 0 <= j < SLOTS && s[j].addr == a)
  }

  /** No address is in two slots, because probing is deterministic. */
  lemma OneSlot(s: seq<Slot>, j: nat, j': nat)
    requires Sized(s) && Placed(s) && j < SLOTS && j' < SLOTS && j != j' && s[j].addr != 0
    ensures s[j].addr != s[j'].addr
  {
    var a := s[j].addr;
    assert PlacedAt(s, j);
    var i: nat :| i < SLOTS && At(a, i) == j && Passed(s, a, i);
    assert s[j'].addr == a ==> PlacedAt(s, j');
  }

  /** A probe that meets a free slot after passing others has shown that the address is absent. */
  lemma FreeSlotMeansAbsent(s: seq<Slot>, addr: nat, i: nat, j: nat)
    requires Sized(s) && Placed(s) && addr != 0 && i < SLOTS && j < SLOTS
    requires Passed(s, addr, i) && s[At(addr, i)].addr == 0
    ensures s[j].addr != addr
  {
    assert s[j].addr == addr ==> PlacedAt(s, j);
    assert forall k: nat :: i < k && Passed(s, addr, k) ==> s[At(addr, i)].addr != 0;
  }

  /** Filling the free slot a probe found keeps every address where its own probe finds it. */
  lemma FillKeepsPlaced(s: seq<Slot>, addr: nat, i: nat, obj: Obj)
    requires Sized(s) && Placed(s) && addr != 0 && i < SLOTS
    requires Passed(s, addr, i) && s[At(addr, i)].addr == 0
    ensures Placed(s[At(addr, i) := Slot(addr, obj)])
  {
    var s' := s[At(addr, i) := Slot(addr, obj)];
    forall j | 0 <= j < SLOTS && s'[j].addr != 0 ensures PlacedAt(s', j) {
      if j == At(addr, i) {
        assert Passed(s', addr, i);
      } else {
        var a := s[j].addr;
        assert PlacedAt(s, j);
        var k: nat :| k < SLOTS && At(a, k) == j && Passed(s, a, k);
        FreeSlotMeansAbsent(s, addr, i, j);
        assert Passed(s', a, k);
      }
    }
  }

  /** A full round of taken slots has seen them all. */
  lemma RoundTrip(s: seq<Slot>, addr: nat)
    requires Sized(s) && Passed(s, addr, SLOTS)
    ensures forall j :: 0 <= j < SLOTS ==> s[j].addr != 0 && s[j].addr != addr
  {
    forall j | 0 <= j < SLOTS ensures s[j].addr != 0 && s[j].addr != addr {
      var i := Reaches(addr, j);
    }
  }

  // ---- Cardinality: full means as many keys as slots ---------------------------------

  function Taken(s: seq<Slot>, n: nat): set<nat>
    requires n <= |s|
  {
    set j | 0 <= j < n && s[j].addr != 0 :: s[j].addr
  }

  predicate Full(s: seq<Slot>, n: nat)
    requires n <= |s|
  {
    forall j :: 0 <= j < n ==> s[j].addr != 0
  }

  lemma Distinct(s: seq<Slot>, n: nat)
    requires Sized(s) && Placed(s) && n < SLOTS && s[n].addr != 0
    ensures s[n].addr !in Taken(s, n)
  {
    forall j | 0 <= j < n ensures s[j].addr != s[n].addr {
      OneSlot(s, n, j);
    }
  }

  lemma TakenNext(s: seq<Slot>, n: nat)
    requires n < |s|
    ensures Taken(s, n + 1) == if s[n].addr == 0 then Taken(s, n) else Taken(s, n) + {s[n].addr}
  {
  }

  lemma {:induction false} TakenSize(s: seq<Slot>, n: nat)
    requires Sized(s) && Placed(s) && n <= SLOTS
    ensures |Taken(s, n)| <= n
    ensures |Taken(s, n)| == n <==> Full(s, n)
  {
    if n > 0 {
      var k := n - 1;
      TakenSize(s, k);
      TakenNext(s, k);
      assert Full(s, n) <==> Full(s, k) && s[k].addr != 0;
      if s[k].addr != 0 {
        Distinct(s, k);
      }
    }
  }

  lemma KeysCounted(s: seq<Slot>, m: map<nat, Obj>)
    requires Represents(s, m) && Placed(s)
    ensures |m| <= SLOTS
    ensures |m| == SLOTS <==> Full(s, SLOTS)
  {
    TakenSize(s, SLOTS);
    assert Taken(s, SLOTS) == m.Keys;
    assert |m| == |m.Keys|;
  }

  // ---- What callers see --------------------------------------------------------------

  /** Insertion as a map operation: it never replaces anything. */
  function Insert(m: map<nat, Obj>, addr: nat, obj: Obj): (Status, map<nat, Obj>) {
    if addr == 0 then (EInval, m)
    else if addr in m then (EExist, m)
    else if |m| == SLOTS then (ENoSpc, m)
    else (Ok, m[addr := obj])
  }

  class Table {
    var slots: array<Slot>
    ghost var contents: map<nat, Obj>

    ghost predicate Valid()
      reads this, slots
    {
      slots.Length == SLOTS && Represents(slots[..], contents) && Placed(slots[..])
    }

    constructor ()
      ensures Valid() && fresh(slots) && contents == map[]
    {
      slots := new Slot[SLOTS](_ => Slot(0, Obj(0, 0, 0)));
      contents := map[];
    }

    lemma Bounded()
      requires Valid()
      ensures |contents| <= SLOTS
    {
      KeysCounted(slots[..], contents);
    }

    method Set(addr: nat, obj: Obj) returns (status: Status)
      requires Valid()
      modifies slots, `contents
      ensures Valid()
      ensures (status, contents) == Insert(old(contents), addr, obj)
    {
      if addr == 0 {
        return EInval;
      }
      var hash := Home(addr);
      var i := 0;
      while i < SLOTS
        invariant i <= SLOTS && Valid() && contents == old(contents) && slots[..] == old(slots[..])
        invariant Passed(slots[..], addr, i)
      {
        var k := (hash + i) % SLOTS;
        if slots[k].addr == addr {
          return EExist;
        }
        if slots[k].addr == 0 {
          forall j | 0 <= j < SLOTS ensures slots[j].addr != addr {
            FreeSlotMeansAbsent(slots[..], addr, i, j);
          }
          assert addr !in contents;
          KeysCounted(slots[..], contents);
          FillKeepsPlaced(slots[..], addr, i, obj);
          contents := contents[addr := obj];
          slots[k] := Slot(addr, obj);
          Filled(old(slots[..]), old(contents), k, addr, obj);
          assert slots[..] == old(slots[..])[k := Slot(addr, obj)];
          return Ok;
        }
        i := i + 1;
      }
      RoundTrip(slots[..], addr);
      KeysCounted(slots[..], contents);
      return ENoSpc;
    }

    method Resolve(addr: nat) returns (status: Status, entry: nat)
      requires Valid()
      ensures status == Ok <==> addr in contents
      ensures status == Ok ==> entry == contents[addr].entry
      ensures status != Ok ==> status == ENoEnt
    {
      entry := 0;
      if addr == 0 {
        return ENoEnt, entry;
      }
      var hash := Home(addr);
      var i := 0;
      while i < SLOTS
        invariant i <= SLOTS && Passed(slots[..], addr, i)
      {
        var k := (hash + i) % SLOTS;
        if slots[k].addr == 0 {
          forall j | 0 <= j < SLOTS ensures slots[j].addr != addr {
            FreeSlotMeansAbsent(slots[..], addr, i, j);
          }
          return ENoEnt, entry;
        }
        if slots[k].addr == addr {
          return Ok, slots[k].obj.entry;
        }
        i := i + 1;
      }
      RoundTrip(slots[..], addr);
      return ENoEnt, entry;
    }
  }

  lemma Filled(s: seq<Slot>, m: map<nat, Obj>, k: nat, addr: nat, obj: Obj)
    requires Represents(s, m) && k < SLOTS && s[k].addr == 0 && addr != 0 && addr !in m
    ensures Represents(s[k := Slot(addr, obj)], m[addr := obj])
  {
    var s', m' := s[k := Slot(addr, obj)], m[addr := obj];
    forall a | a in m' ensures a != 0 && exists j :: 0 <= j < SLOTS && s'[j].addr == a {
      if a == addr {
        assert s'[k].addr == a;
      } else {
        var j :| 0 <= j < SLOTS && s[j].addr == a;
        assert s'[j].addr == a;
      }
    }
  }

  // ---- Whole insertion histories -----------------------------------------------------

  /** The table after a history of insertions. */
  function After(history: seq<(nat, Obj)>): map<nat, Obj> {
    if history == [] then map[]
    else
      var n := |history| - 1;
      Insert(After(history[..n]), history[n].0, history[n].1).1
  }

  /** The first insertion of an address. */
  predicate First(history: seq<(nat, Obj)>, i: nat) {
    i < |history| && forall j :: 0 <= j < i ==> history[j].0 != history[i].0
  }

  lemma FirstStays(history: seq<(nat, Obj)>, n: nat, i: nat)
    requires n <= |history| && First(history[..n], i)
    ensures i < n && First(history, i)
  {
    assert forall j :: 0 <= j <= i ==> history[..n][j] == history[j];
  }

  lemma FirstNow(history: seq<(nat, Obj)>, n: nat)
    requires n < |history| && forall j :: 0 <= j < n ==> history[..n][j].0 != history[n].0
    ensures First(history, n)
  {
    assert forall j :: 0 <= j < n ==> history[..n][j] == history[j];
  }

  /** Looking an address up gives the object of its first insertion, and nothing if it was never inserted. */
  lemma {:induction false} FirstInsertionWins(history: seq<(nat, Obj)>, addr: nat)
    requires addr in After(history)
    ensures addr != 0 && exists i: nat :: First(history, i) && history[i] == (addr, After(history)[addr])
  {
    if history != [] {
      var n := |history| - 1;
      var before := After(history[..n]);
      if addr in before {
        FirstInsertionWins(history[..n], addr);
        var i: nat :| First(history[..n], i) && history[..n][i] == (addr, before[addr]);
        FirstStays(history, n, i);
        assert First(history, i) && history[i] == (addr, After(history)[addr]);
      } else {
        Bounded(history[..n]);
        NotYet(history[..n], addr);
        assert history[n].0 == addr;
        FirstNow(history, n);
      }
    }
  }

  lemma {:induction false} Bounded(history: seq<(nat, Obj)>)
    ensures |After(history)| <= SLOTS
  {
    if history != [] {
      Bounded(history[..|history| - 1]);
    }
  }

  /** An address that is not found has not been inserted, unless the table was full. */
  lemma {:induction false} NotYet(history: seq<(nat, Obj)>, addr: nat)
    requires addr !in After(history) && addr != 0 && |After(history)| < SLOTS
    ensures forall j :: 0 <= j < |history| ==> history[j].0 != addr
  {
    if history != [] {
      var n := |history| - 1;
      Keeps(history[..n], history[n]);
      assert history[..n] + [history[n]] == history;
      NotYet(history[..n], addr);
    }
  }

  lemma Keeps(history: seq<(nat, Obj)>, op: (nat, Obj))
    ensures |After(history)| <= |After(history + [op])|
    ensures forall a :: a in After(history) ==> a in After(history + [op]) && After(history + [op])[a] == After(history)[a]
  {
    assert (history + [op])[..|history|] == history;
  }

  /** What an address resolves to never changes. */
  lemma {:induction false} NeverChanges(history: seq<(nat, Obj)>, later: seq<(nat, Obj)>, addr: nat)
    requires addr in After(history)
    ensures addr in After(history + later) && After(history + later)[addr] == After(history)[addr]
    decreases |later|
  {
    if later == [] {
      assert history + later == history;
    } else {
      var n := |later| - 1;
      NeverChanges(history, later[..n], addr);
      Keeps(history + later[..n], later[n]);
      assert history + later == history + later[..n] + [later[n]];
    }
  }
}
