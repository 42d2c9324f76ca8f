/**
 The server's view of guest memory: whole pages requested from the client on demand and kept in a cache.
 Addresses are unbounded here, so no request reaches the end of the address space.
 */
module RemoteMemory {
  import opened Common
  import opened Bytes

  const PAGE: nat := 0x1000

  type Page = p: seq<byte> | |p| == PAGE witness seq(PAGE, _ => 0)

  /** What the client would answer now for each page address. */
  type Guest = nat -> Option<Page>

  function PageOf(a: nat): (p: nat)
    ensures p <= a < p + PAGE && p % PAGE == 0
  {
    a - a % PAGE
  }

  /** A page as the server sees it: from the cache, or else from the client. */
  function View(cache: map<nat, Page>, guest: Guest, p: nat): Option<Page> {
    if p in cache then Some(cache[p]) else guest(p)
  }

  /** r is what the view has from start on, up to end or to the first page that cannot be read. */
  ghost predicate ReadOf(cache: map<nat, Page>, guest: Guest, start: nat, end: nat, r: seq<byte>) {
    && start + |r| <= end
    && HoldAll(cache, guest, start, r)
    && (start + |r| < end ==>
          && View(cache, guest, PageOf(start + |r|)).None?
          && (|r| == 0 || (start + |r|) % PAGE == 0))
  }

  predicate HoldsAt(cache: map<nat, Page>, guest: Guest, a: nat, b: byte) {
    var page := View(cache, guest, PageOf(a));
    page.Some? && page.value[a - PageOf(a)] == b
  }

  ghost predicate HoldAll(cache: map<nat, Page>, guest: Guest, start: nat, r: seq<byte>) {
    forall i :: 0 <= i < |r| ==> HoldsAt(cache, guest, start + i, r[i])
  }

  /** The cache has only grown, and what the server sees has not changed. */
  ghost predicate SameView(cache: map<nat, Page>, cache': map<nat, Page>, guest: Guest) {
    && (forall p: nat :: View(cache', guest, p) == View(cache, guest, p))
    && (forall p :: p in cache ==> p in cache' && cache'[p] == cache[p])
  }

  datatype Request = Request(page: nat, ok: bool)

  class Remote {
    var cache: map<nat, Page>
    ghost var requests: seq<Request>      // in the order in which they were sent

    /** No page is asked for again once it has been delivered. */
    ghost predicate Valid()
      reads this
    {
      && (forall i :: 0 <= i < |requests| && requests[i].ok ==> requests[i].page in cache)
      && (forall i, j :: 0 <= i < j < |requests| && requests[i].page == requests[j].page ==> !requests[i].ok)
    }

    constructor ()
      ensures Valid() && cache == map[] && requests == []
    {
      cache := map[];
      requests := [];
    }

    method GetPage(guest: Guest, addr: nat) returns (page: Option<Page>)
      requires Valid()
      modifies this
      ensures Valid()
      ensures page == View(old(cache), guest, addr)
      ensures cache == if page.Some? then old(cache)[addr := page.value] else old(cache)
      ensures requests == if addr in old(cache) then old(requests) else old(requests) + [Request(addr, page.Some?)]
    {
      if addr in cache {
        assert cache[addr := cache[addr]] == cache;
        return Some(cache[addr]);
      }
      page := guest(addr);
      requests := requests + [Request(addr, page.Some?)];
      if page.Some? {
        cache := cache[addr := page.value];
      }
    }

    /** The bytes from start up to end, as far as they can be read; pages are visited from the first to the one that holds end. */
    method Get(guest: Guest, start: nat, end: nat) returns (r: seq<byte>)
      requires Valid() && start <= end
      modifies this
      ensures Valid()
      ensures ReadOf(old(cache), guest, start, end, r)
      ensures SameView(old(cache), cache, guest)
      ensures old(requests) <= requests
    {
      hide HoldAll, SameView, View;
      Unchanged(cache, guest, start);
      var endPage := PageOf(end);
      var cur := PageOf(start);
      r := [];
      while cur <= endPage
        invariant Valid() && cur % PAGE == 0 && PageOf(start) <= cur
        invariant |r| == Covered(start, end, cur)
        invariant HoldAll(old(cache), guest, start, r)
        invariant SameView(old(cache), cache, guest)
        invariant old(requests) <= requests
        decreases endPage + PAGE - cur
      {
        ghost var seen := cache;
        var page := GetPage(guest, cur);
        Fetched(old(cache), seen, cache, guest, cur);
        if page.None? {
          StoppedAt(start, end, cur);
          return r;
        }
        var startOff := if cur < start then start % PAGE else 0;
        var endOff := if cur + PAGE > end then end % PAGE else PAGE;
        Piece(start, end, cur, startOff, endOff);
        Continues(old(cache), guest, start, cur, r, page.value, startOff, endOff);
        r := r + page.value[startOff..endOff];
        cur := cur + PAGE;
      }
      Complete(start, end, cur);
    }
  }

  /** How many bytes have been read when the pages below cur have been. */
  function Covered(start: nat, end: nat, cur: nat): nat
    requires start <= end
  {
    if cur <= start then 0 else if cur <= end then cur - start else end - start
  }

  lemma InPage(cur: nat, off: nat)
    requires cur % PAGE == 0 && off < PAGE
    ensures PageOf(cur + off) == cur
  {
  }

  lemma Unchanged(cache: map<nat, Page>, guest: Guest, start: nat)
    ensures SameView(cache, cache, guest) && HoldAll(cache, guest, start, [])
  {
  }

  lemma Fetched(first: map<nat, Page>, seen: map<nat, Page>, now: map<nat, Page>, guest: Guest, addr: nat)
    requires SameView(first, seen, guest)
    requires now == if View(seen, guest, addr).Some? then seen[addr := View(seen, guest, addr).value] else seen
    ensures SameView(first, now, guest) && View(first, guest, addr) == View(seen, guest, addr)
  {
  }

  lemma Continues(cache: map<nat, Page>, guest: Guest, start: nat, cur: nat, r: seq<byte>, page: Page, s: nat, e: nat)
    requires HoldAll(cache, guest, start, r) && View(cache, guest, cur) == Some(page)
    requires s <= e <= PAGE && start + |r| == cur + s && cur % PAGE == 0
    ensures HoldAll(cache, guest, start, r + page[s..e])
  {
    var r' := r + page[s..e];
    forall i | 0 <= i < |r'| ensures HoldsAt(cache, guest, start + i, r'[i]) {
      if i >= |r| {
        var off := s + (i - |r|);
        assert r'[i] == page[off] && start + i == cur + off;
        InPage(cur, off);
      }
    }
  }

  lemma StoppedAt(start: nat, end: nat, cur: nat)
    requires start <= end && PageOf(start) <= cur <= PageOf(end) && cur % PAGE == 0
    ensures var n := Covered(start, end, cur);
      start + n <= end && (start + n < end ==> PageOf(start + n) == cur && (n == 0 || (start + n) % PAGE == 0))
  {
  }

  /** The slice of a page that is copied continues where the last one ended. */
  lemma Piece(start: nat, end: nat, cur: nat, startOff: nat, endOff: nat)
    requires start <= end && PageOf(start) <= cur <= PageOf(end) && cur % PAGE == 0
    requires startOff == if cur < start then start % PAGE else 0
    requires endOff == if cur + PAGE > end then end % PAGE else PAGE
    ensures startOff <= endOff <= PAGE
    ensures start + Covered(start, end, cur) == cur + startOff
    ensures Covered(start, end, cur) + (endOff - startOff) == Covered(start, end, cur + PAGE)
  {
  }

  lemma Complete(start: nat, end: nat, cur: nat)
    requires start <= end && cur % PAGE == 0 && cur > PageOf(end)
    ensures Covered(start, end, cur) == end - start
  {
  }

  // ---- What ReadOf means -------------------------------------------------------------

  /** There is exactly one such read. */
  lemma ReadUnique(cache: map<nat, Page>, guest: Guest, start: nat, end: nat, r: seq<byte>, r': seq<byte>)
    requires ReadOf(cache, guest, start, end, r) && ReadOf(cache, guest, start, end, r')
    ensures r == r'
  {
    assert |r| < |r'| ==> HoldsAt(cache, guest, start + |r|, r'[|r|]);
    assert |r'| < |r| ==> HoldsAt(cache, guest, start + |r'|, r[|r'|]);
    forall i | 0 <= i < |r| ensures r[i] == r'[i] {
      assert HoldsAt(cache, guest, start + i, r[i]) && HoldsAt(cache, guest, start + i, r'[i]);
    }
  }

  /** It is complete exactly if every page with a requested byte can be read. */
  lemma CompleteIff(cache: map<nat, Page>, guest: Guest, start: nat, end: nat, r: seq<byte>)
    requires start <= end && ReadOf(cache, guest, start, end, r)
    ensures |r| == end - start <==> forall a: nat :: start <= a < end ==> View(cache, guest, PageOf(a)).Some?
  {
    if |r| == end - start {
      forall a: nat | start <= a < end ensures View(cache, guest, PageOf(a)).Some? {
        assert HoldsAt(cache, guest, start + (a - start), r[a - start]);
      }
    }
  }
}
