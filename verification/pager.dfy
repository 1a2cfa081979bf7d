/**
 * Page I/O through a bounded least-recently-used cache, against an uncached
 * array of pages.
 *
 * `Merged` is the array the cache and the file stand for together. Reading,
 * writing and allocating change it as they would change a plain array, whatever
 * the capacity; evicting and flushing do not change it at all.
 *
 * The ghost list `accesses` records every page used, in order. The clock value
 * stored with a cached page is the position of its last use in that list, so the
 * page with the least value is the one used longest ago. All pages in the cache
 * were used after all pages that are not.
 *
 * A page written far beyond the end of the file leaves a gap of zeros. Every
 * page in the gap is in the cache and dirty, so nobody reads the zeros.
 */
module Pagers {
  import opened Bytes
  import SlottedPages

  const PAGE_SIZE := SlottedPages.PAGE_SIZE

  type Page = seq<Byte>

  const BLANK: Page := seq(PAGE_SIZE, _ => 0)

  datatype CachedPage = CachedPage(bytes: Page, dirty: bool, touched: nat)

  type Cache = map<nat, CachedPage>

  /** The file after a page is written at `id`; a gap before it reads as zeros. */
  function FileWritten(file: seq<Page>, id: nat, page: Page): (r: seq<Page>)
    ensures id < |r| && r[id] == page && |r| >= |file|
    ensures forall i :: 0 <= i < |file| && i != id ==> r[i] == file[i]
  {
    if id < |file| then file[id := page] else file + seq(id - |file|, _ => BLANK) + [page]
  }

  /** `set_len`: cut, or extended with zeros. */
  function Resized(file: seq<Page>, n: nat): (r: seq<Page>)
    ensures |r| == n && forall i :: 0 <= i < n && i < |file| ==> r[i] == file[i]
  {
    if n <= |file| then file[..n] else file + seq(n - |file|, _ => BLANK)
  }

  /** One past the last access of `id`, or 0. */
  ghost function LastAccess(accesses: seq<nat>, id: nat): (n: nat)
    ensures n <= |accesses|
  {
    if accesses == [] then 0
    else if accesses[|accesses| - 1] == id then |accesses|
    else LastAccess(accesses[..|accesses| - 1], id)
  }

  lemma {:induction false} LastAccessExact(accesses: seq<nat>, id: nat)
    ensures LastAccess(accesses, id) > 0 ==> accesses[LastAccess(accesses, id) - 1] == id
    ensures forall i :: LastAccess(accesses, id) <= i < |accesses| ==> accesses[i] != id
  {
    if accesses != [] && accesses[|accesses| - 1] != id {
      LastAccessExact(accesses[..|accesses| - 1], id);
    }
  }

  lemma AccessMore(accesses: seq<nat>, id: nat)
    ensures LastAccess(accesses + [id], id) == |accesses| + 1
    ensures forall j :: j != id ==> LastAccess(accesses + [id], j) == LastAccess(accesses, j)
  {
    assert (accesses + [id])[..|accesses|] == accesses;
  }

  /** What the pages are: cached copies first, the file otherwise. */
  ghost function Merged(file: seq<Page>, cache: Cache, pages: nat): seq<Page> {
    seq(pages, i requires 0 <= i < pages =>
      if i in cache then cache[i].bytes else if i < |file| then file[i] else BLANK)
  }

  /** The cache is bounded, holds the pages used last, and its clock tells when each was. */
  ghost predicate CacheOk(cache: Cache, capacity: nat, accesses: seq<nat>, pages: nat) {
    && |cache| <= capacity
    && (forall id :: id in cache ==>
          id < pages && |cache[id].bytes| == PAGE_SIZE && cache[id].touched == LastAccess(accesses, id) > 0)
    && (forall c, u :: c in cache && u !in cache ==> LastAccess(accesses, u) < LastAccess(accesses, c))
  }

  /** Every page below the count but `skip` is cached or on file, and a clean copy equals the file's. */
  ghost predicate FileOk(file: seq<Page>, cache: Cache, pages: nat, skip: nat) {
    && |file| <= pages
    && (forall i :: 0 <= i < |file| ==> |file[i]| == PAGE_SIZE)
    && (forall id :: 0 <= id < pages && id != skip && id !in cache ==> id < |file|)
    && (forall id :: id in cache && !cache[id].dirty ==> id < |file| && file[id] == cache[id].bytes)
  }

  /** `v` was used longest ago. */
  ghost predicate Oldest(keys: set<nat>, accesses: seq<nat>, v: nat) {
    v in keys && forall j :: j in keys && j != v ==> LastAccess(accesses, v) < LastAccess(accesses, j)
  }

  /** Using page `id` caches it, at the cost of the page used longest ago when there is no room. */
  ghost predicate KeysAfter(before: set<nat>, after: set<nat>, accesses: seq<nat>, capacity: nat, id: nat) {
    if id in before then after == before
    else if |before| < capacity then after == before + {id}
    else exists v :: Oldest(before, accesses, v) && after == before - {v} + {id}
  }

  ghost predicate RoomMade(before: set<nat>, after: set<nat>, accesses: seq<nat>, capacity: nat) {
    if |before| < capacity then after == before
    else exists v :: Oldest(before, accesses, v) && after == before - {v}
  }

  lemma KeysUsed(before: set<nat>, after: set<nat>, accesses: seq<nat>, capacity: nat, id: nat)
    requires if id in before then after == before else RoomMade(before, after, accesses, capacity)
    ensures KeysAfter(before, after + {id}, accesses, capacity, id)
  {
    hide Oldest;
    if id in before {
      assert after + {id} == before;
    } else if |before| >= capacity {
      var v :| Oldest(before, accesses, v) && after == before - {v};
      assert after + {id} == before - {v} + {id};
    }
  }

  /** Different pages were last used at different times. */
  lemma LastAccessesDiffer(accesses: seq<nat>, i: nat, j: nat)
    requires i != j && LastAccess(accesses, i) > 0
    ensures LastAccess(accesses, i) != LastAccess(accesses, j)
  {
    LastAccessExact(accesses, i);
    LastAccessExact(accesses, j);
  }

  // ----- What each change of the cache keeps -----

  lemma SizeOfKeys(cache: Cache, next: Cache)
    requires next.Keys == cache.Keys
    ensures |next| == |cache|
  {
    assert |next.Keys| == |next| && |cache.Keys| == |cache|;
  }

  lemma UseOk(cache: Cache, capacity: nat, accesses: seq<nat>, pages: nat, id: nat, entry: CachedPage)
    requires CacheOk(cache, capacity, accesses, pages) && id < pages && (id in cache || |cache| < capacity)
    requires |entry.bytes| == PAGE_SIZE && entry.touched == |accesses| + 1
    ensures CacheOk(cache[id := entry], capacity, accesses + [id], pages)
  {
    hide LastAccess;
    var next := cache[id := entry];
    AccessMore(accesses, id);
    assert next.Keys == cache.Keys + {id};
    if id in cache {
      SizeOfKeys(cache, next);
    } else {
      assert |next.Keys| == |next| && |cache.Keys| == |cache|;
    }
  }

  lemma CleanOk(cache: Cache, capacity: nat, accesses: seq<nat>, pages: nat, id: nat)
    requires CacheOk(cache, capacity, accesses, pages) && id in cache
    ensures CacheOk(cache[id := cache[id].(dirty := false)], capacity, accesses, pages)
  {
    hide LastAccess;
    SizeOfKeys(cache, cache[id := cache[id].(dirty := false)]);
  }

  lemma DropOk(cache: Cache, capacity: nat, accesses: seq<nat>, pages: nat, v: nat)
    requires CacheOk(cache, capacity, accesses, pages) && Oldest(cache.Keys, accesses, v)
    ensures CacheOk(cache - {v}, capacity, accesses, pages) && |cache - {v}| < |cache|
  {
    hide LastAccess;
    var next := cache - {v};
    assert next.Keys == cache.Keys - {v};
    assert |next.Keys| == |next| && |cache.Keys| == |cache|;
  }

  lemma TouchedOldest(cache: Cache, capacity: nat, accesses: seq<nat>, pages: nat, v: nat)
    requires CacheOk(cache, capacity, accesses, pages) && v in cache
    requires forall id :: id in cache ==> cache[v].touched <= cache[id].touched
    ensures Oldest(cache.Keys, accesses, v)
  {
    hide LastAccess;
    forall j | j in cache.Keys && j != v
      ensures LastAccess(accesses, v) < LastAccess(accesses, j)
    {
      LastAccessesDiffer(accesses, v, j);
    }
  }

  lemma FlushFile(file: seq<Page>, cache: Cache, pages: nat, skip: nat, id: nat)
    requires FileOk(file, cache, pages, skip) && id in cache && id < pages && |cache[id].bytes| == PAGE_SIZE
    ensures var flushed, clean := FileWritten(file, id, cache[id].bytes), cache[id := cache[id].(dirty := false)];
      FileOk(flushed, clean, pages, skip) && Merged(flushed, clean, pages) == Merged(file, cache, pages)
  {
    FileWrittenBlank(file, id, cache[id].bytes);
  }

  lemma FileWrittenBlank(file: seq<Page>, id: nat, page: Page)
    ensures var r := FileWritten(file, id, page);
      forall i :: |file| <= i < |r| && i != id ==> r[i] == BLANK
    ensures |FileWritten(file, id, page)| == if id < |file| then |file| else id + 1
  {
  }

  lemma DropFile(file: seq<Page>, cache: Cache, pages: nat, skip: nat, v: nat)
    requires FileOk(file, cache, pages, skip) && v in cache && !cache[v].dirty
    ensures FileOk(file, cache - {v}, pages, skip) && Merged(file, cache - {v}, pages) == Merged(file, cache, pages)
  {
  }

  lemma LoadFile(file: seq<Page>, cache: Cache, pages: nat, id: nat, touched: nat)
    requires FileOk(file, cache, pages, pages) && id !in cache && id < pages
    ensures id < |file| && |file[id]| == PAGE_SIZE
    ensures var next := cache[id := CachedPage(file[id], false, touched)];
      FileOk(file, next, pages, pages) && Merged(file, next, pages) == Merged(file, cache, pages)
  {
  }

  lemma TouchFile(file: seq<Page>, cache: Cache, pages: nat, id: nat, touched: nat)
    requires FileOk(file, cache, pages, pages) && id in cache
    ensures var next := cache[id := cache[id].(touched := touched)];
      FileOk(file, next, pages, pages) && Merged(file, next, pages) == Merged(file, cache, pages)
  {
  }

  lemma PutFile(file: seq<Page>, cache: Cache, pages: nat, id: nat, bytes: Page, touched: nat)
    requires FileOk(file, cache, pages, id) && id < pages
    ensures var next := cache[id := CachedPage(bytes, true, touched)];
      FileOk(file, next, pages, pages) && Merged(file, next, pages) == Merged(file, cache, pages)[id := bytes]
  {
  }

  lemma GrowFile(file: seq<Page>, cache: Cache, pages: nat, capacity: nat, accesses: seq<nat>)
    requires FileOk(file, cache, pages, pages) && CacheOk(cache, capacity, accesses, pages)
    ensures FileOk(file, cache, pages + 1, pages) && CacheOk(cache, capacity, accesses, pages + 1) && pages !in cache
    ensures Merged(file, cache, pages + 1) == Merged(file, cache, pages) + [BLANK]
  {
    hide LastAccess;
  }

  /** With nothing dirty the file holds every page. */
  lemma CleanFile(file: seq<Page>, cache: Cache, pages: nat)
    requires FileOk(file, cache, pages, pages) && forall id :: id in cache ==> !cache[id].dirty && id < pages
    ensures file == Merged(file, cache, pages) && Resized(file, pages) == file
  {
    if pages > 0 {
      var last := pages - 1;
      assert last in cache ==> !cache[last].dirty;
      assert last < |file|;
    }
  }

  datatype Failure = SkipsAllocation

  class Pager {
    var file: seq<Page>
    const capacity: nat
    var clock: nat
    var pages: nat
    var cache: Cache
    ghost var accesses: seq<nat>

    ghost predicate Valid()
      reads this
    {
      && capacity > 0 && clock == |accesses|
      && CacheOk(cache, capacity, accesses, pages) && FileOk(file, cache, pages, pages)
    }

    /** The pages an uncached array would hold. */
    ghost function Contents(): seq<Page>
      reads this
    {
      Merged(file, cache, pages)
    }

    constructor (file: seq<Page>, capacity: nat)
      requires capacity > 0 && forall i :: 0 <= i < |file| ==> |file[i]| == PAGE_SIZE
      ensures Valid() && Contents() == file && this.capacity == capacity
    {
      this.file, this.capacity, this.clock, this.pages := file, capacity, 0, |file|;
      this.cache, this.accesses := map[], [];
    }

    method Allocate() returns (id: nat)
      requires Valid()
      modifies this
      ensures Valid() && id == |old(Contents())| && Contents() == old(Contents()) + [BLANK]
      ensures accesses == old(accesses) + [id]
      ensures KeysAfter(old(cache.Keys), cache.Keys, old(accesses), capacity, id)
    {
      id := pages;
      var failure := Write(id, BLANK);
    }

    method Read(id: nat) returns (r: Option<Page>)
      requires Valid()
      modifies this
      ensures Valid() && Contents() == old(Contents())
      ensures r == if id < |Contents()| then Some(Contents()[id]) else None
      ensures r.Some? ==>
        && accesses == old(accesses) + [id]
        && KeysAfter(old(cache.Keys), cache.Keys, old(accesses), capacity, id)
      ensures r.None? ==> accesses == old(accesses) && cache == old(cache)
    {
      hide CacheOk, FileOk, Oldest, Merged, KeysAfter, RoomMade;
      MergedAt(file, cache, pages, id);
      if id >= pages {
        return None;
      }
      ghost var held := cache;
      if id !in cache {
        EvictIfNeeded(pages);
        held := cache;
        LoadFile(file, cache, pages, id, clock);
        cache := cache[id := CachedPage(file[id], false, clock)];
      } else {
        CachedBelow(cache, capacity, accesses, pages);
      }
      KeysUsed(old(cache.Keys), held.Keys, accesses, capacity, id);
      clock := clock + 1;
      UseOk(held, capacity, accesses, pages, id, cache[id].(touched := clock));
      PutTwice(held, cache, id, cache[id].(touched := clock));
      TouchFile(file, cache, pages, id, clock);
      accesses := accesses + [id];
      cache := cache[id := cache[id].(touched := clock)];
      MergedAt(file, cache, pages, id);
      r := Some(cache[id].bytes);
    }

    method Write(id: nat, bytes: Page) returns (failure: Option<Failure>)
      requires Valid() && |bytes| == PAGE_SIZE
      modifies this
      ensures Valid()
      ensures id > |old(Contents())| ==>
        && failure == Some(SkipsAllocation) && Contents() == old(Contents())
        && accesses == old(accesses) && cache == old(cache)
      ensures id <= |old(Contents())| ==>
        && failure == None && accesses == old(accesses) + [id]
        && KeysAfter(old(cache.Keys), cache.Keys, old(accesses), capacity, id)
      ensures id < |old(Contents())| ==> Contents() == old(Contents())[id := bytes]
      ensures id == |old(Contents())| ==> Contents() == old(Contents()) + [bytes]
    {
      hide CacheOk, FileOk, Oldest, Merged, KeysAfter, RoomMade;
      MergedAt(file, cache, pages, 0);
      if id > pages {
        return Some(SkipsAllocation);
      }
      if id == pages {
        GrowFile(file, cache, pages, capacity, accesses);
        pages := pages + 1;
      } else {
        SkipOk(file, cache, pages, id);
      }
      ghost var grown := Contents();
      if id !in cache {
        EvictIfNeeded(id);
      }
      KeysUsed(old(cache.Keys), cache.Keys, accesses, capacity, id);
      clock := clock + 1;
      UseOk(cache, capacity, accesses, pages, id, CachedPage(bytes, true, clock));
      PutFile(file, cache, pages, id, bytes, clock);
      accesses := accesses + [id];
      PutKeys(cache, id, CachedPage(bytes, true, clock));
      cache := cache[id := CachedPage(bytes, true, clock)];
      return None;
    }

    /** Afterwards the file is exactly the pages. */
    method Flush()
      requires Valid()
      modifies this
      ensures Valid() && Contents() == old(Contents()) && file == Contents()
      ensures accesses == old(accesses) && cache.Keys == old(cache.Keys)
    {
      hide CacheOk, FileOk, Merged;
      var dirty := set id | id in cache && cache[id].dirty;
      while dirty != {}
        invariant Valid() && Contents() == old(Contents()) && accesses == old(accesses) && pages == old(pages)
        invariant cache.Keys == old(cache.Keys) && dirty == set id | id in cache && cache[id].dirty
      {
        var id :| id in dirty;
        FlushOne(id, pages);
        dirty := dirty - {id};
      }
      CachedBelow(cache, capacity, accesses, pages);
      assert forall id :: id in cache ==> id !in dirty;
      CleanFile(file, cache, pages);
      file := Resized(file, pages);
    }

    /** Makes room by dropping the page used longest ago, after writing it if it is dirty. */
    method EvictIfNeeded(skip: nat)
      requires capacity > 0 && CacheOk(cache, capacity, accesses, pages) && FileOk(file, cache, pages, skip)
      modifies this`file, this`cache
      ensures CacheOk(cache, capacity, accesses, pages) && FileOk(file, cache, pages, skip)
      ensures |cache| < capacity && Contents() == old(Contents())
      ensures RoomMade(old(cache.Keys), cache.Keys, accesses, capacity) && cache.Keys <= old(cache.Keys)
    {
      hide CacheOk, FileOk, Merged, Oldest;
      assert |cache.Keys| == |cache|;
      if |cache| < capacity {
        return;
      }
      var victim := LeastTouched();
      TouchedOldest(cache, capacity, accesses, pages, victim);
      FlushOne(victim, skip);
      assert cache.Keys == old(cache.Keys);
      DropOk(cache, capacity, accesses, pages, victim);
      DropFile(file, cache, pages, skip, victim);
      CacheBound(cache, capacity, accesses, pages);
      cache := cache - {victim};
    }

    method LeastTouched() returns (victim: nat)
      requires cache != map[]
      ensures victim in cache && forall id :: id in cache ==> cache[victim].touched <= cache[id].touched
    {
      victim :| victim in cache;
      var rest := cache.Keys - {victim};
      while rest != {}
        invariant rest <= cache.Keys && victim in cache
        invariant forall id :: id in cache && id !in rest ==> cache[victim].touched <= cache[id].touched
      {
        var id :| id in rest;
        if cache[id].touched < cache[victim].touched {
          victim := id;
        }
        rest := rest - {id};
      }
    }

    method FlushOne(id: nat, skip: nat)
      requires CacheOk(cache, capacity, accesses, pages) && FileOk(file, cache, pages, skip)
      modifies this`file, this`cache
      ensures CacheOk(cache, capacity, accesses, pages) && FileOk(file, cache, pages, skip)
      ensures Contents() == old(Contents())
      ensures cache == if id in old(cache) then old(cache)[id := old(cache)[id].(dirty := false)] else old(cache)
    {
      hide CacheOk, FileOk, Merged;
      if id !in cache {
        return;
      }
      if cache[id].dirty {
        CachedBelow(cache, capacity, accesses, pages);
        FlushFile(file, cache, pages, skip, id);
        CleanOk(cache, capacity, accesses, pages, id);
        file := FileWritten(file, id, cache[id].bytes);
        cache := cache[id := cache[id].(dirty := false)];
      }
    }
  }

  lemma PutKeys(cache: Cache, id: nat, entry: CachedPage)
    ensures cache[id := entry].Keys == cache.Keys + {id}
  {
  }

  lemma PutTwice(held: Cache, cache: Cache, id: nat, entry: CachedPage)
    requires cache == held || (id in cache && cache == held[id := cache[id]])
    ensures held[id := entry] == cache[id := entry] && cache[id := entry].Keys == held.Keys + {id}
  {
  }

  lemma MergedAt(file: seq<Page>, cache: Cache, pages: nat, id: nat)
    ensures |Merged(file, cache, pages)| == pages
    ensures id < pages && id in cache ==> Merged(file, cache, pages)[id] == cache[id].bytes
  {
  }

  lemma SkipOk(file: seq<Page>, cache: Cache, pages: nat, id: nat)
    requires FileOk(file, cache, pages, pages)
    ensures FileOk(file, cache, pages, id)
  {
  }

  lemma CachedBelow(cache: Cache, capacity: nat, accesses: seq<nat>, pages: nat)
    requires CacheOk(cache, capacity, accesses, pages)
    ensures forall id :: id in cache ==> id < pages && |cache[id].bytes| == PAGE_SIZE
  {
  }

  lemma CacheBound(cache: Cache, capacity: nat, accesses: seq<nat>, pages: nat)
    requires CacheOk(cache, capacity, accesses, pages)
    ensures |cache| <= capacity
  {
  }

  /** Opens a file of whole pages; a trailing part of a page or an empty cache is refused. */
  method OpenPager(file: seq<Page>, tail: nat, capacity: nat, truncate: bool) returns (r: Option<Pager>)
    requires tail < PAGE_SIZE && forall i :: 0 <= i < |file| ==> |file[i]| == PAGE_SIZE
    ensures r.None? <==> capacity == 0 || (tail > 0 && !truncate)
    ensures r.Some? ==> fresh(r.value) && r.value.Valid() && r.value.capacity == capacity
    ensures r.Some? ==> r.value.Contents() == if truncate then [] else file
  {
    if capacity == 0 {
      return None;
    }
    if tail > 0 && !truncate {
      return None;
    }
    var pager := new Pager(if truncate then [] else file, capacity);
    return Some(pager);
  }
}
