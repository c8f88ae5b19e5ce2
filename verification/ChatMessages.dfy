/**
 * Keyset pagination over the messages of a conversation, newest first, and why following the cursor
 * delivers every message exactly once even while newer messages arrive.
 */
module ChatMessages {
  import opened Common

  /** The sort key of a message; ids are unique. */
  datatype Stamp = Stamp(createdAt: int, id: nat)

  /**
   * A cursor parameter after base64 and JSON decoding. `Blank` decodes to no position although it is
   * present; an id that is no object id is kept as `None`.
   */
  datatype Cursor = Absent | Blank | Malformed | BadDate | At(value: int, id: Option<nat>)

  datatype Page = Page(items: seq<Stamp>, next: Option<Stamp>)

  predicate Newer(a: Stamp, b: Stamp) {
    a.createdAt > b.createdAt || (a.createdAt == b.createdAt && a.id > b.id)
  }

  ghost predicate Descends(s: seq<Stamp>) {
    forall i, j | 0 <= i < j < |s| :: Newer(s[i], s[j])
  }

  ghost predicate Distinct(s: seq<Stamp>) {
    forall i, j | 0 <= i < j < |s| :: s[i] != s[j]
  }

  // ---- Sorting ----

  function Insert(s: seq<Stamp>, x: Stamp): (r: seq<Stamp>)
    ensures |r| == |s| + 1 && forall y :: y in r <==> y in s || y == x
  {
    if s == [] || Newer(x, s[0]) then [x] + s else [s[0]] + Insert(s[1..], x)
  }

  function NewestFirst(s: seq<Stamp>): (r: seq<Stamp>)
    ensures |r| == |s| && forall y :: y in r <==> y in s
  {
    if s == [] then [] else Insert(NewestFirst(s[1..]), s[0])
  }

  lemma {:induction false} InsertDescends(s: seq<Stamp>, x: Stamp)
    requires Descends(s) && x !in s
    ensures Descends(Insert(s, x))
  {
    if s != [] && !Newer(x, s[0]) {
      InsertDescends(s[1..], x);
      var rest := Insert(s[1..], x);
      assert forall j | 0 <= j < |rest| :: rest[j] in rest;
    }
  }

  lemma {:induction false} SortDescends(s: seq<Stamp>)
    requires Distinct(s)
    ensures Descends(NewestFirst(s))
  {
    if s != [] {
      SortDescends(s[1..]);
      InsertDescends(NewestFirst(s[1..]), s[0]);
    }
  }

  lemma HeadIsMember(s: seq<Stamp>)
    requires s != []
    ensures s[0] in s
  {
  }

  /** A descending sequence is determined by its members. */
  lemma {:induction false} DescendingUnique(a: seq<Stamp>, b: seq<Stamp>)
    requires Descends(a) && Descends(b) && forall x :: x in a <==> x in b
    ensures a == b
  {
    if a == [] {
      if b != [] { HeadIsMember(b); }
    } else {
      assert a[0] in b && b != [] && b[0] in a;
      forall x ensures x in a[1..] <==> x in b[1..] {
        assert x in a <==> x == a[0] || x in a[1..];
        assert x in b <==> x == b[0] || x in b[1..];
      }
      DescendingUnique(a[1..], b[1..]);
    }
  }

  // ---- Listing ----

  predicate Passes(m: Stamp, cursor: Cursor) {
    cursor.At? ==>
      || m.createdAt < cursor.value
      || (cursor.id.Some? && m.createdAt == cursor.value && m.id < cursor.id.value)
  }

  function Matching(all: seq<Stamp>, cursor: Cursor): (r: seq<Stamp>)
    ensures forall m :: m in r <==> m in all && Passes(m, cursor)
    ensures Distinct(all) ==> Distinct(r)
  {
    if all == [] then []
    else (if Passes(all[0], cursor) then [all[0]] else []) + Matching(all[1..], cursor)
  }

  function PageSize(limit: Option<int>): (n: nat)
    ensures 1 <= n <= 100
  {
    Min(Max(if limit.Some? then limit.value else 24, 1), 100)
  }

  function Skipped(cursor: Cursor, offset: Option<int>): nat {
    if cursor == Absent && offset.Some? then Max(offset.value, 0) else 0
  }

  /** The page read from `skip`: one document more than a page is fetched to learn whether more follow. */
  function PageAt(sorted: seq<Stamp>, skip: nat, size: nat): Page
    requires size > 0
  {
    var rest := sorted[Min(skip, |sorted|)..];
    var docs := rest[..Min(size + 1, |rest|)];
    if |docs| > size then Page(docs[..size], Some(docs[size - 1])) else Page(docs, None)
  }

  function List(all: seq<Stamp>, cursor: Cursor, limit: Option<int>, offset: Option<int>): Result<Page> {
    if cursor == Malformed || cursor == BadDate then Err(BadRequest)
    else Ok(PageAt(NewestFirst(Matching(all, cursor)), Skipped(cursor, offset), PageSize(limit)))
  }

  // ---- What a request asks for ----

  /** The later message first, and of one instant the one with the larger id. */
  lemma {:induction false} LatestFirst(all: seq<Stamp>, i: nat, j: nat)
    requires Distinct(all) && i < j < |all|
    ensures var a, b := NewestFirst(all)[i], NewestFirst(all)[j];
      a.createdAt > b.createdAt || (a.createdAt == b.createdAt && a.id > b.id)
  {
    SortDescends(all);
  }

  lemma PageAtExact(sorted: seq<Stamp>, skip: nat, size: nat, from: nat)
    requires size > 0 && from == if skip > |sorted| then |sorted| else skip
    ensures PageAt(sorted, skip, size) ==
      if from + size < |sorted| then Page(sorted[from..from + size], Some(sorted[from + size - 1]))
      else Page(sorted[from..], None)
  {
    var rest := sorted[from..];
    if from + size < |sorted| {
      assert rest[..size + 1][..size] == sorted[from..from + size];
    } else {
      assert rest[..|rest|] == rest;
    }
  }

  /** A page has 24 messages unless asked otherwise, at least one and at most 100. */
  lemma PageSizeExact(limit: Option<int>)
    ensures PageSize(limit) ==
      match limit
      case None => 24
      case Some(n) => if n < 1 then 1 else if n > 100 then 100 else n
  {
  }

  /** The messages of a page without a cursor: a page size of them, past as many as asked for. */
  lemma FirstPageExact(all: seq<Stamp>, limit: Option<int>, offset: Option<int>, from: nat)
    requires from == match offset case None => 0 case Some(n) => if n < 0 then 0 else if n > |all| then |all| else n
    ensures var sorted, size := NewestFirst(all), PageSize(limit);
      List(all, Absent, limit, offset) == Ok(
        if from + size < |all| then Page(sorted[from..from + size], Some(sorted[from + size - 1]))
        else Page(sorted[from..], None))
  {
    NoFilter(all);
    PageAtExact(NewestFirst(all), Skipped(Absent, offset), PageSize(limit), from);
  }

  /** The messages before a position; without a readable id only those of earlier instants. */
  function Earlier(all: seq<Stamp>, value: int, id: Option<nat>): seq<Stamp> {
    if all == [] then []
    else
      var m := all[0];
      (if m.createdAt < value || (id.Some? && m.createdAt == value && m.id < id.value) then [m] else [])
      + Earlier(all[1..], value, id)
  }

  lemma {:induction false} MatchingIsEarlier(all: seq<Stamp>, value: int, id: Option<nat>)
    ensures Matching(all, At(value, id)) == Earlier(all, value, id)
  {
    if all != [] { MatchingIsEarlier(all[1..], value, id); }
  }

  /** A cursor cuts off all that is not before its position, and its offset is ignored; a damaged one is refused. */
  lemma CursorPageExact(all: seq<Stamp>, value: int, id: Option<nat>, limit: Option<int>, offset: Option<int>)
    ensures List(all, At(value, id), limit, offset) == List(Earlier(all, value, id), Absent, limit, None)
    ensures List(all, Blank, limit, offset) == List(all, Absent, limit, None)
    ensures List(all, Malformed, limit, offset) == List(all, BadDate, limit, offset) == Err(BadRequest)
  {
    MatchingIsEarlier(all, value, id);
    NoFilter(Earlier(all, value, id));
    NoFilter(all);
    BlankFilter(all);
    SameFilterSamePage(all, At(value, id), Earlier(all, value, id), limit, offset);
    SameFilterSamePage(all, Blank, all, limit, offset);
  }

  lemma SameFilterSamePage(all: seq<Stamp>, cursor: Cursor, some: seq<Stamp>, limit: Option<int>, offset: Option<int>)
    requires (cursor.At? || cursor == Blank) && Matching(all, cursor) == some == Matching(some, Absent)
    ensures List(all, cursor, limit, offset) == List(some, Absent, limit, None)
  {
  }

  lemma {:induction false} BlankFilter(all: seq<Stamp>)
    ensures Matching(all, Blank) == all
  {
    if all != [] { BlankFilter(all[1..]); }
  }

  // ---- Following the cursor ----

  function CursorOf(m: Stamp): Cursor { At(m.createdAt, Some(m.id)) }

  /** The store has since gained only messages newer than all it held. */
  ghost predicate Grown(before: seq<Stamp>, after: seq<Stamp>) {
    && Distinct(after) && |before| <= |after| && after[..|before|] == before
    && forall i, j | 0 <= i < |before| <= j < |after| :: Newer(after[j], before[i])
  }

  /**
   * Page `i` answers the request made of store `i`: the first without a cursor, the others with the cursor of
   * the page before.
   */
  ghost predicate AnsweredAt(stores: seq<seq<Stamp>>, pages: seq<Page>, i: nat, limit: Option<int>, offset: Option<int>)
    requires i < |pages| == |stores|
  {
    if i == 0 then List(stores[0], Absent, limit, offset) == Ok(pages[0])
    else pages[i - 1].next.Some? && List(stores[i], CursorOf(pages[i - 1].next.value), limit, offset) == Ok(pages[i])
  }

  /** A reader's requests, one per state of the store, made while a cursor comes back. */
  ghost predicate Session(stores: seq<seq<Stamp>>, pages: seq<Page>, limit: Option<int>, offset: Option<int>) {
    && |pages| == |stores|
    && forall i | 0 <= i < |pages| :: AnsweredAt(stores, pages, i, limit, offset)
  }

  /** The messages on the first `n` pages. */
  function Delivered(pages: seq<Page>, n: nat): seq<Stamp>
    requires n <= |pages|
  {
    if n == 0 then [] else Delivered(pages, n - 1) + pages[n - 1].items
  }

  lemma NewcomerIsNewer(before: seq<Stamp>, after: seq<Stamp>, m: Stamp, x: Stamp)
    requires Grown(before, after) && m in after && m !in before && x in before
    ensures Newer(m, x)
  {
    var j: nat :| j < |after| && after[j] == m;
    var i: nat :| i < |before| && before[i] == x;
    assert before == after[..|before|];
  }

  /** Below the cursor of a delivered message a grown store holds just what the first store held. */
  lemma BelowIsSuffix(original: seq<Stamp>, store: seq<Stamp>, k: nat)
    requires Distinct(original) && Grown(original, store) && 0 < k <= |original|
    ensures NewestFirst(Matching(store, CursorOf(NewestFirst(original)[k - 1]))) == NewestFirst(original)[k..]
  {
    var sorted := NewestFirst(original);
    var below := Matching(store, CursorOf(sorted[k - 1]));
    SortDescends(original);
    SortDescends(below);
    assert sorted[k - 1] in original;
    forall m ensures m in NewestFirst(below) <==> m in sorted[k..] {
      if m in store && m !in original {
        NewcomerIsNewer(original, store, m, sorted[k - 1]);
      } else if m in sorted {
        var i :| 0 <= i < |sorted| && sorted[i] == m;
        assert original == store[..|original|] && m in store;
        assert i >= k <==> Newer(sorted[k - 1], m);
        assert i >= k ==> sorted[k..][i - k] == m;
      }
    }
    DescendingUnique(NewestFirst(below), sorted[k..]);
  }

  /** The `n` messages from position `from` on, with a cursor exactly when more follow. */
  function Window(sorted: seq<Stamp>, from: nat, n: nat): Page
    requires from <= |sorted| && n > 0
  {
    if from + n < |sorted| then Page(sorted[from..from + n], Some(sorted[from + n - 1])) else Page(sorted[from..], None)
  }

  lemma PageIsWindow(sorted: seq<Stamp>, skip: nat, size: nat)
    requires size > 0
    ensures PageAt(sorted, skip, size) == Window(sorted, Min(skip, |sorted|), size)
  {
    var from := Min(skip, |sorted|);
    var rest := sorted[from..];
    if |rest| > size {
      assert rest[..size + 1][..size] == sorted[from..from + size];
    } else {
      assert rest[..|rest|] == rest;
    }
  }

  lemma SuffixWindow(sorted: seq<Stamp>, from: nat, size: nat)
    requires from <= |sorted| && size > 0
    ensures PageAt(sorted[from..], 0, size) == Window(sorted, from, size)
  {
    PageIsWindow(sorted[from..], 0, size);
    assert from + size < |sorted| ==> sorted[from..][0..size] == sorted[from..from + size];
    assert sorted[from..][0..] == sorted[from..];
  }

  /** Below the first `k` of `sorted` the store holds just the rest of `sorted`. */
  ghost predicate ServesAt(store: seq<Stamp>, sorted: seq<Stamp>, k: int) {
    0 < k <= |sorted| ==> NewestFirst(Matching(store, CursorOf(sorted[k - 1]))) == sorted[k..]
  }

  ghost predicate Serves(store: seq<Stamp>, sorted: seq<Stamp>) {
    forall k :: ServesAt(store, sorted, k)
  }

  lemma GrownServes(original: seq<Stamp>, store: seq<Stamp>)
    requires Distinct(original) && Grown(original, store)
    ensures Serves(store, NewestFirst(original))
  {
    forall k ensures ServesAt(store, NewestFirst(original), k) {
      if 0 < k <= |original| { BelowIsSuffix(original, store, k); }
    }
  }

  lemma ListFrom(sorted: seq<Stamp>, store: seq<Stamp>, k: nat, limit: Option<int>, offset: Option<int>)
    requires Serves(store, sorted) && 0 < k <= |sorted|
    ensures List(store, CursorOf(sorted[k - 1]), limit, offset) == Ok(Window(sorted, k, PageSize(limit)))
  {
    assert ServesAt(store, sorted, k);
    SuffixWindow(sorted, k, PageSize(limit));
  }

  lemma FirstPage(original: seq<Stamp>, limit: Option<int>, offset: Option<int>)
    ensures List(original, Absent, limit, offset)
         == Ok(Window(NewestFirst(original), Min(Skipped(Absent, offset), |original|), PageSize(limit)))
  {
    NoFilter(original);
    PageIsWindow(NewestFirst(original), Skipped(Absent, offset), PageSize(limit));
  }

  /** The messages that `n` pages of `size` can hold. */
  function Capacity(n: nat, size: nat): (c: nat)
    ensures n > 0 ==> c >= size
  {
    if n == 0 then 0 else Capacity(n - 1, size) + size
  }

  lemma {:induction false} CapacityIsProduct(n: nat, size: nat)
    ensures Capacity(n, size) == n * size
  {
    if n > 0 { CapacityIsProduct(n - 1, size); }
  }

  /** `page` is the `i`-th page of `sorted` from `start` on. */
  ghost predicate IsPage(sorted: seq<Stamp>, start: nat, size: nat, page: Page, i: nat) {
    size > 0 && start + Capacity(i, size) <= |sorted| && page == Window(sorted, start + Capacity(i, size), size)
  }

  lemma {:induction false} PageOfSession(sorted: seq<Stamp>, start: nat, stores: seq<seq<Stamp>>, pages: seq<Page>,
                                         i: nat, limit: Option<int>, offset: Option<int>)
    requires start <= |sorted| && i < |pages| && Session(stores, pages, limit, offset)
    requires List(stores[0], Absent, limit, offset) == Ok(Window(sorted, start, PageSize(limit)))
    requires forall j | 1 <= j < |stores| :: Serves(stores[j], sorted)
    ensures IsPage(sorted, start, PageSize(limit), pages[i], i)
  {
    assert AnsweredAt(stores, pages, i, limit, offset);
    if i > 0 {
      PageOfSession(sorted, start, stores, pages, i - 1, limit, offset);
      var k := start + Capacity(i, PageSize(limit));
      assert k < |sorted| && pages[i - 1].next == Some(sorted[k - 1]);
      ListFrom(sorted, stores[i], k, limit, offset);
    }
  }

  lemma WindowAppend(sorted: seq<Stamp>, start: nat, taken: nat, size: nat)
    requires start + taken <= |sorted| && taken > 0 && size > 0
    ensures var page := Window(sorted, start + taken, size);
      Window(sorted, start, taken + size) == Page(Window(sorted, start, taken).items + page.items, page.next)
  {
  }

  /** Consecutive pages join into one window. */
  lemma {:induction false} PagesJoin(sorted: seq<Stamp>, start: nat, size: nat, pages: seq<Page>, n: nat)
    requires start <= |sorted| && 0 < n <= |pages| && size > 0
    requires forall i | 0 <= i < |pages| :: IsPage(sorted, start, size, pages[i], i)
    ensures Page(Delivered(pages, n), pages[n - 1].next) == Window(sorted, start, Capacity(n, size))
  {
    assert IsPage(sorted, start, size, pages[n - 1], n - 1);
    if n > 1 {
      PagesJoin(sorted, start, size, pages, n - 1);
      WindowAppend(sorted, start, Capacity(n - 1, size), size);
    } else {
      assert Delivered(pages, 0) == [];
    }
  }

  /**
   * Following the cursor from the first page: whatever newer messages arrive between the requests,
   * `n` pages hold exactly the first `n` times the page size messages stored at the start, newest
   * first, each once, and the cursor is gone exactly when those are all of them.
   */
  lemma PagesDeliverEverythingOnce(stores: seq<seq<Stamp>>, pages: seq<Page>, limit: Option<int>, offset: Option<int>)
    requires pages != [] && Session(stores, pages, limit, offset)
    requires Distinct(stores[0]) && forall i | 1 <= i < |stores| :: Grown(stores[0], stores[i])
    ensures Descends(NewestFirst(stores[0])) && 0 < |pages| * PageSize(limit)
    ensures Page(Delivered(pages, |pages|), pages[|pages| - 1].next)
         == Window(NewestFirst(stores[0]), Min(Skipped(Absent, offset), |stores[0]|), |pages| * PageSize(limit))
  {
    var sorted, start := NewestFirst(stores[0]), Min(Skipped(Absent, offset), |stores[0]|);
    SortDescends(stores[0]);
    forall i | 1 <= i < |stores| ensures Serves(stores[i], sorted) {
      GrownServes(stores[0], stores[i]);
    }
    FirstPage(stores[0], limit, offset);
    SessionJoins(sorted, start, stores, pages, limit, offset);
    CapacityIsProduct(|pages|, PageSize(limit));
  }

  lemma SessionJoins(sorted: seq<Stamp>, start: nat, stores: seq<seq<Stamp>>, pages: seq<Page>, limit: Option<int>,
                     offset: Option<int>)
    requires start <= |sorted| && pages != [] && Session(stores, pages, limit, offset)
    requires List(stores[0], Absent, limit, offset) == Ok(Window(sorted, start, PageSize(limit)))
    requires forall j | 1 <= j < |stores| :: Serves(stores[j], sorted)
    ensures Page(Delivered(pages, |pages|), pages[|pages| - 1].next)
         == Window(sorted, start, Capacity(|pages|, PageSize(limit)))
  {
    forall i | 0 <= i < |pages| ensures IsPage(sorted, start, PageSize(limit), pages[i], i) {
      PageOfSession(sorted, start, stores, pages, i, limit, offset);
    }
    PagesJoin(sorted, start, PageSize(limit), pages, |pages|);
  }

  lemma {:induction false} NoFilter(all: seq<Stamp>)
    ensures Matching(all, Absent) == all
  {
    if all != [] { NoFilter(all[1..]); }
  }

  // ---- Cursors without a readable id ----

  /** Some stored message of the cursor's instant is older than the cursor's message. */
  predicate TiesBelow(all: seq<Stamp>, value: int, id: nat) {
    exists m | m in all :: m.createdAt == value && m.id < id
  }

  lemma {:induction false} SameMatches(all: seq<Stamp>, value: int, id: nat)
    requires !TiesBelow(all, value, id)
    ensures Matching(all, At(value, None)) == Matching(all, At(value, Some(id)))
  {
    if all != [] {
      assert all[0] in all && forall m | m in all[1..] :: m in all;
      SameMatches(all[1..], value, id);
    }
  }

  /** A page that is not empty starts with the newest match. */
  lemma PageStartsNewest(all: seq<Stamp>, cursor: Cursor, limit: Option<int>, offset: Option<int>, m: Stamp)
    requires Distinct(all) && cursor.At? && m in all && Passes(m, cursor)
    ensures var page := List(all, cursor, limit, offset);
      page.Ok? && page.value.items != [] && Passes(page.value.items[0], cursor)
      && (page.value.items[0] == m || Newer(page.value.items[0], m))
  {
    var sorted := NewestFirst(Matching(all, cursor));
    SortDescends(Matching(all, cursor));
    assert m in sorted;
    PageIsWindow(sorted, 0, PageSize(limit));
    assert Window(sorted, 0, PageSize(limit)).items[0] == sorted[0];
    assert sorted[0] in sorted;
  }

  /** Every message of a page passes the cursor. */
  lemma PageHeadPasses(all: seq<Stamp>, cursor: Cursor, limit: Option<int>, offset: Option<int>)
    requires cursor.At? && List(all, cursor, limit, offset).value.items != []
    ensures Passes(List(all, cursor, limit, offset).value.items[0], cursor)
  {
    var sorted := NewestFirst(Matching(all, cursor));
    PageIsWindow(sorted, 0, PageSize(limit));
    assert sorted[0] in sorted;
  }

  /**
   * A cursor whose id cannot be read gives the page of the readable one exactly when no older message of
   * the same instant is stored; otherwise it skips those messages.
   */
  lemma UnreadableIdSkipsTiesIff(all: seq<Stamp>, value: int, id: nat, limit: Option<int>, offset: Option<int>)
    requires Distinct(all)
    ensures List(all, At(value, None), limit, offset) == List(all, At(value, Some(id)), limit, offset)
       <==> !TiesBelow(all, value, id)
  {
    if TiesBelow(all, value, id) {
      var m :| m in all && m.createdAt == value && m.id < id;
      PageStartsNewest(all, At(value, Some(id)), limit, offset, m);
      if List(all, At(value, None), limit, offset).value.items != [] {
        PageHeadPasses(all, At(value, None), limit, offset);
      }
    } else {
      SameMatches(all, value, id);
    }
  }

  /** Two messages of one instant: the readable cursor still delivers the older one. */
  lemma UnreadableIdWitness()
    ensures List([Stamp(5, 1), Stamp(5, 2)], At(5, Some(2)), None, None) == Ok(Page([Stamp(5, 1)], None))
    ensures List([Stamp(5, 1), Stamp(5, 2)], At(5, None), None, None) == Ok(Page([], None))
  {
    var all := [Stamp(5, 1), Stamp(5, 2)];
    assert all[1..] == [Stamp(5, 2)] && all[1..][1..] == [];
    assert Matching(all[1..], At(5, Some(2))) == [];
  }
}
