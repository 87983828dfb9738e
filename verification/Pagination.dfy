/** Pages over a list in descending key order, and the walk along their cursors. */
module Pagination {
  import opened Wrappers
  import opened ByteStrings
  import opened Cursors

  const DEFAULT_PAGE_SIZE: nat := 20
  const MAX_PAGE_SIZE: nat := 100

  /** `(created_at, id)`, compared lexicographically. */
  datatype Key = Key(createdAt: u64, id: u64)

  predicate Before(a: Key, b: Key) {
    a.createdAt < b.createdAt || (a.createdAt == b.createdAt && a.id < b.id)
  }

  datatype Page<T> = Page(items: seq<T>, nextCursor: Option<Cursor>, hasMore: bool, totalCount: nat)

  function NormalizePageSize(requested: nat): (size: nat)
    ensures 1 <= size <= MAX_PAGE_SIZE
  {
    if requested < 1 then DEFAULT_PAGE_SIZE
    else if requested > MAX_PAGE_SIZE then MAX_PAGE_SIZE
    else requested
  }

  function Position(c: Cursor): Key {
    Key(c.timestamp, c.id)
  }

  /** Index of the first item strictly below k, or the length of the list. */
  function Start<T>(items: seq<T>, k: Key, key: T -> Key): (i: nat)
    ensures i <= |items|
    ensures i < |items| ==> Before(key(items[i]), k)
  {
    if items == [] || Before(key(items[0]), k) then 0 else 1 + Start(items[1..], k, key)
  }

  /** The page of at most `size` items from `start` on. */
  function Slice<T>(items: seq<T>, subject: bytes, start: nat, size: nat, key: T -> Key): Page<T>
    requires start <= |items|
  {
    var end := Min(start + size, |items|);
    var pageItems := items[start..end];
    var hasMore := end < |items|;
    var next := if hasMore && pageItems != [] then
        var k := key(pageItems[|pageItems| - 1]);
        Some(Cursor(subject, k.createdAt, k.id))
      else None;
    Page(pageItems, next, hasMore, |items|)
  }

  function ComputePage<T>(items: seq<T>, subject: bytes, cursor: Option<Cursor>, requested: nat, key: T -> Key):
      Result<Page<T>, PaginationError>
  {
    var size := NormalizePageSize(requested);
    if cursor.Some? && cursor.value.subject != subject then
      Err(CursorScopeMismatch(subject, cursor.value.subject))
    else
      var start := if cursor.Some? then Start(items, Position(cursor.value), key) else 0;
      Ok(Slice(items, subject, start, size, key))
  }

  lemma {:induction false} StartIsFirst<T>(items: seq<T>, k: Key, key: T -> Key, j: nat)
    requires j < Start(items, k, key)
    ensures !Before(key(items[j]), k)
  {
    if j > 0 {
      StartIsFirst(items[1..], k, key, j - 1);
    }
  }

  predicate InOrder<T>(items: seq<T>, i: nat, j: nat, key: T -> Key)
    requires i < |items| && j < |items|
  {
    !Before(key(items[i]), key(items[j]))
  }

  predicate InStrictOrder<T>(items: seq<T>, i: nat, j: nat, key: T -> Key)
    requires i < |items| && j < |items|
  {
    Before(key(items[j]), key(items[i]))
  }

  /** Sorted in descending order; items with equal keys are allowed. */
  predicate Descending<T>(items: seq<T>, key: T -> Key) {
    forall i: nat, j: nat :: i < j < |items| ==> InOrder(items, i, j, key)
  }

  predicate StrictlyDescending<T>(items: seq<T>, key: T -> Key) {
    forall i: nat, j: nat :: i < j < |items| ==> InStrictOrder(items, i, j, key)
  }

  lemma DescendingTail<T>(items: seq<T>, key: T -> Key)
    requires Descending(items, key) && items != []
    ensures Descending(items[1..], key)
  {
    forall i: nat, j: nat | i < j < |items| - 1 ensures InOrder(items[1..], i, j, key) {
      assert InOrder(items, i + 1, j + 1, key);
    }
  }

  // ---------------------------------------------------------------------------
  // A page depends only on what lies below its cursor
  // ---------------------------------------------------------------------------

  /** The items strictly below k, in order. */
  function Below<T>(items: seq<T>, k: Key, key: T -> Key): seq<T> {
    if items == [] then []
    else (if Before(key(items[0]), k) then [items[0]] else []) + Below(items[1..], k, key)
  }

  lemma {:induction false} BelowAll<T>(items: seq<T>, k: Key, key: T -> Key)
    requires forall i :: 0 <= i < |items| ==> Before(key(items[i]), k)
    ensures Below(items, k, key) == items
  {
    if items != [] {
      BelowAll(items[1..], k, key);
    }
  }

  /** In a sorted list, the items below a key are those from its start position on. */
  lemma {:induction false} BelowIsSuffix<T>(items: seq<T>, k: Key, key: T -> Key)
    requires Descending(items, key)
    ensures Below(items, k, key) == items[Start(items, k, key)..]
  {
    if items != [] {
      if Before(key(items[0]), k) {
        forall i | 0 <= i < |items| ensures Before(key(items[i]), k) {
          assert i > 0 ==> InOrder(items, 0, i, key);
        }
        BelowAll(items, k, key);
      } else {
        DescendingTail(items, key);
        BelowIsSuffix(items[1..], k, key);
      }
    }
  }

  lemma SliceOfSuffix<T>(items: seq<T>, subject: bytes, start: nat, size: nat, key: T -> Key)
    requires start <= |items|
    ensures Slice(items, subject, start, size, key).(totalCount := 0)
      == Slice(items[start..], subject, 0, size, key).(totalCount := 0)
  {
    var rest := items[start..];
    assert rest[0..Min(size, |rest|)] == items[start..Min(start + size, |items|)];
  }

  /** Apart from the total, a page computed with a cursor is the first page of what lies below it. */
  lemma PageOfBelow<T>(items: seq<T>, subject: bytes, c: Cursor, requested: nat, key: T -> Key)
    requires Descending(items, key) && c.subject == subject
    ensures var page := ComputePage(items, subject, Some(c), requested, key);
      var first := ComputePage(Below(items, Position(c), key), subject, None, requested, key);
      page.Ok? && first.Ok? && page.value.(totalCount := 0) == first.value.(totalCount := 0)
  {
    BelowIsSuffix(items, Position(c), key);
    SliceOfSuffix(items, subject, Start(items, Position(c), key), NormalizePageSize(requested), key);
  }

  /** So changes to the list at or above the cursor do not change the page. */
  lemma PageIgnoresAbove<T>(before: seq<T>, after: seq<T>, subject: bytes, c: Cursor, requested: nat, key: T -> Key)
    requires Descending(before, key) && Descending(after, key) && c.subject == subject
    requires Below(before, Position(c), key) == Below(after, Position(c), key)
    ensures var was := ComputePage(before, subject, Some(c), requested, key);
      var now := ComputePage(after, subject, Some(c), requested, key);
      was.Ok? && now.Ok? && was.value.(totalCount := 0) == now.value.(totalCount := 0)
  {
    PageOfBelow(before, subject, c, requested, key);
    PageOfBelow(after, subject, c, requested, key);
  }

  // ---------------------------------------------------------------------------
  // The walk
  // ---------------------------------------------------------------------------

  lemma CursorLeadsOn<T>(items: seq<T>, start: nat, size: nat, key: T -> Key)
    requires Descending(items, key) && size > 0 && start + size < |items|
    ensures var next := Start(items, key(items[start + size - 1]), key);
      && next >= start + size
      && (next == start + size <==> key(items[start + size - 1]) != key(items[start + size]))
  {
    var end := start + size;
    var k := key(items[end - 1]);
    var next := Start(items, k, key);
    assert next < end - 1 ==> InOrder(items, next, end - 1, key);
    assert InOrder(items, end - 1, end, key);
    if end < next {
      StartIsFirst(items, k, key, end);
    }
  }

  /** Where the next page starts. */
  function From<T>(items: seq<T>, cursor: Option<Cursor>, key: T -> Key): (i: nat)
    ensures i <= |items|
  {
    if cursor.Some? then Start(items, Position(cursor.value), key) else 0
  }

  predicate Scoped(cursor: Option<Cursor>, subject: bytes) {
    cursor.Some? ==> cursor.value.subject == subject
  }

  /** The page an accepted call returns. */
  lemma PageFrom<T>(items: seq<T>, subject: bytes, cursor: Option<Cursor>, requested: nat, key: T -> Key)
    requires Scoped(cursor, subject)
    ensures var start, size := From(items, cursor, key), NormalizePageSize(requested);
      var page := ComputePage(items, subject, cursor, requested, key);
      && page.Ok?
      && (start + size >= |items| ==> page.value == Page(items[start..], None, false, |items|))
      && (start + size < |items| ==>
            && page.value.hasMore && page.value.totalCount == |items|
            && page.value.items == items[start..start + size]
            && page.value.nextCursor.Some?
            && page.value.nextCursor.value.subject == subject
            && Position(page.value.nextCursor.value) == key(items[start + size - 1]))
  {}

  /** The page sizes: twenty by default, never more than a hundred. */
  lemma PageSizes(requested: nat)
    ensures NormalizePageSize(requested) == (if requested == 0 then 20 else if requested > 100 then 100 else requested)
  {}

  /** A cursor of another subject is refused, with both subjects named, and no other call is. */
  lemma OtherScopeRefused<T>(items: seq<T>, subject: bytes, c: Cursor, requested: nat, key: T -> Key)
    ensures ComputePage(items, subject, Some(c), requested, key).Err? <==> c.subject != subject
    ensures c.subject != subject ==>
      ComputePage(items, subject, Some(c), requested, key) == Err(CursorScopeMismatch(subject, c.subject))
    ensures ComputePage(items, subject, None, requested, key).Ok?
  {}

  /** Keys are ordered by time, then by id. */
  lemma KeyOrder(a: Key, b: Key)
    ensures Before(a, b) || Before(b, a) || a == b
    ensures !(Before(a, b) && Before(b, a)) && !Before(a, a)
    ensures a.createdAt < b.createdAt ==> Before(a, b)
    ensures a.createdAt == b.createdAt && a.id < b.id ==> Before(a, b)
  {}

  /** The pages obtained by following `nextCursor`, starting with the cursor given. */
  function Walk<T>(items: seq<T>, subject: bytes, cursor: Option<Cursor>, requested: nat, key: T -> Key): seq<Page<T>>
    requires Descending(items, key) && Scoped(cursor, subject)
    decreases |items| - From(items, cursor, key)
  {
    PageFrom(items, subject, cursor, requested, key);
    var page := ComputePage(items, subject, cursor, requested, key).value;
    if page.nextCursor.None? then [page]
    else
      CursorLeadsOn(items, From(items, cursor, key), NormalizePageSize(requested), key);
      [page] + Walk(items, subject, page.nextCursor, requested, key)
  }

  function Delivered<T>(pages: seq<Page<T>>): seq<T> {
    if pages == [] then [] else pages[0].items + Delivered(pages[1..])
  }

  /** No page boundary after `start` separates two items with equal keys. */
  predicate NoTieSplit<T>(items: seq<T>, start: nat, size: nat, key: T -> Key)
    requires size > 0
    decreases |items| - start
  {
    start + size < |items| ==>
      key(items[start + size - 1]) != key(items[start + size]) && NoTieSplit(items, start + size, size, key)
  }

  /** The first page of a walk that starts at `start`, and where the walk goes on. */
  lemma WalkStep<T>(items: seq<T>, subject: bytes, cursor: Option<Cursor>, requested: nat, key: T -> Key, start: nat, size: nat)
      returns (next: Option<Cursor>, nextStart: nat)
    requires Descending(items, key) && Scoped(cursor, subject)
    requires start == From(items, cursor, key) && size == NormalizePageSize(requested)
    ensures Scoped(next, subject) && nextStart == From(items, next, key)
    ensures next.None? <==> start + size >= |items|
    ensures next.None? ==>
      |Walk(items, subject, cursor, requested, key)| == 1
      && Delivered(Walk(items, subject, cursor, requested, key)) == items[start..]
    ensures next.Some? ==>
      && start + size <= nextStart <= |items|
      && (nextStart == start + size <==> key(items[start + size - 1]) != key(items[start + size]))
      && |Walk(items, subject, cursor, requested, key)| == 1 + |Walk(items, subject, next, requested, key)|
      && Delivered(Walk(items, subject, cursor, requested, key))
        == items[start..start + size] + Delivered(Walk(items, subject, next, requested, key))
  {
    var page := ComputePage(items, subject, cursor, requested, key).value;
    var pages := Walk(items, subject, cursor, requested, key);
    PageFrom(items, subject, cursor, requested, key);
    next := page.nextCursor;
    nextStart := From(items, next, key);
    if next.None? {
      assert pages[1..] == [];
      assert items[start..] + [] == items[start..];
    } else {
      CursorLeadsOn(items, start, size, key);
      assert pages[1..] == Walk(items, subject, next, requested, key);
    }
  }

  /** A walk delivers at most what lies from its start on; less when a tie is split. */
  lemma {:induction false} WalkDeliversAtMost<T>(items: seq<T>, subject: bytes, cursor: Option<Cursor>, requested: nat,
      key: T -> Key, start: nat, size: nat)
    requires Descending(items, key) && Scoped(cursor, subject)
    requires start == From(items, cursor, key) && size == NormalizePageSize(requested)
    ensures var got := |Delivered(Walk(items, subject, cursor, requested, key))|;
      got <= |items| - start && (!NoTieSplit(items, start, size, key) ==> got < |items| - start)
    decreases |items| - start
  {
    var next, nextStart := WalkStep(items, subject, cursor, requested, key, start, size);
    if next.Some? {
      WalkDeliversAtMost(items, subject, next, requested, key, nextStart, size);
    }
  }

  lemma SplitSuffix<T>(items: seq<T>, start: nat, middle: nat)
    requires start <= middle <= |items|
    ensures items[start..] == items[start..middle] + items[middle..]
  {}

  lemma {:induction false} WalkDeliversRest<T>(items: seq<T>, subject: bytes, cursor: Option<Cursor>, requested: nat,
      key: T -> Key, start: nat, size: nat)
    requires Descending(items, key) && Scoped(cursor, subject)
    requires start == From(items, cursor, key) && size == NormalizePageSize(requested)
    requires NoTieSplit(items, start, size, key)
    ensures Delivered(Walk(items, subject, cursor, requested, key)) == items[start..]
    decreases |items| - start
  {
    var next, nextStart := WalkStep(items, subject, cursor, requested, key, start, size);
    if next.Some? {
      assert nextStart == start + size;
      WalkDeliversRest(items, subject, next, requested, key, nextStart, size);
      SplitSuffix(items, start, nextStart);
    }
  }

  /** The end of the k-th page. */
  function Boundary(start: nat, k: nat, size: nat): nat {
    start + k * size
  }

  predicate DistinctAt<T>(items: seq<T>, p: nat, key: T -> Key) {
    0 < p < |items| ==> key(items[p - 1]) != key(items[p])
  }

  ghost predicate DistinctAtBoundaries<T>(items: seq<T>, start: nat, size: nat, key: T -> Key) {
    forall k: nat :: k > 0 ==> DistinctAt(items, Boundary(start, k, size), key)
  }

  lemma {:induction false} NoTieSplitMeans<T>(items: seq<T>, start: nat, size: nat, key: T -> Key)
    requires size > 0
    ensures NoTieSplit(items, start, size, key) <==> DistinctAtBoundaries(items, start, size, key)
    decreases |items| - start
  {
    var end := start + size;
    assert Boundary(start, 1, size) == end;
    if end < |items| {
      NoTieSplitMeans(items, end, size, key);
      if NoTieSplit(items, start, size, key) {
        forall k: nat | k > 0 ensures DistinctAt(items, Boundary(start, k, size), key) {
          assert k > 1 ==> Boundary(start, k, size) == Boundary(end, k - 1, size);
        }
      } else if DistinctAtBoundaries(items, start, size, key) {
        assert DistinctAt(items, Boundary(start, 1, size), key);
        forall k: nat | k > 0 ensures DistinctAt(items, Boundary(end, k, size), key) {
          assert Boundary(end, k, size) == Boundary(start, k + 1, size);
        }
      }
    } else {
      forall k: nat | k > 0 ensures DistinctAt(items, Boundary(start, k, size), key) {
        MultipleBound(k, size);
      }
    }
  }

  /** Following the cursors delivers the whole list exactly when no page ends between two equal keys. */
  lemma WalkCompleteIff<T>(items: seq<T>, subject: bytes, requested: nat, key: T -> Key)
    requires Descending(items, key)
    ensures Delivered(Walk(items, subject, None, requested, key)) == items
      <==> DistinctAtBoundaries(items, 0, NormalizePageSize(requested), key)
  {
    var size := NormalizePageSize(requested);
    NoTieSplitMeans(items, 0, size, key);
    WalkDeliversAtMost(items, subject, None, requested, key, 0, size);
    if NoTieSplit(items, 0, size, key) {
      WalkDeliversRest(items, subject, None, requested, key, 0, size);
    }
    assert items[0..] == items;
  }

  /** Pages needed for n items. */
  function PagesFor(n: nat, size: nat): nat
    requires size > 0
  {
    if n <= size then 1 else 1 + PagesFor(n - size, size)
  }

  lemma {:induction false} PagesForIsCeiling(n: nat, size: nat)
    requires size > 0
    ensures PagesFor(n, size) == if n == 0 then 1 else (n + size - 1) / size
  {
    if n > size {
      PagesForIsCeiling(n - size, size);
      DivShift(n - 1, size);
    } else if n > 0 {
      DivOne(n + size - 1, size);
    }
  }

  lemma DivOne(x: nat, m: nat)
    requires 0 < m <= x < 2 * m
    ensures x / m == 1
  {}

  lemma DivShift(x: nat, m: nat)
    requires m > 0
    ensures (x + m) / m == x / m + 1
  {
    var q, q' := x / m, (x + m) / m;
    var r, r' := x % m, (x + m) % m;
    assert x == q * m + r && x + m == q' * m + r';
    assert (q' - q - 1) * m == q' * m - q * m - m;
    MultipleBound(q' - q - 1, m);
  }

  lemma PagesStep(n: nat, size: nat)
    requires size > 0
    ensures n <= size ==> PagesFor(n, size) == 1
    ensures n > size ==> PagesFor(n, size) == 1 + PagesFor(n - size, size)
  {}

  /** A page that ends before the list does is followed by the page right after it. */
  lemma FullPage<T>(items: seq<T>, subject: bytes, cursor: Option<Cursor>, requested: nat, key: T -> Key, start: nat, size: nat)
      returns (next: Option<Cursor>)
    requires Descending(items, key) && Scoped(cursor, subject)
    requires start == From(items, cursor, key) && size == NormalizePageSize(requested)
    requires NoTieSplit(items, start, size, key) && start + size < |items|
    ensures Scoped(next, subject) && start + size == From(items, next, key)
    ensures NoTieSplit(items, start + size, size, key)
    ensures |Walk(items, subject, cursor, requested, key)| == 1 + |Walk(items, subject, next, requested, key)|
  {
    var nextStart;
    next, nextStart := WalkStep(items, subject, cursor, requested, key, start, size);
  }

  /** A page that reaches the end of the list is the last of its walk. */
  lemma LastPage<T>(items: seq<T>, subject: bytes, cursor: Option<Cursor>, requested: nat, key: T -> Key, start: nat, size: nat)
    requires Descending(items, key) && Scoped(cursor, subject)
    requires start == From(items, cursor, key) && size == NormalizePageSize(requested) && start + size >= |items|
    ensures |Walk(items, subject, cursor, requested, key)| == 1
  {
    var _, _ := WalkStep(items, subject, cursor, requested, key, start, size);
  }

  lemma {:induction false} WalkLength<T>(items: seq<T>, subject: bytes, cursor: Option<Cursor>, requested: nat, key: T -> Key,
      start: nat, size: nat, count: nat)
    requires Descending(items, key) && Scoped(cursor, subject)
    requires start == From(items, cursor, key) && size == NormalizePageSize(requested)
    requires NoTieSplit(items, start, size, key) && count == PagesFor(|items| - start, size)
    ensures |Walk(items, subject, cursor, requested, key)| == count
    decreases |items| - start
  {
    PagesStep(|items| - start, size);
    if start + size < |items| {
      var next := FullPage(items, subject, cursor, requested, key, start, size);
      WalkLength(items, subject, next, requested, key, start + size, size, count - 1);
    } else {
      LastPage(items, subject, cursor, requested, key, start, size);
    }
  }

  lemma StrictIsDescending<T>(items: seq<T>, key: T -> Key)
    requires StrictlyDescending(items, key)
    ensures Descending(items, key)
  {
    forall i: nat, j: nat | i < j < |items| ensures InOrder(items, i, j, key) {
      assert InStrictOrder(items, i, j, key);
    }
  }

  lemma {:induction false} StrictNoTieSplit<T>(items: seq<T>, start: nat, size: nat, key: T -> Key)
    requires StrictlyDescending(items, key) && size > 0
    ensures NoTieSplit(items, start, size, key)
    decreases |items| - start
  {
    if start + size < |items| {
      assert InStrictOrder(items, start + size - 1, start + size, key);
      StrictNoTieSplit(items, start + size, size, key);
    }
  }

  /** With strictly descending keys every item arrives once and in order, in the least number of pages. */
  lemma WalkVisitsAll<T>(items: seq<T>, subject: bytes, requested: nat, key: T -> Key)
    requires StrictlyDescending(items, key)
    ensures Descending(items, key)
    ensures var pages, size := Walk(items, subject, None, requested, key), NormalizePageSize(requested);
      && Delivered(pages) == items
      && |pages| == if |items| == 0 then 1 else (|items| + size - 1) / size
  {
    StrictIsDescending(items, key);
    var size := NormalizePageSize(requested);
    StrictNoTieSplit(items, 0, size, key);
    WalkDeliversRest(items, subject, None, requested, key, 0, size);
    assert items[0..] == items;
    PagesForIsCeiling(|items|, size);
    WalkLength(items, subject, None, requested, key, 0, size, PagesFor(|items|, size));
  }

  // ---------------------------------------------------------------------------
  // The walk while the list changes
  // ---------------------------------------------------------------------------

  /** Fetch i sees `lists[i]`; the walk ends with the last cursor or the last list. */
  function ChangingWalk<T>(lists: seq<seq<T>>, subject: bytes, cursor: Option<Cursor>, requested: nat, key: T -> Key):
      seq<Page<T>>
    requires Scoped(cursor, subject)
    decreases |lists|
  {
    if lists == [] then []
    else
      var page := ComputePage(lists[0], subject, cursor, requested, key).value;
      if page.nextCursor.None? then [page]
      else [page] + ChangingWalk(lists[1..], subject, page.nextCursor, requested, key)
  }

  /** Each list agrees with the one before it below the cursor it is read with. */
  predicate Undisturbed<T(==)>(lists: seq<seq<T>>, subject: bytes, cursor: Option<Cursor>, requested: nat, key: T -> Key)
    requires Scoped(cursor, subject)
    decreases |lists|
  {
    |lists| >= 2 ==>
      var page := ComputePage(lists[0], subject, cursor, requested, key).value;
      page.nextCursor.Some? ==>
        && Below(lists[1], Position(page.nextCursor.value), key) == Below(lists[0], Position(page.nextCursor.value), key)
        && Undisturbed(lists[1..], subject, page.nextCursor, requested, key)
  }

  /** `xs` is a prefix of `ys`, totals aside. */
  predicate SamePages<T(==)>(xs: seq<Page<T>>, ys: seq<Page<T>>) {
    |xs| <= |ys| && forall i :: 0 <= i < |xs| ==> xs[i].(totalCount := 0) == ys[i].(totalCount := 0)
  }

  lemma SamePagesCons<T>(p: Page<T>, q: Page<T>, xs: seq<Page<T>>, ys: seq<Page<T>>)
    requires p.(totalCount := 0) == q.(totalCount := 0) && SamePages(xs, ys)
    ensures SamePages([p] + xs, [q] + ys)
  {}

  /** The walk over a list depends only on what lies below its first cursor. */
  lemma {:induction false} WalkIgnoresAbove<T>(was: seq<T>, now: seq<T>, subject: bytes, c: Cursor, requested: nat, key: T -> Key)
    requires Descending(was, key) && Descending(now, key) && c.subject == subject
    requires Below(was, Position(c), key) == Below(now, Position(c), key)
    ensures |Walk(was, subject, Some(c), requested, key)| == |Walk(now, subject, Some(c), requested, key)|
    ensures SamePages(Walk(now, subject, Some(c), requested, key), Walk(was, subject, Some(c), requested, key))
    decreases |was| - Start(was, Position(c), key)
  {
    PageIgnoresAbove(was, now, subject, c, requested, key);
    var page := ComputePage(was, subject, Some(c), requested, key).value;
    if page.nextCursor.Some? {
      var d := page.nextCursor.value;
      CursorLeadsOn(was, Start(was, Position(c), key), NormalizePageSize(requested), key);
      NextCursorBelow(was, subject, c, requested, key);
      BelowBelow(was, Position(c), Position(d), key);
      BelowBelow(now, Position(c), Position(d), key);
      WalkIgnoresAbove(was, now, subject, d, requested, key);
      var p, q := ComputePage(now, subject, Some(c), requested, key).value, page;
      SamePagesCons(p, q, Walk(now, subject, Some(d), requested, key), Walk(was, subject, Some(d), requested, key));
    }
  }

  lemma NextCursorBelow<T>(items: seq<T>, subject: bytes, c: Cursor, requested: nat, key: T -> Key)
    requires Descending(items, key) && c.subject == subject
    requires ComputePage(items, subject, Some(c), requested, key).value.nextCursor.Some?
    ensures Before(Position(ComputePage(items, subject, Some(c), requested, key).value.nextCursor.value), Position(c))
  {
    PageFrom(items, subject, Some(c), requested, key);
    var start := Start(items, Position(c), key);
    var last := start + NormalizePageSize(requested) - 1;
    assert start < last ==> InOrder(items, start, last, key);
  }

  lemma {:induction false} BelowBelow<T>(items: seq<T>, k: Key, lower: Key, key: T -> Key)
    requires Before(lower, k)
    ensures Below(Below(items, k, key), lower, key) == Below(items, lower, key)
  {
    if items != [] {
      BelowBelow(items[1..], k, lower, key);
      if Before(key(items[0]), k) {
        assert Below(items, k, key) == [items[0]] + Below(items[1..], k, key);
        assert Below(items, k, key)[1..] == Below(items[1..], k, key);
      } else {
        assert Below(items, k, key) == Below(items[1..], k, key);
      }
    }
  }

  /**
   * Insertions above the cursor and removals at or above it, between any two
   * fetches, leave every later page as the first list would have given it.
   */
  lemma {:induction false} ChangesAboveDoNotMatter<T>(lists: seq<seq<T>>, subject: bytes, cursor: Option<Cursor>,
      requested: nat, key: T -> Key)
    requires |lists| > 0 && forall i :: 0 <= i < |lists| ==> Descending(lists[i], key)
    requires Scoped(cursor, subject)
    requires Undisturbed(lists, subject, cursor, requested, key)
    ensures SamePages(ChangingWalk(lists, subject, cursor, requested, key), Walk(lists[0], subject, cursor, requested, key))
    ensures |lists| >= |Walk(lists[0], subject, cursor, requested, key)| ==>
      |ChangingWalk(lists, subject, cursor, requested, key)| == |Walk(lists[0], subject, cursor, requested, key)|
    decreases |lists|
  {
    var page := ComputePage(lists[0], subject, cursor, requested, key).value;
    if page.nextCursor.Some? {
      var c := page.nextCursor;
      var rest := lists[1..];
      if rest != [] {
        WalkIgnoresAbove(lists[0], lists[1], subject, c.value, requested, key);
        ChangesAboveDoNotMatter(rest, subject, c, requested, key);
        SamePagesTrans(ChangingWalk(rest, subject, c, requested, key), Walk(lists[1], subject, c, requested, key),
                       Walk(lists[0], subject, c, requested, key));
      }
    }
  }

  lemma SamePagesTrans<T>(a: seq<Page<T>>, b: seq<Page<T>>, c: seq<Page<T>>)
    requires SamePages(a, b) && SamePages(b, c)
    ensures SamePages(a, c)
  {}

  // ---------------------------------------------------------------------------
  // Insertions and removals between fetches
  // ---------------------------------------------------------------------------

  datatype Edit<T> = Insert(at: nat, item: T) | Remove(at: nat)

  function ApplyEdit<T>(items: seq<T>, e: Edit<T>): seq<T> {
    match e
    case Insert(at, item) => if at <= |items| then items[..at] + [item] + items[at..] else items
    case Remove(at) => if at < |items| then items[..at] + items[at + 1..] else items
  }

  function ApplyEdits<T>(items: seq<T>, edits: seq<Edit<T>>): seq<T>
    decreases |edits|
  {
    if edits == [] then items else ApplyEdits(ApplyEdit(items, edits[0]), edits[1..])
  }

  /** The item inserted or removed is not below k. */
  predicate AtOrAbove<T>(items: seq<T>, e: Edit<T>, k: Key, key: T -> Key) {
    match e
    case Insert(at, item) => !Before(key(item), k)
    case Remove(at) => at < |items| ==> !Before(key(items[at]), k)
  }

  predicate AllAtOrAbove<T>(items: seq<T>, edits: seq<Edit<T>>, k: Key, key: T -> Key)
    decreases |edits|
  {
    edits != [] ==> AtOrAbove(items, edits[0], k, key) && AllAtOrAbove(ApplyEdit(items, edits[0]), edits[1..], k, key)
  }

  lemma {:induction false} BelowConcat<T>(a: seq<T>, b: seq<T>, k: Key, key: T -> Key)
    ensures Below(a + b, k, key) == Below(a, k, key) + Below(b, k, key)
  {
    if a == [] {
      assert a + b == b;
    } else {
      assert (a + b)[0] == a[0] && (a + b)[1..] == a[1..] + b;
      BelowConcat(a[1..], b, k, key);
    }
  }

  lemma BelowWithout<T>(a: seq<T>, x: T, b: seq<T>, k: Key, key: T -> Key)
    requires !Before(key(x), k)
    ensures Below(a + [x] + b, k, key) == Below(a + b, k, key)
  {
    BelowConcat(a + [x], b, k, key);
    BelowConcat(a, [x], k, key);
    BelowConcat(a, b, k, key);
    assert Below([x], k, key) == [];
  }

  /** Inserting or removing an item at or above a key changes nothing below it. */
  lemma EditKeepsBelow<T>(items: seq<T>, e: Edit<T>, k: Key, key: T -> Key)
    requires AtOrAbove(items, e, k, key)
    ensures Below(ApplyEdit(items, e), k, key) == Below(items, k, key)
  {
    match e
    case Insert(at, item) =>
      if at <= |items| {
        BelowWithout(items[..at], item, items[at..], k, key);
        assert items[..at] + items[at..] == items;
      }
    case Remove(at) =>
      if at < |items| {
        BelowWithout(items[..at], items[at], items[at + 1..], k, key);
        assert items[..at] + [items[at]] + items[at + 1..] == items;
      }
  }

  lemma {:induction false} EditsKeepBelow<T>(items: seq<T>, edits: seq<Edit<T>>, k: Key, key: T -> Key)
    requires AllAtOrAbove(items, edits, k, key)
    ensures Below(ApplyEdits(items, edits), k, key) == Below(items, k, key)
    decreases |edits|
  {
    if edits != [] {
      EditKeepsBelow(items, edits[0], k, key);
      EditsKeepBelow(ApplyEdit(items, edits[0]), edits[1..], k, key);
    }
  }

  /** The lists seen by the fetches: `rounds[i]` happens between fetch i and the next. */
  function Edited<T>(first: seq<T>, rounds: seq<seq<Edit<T>>>): (lists: seq<seq<T>>)
    ensures |lists| == |rounds| + 1 && lists[0] == first
    decreases |rounds|
  {
    if rounds == [] then [first] else [first] + Edited(ApplyEdits(first, rounds[0]), rounds[1..])
  }

  /** Every edit is at or above the cursor that the fetch before it returned. */
  predicate RoundsAtOrAbove<T>(first: seq<T>, rounds: seq<seq<Edit<T>>>, subject: bytes, cursor: Option<Cursor>, requested: nat,
      key: T -> Key)
    requires Scoped(cursor, subject)
    decreases |rounds|
  {
    rounds != [] ==>
      var next := ComputePage(first, subject, cursor, requested, key).value.nextCursor;
      next.Some? ==>
        && AllAtOrAbove(first, rounds[0], Position(next.value), key)
        && RoundsAtOrAbove(ApplyEdits(first, rounds[0]), rounds[1..], subject, next, requested, key)
  }

  lemma {:induction false} RoundsUndisturbed<T>(first: seq<T>, rounds: seq<seq<Edit<T>>>, subject: bytes, cursor: Option<Cursor>,
      requested: nat, key: T -> Key)
    requires Scoped(cursor, subject) && RoundsAtOrAbove(first, rounds, subject, cursor, requested, key)
    ensures Undisturbed(Edited(first, rounds), subject, cursor, requested, key)
    decreases |rounds|
  {
    if rounds != [] {
      var next := ComputePage(first, subject, cursor, requested, key).value.nextCursor;
      var second := ApplyEdits(first, rounds[0]);
      assert Edited(first, rounds)[1..] == Edited(second, rounds[1..]);
      if next.Some? {
        EditsKeepBelow(first, rounds[0], Position(next.value), key);
        RoundsUndisturbed(second, rounds[1..], subject, next, requested, key);
      }
    }
  }

  lemma {:induction false} SamePagesDeliver<T>(xs: seq<Page<T>>, ys: seq<Page<T>>)
    requires SamePages(xs, ys) && |xs| == |ys|
    ensures Delivered(xs) == Delivered(ys)
  {
    if xs != [] {
      assert xs[0].(totalCount := 0) == ys[0].(totalCount := 0);
      SamePagesDeliver(xs[1..], ys[1..]);
    }
  }

  predicate AllSorted<T>(lists: seq<seq<T>>, key: T -> Key) {
    forall i :: 0 <= i < |lists| ==> Descending(lists[i], key)
  }

  /** With enough fetches, edits at or above each cursor leave what is delivered as it was. */
  lemma EditsDoNotMatter<T>(lists: seq<seq<T>>, rounds: seq<seq<Edit<T>>>, subject: bytes, requested: nat, key: T -> Key)
    requires lists != [] && lists == Edited(lists[0], rounds) && AllSorted(lists, key)
    requires RoundsAtOrAbove(lists[0], rounds, subject, None, requested, key)
    requires |Walk(lists[0], subject, None, requested, key)| <= |lists|
    ensures Delivered(ChangingWalk(lists, subject, None, requested, key))
      == Delivered(Walk(lists[0], subject, None, requested, key))
  {
    RoundsUndisturbed(lists[0], rounds, subject, None, requested, key);
    ChangesAboveDoNotMatter(lists, subject, None, requested, key);
    SamePagesDeliver(ChangingWalk(lists, subject, None, requested, key), Walk(lists[0], subject, None, requested, key));
  }

  /**
   * A walk during which items at or above the current cursor are inserted and
   * removed, the list staying sorted, delivers every item that the first list
   * held, once and in order, and nothing else.
   */
  lemma EditedWalkVisitsAll<T>(lists: seq<seq<T>>, rounds: seq<seq<Edit<T>>>, subject: bytes, requested: nat, key: T -> Key)
    requires lists != [] && lists == Edited(lists[0], rounds) && AllSorted(lists, key)
    requires StrictlyDescending(lists[0], key)
    requires RoundsAtOrAbove(lists[0], rounds, subject, None, requested, key)
    requires |Walk(lists[0], subject, None, requested, key)| <= |lists|
    ensures Delivered(ChangingWalk(lists, subject, None, requested, key)) == lists[0]
  {
    WalkVisitsAll(lists[0], subject, requested, key);
    EditsDoNotMatter(lists, rounds, subject, requested, key);
  }
}
