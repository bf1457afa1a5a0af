/**
 Search over the in-memory store and the cursor walk over its pages.

 A store is a map from its key to a record; records are sorted by `name`.  The
 cursor is represented by the offset it encodes.
 */
module Paging {
  import opened Common

  /* ------------------------------------------------------------------ */
  /* String order, and lists sorted by name                              */
  /* ------------------------------------------------------------------ */

  predicate Less(a: string, b: string) {
    if b == [] then false
    else if a == [] then true
    else a[0] < b[0] || (a[0] == b[0] && Less(a[1..], b[1..]))
  }

  lemma {:induction false} LessAsym(a: string, b: string)
    requires Less(a, b)
    ensures a != b && !Less(b, a)
  {
    if a != [] && a[0] == b[0] {
      LessAsym(a[1..], b[1..]);
    }
  }

  lemma {:induction false} LessTotal(a: string, b: string)
    requires a != b
    ensures Less(a, b) || Less(b, a)
  {
    if a != [] && b != [] && a[0] == b[0] {
      assert a == [a[0]] + a[1..] && b == [b[0]] + b[1..];
      LessTotal(a[1..], b[1..]);
    }
  }

  lemma {:induction false} LessTrans(a: string, b: string, c: string)
    requires Less(a, b) && Less(b, c)
    ensures Less(a, c)
  {
    if a != [] && a[0] == b[0] && b[0] == c[0] {
      LessTrans(a[1..], b[1..], c[1..]);
    }
  }

  /** It is the order of dictionaries: at the first difference the smaller
      character comes first, and a text comes before its continuations. */
  lemma {:induction false} LessIsLexicographic(a: string, b: string)
    ensures Less(a, b) <==>
              exists k :: 0 <= k < |b| && k <= |a| && a[..k] == b[..k] && (k == |a| || a[k] < b[k])
  {
    if a == [] && b != [] {
      assert a[..0] == b[..0];
    } else if a != [] && b != [] {
      LessIsLexicographic(a[1..], b[1..]);
      if a[0] < b[0] {
        assert a[..0] == b[..0];
      } else if Less(a, b) {
        var x, y := a[1..], b[1..];
        var k :| 0 <= k < |y| && k <= |x| && x[..k] == y[..k] && (k == |x| || x[k] < y[k]);
        assert a[..k+1] == [a[0]] + x[..k] && b[..k+1] == [b[0]] + y[..k];
      }
      if k :| 0 <= k < |b| && k <= |a| && a[..k] == b[..k] && (k == |a| || a[k] < b[k]) {
        if k > 0 {
          assert a[0] == a[..k][0] && b[0] == b[..k][0];
          assert a[1..][..k-1] == a[..k][1..] && b[1..][..k-1] == b[..k][1..];
        }
      }
    }
  }

  ghost predicate Sorted<T>(s: seq<T>, name: T -> string) {
    s == [] || ((forall x :: x in s[1..] ==> Less(name(s[0]), name(x))) && Sorted(s[1..], name))
  }

  /** A sorted list is determined by its elements. */
  lemma {:induction false} SortedUnique<T>(a: seq<T>, b: seq<T>, name: T -> string)
    requires Sorted(a, name) && Sorted(b, name)
    requires forall x :: x in a ==> x in b
    requires forall x :: x in b ==> x in a
    ensures a == b
  {
    assert a != [] ==> a[0] in a;
    assert b != [] ==> b[0] in b;
    if a != [] && b != [] {
      assert a == [a[0]] + a[1..] && b == [b[0]] + b[1..];
      if a[0] != b[0] {
        LessAsym(name(a[0]), name(b[0]));
      }
      SortedNoRepeat(a, name);
      SortedNoRepeat(b, name);
      forall x | x in a[1..] ensures x in b[1..] {
        assert x in a;
      }
      forall x | x in b[1..] ensures x in a[1..] {
        assert x in b;
      }
      SortedUnique(a[1..], b[1..], name);
    }
  }

  lemma SortedNoRepeat<T>(s: seq<T>, name: T -> string)
    requires Sorted(s, name) && s != []
    ensures s[0] !in s[1..]
  {
    if s[0] in s[1..] {
      LessAsym(name(s[0]), name(s[0]));
    }
  }

  /* ------------------------------------------------------------------ */
  /* Search                                                              */
  /* ------------------------------------------------------------------ */

  function ClampLimit(requested: int, defaultN: int, max: int): int {
    if requested <= 0 then defaultN
    else if requested > max then max
    else requested
  }

  datatype Query = Query(offset: int, limit: int)

  function Limit(q: Query): (n: int)
    ensures 1 <= n <= 500
  {
    ClampLimit(q.limit, 50, 500)
  }

  datatype Result<T> = Result(items: seq<T>, total: nat)

  function Paginate<T>(all: seq<T>, q: Query): Result<T> {
    var total := |all|;
    var start := if q.offset < 0 then 0 else q.offset;
    if start >= total then Result([], total)
    else
      var end := start + Limit(q);
      Result(all[start..if end > total then total else end], total)
  }

  /** The sorted list of the records of the store that match. */
  ghost predicate IsListing<T>(store: map<string, T>, name: T -> string, hit: T -> bool, list: seq<T>) {
    && Sorted(list, name)
    && (forall x :: x in list ==> x in store.Values && hit(x))
    && (forall x :: x in store.Values && hit(x) ==> x in list)
  }

  lemma ListingUnique<T>(store: map<string, T>, name: T -> string, hit: T -> bool, a: seq<T>, b: seq<T>)
    requires IsListing(store, name, hit, a) && IsListing(store, name, hit, b)
    ensures a == b
  {
    SortedUnique(a, b, name);
  }

  /** No two records of the store sort alike. */
  ghost predicate DistinctNames<T>(store: map<string, T>, name: T -> string) {
    forall k, l :: k in store && l in store && k != l ==> name(store[k]) != name(store[l])
  }

  /** A store filled by Put, which files a record under its lower-cased name
      (or, for entities, under the name itself), has no such pair. */
  lemma PutKeepsNamesDistinct<T>(store: map<string, T>, name: T -> string, key: string -> string)
    requires forall k :: k in store ==> k == key(name(store[k]))
    ensures DistinctNames(store, name)
  {}

  /** The part of the memory store that holds one kind of record. */
  class Records<T(==)> {
    const name: T -> string
    const key: string -> string  // ToLower for domains and nameservers, identity for entities
    var records: map<string, T>

    ghost predicate Filed()
      reads this
    {
      forall k :: k in records ==> k == key(name(records[k]))
    }

    constructor (name: T -> string, key: string -> string)
      ensures Filed() && records == map[] && this.name == name && this.key == key
    {
      this.name, this.key, records := name, key, map[];
    }

    method Put(x: T)
      requires Filed()
      modifies this`records
      ensures Filed() && records == old(records)[key(name(x)) := x]
    {
      records := records[key(name(x)) := x];
    }

    method Find(hit: T -> bool, q: Query) returns (res: Result<T>)
      requires Filed()
      ensures exists list :: IsListing(records, name, hit, list) && res == Paginate(list, q)
    {
      PutKeepsNamesDistinct(records, name, key);
      res := Search(records, name, hit, q);
    }
  }

  function InsertByName<T>(s: seq<T>, x: T, name: T -> string): seq<T> {
    if s == [] then [x]
    else if Less(name(x), name(s[0])) then [x] + s
    else [s[0]] + InsertByName(s[1..], x, name)
  }

  lemma {:induction false} InsertMembers<T>(s: seq<T>, x: T, name: T -> string)
    ensures forall y :: y in InsertByName(s, x, name) ==> y == x || y in s
    ensures forall y :: y in s ==> y in InsertByName(s, x, name)
    ensures x in InsertByName(s, x, name)
  {
    if s != [] && !Less(name(x), name(s[0])) {
      InsertMembers(s[1..], x, name);
    }
  }

  lemma {:induction false} InsertSorted<T>(s: seq<T>, x: T, name: T -> string)
    requires Sorted(s, name) && forall y :: y in s ==> name(y) != name(x)
    ensures Sorted(InsertByName(s, x, name), name)
  {
    if s != [] {
      if Less(name(x), name(s[0])) {
        forall y | y in s[1..] ensures Less(name(x), name(y)) {
          LessTrans(name(x), name(s[0]), name(y));
        }
      } else {
        LessTotal(name(x), name(s[0]));
        InsertSorted(s[1..], x, name);
        InsertMembers(s[1..], x, name);
      }
    }
  }

  function Filter<T>(s: seq<T>, hit: T -> bool): seq<T> {
    if s == [] then []
    else Filter(s[..|s|-1], hit) + if hit(s[|s|-1]) then [s[|s|-1]] else []
  }

  lemma {:induction false} FilterCons<T>(x: T, s: seq<T>, hit: T -> bool)
    ensures Filter([x] + s, hit) == (if hit(x) then [x] else []) + Filter(s, hit)
  {
    var all := [x] + s;
    if s == [] {
      assert all[..0] == [];
    } else {
      FilterCons(x, s[..|s|-1], hit);
      assert all[..|all|-1] == [x] + s[..|s|-1];
    }
  }

  lemma {:induction false} FilterSorted<T>(s: seq<T>, hit: T -> bool, name: T -> string)
    requires Sorted(s, name)
    ensures Sorted(Filter(s, hit), name)
    ensures forall x :: x in Filter(s, hit) ==> x in s && hit(x)
    ensures forall x :: x in s && hit(x) ==> x in Filter(s, hit)
  {
    if s != [] {
      assert s == [s[0]] + s[1..];
      FilterCons(s[0], s[1..], hit);
      FilterSorted(s[1..], hit, name);
      var rest := Filter(s[1..], hit);
      assert Filter(s, hit) == if hit(s[0]) then [s[0]] + rest else rest;
      if hit(s[0]) {
        assert Filter(s, hit)[1..] == rest;
      }
    }
  }

  /** Gather the map's values in whatever order it yields them, sort, filter and
      cut the page: the answer is the page of the one sorted listing. */
  method Search<T(==)>(store: map<string, T>, name: T -> string, hit: T -> bool, q: Query)
    returns (res: Result<T>)
    requires DistinctNames(store, name)
    ensures exists list :: IsListing(store, name, hit, list) && res == Paginate(list, q)
  {
    var all := Gather(store, name);
    var matched: seq<T> := [];
    for i := 0 to |all|
      invariant matched == Filter(all[..i], hit)
    {
      assert all[..i+1][..i] == all[..i];
      if hit(all[i]) {
        matched := matched + [all[i]];
      }
    }
    assert all[..|all|] == all;
    FilterSorted(all, hit, name);
    assert IsListing(store, name, hit, matched);
    res := Paginate(matched, q);
  }

  method Gather<T(==)>(store: map<string, T>, name: T -> string) returns (all: seq<T>)
    requires DistinctNames(store, name)
    ensures Sorted(all, name)
    ensures forall x :: x in all ==> x in store.Values
    ensures forall x :: x in store.Values ==> x in all
  {
    all := [];
    var todo := store.Keys;
    while todo != {}
      invariant todo <= store.Keys
      invariant Sorted(all, name)
      invariant forall x :: x in all ==> exists k :: k in store && k !in todo && store[k] == x
      invariant forall k :: k in store && k !in todo ==> store[k] in all
      decreases |todo|
    {
      var k :| k in todo;
      var x := store[k];
      forall y | y in all ensures name(y) != name(x) {
        var l :| l in store && l !in todo && store[l] == y;
      }
      InsertSorted(all, x, name);
      InsertMembers(all, x, name);
      all := InsertByName(all, x, name);
      todo := todo - {k};
    }
  }

  /* ------------------------------------------------------------------ */
  /* The cursor walk                                                     */
  /* ------------------------------------------------------------------ */

  /** Query-string controls, already parsed; None where absent or unparsable. */
  function BuildQuery(count: Option<int>, cursor: Option<int>, offset: Option<int>): Query {
    var limit := if count.Some? && count.value > 0 then count.value else 0;
    var at := if cursor.Some? then cursor.value else 0;
    Query(if offset.Some? && offset.value >= 0 then offset.value else at, limit)
  }

  datatype Meta = Meta(totalCount: nat, pageSize: int, pageNumber: int, nextCursor: Option<int>)

  /** Go's integer division truncates toward zero. */
  function Quotient(a: int, b: int): int
    requires b > 0
  {
    if a >= 0 then a / b else -(-a / b)
  }

  function PagingMeta(q: Query, total: nat): Option<Meta> {
    var limit := Limit(q);
    if q.offset == 0 && total <= limit then None
    else
      var next := q.offset + limit;
      Some(Meta(total, limit, Quotient(q.offset, limit) + 1, if next < total then Some(next) else None))
  }

  /** The page size a client gets: fifty unless it asks, five hundred at most. */
  function PageSize(count: Option<int>): int {
    if count.None? || count.value <= 0 then 50 else if count.value <= 500 then count.value else 500
  }

  /** Where a page starts: an offset that is not negative wins over a cursor. */
  function StartOf(cursor: Option<int>, offset: Option<int>): int {
    match offset
    case Some(n) => if n >= 0 then n else (match cursor case Some(c) => c case None => 0)
    case None => match cursor case Some(c) => c case None => 0
  }

  /** Elements from ..to of the list, as far as it has them. */
  function Slice<T>(list: seq<T>, from: int, to: int): seq<T>
    requires 0 <= from <= to
  {
    if from >= |list| then [] else if to >= |list| then list[from..] else list[from..to]
  }

  /** A page holds `size` elements from its start on; what it says about paging is
      nothing exactly when the first page is all there is. */
  ghost predicate IsPage<T(!new)>(list: seq<T>, size: int, start: int, items: seq<T>, paging: Option<Meta>)
    requires size > 0
  {
    && items == (if start < 0 then Slice(list, 0, size) else Slice(list, start, start + size))
    && (paging.None? <==> start == 0 && |list| <= size)
    && (paging.Some? ==>
          && paging.value.totalCount == |list| && paging.value.pageSize == size
          && (start >= 0 ==> paging.value.pageNumber == start / size + 1)
          && paging.value.nextCursor == if start + size < |list| then Some(start + size) else None)
  }

  /** What a request with given paging controls gets of a list. */
  lemma PageLaw<T(!new)>(list: seq<T>, count: Option<int>, cursor: Option<int>, offset: Option<int>)
    ensures PageSize(count) > 0
    ensures var q := BuildQuery(count, cursor, offset);
            && Paginate(list, q).total == |list|
            && IsPage(list, PageSize(count), StartOf(cursor, offset), Paginate(list, q).items, PagingMeta(q, |list|))
  {
    var q, size := BuildQuery(count, cursor, offset), PageSize(count);
    assert q.offset == StartOf(cursor, offset);
    assert Limit(q) == size;
    hide BuildQuery, StartOf, PageSize, Limit;
    if q.offset >= 0 {
      assert Quotient(q.offset, size) == q.offset / size;
    }
    hide Quotient;
  }

  function NextIn(paging: Option<Meta>): Option<int> {
    match paging case None => None case Some(m) => m.nextCursor
  }

  lemma PageFacts<T(!new)>(list: seq<T>, size: int, start: int, items: seq<T>, paging: Option<Meta>)
    requires size > 0 && start >= 0 && IsPage(list, size, start, items, paging)
    ensures items == Slice(list, start, start + size)
    ensures NextIn(paging) == if start + size < |list| then Some(start + size) else None
  {}

  function NextCursor(q: Query, total: nat): Option<int> {
    match PagingMeta(q, total)
    case None => None
    case Some(m) => m.nextCursor
  }

  /** The queries of a client that sends `count` and follows the cursor until
      there is none: page i starts at offset i * limit. */
  ghost predicate IsWalk<T>(count: Option<int>, lists: seq<seq<T>>, queries: seq<Query>) {
    && |queries| == |lists| && queries != []
    && queries[0] == BuildQuery(count, None, None)
    && (forall i :: 0 <= i < |queries| - 1 ==>
          && NextCursor(queries[i], |lists[i]|).Some?
          && queries[i+1] == BuildQuery(count, NextCursor(queries[i], |lists[i]|), None))
    && NextCursor(queries[|queries|-1], |lists[|queries|-1]|).None?
  }

  /** Following the cursor comes to an end, for every list and count. */
  lemma WalkEnds<T>(count: Option<int>, list: seq<T>) returns (lists: seq<seq<T>>, queries: seq<Query>)
    ensures IsWalk(count, lists, queries) && forall i :: 0 <= i < |lists| ==> lists[i] == list
  {
    var q := BuildQuery(count, None, None);
    lists, queries := [list], [q];
    while NextCursor(q, |list|).Some?
      invariant |queries| == |lists| && queries != [] && q == queries[|queries|-1]
      invariant queries[0] == BuildQuery(count, None, None)
      invariant forall i :: 0 <= i < |lists| ==> lists[i] == list
      invariant forall i :: 0 <= i < |queries| - 1 ==>
                  && NextCursor(queries[i], |lists[i]|).Some?
                  && queries[i+1] == BuildQuery(count, NextCursor(queries[i], |lists[i]|), None)
      decreases |list| - q.offset
    {
      q := BuildQuery(count, NextCursor(q, |list|), None);
      lists, queries := lists + [list], queries + [q];
    }
  }

  function Pages<T>(lists: seq<seq<T>>, queries: seq<Query>): seq<T>
    requires |lists| == |queries|
  {
    if lists == [] then []
    else Pages(lists[..|lists|-1], queries[..|lists|-1]) + Paginate(lists[|lists|-1], queries[|lists|-1]).items
  }

  lemma CountLimit(count: Option<int>, cursor: Option<int>)
    ensures Limit(BuildQuery(count, cursor, None)) == Limit(BuildQuery(count, None, None))
  {}

  /** Where the pages of a walk begin, and that all but the last are full. */
  lemma {:induction false} WalkOffsets<T>(count: Option<int>, list: seq<T>, lists: seq<seq<T>>, queries: seq<Query>,
                                          i: nat)
    requires IsWalk(count, lists, queries) && i < |queries|
    requires forall j :: 0 <= j < |lists| ==> lists[j] == list
    ensures Limit(queries[i]) == Limit(queries[0])
    ensures queries[i].offset == i * Limit(queries[0])
    ensures i > 0 ==> queries[i].offset < |list|
  {
    if i > 0 {
      WalkOffsets(count, list, lists, queries, i - 1);
      CountLimit(count, NextCursor(queries[i-1], |lists[i-1]|));
      assert NextCursor(queries[i-1], |lists[i-1]|).Some?;
      var n := Limit(queries[0]);
      assert (i - 1) * n + n == i * n;
    }
  }

  lemma {:induction false} PagesSoFar<T>(count: Option<int>, list: seq<T>, lists: seq<seq<T>>, queries: seq<Query>,
                                         i: nat)
    requires IsWalk(count, lists, queries) && i <= |queries|
    requires forall j :: 0 <= j < |lists| ==> lists[j] == list
    ensures var n := i * Limit(queries[0]);
            0 <= n && Pages(lists[..i], queries[..i]) == list[..if n <= |list| then n else |list|]
  {
    if i > 0 {
      PagesSoFar(count, list, lists, queries, i - 1);
      WalkOffsets(count, list, lists, queries, i - 1);
      var n := Limit(queries[0]);
      assert (i - 1) * n + n == i * n;
      assert lists[..i][..i-1] == lists[..i-1] && queries[..i][..i-1] == queries[..i-1];
      PageExtends(list, queries[i-1]);
    }
  }

  lemma PageExtends<T>(list: seq<T>, q: Query)
    requires q.offset >= 0
    ensures var a, b := q.offset, q.offset + Limit(q);
            list[..if a <= |list| then a else |list|] + Paginate(list, q).items
              == list[..if b <= |list| then b else |list|]
  {}

  function CeilDiv(a: nat, b: int): nat
    requires b > 0
  {
    (a + b - 1) / b
  }

  lemma Times(a: int, b: int, n: int)
    requires a <= b && n >= 1
    ensures a * n <= b * n
  {}

  lemma CeilCount(total: nat, n: int, pages: nat)
    requires n >= 1 && pages >= 1 && pages * n >= total && (pages > 1 ==> (pages - 1) * n < total)
    ensures pages == if total == 0 then 1 else CeilDiv(total, n)
  {
    var q := CeilDiv(total, n);
    CeilBounds(total, n);
    if total == 0 {
      if pages > 1 {
        Times(0, pages - 1, n);
      }
    } else if pages < q {
      Times(pages, q - 1, n);
    } else if pages > q {
      Times(q, pages - 1, n);
    }
  }

  lemma CeilBounds(total: nat, n: int)
    requires n >= 1
    ensures var q := CeilDiv(total, n); total <= q * n && (q - 1) * n < total && (total > 0 ==> q >= 1)
  {
    var m := total + n - 1;
    var q, r := m / n, m % n;
    assert m == q * n + r;
    assert (q - 1) * n == q * n - n;
  }

  lemma PageNumber(n: int, i: nat)
    requires n >= 1
    ensures i * n >= 0 && Quotient(i * n, n) == i
  {
    Times(0, i, n);
    assert (i * n) / n == i;
  }

  /** From a first request with any count, following the cursor over an
      unchanged store visits every match exactly once, in sorted order, whatever
      order the map yielded its values in on each request; there are
      max(1, ceil(total / limit)) pages, numbered from 1. */
  lemma WalkVisitsEverything<T>(store: map<string, T>, name: T -> string, hit: T -> bool, count: Option<int>,
                                list: seq<T>, lists: seq<seq<T>>, queries: seq<Query>)
    requires IsListing(store, name, hit, list)
    requires forall i :: 0 <= i < |lists| ==> IsListing(store, name, hit, lists[i])
    requires IsWalk(count, lists, queries)
    ensures Pages(lists, queries) == list
    ensures PageSize(count) > 0
    ensures |queries| == if |list| == 0 then 1 else CeilDiv(|list|, PageSize(count))
    ensures forall i :: 0 <= i < |queries| ==>
              var m := PagingMeta(queries[i], |list|);
              if m.Some? then m.value.pageNumber == i + 1 else |queries| == 1
  {
    forall i | 0 <= i < |lists| ensures lists[i] == list {
      ListingUnique(store, name, hit, lists[i], list);
    }
    assert Limit(queries[0]) == PageSize(count);
    hide Limit, PageSize, CeilDiv, PagingMeta, IsListing;
    var k, n := |queries|, Limit(queries[0]);
    PagesSoFar(count, list, lists, queries, k);
    assert lists[..k] == lists && queries[..k] == queries;
    LastPage(count, list, lists, queries);
    CeilCount(|list|, n, k);
    forall i | 0 <= i < k
      ensures var m := PagingMeta(queries[i], |list|);
              if m.Some? then m.value.pageNumber == i + 1 else |queries| == 1
    {
      NumberedPage(count, list, lists, queries, i);
    }
  }

  lemma LastPage<T>(count: Option<int>, list: seq<T>, lists: seq<seq<T>>, queries: seq<Query>)
    requires IsWalk(count, lists, queries)
    requires forall j :: 0 <= j < |lists| ==> lists[j] == list
    ensures var k, n := |queries|, Limit(queries[0]);
            k * n >= |list| && (k > 1 ==> (k - 1) * n < |list|)
  {
    var k, n := |queries|, Limit(queries[0]);
    WalkOffsets(count, list, lists, queries, k - 1);
    assert (k - 1) * n + n == k * n;
  }

  lemma NumberedPage<T>(count: Option<int>, list: seq<T>, lists: seq<seq<T>>, queries: seq<Query>, i: nat)
    requires IsWalk(count, lists, queries) && i < |queries|
    requires forall j :: 0 <= j < |lists| ==> lists[j] == list
    ensures var m := PagingMeta(queries[i], |list|);
            if m.Some? then m.value.pageNumber == i + 1 else |queries| == 1
  {
    WalkOffsets(count, list, lists, queries, i);
    PageNumber(Limit(queries[0]), i);
    assert i < |queries| - 1 ==> NextCursor(queries[i], |lists[i]|).Some?;
    if i > 0 {
      Times(1, i, Limit(queries[0]));
    }
  }
}
