/**
  Pages of a remote listing and the stop rule of the finalizable-entity collector.

  The remote listing is fixed while one collection runs. Page `p` (counted from 1) is the slice
  `[size * (p - 1), size * p)` of it, cut at the end of the listing. The stop rule compares the
  creation date of the first and last record of a page with `createdAfter`.
 */
module Paging {
  import opened Wrappers

  datatype Record = Record(id: nat, created: int)

  /** What a URL template may interpolate. The template uses either `page` or `skip`. */
  datatype Pager = Pager(page: nat, skip: nat, size: nat)

  datatype Addressing = ByPage | BySkip

  /** A remote listing; `filter` is `createdAfter`, absent when there is none or no GetCreated hook. */
  datatype Remote = Remote(items: seq<Record>, addressing: Addressing, filter: Option<int>)

  function Min(a: int, b: int): int {
    if a <= b then a else b
  }

  function Slice<T>(items: seq<T>, skip: nat, size: nat): (rows: seq<T>)
    ensures |rows| <= size
  {
    if skip >= |items| then [] else items[skip..Min(|items|, skip + size)]
  }

  function PageOf<T>(items: seq<T>, size: nat, page: nat): (rows: seq<T>)
    requires page >= 1
    ensures |rows| <= size
  {
    Slice(items, size * (page - 1), size)
  }

  /** The rows the server answers for a pager. */
  function Serve(remote: Remote, pager: Pager): seq<Record>
    requires pager.page >= 1
  {
    match remote.addressing
    case ByPage => PageOf(remote.items, pager.size, pager.page)
    case BySkip => Slice(remote.items, pager.skip, pager.size)
  }

  datatype Parsed = Parsed(rows: seq<Record>, finish: bool)

  /** The ResponseParser wrapper; `finish` stands for ErrFinishCollect. */
  function ParseResponse(items: seq<Record>, filter: Option<int>): Parsed {
    if |items| == 0 then
      Parsed([], false)
    else if filter.None? then
      Parsed(items, false)
    else if items[0].created < filter.value then
      Parsed([], true)
    else
      Parsed(items, items[|items| - 1].created < filter.value)
  }

  /** The response handler goes on to a next page: the page is full and the parser did not stop. */
  predicate GoesOn(parsed: Parsed, size: nat) {
    |parsed.rows| > 0 && !parsed.finish && |parsed.rows| >= size
  }

  ghost predicate Descending(items: seq<Record>) {
    forall i, j | 0 <= i < j < |items| :: items[i].created >= items[j].created
  }

  /** The promise behind the stop rule: it is only used on listings in descending created order. */
  ghost predicate Stoppable(remote: Remote) {
    remote.filter.Some? ==> Descending(remote.items)
  }

  predicate Wanted(record: Record, filter: Option<int>) {
    filter.None? || record.created >= filter.value
  }

  /** Length of the longest prefix of wanted records. */
  function WantedLen(items: seq<Record>, filter: Option<int>): (n: nat)
    ensures n <= |items|
    ensures forall i | 0 <= i < n :: Wanted(items[i], filter)
    ensures n < |items| ==> !Wanted(items[n], filter)
  {
    if |items| == 0 || !Wanted(items[0], filter) then 0 else 1 + WantedLen(items[1..], filter)
  }

  /** How many leading records make up the pages whose first record is wanted. */
  function SavedLen(items: seq<Record>, size: nat, filter: Option<int>): nat
    requires size >= 1
  {
    Min(|items|, (WantedLen(items, filter) + size - 1) / size * size)
  }

  /** Rows that a response for page `p` adds to the raw table. */
  function SavedRows(remote: Remote, size: nat, page: nat): seq<Record>
    requires page >= 1
  {
    ParseResponse(PageOf(remote.items, size, page), remote.filter).rows
  }

  ghost predicate Continues(remote: Remote, size: nat, page: nat)
    requires page >= 1
  {
    GoesOn(ParseResponse(PageOf(remote.items, size, page), remote.filter), size)
  }

  /** In a descending listing the wanted records are exactly a prefix. */
  lemma WantedIsPrefix(remote: Remote, i: nat)
    requires Stoppable(remote) && i < |remote.items|
    ensures Wanted(remote.items[i], remote.filter) <==> i < WantedLen(remote.items, remote.filter)
  {
    var n := WantedLen(remote.items, remote.filter);
    if i > n {
      assert !Wanted(remote.items[n], remote.filter);
    }
  }

  lemma PageBounds(size: nat, page: nat)
    requires size >= 1 && page >= 1
    ensures size * (page - 1) + size == page * size
    ensures 0 <= size * (page - 1) == (page - 1) * size
  {
  }

  /** A page leads on to a next page exactly when it lies wholly within the wanted prefix. */
  lemma ContinuesIff(remote: Remote, size: nat, page: nat)
    requires size >= 1 && page >= 1 && Stoppable(remote)
    ensures Continues(remote, size, page) <==> page * size <= WantedLen(remote.items, remote.filter)
  {
    PageBounds(size, page);
    var rows := PageOf(remote.items, size, page);
    var last := page * size - 1;
    if |rows| == size {
      assert rows[size - 1] == remote.items[last];
      WantedIsPrefix(remote, last);
      assert rows[0] == remote.items[size * (page - 1)];
      WantedIsPrefix(remote, size * (page - 1));
    }
  }

  /** Which rows of a page are saved: all of them or none, by the page's first record. */
  lemma SavedRowsAre(remote: Remote, size: nat, page: nat)
    requires size >= 1 && page >= 1 && Stoppable(remote)
    ensures SavedRows(remote, size, page) ==
            if size * (page - 1) < WantedLen(remote.items, remote.filter)
            then PageOf(remote.items, size, page) else []
  {
    PageBounds(size, page);
    var first := size * (page - 1);
    if first < |remote.items| {
      assert PageOf(remote.items, size, page)[0] == remote.items[first];
      WantedIsPrefix(remote, first);
    }
  }

  lemma CeilBounds(n: nat, size: nat)
    requires size >= 1
    ensures n <= (n + size - 1) / size * size < n + size
    ensures n / size * size <= n < n / size * size + size
  {
    assert n + size - 1 == (n + size - 1) / size * size + (n + size - 1) % size;
    assert n == n / size * size + n % size;
  }

  lemma FloorIff(n: nat, size: nat, p: nat)
    requires size >= 1
    ensures p * size <= n <==> p <= n / size
  {
    CeilBounds(n, size);
    if p <= n / size {
      MulMono(p, n / size, size);
    } else {
      MulMono(n / size + 1, p, size);
      assert (n / size + 1) * size == n / size * size + size;
    }
  }

  lemma MulMono(a: nat, b: nat, size: nat)
    requires a <= b
    ensures a * size <= b * size
  {
  }

  /**
    The stop rule misses no wanted record and saves fewer than one page of unwanted ones,
    and what it saves is a whole number of pages of the listing.
   */
  lemma StopRuleIsTight(remote: Remote, size: nat)
    requires size >= 1 && Stoppable(remote)
    ensures var saved := SavedLen(remote.items, size, remote.filter);
            && (forall i | 0 <= i < |remote.items| && Wanted(remote.items[i], remote.filter) :: i < saved)
            && |set i | 0 <= i < saved && !Wanted(remote.items[i], remote.filter)| < size
            && (saved == |remote.items| || saved / size * size == saved)
  {
    var items, n := remote.items, WantedLen(remote.items, remote.filter);
    var saved := SavedLen(items, size, remote.filter);
    CeilBounds(n, size);
    forall i | 0 <= i < |items| && Wanted(items[i], remote.filter) ensures i < saved {
      WantedIsPrefix(remote, i);
    }
    FewerThanAPage(remote, size, saved);
    WholePages((n + size - 1) / size, size);
  }

  lemma FewerThanAPage(remote: Remote, size: nat, saved: nat)
    requires saved <= |remote.items|
    requires size >= 1 && saved < WantedLen(remote.items, remote.filter) + size
    ensures |set i | 0 <= i < saved && !Wanted(remote.items[i], remote.filter)| < size
  {
    var n := WantedLen(remote.items, remote.filter);
    var older := set i | 0 <= i < saved && !Wanted(remote.items[i], remote.filter);
    if n <= saved {
      SubsetSize(older, Interval(n, saved));
    } else {
      assert older == {};
    }
  }

  /** The saved prefix consists of exactly the pages whose first record is not before `createdAfter`. */
  lemma SavedPagesAre(remote: Remote, size: nat, page: nat)
    requires size >= 1 && page >= 1 && Stoppable(remote)
    requires size * (page - 1) < |remote.items|
    ensures Wanted(remote.items[size * (page - 1)], remote.filter)
            <==> size * (page - 1) < SavedLen(remote.items, size, remote.filter)
    ensures size * (page - 1) < SavedLen(remote.items, size, remote.filter)
            ==> Min(|remote.items|, page * size) <= SavedLen(remote.items, size, remote.filter)
  {
    WantedIsPrefix(remote, size * (page - 1));
    PageBelowSaved(remote, size, page);
    hide WantedLen;
    hide SavedLen;
  }

  lemma PageBelowSaved(remote: Remote, size: nat, page: nat)
    requires size >= 1 && page >= 1 && size * (page - 1) < |remote.items|
    ensures var n, saved := WantedLen(remote.items, remote.filter), SavedLen(remote.items, size, remote.filter);
            && (size * (page - 1) < n <==> size * (page - 1) < saved)
            && (size * (page - 1) < saved ==> Min(|remote.items|, page * size) <= saved)
  {
    PageBounds(size, page);
    PageBelowCeil(WantedLen(remote.items, remote.filter), size, page);
    hide WantedLen;
  }

  /** A page starts below the ceiling exactly when it starts below `n`, and then it lies below it as a whole. */
  lemma PageBelowCeil(n: nat, size: nat, page: nat)
    requires size >= 1 && page >= 1
    ensures var ceil := (n + size - 1) / size * size;
            && ((page - 1) * size < n <==> (page - 1) * size < ceil)
            && ((page - 1) * size < ceil ==> page * size <= ceil)
  {
    var k := (n + size - 1) / size;
    CeilBounds(n, size);
    assert page * size == (page - 1) * size + size;
    if page <= k {
      MulMono(page, k, size);
    } else {
      MulMono(k, page - 1, size);
    }
  }

  lemma WholePages(k: nat, size: nat)
    requires size >= 1
    ensures k * size / size * size == k * size
  {
    var q := k * size / size;
    CeilBounds(k * size, size);
    assert (q + 1) * size == q * size + size;
    if k > q {
      MulMono(q + 1, k, size);
    } else {
      MulMono(k, q, size);
    }
  }

  /** The integers from `lo` up to but not including `hi`. */
  function Interval(lo: nat, hi: nat): (s: set<nat>)
    requires lo <= hi
    ensures forall i: nat :: i in s <==> lo <= i < hi
    ensures |s| == hi - lo
    decreases hi - lo
  {
    if lo == hi then {} else Interval(lo, hi - 1) + {hi - 1}
  }

  lemma SubsetSize<T>(a: set<T>, b: set<T>)
    requires a <= b
    ensures |a| <= |b|
  {
    assert b == a + (b - a);
  }
}
