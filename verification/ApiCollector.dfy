/**
  The three paging strategies of the API collector.

  The asynchronous client runs every queued job and every response handler exactly once, in any
  order. The loops below pick the next job with `:|`, so their postconditions hold for every order.
 */
module ApiCollector {
  import opened Wrappers
  import opened Paging

  // ---------------------------------------------------------------------------------------------
  // Rows collected from a set of handled pages

  /** The rows that pages `1..n` add to the raw table, counting only the pages in `handled`. */
  ghost function Collected(remote: Remote, size: nat, handled: set<nat>, n: nat): multiset<Record> {
    if n == 0 then multiset{}
    else Collected(remote, size, handled, n - 1) +
         if n in handled then multiset(SavedRows(remote, size, n)) else multiset{}
  }

  lemma {:induction false} CollectedAdd(remote: Remote, size: nat, handled: set<nat>, p: nat, n: nat)
    requires 1 <= p <= n && p !in handled
    ensures Collected(remote, size, handled + {p}, n)
         == Collected(remote, size, handled, n) + multiset(SavedRows(remote, size, p))
  {
    if n == p {
      CollectedSame(remote, size, handled, p, n - 1);
    } else {
      CollectedAdd(remote, size, handled, p, n - 1);
    }
  }

  lemma {:induction false} CollectedSame(remote: Remote, size: nat, handled: set<nat>, p: nat, n: nat)
    requires n < p
    ensures Collected(remote, size, handled + {p}, n) == Collected(remote, size, handled, n)
  {
    if n > 0 {
      CollectedSame(remote, size, handled, p, n - 1);
    }
  }

  lemma {:induction false} CollectedNone(remote: Remote, size: nat, n: nat)
    ensures Collected(remote, size, {}, n) == multiset{}
  {
    if n > 0 {
      CollectedNone(remote, size, n - 1);
    }
  }

  /** The rows of pages `1..n` one page after the other. */
  ghost function InOrder(remote: Remote, size: nat, n: nat): seq<Record> {
    if n == 0 then [] else InOrder(remote, size, n - 1) + SavedRows(remote, size, n)
  }

  lemma {:induction false} CollectedInOrder(remote: Remote, size: nat, handled: set<nat>, n: nat)
    requires forall p | 1 <= p <= n :: p in handled
    ensures Collected(remote, size, handled, n) == multiset(InOrder(remote, size, n))
  {
    if n > 0 {
      CollectedInOrder(remote, size, handled, n - 1);
      OnePageMore(remote, size, handled, n);
      hide Collected;
      hide InOrder;
      hide SavedRows;
      MultisetSum(InOrder(remote, size, n - 1), SavedRows(remote, size, n));
    }
  }

  lemma OnePageMore(remote: Remote, size: nat, handled: set<nat>, n: nat)
    requires n >= 1 && n in handled
    ensures Collected(remote, size, handled, n) == Collected(remote, size, handled, n - 1) + multiset(SavedRows(remote, size, n))
    ensures InOrder(remote, size, n) == InOrder(remote, size, n - 1) + SavedRows(remote, size, n)
  {
    hide SavedRows;
  }

  /** The listing up to page `n`, cut by the stop rule. */
  ghost function SavedUpTo(remote: Remote, size: nat, n: nat): seq<Record>
    requires size >= 1
  {
    remote.items[..Min(n * size, SavedLen(remote.items, size, remote.filter))]
  }

  /** Pages `1..n` save the listing up to page `n`, cut by the stop rule. */
  lemma {:induction false} InOrderIs(remote: Remote, size: nat, n: nat)
    requires size >= 1 && Stoppable(remote)
    ensures InOrder(remote, size, n) == SavedUpTo(remote, size, n)
  {
    if n > 0 {
      InOrderIs(remote, size, n - 1);
      PageAppends(remote, size, n);
    }
  }

  lemma MultisetSum<T>(a: seq<T>, b: seq<T>)
    ensures multiset(a + b) == multiset(a) + multiset(b)
  {
  }

  /** One more page extends the saved prefix by the rows of that page. */
  lemma PageAppends(remote: Remote, size: nat, page: nat)
    requires size >= 1 && page >= 1 && Stoppable(remote)
    ensures SavedUpTo(remote, size, page) == SavedUpTo(remote, size, page - 1) + SavedRows(remote, size, page)
  {
    var items, saved := remote.items, SavedLen(remote.items, size, remote.filter);
    PageBounds(size, page);
    SavedRowsAre(remote, size, page);
    var lo := (page - 1) * size;
    SavedOrBeyond(remote, size, page);
    if lo < saved {
      var hi := Min(page * size, saved);
      assert SavedRows(remote, size, page) == items[lo..hi];
      assert items[..hi] == items[..lo] + items[lo..hi];
    }
  }

  lemma SavedOrBeyond(remote: Remote, size: nat, page: nat)
    requires size >= 1 && page >= 1 && Stoppable(remote)
    ensures var saved, lo := SavedLen(remote.items, size, remote.filter), size * (page - 1);
            && (lo < saved <==> lo < WantedLen(remote.items, remote.filter))
            && (lo < saved ==> Min(|remote.items|, page * size) <= saved)
  {
    var wanted := WantedLen(remote.items, remote.filter);
    if size * (page - 1) < |remote.items| {
      WantedIsPrefix(remote, size * (page - 1));
      SavedPagesAre(remote, size, page);
    }
  }

  lemma BeyondSaved(remote: Remote, size: nat, n: nat)
    requires size >= 1 && n > WantedLen(remote.items, remote.filter) / size
    ensures n * size >= SavedLen(remote.items, size, remote.filter)
  {
    var wanted := WantedLen(remote.items, remote.filter);
    hide WantedLen;
    FloorIff(wanted, size, n);
    CeilAtMost(wanted, size, n);
  }

  /** No whole number of pages that holds `n` items is below the ceiling. */
  lemma CeilAtMost(n: nat, size: nat, pages: nat)
    requires size >= 1 && pages * size >= n
    ensures (n + size - 1) / size * size <= pages * size
  {
    var k := (n + size - 1) / size;
    CeilBounds(n, size);
    assert (pages + 1) * size == pages * size + size;
    if k > pages {
      MulMono(pages + 1, k, size);
    } else {
      MulMono(k, pages, size);
    }
  }

  /** The pager law: page and skip address the same rows. */
  predicate PagerOk(pager: Pager, size: nat) {
    pager.page >= 1 && pager.size == size && pager.skip == size * (pager.page - 1)
  }

  /** The pager advanced by `step` pages. */
  function Advanced(pager: Pager, size: nat, step: nat): (next: Pager)
    requires PagerOk(pager, size)
    ensures PagerOk(next, size) && next.page == pager.page + step
  {
    assert size * (pager.page + step - 1) == size * (pager.page - 1) + size * step;
    var skip: nat := size * step;
    pager.(skip := pager.skip + skip, page := pager.page + step)
  }

  function PagerFor(page: nat, size: nat): (pager: Pager)
    requires page >= 1
    ensures PagerOk(pager, size) && pager.page == page
  {
    Pager(page, size * (page - 1), size)
  }

  /** The last page that leads on to another one. */
  ghost function LastFull(remote: Remote, size: nat): nat
    requires size >= 1
  {
    WantedLen(remote.items, remote.filter) / size
  }

  /** One request of `fetchAsync` up to the call of the strategy's own handler. */
  method FetchAsync(remote: Remote, size: nat, pager: Pager) returns (parsed: Parsed)
    requires size >= 1 && Stoppable(remote) && PagerOk(pager, size)
    ensures parsed.rows == SavedRows(remote, size, pager.page)
    ensures parsed == ParseResponse(PageOf(remote.items, size, pager.page), remote.filter)
    ensures GoesOn(parsed, size) <==> Continues(remote, size, pager.page)
    ensures GoesOn(parsed, size) <==> pager.page <= LastFull(remote, size)
  {
    parsed := ParseResponse(Serve(remote, pager), remote.filter);
    ContinuesIff(remote, size, pager.page);
    FloorIff(WantedLen(remote.items, remote.filter), size, pager.page);
  }

  // ---------------------------------------------------------------------------------------------
  // Undetermined strategy: strides

  /**
    Where one stride is: its first job queued, its request on the way, its next-tick job (which
    advances the pager) queued, or finished.
   */
  datatype Phase = Queued | InFlight | Advancing | Stopped

  datatype Stride = Stride(pager: Pager, phase: Phase)

  function Owner(page: nat, concurrency: nat): nat
    requires concurrency >= 1 && page >= 1
  {
    (page - 1) % concurrency
  }

  /** `page` has been requested. */
  ghost predicate Requested(strides: seq<Stride>, page: nat)
    requires |strides| >= 1 && page >= 1
  {
    var s := strides[Owner(page, |strides|)];
    page < s.pager.page || (page == s.pager.page && s.phase != Queued)
  }

  /** The response for `page` has been processed. */
  ghost predicate Answered(strides: seq<Stride>, page: nat)
    requires |strides| >= 1 && page >= 1
  {
    var s := strides[Owner(page, |strides|)];
    page < s.pager.page || (page == s.pager.page && (s.phase == Advancing || s.phase == Stopped))
  }

  ghost predicate StrideOk(remote: Remote, size: nat, strides: seq<Stride>, i: nat)
    requires i < |strides|
  {
    var s, c := strides[i], |strides|;
    && PagerOk(s.pager, size)
    && Owner(s.pager.page, c) == i
    && (s.pager.page > c ==> Continues(remote, size, s.pager.page - c))
    && (s.phase == Queued ==> s.pager.page <= c)
    && (s.phase == Advancing ==> Continues(remote, size, s.pager.page))
    && (s.phase == Stopped ==> !Continues(remote, size, s.pager.page))
  }

  /** What every reachable state of the strided collection keeps. */
  ghost predicate StridesInv(remote: Remote, size: nat, strides: seq<Stride>,
                             requested: set<nat>, answered: set<nat>)
    requires |strides| >= 1
  {
    && (forall i | 0 <= i < |strides| :: StrideOk(remote, size, strides, i))
    && (forall p | p in requested :: p >= 1) && (forall p | p in answered :: p >= 1)
    && (forall p: nat | p >= 1 :: p in requested <==> Requested(strides, p))
    && (forall p: nat | p >= 1 :: p in answered <==> Answered(strides, p))
  }

  /** The last page any stride can request. */
  ghost function LastPage(remote: Remote, size: nat, c: nat): nat
    requires size >= 1
  {
    LastFull(remote, size) + c
  }

  lemma SameOwner(a: nat, b: nat, c: nat)
    requires c >= 1 && a >= 1 && b > a && Owner(a, c) == Owner(b, c)
    ensures b >= a + c
  {
    var qa, qb, r := (a - 1) / c, (b - 1) / c, (a - 1) % c;
    assert a - 1 == qa * c + r;
    assert b - 1 == qb * c + r;
    QuotientStep(qa, qb, r, c);
  }

  lemma QuotientStep(qa: nat, qb: nat, r: nat, c: nat)
    requires qb * c + r > qa * c + r
    ensures qb * c + r >= qa * c + r + c
  {
    assert (qa + 1) * c == qa * c + c;
    if qb > qa {
      MulMono(qa + 1, qb, c);
    } else {
      MulMono(qb, qa, c);
    }
  }

  lemma OwnerStep(a: nat, c: nat)
    requires c >= 1 && a >= 1
    ensures Owner(a + c, c) == Owner(a, c)
  {
    var x := a - 1;
    var q, r := x / c, x % c;
    var q', r' := (x + c) / c, (x + c) % c;
    assert x + c == q' * c + r' && x == q * c + r;
    assert (q + 1) * c == q * c + c;
    assert (q' + 1) * c == q' * c + c;
    assert (q + 2) * c == q * c + c + c;
    if q' < q + 1 {
      MulMono(q' + 1, q + 1, c);
    } else if q' > q + 1 {
      MulMono(q + 2, q', c);
    }
  }

  lemma OwnerOfFirst(i: nat, c: nat)
    requires i < c
    ensures Owner(i + 1, c) == i
  {
  }

  /** No page beyond the last continuing page plus one stride is ever requested. */
  lemma RequestedBound(remote: Remote, size: nat, strides: seq<Stride>, page: nat)
    requires size >= 1 && |strides| >= 1 && page >= 1 && Stoppable(remote)
    requires StrideOk(remote, size, strides, Owner(page, |strides|))
    requires Requested(strides, page)
    ensures page <= LastPage(remote, size, |strides|)
  {
    var at := strides[Owner(page, |strides|)].pager.page;
    if at > |strides| {
      ContinuesIff(remote, size, at - |strides|);
      FloorIff(WantedLen(remote.items, remote.filter), size, at - |strides|);
    }
  }

  /** Once all strides stopped, the answered pages are exactly `1..k + c`. */
  lemma AllStopped(remote: Remote, size: nat, strides: seq<Stride>, page: nat)
    requires size >= 1 && |strides| >= 1 && page >= 1 && Stoppable(remote)
    requires StrideOk(remote, size, strides, Owner(page, |strides|))
    requires strides[Owner(page, |strides|)].phase == Stopped
    ensures Answered(strides, page) <==> page <= LastPage(remote, size, |strides|)
    ensures Answered(strides, page) <==> Requested(strides, page)
  {
    var wanted := WantedLen(remote.items, remote.filter);
    var at := strides[Owner(page, |strides|)].pager.page;
    ContinuesIff(remote, size, at);
    FloorIff(wanted, size, at);
    if page > at {
      SameOwner(at, page, |strides|);
    } else {
      RequestedBound(remote, size, strides, page);
    }
  }

  /** A step that touches only stride `i` leaves the pages of the other strides alone. */
  lemma OtherStrides(strides: seq<Stride>, i: nat, s: Stride, page: nat)
    requires i < |strides| && page >= 1 && Owner(page, |strides|) != i
    ensures Requested(strides[i := s], page) == Requested(strides, page)
    ensures Answered(strides[i := s], page) == Answered(strides, page)
  {
  }

  /** Issuing the request of stride `i` requests exactly one new page. */
  lemma IssueKeeps(remote: Remote, size: nat, strides: seq<Stride>, i: nat, s: Stride,
                   requested: set<nat>, answered: set<nat>)
    requires |strides| >= 1 && StridesInv(remote, size, strides, requested, answered) && i < |strides|
    requires s.phase == InFlight
    requires (strides[i].phase == Queued && s.pager == strides[i].pager) ||
             (strides[i].phase == Advancing && PagerOk(strides[i].pager, size) &&
              s.pager == Advanced(strides[i].pager, size, |strides|))
    ensures s.pager.page !in requested
    ensures StridesInv(remote, size, strides[i := s], requested + {s.pager.page}, answered)
  {
    var c, strides' := |strides|, strides[i := s];
    assert StrideOk(remote, size, strides, i);
    OwnerStep(strides[i].pager.page, c);
    assert !Requested(strides, s.pager.page);
    assert StrideOk(remote, size, strides', i);
    forall j | 0 <= j < c ensures StrideOk(remote, size, strides', j) {
      assert StrideOk(remote, size, strides, j);
    }
    forall p: nat | p >= 1
      ensures p in requested + {s.pager.page} <==> Requested(strides', p)
      ensures p in answered <==> Answered(strides', p)
    {
      if Owner(p, c) != i {
        OtherStrides(strides, i, s, p);
      } else {
        var at := strides[i].pager.page;
        if at < p < s.pager.page {
          SameOwner(at, p, c);
        }
      }
    }
  }

  /** Answering the request of stride `i` answers exactly one new page. */
  lemma AnswerKeeps(remote: Remote, size: nat, strides: seq<Stride>, i: nat, s: Stride,
                    requested: set<nat>, answered: set<nat>)
    requires |strides| >= 1 && StridesInv(remote, size, strides, requested, answered) && i < |strides|
    requires strides[i].phase == InFlight && s.pager == strides[i].pager
    requires s.pager.page >= 1
    requires s.phase == if Continues(remote, size, s.pager.page) then Advancing else Stopped
    ensures s.pager.page !in answered
    ensures StridesInv(remote, size, strides[i := s], requested, answered + {s.pager.page})
  {
    var c, strides' := |strides|, strides[i := s];
    assert StrideOk(remote, size, strides, i);
    assert !Answered(strides, s.pager.page);
    assert StrideOk(remote, size, strides', i);
    forall j | 0 <= j < c ensures StrideOk(remote, size, strides', j) {
      assert StrideOk(remote, size, strides, j);
    }
    forall p: nat | p >= 1
      ensures p in requested <==> Requested(strides', p)
      ensures p in answered + {s.pager.page} <==> Answered(strides', p)
    {
      if Owner(p, c) != i {
        OtherStrides(strides, i, s, p);
      }
    }
  }

  /** The strides together with what they have requested, answered and saved so far. */
  ghost predicate Running(remote: Remote, size: nat, strides: seq<Stride>, requested: set<nat>, answered: set<nat>,
                          rows: seq<Record>, requests: nat)
    requires size >= 1
  {
    && |strides| >= 1
    && StridesInv(remote, size, strides, requested, answered)
    && requested <= Interval(1, LastPage(remote, size, |strides|) + 1)
    && answered <= requested
    && requests == |requested|
    && multiset(rows) == Collected(remote, size, answered, LastPage(remote, size, |strides|))
  }

  lemma IssueRuns(remote: Remote, size: nat, strides: seq<Stride>, i: nat, s: Stride,
                  requested: set<nat>, answered: set<nat>, rows: seq<Record>, requests: nat)
    requires size >= 1 && Stoppable(remote) && i < |strides| && s.phase == InFlight
    requires Running(remote, size, strides, requested, answered, rows, requests)
    requires (strides[i].phase == Queued && s.pager == strides[i].pager) ||
             (strides[i].phase == Advancing && PagerOk(strides[i].pager, size) &&
              s.pager == Advanced(strides[i].pager, size, |strides|))
    ensures s.pager.page !in requested && s.pager.page <= LastPage(remote, size, |strides|)
    ensures Running(remote, size, strides[i := s], requested + {s.pager.page}, answered, rows, requests + 1)
  {
    IssueKeeps(remote, size, strides, i, s, requested, answered);
    assert StrideOk(remote, size, strides[i := s], i);
    RequestedBound(remote, size, strides[i := s], s.pager.page);
  }

  lemma AnswerRuns(remote: Remote, size: nat, strides: seq<Stride>, i: nat, s: Stride,
                   requested: set<nat>, answered: set<nat>, rows: seq<Record>, requests: nat)
    requires size >= 1 && Stoppable(remote) && i < |strides|
    requires Running(remote, size, strides, requested, answered, rows, requests)
    requires strides[i].phase == InFlight && s.pager == strides[i].pager && s.pager.page >= 1
    requires s.phase == if Continues(remote, size, s.pager.page) then Advancing else Stopped
    ensures s.pager.page in requested && s.pager.page !in answered
    ensures Running(remote, size, strides[i := s], requested, answered + {s.pager.page},
                    rows + SavedRows(remote, size, s.pager.page), requests)
  {
    var page := s.pager.page;
    AnswerKeeps(remote, size, strides, i, s, requested, answered);
    assert StrideOk(remote, size, strides, i) && Requested(strides, page);
    CollectedAdd(remote, size, answered, page, LastPage(remote, size, |strides|));
  }

  /** The response handler of a stride: save the parsed rows, then go on or stop. */
  method HandleResponse(remote: Remote, size: nat, strides: seq<Stride>, i: nat, rows: seq<Record>, requests: nat,
                        ghost requested: set<nat>, ghost answered: set<nat>)
    returns (strides': seq<Stride>, rows': seq<Record>, ghost page: nat)
    requires size >= 1 && Stoppable(remote) && i < |strides| && strides[i].phase == InFlight
    requires Running(remote, size, strides, requested, answered, rows, requests)
    ensures |strides'| == |strides| && page in requested && page !in answered
    ensures Running(remote, size, strides', requested, answered + {page}, rows', requests)
  {
    assert StrideOk(remote, size, strides, i);
    var s := strides[i];
    page := s.pager.page;
    var parsed := FetchAsync(remote, size, s.pager);
    var s' := s.(phase := if GoesOn(parsed, size) then Advancing else Stopped);
    AnswerRuns(remote, size, strides, i, s', requested, answered, rows, requests);
    strides' := strides[i := s'];
    rows' := rows + parsed.rows;
  }

  /** A next-tick job of a stride: advance the pager, unless it is the first job, and issue the request. */
  method NextTick(remote: Remote, size: nat, strides: seq<Stride>, i: nat, ghost rows: seq<Record>, requests: nat,
                  ghost requested: set<nat>, ghost answered: set<nat>)
    returns (strides': seq<Stride>, requests': nat, ghost page: nat)
    requires size >= 1 && Stoppable(remote) && i < |strides|
    requires strides[i].phase == Queued || strides[i].phase == Advancing
    requires Running(remote, size, strides, requested, answered, rows, requests)
    ensures |strides'| == |strides| && page !in requested && page <= LastPage(remote, size, |strides|)
    ensures Running(remote, size, strides', requested + {page}, answered, rows, requests')
  {
    var s := strides[i];
    var pager := s.pager;
    assert StrideOk(remote, size, strides, i);
    if s.phase == Advancing {
      pager := Advanced(pager, size, |strides|);
    }
    page := pager.page;
    IssueRuns(remote, size, strides, i, Stride(pager, InFlight), requested, answered, rows, requests);
    strides' := strides[i := Stride(pager, InFlight)];
    requests' := requests + 1;
  }

  /** When every stride has stopped, exactly the pages up to the last one were requested and answered. */
  lemma Finished(remote: Remote, size: nat, strides: seq<Stride>, requested: set<nat>, answered: set<nat>,
                 rows: seq<Record>, requests: nat)
    requires size >= 1 && Stoppable(remote)
    requires Running(remote, size, strides, requested, answered, rows, requests)
    requires forall i | 0 <= i < |strides| :: strides[i].phase == Stopped
    ensures multiset(rows) == multiset(remote.items[..SavedLen(remote.items, size, remote.filter)])
    ensures requests == LastPage(remote, size, |strides|)
  {
    var c, last := |strides|, LastPage(remote, size, |strides|);
    forall p: nat | p >= 1 ensures p in answered <==> p <= last ensures p in requested <==> p <= last {
      assert StrideOk(remote, size, strides, Owner(p, c)) && strides[Owner(p, c)].phase == Stopped;
      AllStopped(remote, size, strides, p);
    }
    assert requested == Interval(1, last + 1);
    CollectedInOrder(remote, size, answered, last);
    InOrderIs(remote, size, last);
    BeyondSaved(remote, size, last);
  }

  lemma Started(remote: Remote, size: nat, strides: seq<Stride>)
    requires size >= 1 && |strides| >= 1
    requires forall i | 0 <= i < |strides| :: strides[i] == Stride(Pager(i + 1, size * i, size), Queued)
    ensures Running(remote, size, strides, {}, {}, [], 0)
  {
    var c := |strides|;
    CollectedNone(remote, size, LastPage(remote, size, c));
    forall i | 0 <= i < c ensures StrideOk(remote, size, strides, i) {
      OwnerOfFirst(i, c);
    }
    forall p: nat | p >= 1 ensures !Requested(strides, p) && !Answered(strides, p) {
      var i := Owner(p, c);
      if p < i + 1 {
        OwnerOfFirst(p - 1, c);
      }
    }
  }

  /**
    The step-concurrent strategy. Whatever the order of jobs and responses, the rows saved are the
    pages whose first record is wanted, each once, and `floor(wanted / size) + concurrency` requests
    are made.
   */
  method FetchPagesUndetermined(remote: Remote, size: nat, concurrency: int)
    returns (rows: seq<Record>, requests: nat)
    requires size >= 1 && Stoppable(remote)
    ensures concurrency >= 1 ==>
              multiset(rows) == multiset(remote.items[..SavedLen(remote.items, size, remote.filter)])
    ensures concurrency >= 1 ==> requests == LastFull(remote, size) + concurrency
    ensures concurrency <= 0 ==> rows == [] && requests == 0
  {
    rows, requests := [], 0;
    if concurrency <= 0 {
      return;
    }
    var strides := seq(concurrency, i requires 0 <= i < concurrency => Stride(Pager(i + 1, size * i, size), Queued));
    ghost var last := LastPage(remote, size, concurrency);
    ghost var requested: set<nat>, answered: set<nat>, page := {}, {}, 0;
    Started(remote, size, strides);
    while exists i :: 0 <= i < |strides| && strides[i].phase != Stopped
      invariant |strides| == concurrency
      invariant Running(remote, size, strides, requested, answered, rows, requests)
      decreases 2 * last - |requested| - |answered|
    {
      var i :| 0 <= i < |strides| && strides[i].phase != Stopped;
      SubsetSize(requested, Interval(1, last + 1));
      SubsetSize(answered, requested);
      if strides[i].phase == InFlight {
        strides, rows, page := HandleResponse(remote, size, strides, i, rows, requests, requested, answered);
        answered := answered + {page};
      } else {
        strides, requests, page := NextTick(remote, size, strides, i, rows, requests, requested, answered);
        requested := requested + {page};
      }
      SubsetSize(requested, Interval(1, last + 1));
      SubsetSize(answered, requested);
    }
    Finished(remote, size, strides, requested, answered, rows, requests);
  }

  // ---------------------------------------------------------------------------------------------
  // Sequential and determined strategies

  function AtLeastOne(pages: int): (n: nat)
    ensures n >= 1 && n >= pages && (n == pages || n == 1)
  {
    if pages >= 1 then pages else 1
  }

  /** How much of the listing is saved when paging ends after `pages` pages; page 1 is always fetched. */
  function ReachLen(remote: Remote, size: nat, pages: Option<int>): nat
    requires size >= 1
  {
    var saved := SavedLen(remote.items, size, remote.filter);
    if pages.None? then saved else Min(saved, AtLeastOne(pages.value) * size)
  }

  /**
    The cursor strategy: each page's response is needed to build the next request. The hook answers
    ErrFinishCollect from page `lastPage` on (never, when absent).
   */
  method FetchPagesSequentially(remote: Remote, size: nat, lastPage: Option<int>)
    returns (rows: seq<Record>, requests: nat)
    requires size >= 1 && Stoppable(remote)
    ensures rows == remote.items[..ReachLen(remote, size, lastPage)]
    ensures requests == if lastPage.None? then LastFull(remote, size) + 1
                        else Min(LastFull(remote, size) + 1, AtLeastOne(lastPage.value))
  {
    rows, requests := [], 0;
    var pager := Pager(1, 0, size);
    while true
      invariant PagerOk(pager, size)
      invariant requests == pager.page - 1 <= LastFull(remote, size)
      invariant rows == InOrder(remote, size, pager.page - 1)
      invariant pager.page > 1 && lastPage.Some? ==> pager.page <= lastPage.value
      decreases LastFull(remote, size) + 1 - pager.page
    {
      requests := requests + 1;
      var parsed := FetchAsync(remote, size, pager);
      rows := rows + parsed.rows;
      assert rows == InOrder(remote, size, pager.page);
      if !GoesOn(parsed, size) || (lastPage.Some? && pager.page >= lastPage.value) {
        StoppedAt(remote, size, lastPage, pager.page, GoesOn(parsed, size));
        return;
      }
      pager := Advanced(pager, size, 1);
    }
  }

  lemma StoppedAt(remote: Remote, size: nat, lastPage: Option<int>, page: nat, goesOn: bool)
    requires size >= 1 && page >= 1 && Stoppable(remote)
    requires goesOn || page > LastFull(remote, size)
    requires goesOn ==> lastPage.Some? && page >= lastPage.value
    requires page > 1 && lastPage.Some? ==> page <= lastPage.value
    ensures InOrder(remote, size, page) == remote.items[..ReachLen(remote, size, lastPage)]
  {
    InOrderIs(remote, size, page);
    if !goesOn {
      BeyondSaved(remote, size, page);
      if lastPage.Some? {
        MulMono(page, AtLeastOne(lastPage.value), size);
      }
    }
  }

  /**
    The strategy for APIs that tell the number of pages in their first response. Requests for the
    other pages are issued while earlier ones are answered, in any order.
   */
  method FetchPagesDetermined(remote: Remote, size: nat, totalPages: int) returns (rows: seq<Record>, requests: nat)
    requires size >= 1 && Stoppable(remote)
    ensures multiset(rows) == multiset(remote.items[..ReachLen(remote, size, Some(totalPages))])
    ensures requests == if remote.items != [] && Wanted(remote.items[Min(|remote.items|, size) - 1], remote.filter)
                        then AtLeastOne(totalPages) else 1
  {
    var first := FetchAsync(remote, size, PagerFor(1, size));
    rows, requests := first.rows, 1;
    FirstPageGoesOn(remote, size);
    assert rows == [] + SavedRows(remote, size, 1);
    assert rows == InOrder(remote, size, 1);
    if |rows| == 0 || first.finish {
      FirstPageOnly(remote, size, totalPages);
      return;
    }
    rows, requests := FetchOtherPages(remote, size, totalPages, rows);
    InOrderIs(remote, size, AtLeastOne(totalPages));
  }

  /** The job that fetches pages `2..totalPages` while their responses are handled. */
  method FetchOtherPages(remote: Remote, size: nat, totalPages: int, firstRows: seq<Record>)
    returns (rows: seq<Record>, requests: nat)
    requires size >= 1 && Stoppable(remote)
    requires firstRows == InOrder(remote, size, 1)
    ensures multiset(rows) == multiset(InOrder(remote, size, AtLeastOne(totalPages)))
    ensures requests == AtLeastOne(totalPages)
  {
    hide SavedRows;
    hide Collected;
    hide InOrder;
    rows, requests := firstRows, 1;
    ghost var n := AtLeastOne(totalPages);
    ghost var handled: set<nat> := {1};
    var next: nat, inFlight: set<nat> := 2, {};
    CollectedInOrder(remote, size, handled, 1);
    CollectedGrow(remote, size, handled, 1, n);
    while
      invariant 2 <= next <= n + 1 && requests == next - 1
      invariant forall p: nat :: p in inFlight ==> 2 <= p < next
      invariant forall p: nat :: p in handled <==> 1 <= p < next && p !in inFlight
      invariant multiset(rows) == Collected(remote, size, handled, n)
      decreases 2 * (n + 1 - next) + |inFlight|
    {
      case next <= totalPages =>
        inFlight, next, requests := inFlight + {next}, next + 1, requests + 1;
      case inFlight != {} =>
        var page :| page in inFlight;
        rows := HandlePage(remote, size, page, rows, handled, n);
        handled := handled + {page};
        inFlight := inFlight - {page};
    }
    CollectedInOrder(remote, size, handled, n);
  }

  /** The response of one page is handled. */
  method HandlePage(remote: Remote, size: nat, page: nat, saved: seq<Record>, ghost handled: set<nat>, ghost n: nat)
    returns (rows: seq<Record>)
    requires size >= 1 && Stoppable(remote) && 1 <= page <= n && page !in handled
    requires multiset(saved) == Collected(remote, size, handled, n)
    ensures multiset(rows) == Collected(remote, size, handled + {page}, n)
  {
    hide SavedRows;
    hide Collected;
    var answer := FetchAsync(remote, size, PagerFor(page, size));
    CollectedAdd(remote, size, handled, page, n);
    MultisetSum(saved, answer.rows);
    rows := saved + answer.rows;
  }

  lemma {:induction false} CollectedGrow(remote: Remote, size: nat, handled: set<nat>, m: nat, n: nat)
    requires m <= n && forall p | p in handled :: p <= m
    ensures Collected(remote, size, handled, n) == Collected(remote, size, handled, m)
  {
    if m < n {
      CollectedGrow(remote, size, handled, m, n - 1);
    }
  }

  /** The first page leads to the others unless it is empty or its last record is unwanted. */
  lemma FirstPageGoesOn(remote: Remote, size: nat)
    requires size >= 1 && Stoppable(remote)
    ensures var first := ParseResponse(PageOf(remote.items, size, 1), remote.filter);
            |first.rows| > 0 && !first.finish
            <==> remote.items != [] && Wanted(remote.items[Min(|remote.items|, size) - 1], remote.filter)
  {
    var n := Min(|remote.items|, size);
    assert PageOf(remote.items, size, 1) == remote.items[..n];
    if n > 0 {
      assert remote.items[..n][n - 1] == remote.items[n - 1] && remote.items[..n][0] == remote.items[0];
      WantedIsPrefix(remote, n - 1);
      WantedIsPrefix(remote, 0);
    }
  }

  lemma FirstPageOnly(remote: Remote, size: nat, totalPages: int)
    requires size >= 1 && Stoppable(remote)
    requires !Continues(remote, size, 1)
    ensures InOrder(remote, size, 1) == remote.items[..ReachLen(remote, size, Some(totalPages))]
  {
    ContinuesIff(remote, size, 1);
    FloorIff(WantedLen(remote.items, remote.filter), size, 1);
    BeyondSaved(remote, size, 1);
    InOrderIs(remote, size, 1);
    MulMono(1, AtLeastOne(totalPages), size);
  }

  /** Paging that ends after `pages` pages loses nothing exactly when those pages cover what is to be saved. */
  lemma ReachesAllIff(remote: Remote, size: nat, pages: int)
    requires size >= 1
    ensures multiset(remote.items[..ReachLen(remote, size, Some(pages))])
            == multiset(remote.items[..SavedLen(remote.items, size, remote.filter)])
            <==> AtLeastOne(pages) * size >= SavedLen(remote.items, size, remote.filter)
  {
    var reached, saved := ReachLen(remote, size, Some(pages)), SavedLen(remote.items, size, remote.filter);
    assert |multiset(remote.items[..reached])| == reached && |multiset(remote.items[..saved])| == saved;
  }

  /** With no filter the whole listing is saved, and the ceiling of `T / size` pages covers it. */
  lemma CeilingCovers(remote: Remote, size: nat)
    requires size >= 1 && remote.filter.None?
    ensures SavedLen(remote.items, size, remote.filter) == |remote.items|
    ensures AtLeastOne((|remote.items| + size - 1) / size) * size >= |remote.items|
  {
    var t := |remote.items|;
    CeilBounds(t, size);
    WantedIsPrefixLen(remote);
  }

  lemma WantedIsPrefixLen(remote: Remote)
    requires remote.filter.None?
    ensures WantedLen(remote.items, remote.filter) == |remote.items|
  {
    if WantedLen(remote.items, remote.filter) < |remote.items| {
      assert false;
    }
  }

  // ---------------------------------------------------------------------------------------------
  // Choice of the strategy

  /** Which hooks of the collector arguments are set, and what they answer. */
  datatype Hooks = Hooks(pageSize: int, nextPage: Option<Option<int>>, totalPages: Option<int>, concurrency: int)

  /** The number of strides when `Concurrency` is not set. */
  function DefaultConcurrency(hasInput: bool, workers: int): (c: int)
    ensures c >= 1
  {
    if hasInput then 2 else if workers / 10 < 10 then 10 else workers / 10
  }

  /** What one `exec` adds to the raw table, up to order. */
  function Gathered(remote: Remote, hooks: Hooks): seq<Record> {
    if hooks.pageSize <= 0 then
      ParseResponse(remote.items, remote.filter).rows
    else if hooks.nextPage.Some? then
      remote.items[..ReachLen(remote, hooks.pageSize, hooks.nextPage.value)]
    else if hooks.totalPages.Some? then
      remote.items[..ReachLen(remote, hooks.pageSize, hooks.totalPages)]
    else if hooks.concurrency >= 0 then
      remote.items[..SavedLen(remote.items, hooks.pageSize, remote.filter)]
    else []
  }

  /** Without a concurrency the strategy takes 2 strides under an input, or else a tenth of the workers and at least 10. */
  method Exec(remote: Remote, hooks: Hooks, hasInput: bool, workers: int) returns (rows: seq<Record>, requests: nat)
    requires Stoppable(remote)
    ensures multiset(rows) == multiset(Gathered(remote, hooks))
    ensures hooks.pageSize <= 0 ==> requests == 1
    ensures hooks.pageSize >= 1 && hooks.nextPage.None? && hooks.totalPages.None? && hooks.concurrency >= 0 ==>
              requests == LastFull(remote, hooks.pageSize)
                          + if hooks.concurrency > 0 then hooks.concurrency
                            else if hasInput then 2 else if workers >= 110 then workers / 10 else 10
  {
    requests := 1;
    if hooks.pageSize <= 0 {
      rows := ParseResponse(remote.items, remote.filter).rows;
    } else if hooks.nextPage.Some? {
      rows, requests := FetchPagesSequentially(remote, hooks.pageSize, hooks.nextPage.value);
    } else if hooks.totalPages.Some? {
      rows, requests := FetchPagesDetermined(remote, hooks.pageSize, hooks.totalPages.value);
    } else {
      var c := if hooks.concurrency == 0 then DefaultConcurrency(hasInput, workers) else hooks.concurrency;
      rows, requests := FetchPagesUndetermined(remote, hooks.pageSize, c);
    }
  }

  /** A hook that ends paging early enough to lose records does so here. */
  predicate Complete(remote: Remote, hooks: Hooks) {
    hooks.pageSize <= 0 ||
    if hooks.nextPage.Some? then
      hooks.nextPage.value.Some? ==>
        AtLeastOne(hooks.nextPage.value.value) * hooks.pageSize
          >= SavedLen(remote.items, hooks.pageSize, remote.filter)
    else if hooks.totalPages.Some? then
      AtLeastOne(hooks.totalPages.value) * hooks.pageSize >= SavedLen(remote.items, hooks.pageSize, remote.filter)
    else hooks.concurrency >= 0
  }

  /** Two collections of the same listing by any two complete strategies with the same page size save the same multiset of rows. */
  method StrategiesAgree(remote: Remote, a: Hooks, b: Hooks, hasInput: bool, workers: int)
    returns (rowsA: seq<Record>, rowsB: seq<Record>)
    requires Stoppable(remote) && Complete(remote, a) && Complete(remote, b) && a.pageSize == b.pageSize >= 1
    ensures multiset(rowsA) == multiset(rowsB)
            == multiset(remote.items[..SavedLen(remote.items, a.pageSize, remote.filter)])
  {
    var requests;
    rowsA, requests := Exec(remote, a, hasInput, workers);
    rowsB, requests := Exec(remote, b, hasInput, workers);
  }

  /** Every complete strategy saves every wanted record. */
  lemma CompleteGathersWanted(remote: Remote, hooks: Hooks, i: nat)
    requires Stoppable(remote) && Complete(remote, hooks)
    requires i < |remote.items| && Wanted(remote.items[i], remote.filter)
    ensures remote.items[i] in Gathered(remote, hooks)
  {
    if hooks.pageSize >= 1 {
      StopRuleIsTight(remote, hooks.pageSize);
    } else {
      WantedIsPrefix(remote, i);
      WantedIsPrefix(remote, 0);
    }
    assert Gathered(remote, hooks)[i] == remote.items[i];
  }

  /** Whatever the hooks, what is gathered is the listing up to some record; with pages fewer than a page of it is unwanted. */
  lemma GathersFewUnwanted(remote: Remote, hooks: Hooks)
    requires Stoppable(remote)
    ensures Gathered(remote, hooks) <= remote.items
    ensures hooks.pageSize >= 1 ==>
              |set i | 0 <= i < |Gathered(remote, hooks)| && !Wanted(remote.items[i], remote.filter)| < hooks.pageSize
    ensures hooks.pageSize <= 0 ==>
              Gathered(remote, hooks) == if remote.items != [] && Wanted(remote.items[0], remote.filter) then remote.items else []
  {
    if hooks.pageSize >= 1 {
      var n := WantedLen(remote.items, remote.filter);
      CeilBounds(n, hooks.pageSize);
      FewerThanAPage(remote, hooks.pageSize, |Gathered(remote, hooks)|);
    }
  }
}
