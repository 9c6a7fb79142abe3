/** Stage 5 of the pipeline (05_get_counts.py): the click count of every shortlink,
    read from the link-shortening service's list endpoint one page at a time. Each
    request passes the id of the last link seen so far as the `last` cursor; the number
    of requests is fixed in advance from the expected link count and the page size.
    The endpoint is an input: the page it answers to the k-th request of the run, given
    that request's query. */
module GetCounts {
  import opened Decimal

  /** One item of the list endpoint's JSON answer, reduced to the fields read. */
  datatype Link = Link(id: string, slashtag: string, shortUrl: string, clicks: int)

  /** The query string of one list request (lines 47-52). */
  datatype Query = Query(orderBy: string, orderDir: string, limit: string, last: string)

  type Endpoint = (nat, Query) -> seq<Link>

  /** The script's starting values (lines 26-27). */
  const NLinks: int := 2404
  const RequestLimit: int := 25

  /** Every request asks for the newest links first with limit "5000"; only the cursor
      varies, and the page size is never sent. */
  function ListQuery(last: string): (q: Query)
    ensures q.orderBy == "createdAt" && q.orderDir == "desc" && q.limit == "5000"
    ensures q.last == last
  {
    Query("createdAt", "desc", "5000", last)
  }

  /** `ceil(n / r)` of the exact quotient: the least integer at or above it. */
  function CeilDiv(n: int, r: int): (c: int)
    requires r != 0
    ensures r > 0 ==> (c - 1) * r < n <= c * r
    ensures r < 0 ==> c * r <= n < (c - 1) * r
  {
    if r > 0 then
      var q := (-n) / r;
      assert -n == q * r + (-n) % r;
      -q
    else
      var q := n / (-r);
      assert n == q * (-r) + n % (-r);
      -q
  }

  /** The number of passes of `for i in np.arange(np.ceil(n_links / request_limit))`
      (line 44): the ceiling when it is positive, none otherwise. A zero request_limit
      raises ZeroDivisionError, hence the requires. */
  function IterationCount(nLinks: int, requestLimit: int): (k: nat)
    requires requestLimit != 0
    ensures k > 0 <==> CeilDiv(nLinks, requestLimit) > 0
    ensures k > 0 ==> k == CeilDiv(nLinks, requestLimit)
  {
    var c := CeilDiv(nLinks, requestLimit);
    if c > 0 then c else 0
  }

  /** With a positive page size there are just enough requests for `n` links: one page
      fewer would not hold them all. */
  lemma IterationCountBounds(n: int, r: int)
    requires r > 0
    ensures var k := IterationCount(n, r);
            (k == 0 <==> n <= 0) && (n > 0 ==> (k - 1) * r < n <= k * r)
  {
  }

  /** The script's own numbers: 97 requests for 2404 links at 25 per page; two for 50;
      none when no links are expected. */
  lemma IterationCountExamples()
    ensures IterationCount(NLinks, RequestLimit) == 97
    ensures IterationCount(50, 25) == 2 && IterationCount(0, 25) == 0
  {
    assert CeilDiv(NLinks, RequestLimit) == 97 by {
      assert (97 - 1) * 25 < 2404 <= 97 * 25;
    }
    assert CeilDiv(50, 25) == 2 by {
      assert (2 - 1) * 25 < 50 <= 2 * 25;
    }
  }

  /** The state of the as-written loop after some passes: still fetching, with the links
      collected so far and the cursor for the next request, or stopped by the IndexError
      of `json[-1]` on an empty page (line 67) in the given request. */
  datatype Progress = Fetching(links: seq<Link>, last: string) | Faulted(request: nat)

  /** The loop of lines 44-67 after `k` passes. */
  function Fetch(api: Endpoint, k: nat): (p: Progress)
    ensures p.Faulted? ==> p.request < k
    ensures p.Fetching? && k == 0 ==> p.links == [] && p.last == ""
    ensures p.Fetching? && k > 0 ==> p.links != [] && p.last == p.links[|p.links| - 1].id
  {
    if k == 0 then Fetching([], "")
    else
      match Fetch(api, k - 1)
      case Faulted(j) => Faulted(j)
      case Fetching(links, last) =>
        var page := api(k - 1, ListQuery(last));
        if page == [] then Faulted(k - 1)
        else Fetching(links + page, page[|page| - 1].id)
  }

  /** The page answered to request k of a run that got that far. */
  function PageAt(api: Endpoint, k: nat): seq<Link>
    requires Fetch(api, k).Fetching?
  {
    api(k, ListQuery(Fetch(api, k).last))
  }

  /** One more pass of a run that is still fetching. */
  lemma FetchStep(api: Endpoint, k: nat)
    requires Fetch(api, k).Fetching?
    ensures var page := PageAt(api, k);
            Fetch(api, k + 1) == if page == [] then Faulted(k)
                                 else Fetching(Fetch(api, k).links + page, page[|page| - 1].id)
  {
  }

  /** A fault ends the run: every later pass reports the same request. */
  lemma {:induction false} FaultIsFinal(api: Endpoint, j: nat, k: nat)
    requires j <= k && Fetch(api, j).Faulted?
    ensures Fetch(api, k) == Fetch(api, j)
    decreases k
  {
    if k > j {
      FaultIsFinal(api, j, k - 1);
    }
  }

  /** A run still fetching after k passes was fetching after every earlier pass j, had a
      non-empty page in request j, and extended its links by exactly that page. */
  lemma {:induction false} FetchingBefore(api: Endpoint, j: nat, k: nat)
    requires j < k && Fetch(api, k).Fetching?
    ensures Fetch(api, j).Fetching? && PageAt(api, j) != []
    ensures Fetch(api, j + 1).links == Fetch(api, j).links + PageAt(api, j)
    ensures Fetch(api, j + 1).last == PageAt(api, j)[|PageAt(api, j)| - 1].id
    ensures Fetch(api, j).links <= Fetch(api, k).links
    decreases k
  {
    if j < k - 1 {
      FetchingBefore(api, j, k - 1);
    }
  }

  /** A faulted run failed in request j: the run was fetching then, the page answered
      was empty, and every earlier request had a non-empty page. */
  lemma {:induction false} FaultedOnEmptyPage(api: Endpoint, k: nat)
    requires Fetch(api, k).Faulted?
    ensures var j := Fetch(api, k).request;
            Fetch(api, j).Fetching? && PageAt(api, j) == [] && Fetch(api, j + 1) == Fetch(api, k)
    decreases k
  {
    if Fetch(api, k - 1).Faulted? {
      FaultedOnEmptyPage(api, k - 1);
    }
  }

  /** Each request after the first continues from the last link of the page before:
      the cursor of request k + 1 is the id of the last item of page k. */
  lemma CursorIsLastOfPreviousPage(api: Endpoint, k: nat)
    requires Fetch(api, k + 1).Fetching?
    ensures Fetch(api, k).Fetching? && PageAt(api, k) != []
    ensures Fetch(api, k + 1).last == PageAt(api, k)[|PageAt(api, k)| - 1].id
  {
    FetchingBefore(api, k, k + 1);
  }

  /** What the script ends with: the assembled rows, or the fault that aborts it. */
  datatype Outcome = Completed(clicks: seq<Link>) | EmptyPageFault(request: nat)

  /** The four parallel lists of lines 38-41 and 60-64. */
  function Ids(links: seq<Link>): (r: seq<string>)
    ensures |r| == |links| && forall i :: 0 <= i < |links| ==> r[i] == links[i].id
  {
    seq(|links|, i requires 0 <= i < |links| => links[i].id)
  }

  function Slashtags(links: seq<Link>): (r: seq<string>)
    ensures |r| == |links| && forall i :: 0 <= i < |links| ==> r[i] == links[i].slashtag
  {
    seq(|links|, i requires 0 <= i < |links| => links[i].slashtag)
  }

  function ShortUrls(links: seq<Link>): (r: seq<string>)
    ensures |r| == |links| && forall i :: 0 <= i < |links| ==> r[i] == links[i].shortUrl
  {
    seq(|links|, i requires 0 <= i < |links| => links[i].shortUrl)
  }

  function Clicks(links: seq<Link>): (r: seq<int>)
    ensures |r| == |links| && forall i :: 0 <= i < |links| ==> r[i] == links[i].clicks
  {
    seq(|links|, i requires 0 <= i < |links| => links[i].clicks)
  }

  /** Splitting a concatenation splits each part. */
  lemma ProjectionsAppend(a: seq<Link>, b: seq<Link>)
    ensures Ids(a + b) == Ids(a) + Ids(b) && Slashtags(a + b) == Slashtags(a) + Slashtags(b)
    ensures ShortUrls(a + b) == ShortUrls(a) + ShortUrls(b) && Clicks(a + b) == Clicks(a) + Clicks(b)
  {
  }

  /** The DataFrame of lines 70-75, one row per position of the four lists (which
      pandas requires to have the same length). */
  function Assemble(ids: seq<string>, slashtags: seq<string>, shortUrls: seq<string>, clicks: seq<int>): (rows: seq<Link>)
    requires |slashtags| == |ids| && |shortUrls| == |ids| && |clicks| == |ids|
    ensures |rows| == |ids|
  {
    seq(|ids|, i requires 0 <= i < |ids| => Link(ids[i], slashtags[i], shortUrls[i], clicks[i]))
  }

  /** Splitting links into the four lists and assembling them gives the links back, so
      row j's four fields come from the same item. */
  lemma AssembleSplit(links: seq<Link>)
    ensures Assemble(Ids(links), Slashtags(links), ShortUrls(links), Clicks(links)) == links
  {
  }

  /** Conversely, the lists are the columns of the assembled rows. */
  lemma SplitAssemble(ids: seq<string>, slashtags: seq<string>, shortUrls: seq<string>, clicks: seq<int>)
    requires |slashtags| == |ids| && |shortUrls| == |ids| && |clicks| == |ids|
    ensures var rows := Assemble(ids, slashtags, shortUrls, clicks);
            Ids(rows) == ids && Slashtags(rows) == slashtags && ShortUrls(rows) == shortUrls && Clicks(rows) == clicks
  {
  }

  /** The inner loop (lines 60-64): the fields of every item of a page are appended to
      the four lists, in the page's order. */
  method AppendPage(ids: seq<string>, slashtags: seq<string>, shortUrls: seq<string>, clicks: seq<int>,
                    page: seq<Link>)
    returns (ids': seq<string>, slashtags': seq<string>, shortUrls': seq<string>, clicks': seq<int>)
    ensures ids' == ids + Ids(page) && slashtags' == slashtags + Slashtags(page)
    ensures shortUrls' == shortUrls + ShortUrls(page) && clicks' == clicks + Clicks(page)
  {
    ids', slashtags', shortUrls', clicks' := ids, slashtags, shortUrls, clicks;
    for j := 0 to |page|
      invariant ids' == ids + Ids(page[..j]) && slashtags' == slashtags + Slashtags(page[..j])
      invariant shortUrls' == shortUrls + ShortUrls(page[..j]) && clicks' == clicks + Clicks(page[..j])
    {
      var item := page[j];
      ids' := ids' + [item.id];
      slashtags' := slashtags' + [item.slashtag];
      shortUrls' := shortUrls' + [item.shortUrl];
      clicks' := clicks' + [item.clicks];
    }
    assert page[..|page|] == page;
  }

  /** The requests made in the first `n` passes: pass k sends the cursor its state
      holds, unless the run has already faulted. */
  function Requests(api: Endpoint, n: nat): (queries: seq<Query>)
    ensures |queries| <= n
  {
    if n == 0 then []
    else
      match Fetch(api, n - 1)
      case Faulted(_) => Requests(api, n - 1)
      case Fetching(_, last) => Requests(api, n - 1) + [ListQuery(last)]
  }

  /** Request by request: request k went out from a run still fetching after k passes,
      with that state's cursor; in particular the first request has an empty cursor. */
  lemma {:induction false} RequestsAt(api: Endpoint, n: nat, k: nat)
    requires k < |Requests(api, n)|
    ensures Fetch(api, k).Fetching? && Requests(api, n)[k] == ListQuery(Fetch(api, k).last)
    ensures k == 0 ==> Requests(api, n)[k] == ListQuery("")
    decreases n
  {
    RequestsCount(api, n - 1);
    if k < |Requests(api, n - 1)| {
      RequestsAt(api, n - 1, k);
    }
  }

  /** A run with no fault makes one request per pass; a run that faulted in request j
      made exactly j + 1. */
  lemma {:induction false} RequestsCount(api: Endpoint, n: nat)
    ensures Fetch(api, n).Fetching? ==> |Requests(api, n)| == n
    ensures Fetch(api, n).Faulted? ==> |Requests(api, n)| == Fetch(api, n).request + 1
    decreases n
  {
    if n > 0 {
      RequestsCount(api, n - 1);
    }
  }

  /** Once the run has faulted no further request is made. */
  lemma {:induction false} NoRequestsAfterFault(api: Endpoint, j: nat, n: nat)
    requires j <= n && Fetch(api, j).Faulted?
    ensures Requests(api, n) == Requests(api, j)
    decreases n
  {
    if n > j {
      FaultIsFinal(api, j, n - 1);
      NoRequestsAfterFault(api, j, n - 1);
    }
  }

  /** A run still fetching after k passes had a non-empty page in every request. */
  lemma FetchingThroughout(api: Endpoint, k: nat)
    requires Fetch(api, k).Fetching?
    ensures forall j :: 0 <= j < k ==> Fetch(api, j).Fetching? && PageAt(api, j) != []
  {
    forall j | 0 <= j < k
      ensures Fetch(api, j).Fetching? && PageAt(api, j) != []
    {
      FetchingBefore(api, j, k);
    }
  }

  /** The outcome of a run with `count` passes: the rows when every request had a
      non-empty page, otherwise the fault of the request whose page was empty. */
  function Harvest(api: Endpoint, count: nat): (outcome: Outcome)
    ensures outcome.Completed? ==> forall j :: 0 <= j < count ==> Fetch(api, j).Fetching? && PageAt(api, j) != []
    ensures outcome.Completed? && count > 0 ==> outcome.clicks != []
    ensures outcome.EmptyPageFault? ==>
              outcome.request < count && Fetch(api, outcome.request).Fetching? && PageAt(api, outcome.request) == []
  {
    match Fetch(api, count)
    case Fetching(links, _) => FetchingThroughout(api, count); Completed(links)
    case Faulted(j) => FaultedOnEmptyPage(api, count); EmptyPageFault(j)
  }

  /** The script as written (lines 25-75): `count` requests when no page comes back
      empty, the first with an empty cursor and each later one with the previous
      state's cursor; an empty page aborts the run in the request that returned it.
      `queries` lists the requests made. */
  method GetCounts(nLinks: int, requestLimit: int, api: Endpoint) returns (outcome: Outcome, queries: seq<Query>)
    requires requestLimit != 0
    ensures outcome == Harvest(api, IterationCount(nLinks, requestLimit))
    ensures queries == Requests(api, IterationCount(nLinks, requestLimit))
  {
    var count := IterationCount(nLinks, requestLimit);
    var last := "";                                                  // line 28
    var ids, slashtags, shortUrls, nClicks := [], [], [], [];        // lines 38-41
    ghost var collected: seq<Link> := [];
    queries := [];
    var i := 0;
    while i < count                                                  // line 44
      invariant 0 <= i <= count
      invariant Fetch(api, i) == Fetching(collected, last)
      invariant ids == Ids(collected) && slashtags == Slashtags(collected)
      invariant shortUrls == ShortUrls(collected) && nClicks == Clicks(collected)
      invariant queries == Requests(api, i)
    {
      var query := ListQuery(last);                                  // lines 47-52
      queries := queries + [query];
      var json := api(i, query);                                     // lines 55-56
      ids, slashtags, shortUrls, nClicks := AppendPage(ids, slashtags, shortUrls, nClicks, json);
      FetchStep(api, i);
      if json == [] {                                                // line 67: json[-1] raises
        FaultIsFinal(api, i + 1, count);
        NoRequestsAfterFault(api, i + 1, count);
        outcome := EmptyPageFault(i);
        return;
      }
      last := json[|json| - 1].id;                                   // line 67
      ProjectionsAppend(collected, json);
      collected := collected + json;
      i := i + 1;
    }
    AssembleSplit(collected);
    outcome := Completed(Assemble(ids, slashtags, shortUrls, nClicks));  // lines 70-75
  }

  /** The state of the loop as evidently intended: the links collected, the cursor, and
      whether an empty page has ended the pagination. */
  datatype Gathered = Gathered(links: seq<Link>, last: string, exhausted: bool)

  /** The intended loop after `k` passes: an empty page ends the pagination, keeping
      what was collected, instead of faulting. */
  function Gather(api: Endpoint, k: nat): (g: Gathered)
    ensures g.exhausted ==> k > 0
    ensures !g.exhausted && k == 0 ==> g.links == [] && g.last == ""
    ensures !g.exhausted && k > 0 ==> g.links != [] && g.last == g.links[|g.links| - 1].id
  {
    if k == 0 then Gathered([], "", false)
    else
      var g := Gather(api, k - 1);
      if g.exhausted then g
      else
        var page := api(k - 1, ListQuery(g.last));
        if page == [] then g.(exhausted := true)
        else Gathered(g.links + page, page[|page| - 1].id, false)
  }

  /** The intended loop agrees with the script as long as no page is empty; where the
      script faults in request j, it ends with the links collected before request j. */
  lemma {:induction false} GatherAgrees(api: Endpoint, k: nat)
    ensures Fetch(api, k).Fetching? ==> Gather(api, k) == Gathered(Fetch(api, k).links, Fetch(api, k).last, false)
    ensures Fetch(api, k).Faulted? ==>
              Gather(api, k).exhausted && Fetch(api, Fetch(api, k).request).Fetching? &&
              Gather(api, k).links == Fetch(api, Fetch(api, k).request).links
    decreases k
  {
    if k > 0 {
      GatherAgrees(api, k - 1);
      if Fetch(api, k).Faulted? {
        FaultedOnEmptyPage(api, k);
      }
    }
  }

  /** A service that answers one page of links to the first request and an empty page
      to every later one. */
  function OnePageService(page: seq<Link>): Endpoint {
    (k: nat, q: Query) => if k == 0 then page else []
  }

  /** Expecting 50 links at 25 per page while the service holds a single page: the
      script makes its second request, gets an empty page and faults, while the
      intended loop returns the page it has. */
  lemma OnePageFaults(page: seq<Link>)
    requires page != []
    ensures Fetch(OnePageService(page), IterationCount(50, 25)) == Faulted(1)
    ensures Gather(OnePageService(page), IterationCount(50, 25)).links == page
  {
    var api := OnePageService(page);
    IterationCountExamples();
    assert api(0, ListQuery("")) == page;
    assert Fetch(api, 1) == Fetching([] + page, page[|page| - 1].id);
    assert api(1, ListQuery(page[|page| - 1].id)) == [];
    assert Fetch(api, 2) == Faulted(1);
    GatherAgrees(api, 2);
  }

  /** The loop as evidently intended (lines 44-75 with the empty page handled): the
      same requests as the script until a page comes back empty, then the rows
      collected so far. */
  method CollectUntilEmpty(nLinks: int, requestLimit: int, api: Endpoint) returns (clicks: seq<Link>, queries: seq<Query>)
    requires requestLimit != 0
    ensures clicks == Gather(api, IterationCount(nLinks, requestLimit)).links
    ensures queries == Requests(api, IterationCount(nLinks, requestLimit))
  {
    var count := IterationCount(nLinks, requestLimit);
    var last := "";
    var ids, slashtags, shortUrls, nClicks := [], [], [], [];
    ghost var collected: seq<Link> := [];
    queries := [];
    var i := 0;
    while i < count
      invariant 0 <= i <= count
      invariant Fetch(api, i) == Fetching(collected, last)
      invariant ids == Ids(collected) && slashtags == Slashtags(collected)
      invariant shortUrls == ShortUrls(collected) && nClicks == Clicks(collected)
      invariant queries == Requests(api, i)
    {
      var query := ListQuery(last);
      queries := queries + [query];
      var json := api(i, query);
      FetchStep(api, i);
      if json == [] {
        FaultIsFinal(api, i + 1, count);
        NoRequestsAfterFault(api, i + 1, count);
        GatherAgrees(api, count);
        break;
      }
      ids, slashtags, shortUrls, nClicks := AppendPage(ids, slashtags, shortUrls, nClicks, json);
      last := json[|json| - 1].id;
      ProjectionsAppend(collected, json);
      collected := collected + json;
      i := i + 1;
    }
    if i == count {
      GatherAgrees(api, count);
    }
    AssembleSplit(collected);
    clicks := Assemble(ids, slashtags, shortUrls, nClicks);
  }
}
