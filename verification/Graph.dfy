/**
 The two loops every Graph call goes through (app/graph.py): bounded retries of one request, and
 bounded following of next links. `wire(k)` is what the k-th attempt of a request meets, from 1 on.
 */
module GraphCalls {
  import opened Basics

  const MAX_ATTEMPTS := 3
  const MAX_RETRY_AFTER_SECONDS := 60.0
  const MAX_PAGES := 1000

  /** The Retry-After header as the client can use it: `float()` of it, if that works. */
  datatype RetryAfter = Unusable | Seconds(seconds: real)

  datatype Entry = Object(fields: map<string, string>) | NotAnObject

  datatype ValueField = Absent | NotAList | Entries(entries: seq<Entry>)

  datatype Body = Empty | NotJson | NotJsonObject | JsonObject(value: ValueField, nextLink: Option<string>)

  datatype Attempt =
    | TimedOut
    | TransportFailed
    | Response(status: int, retryAfter: RetryAfter, body: Body)

  datatype Reply = Replied(status: int, body: Body) | HttpError(code: Option<int>)

  // ---------------------------------------------------------------- retries

  predicate Retryable(a: Attempt) {
    !a.Response? || a.status == 429 || a.status == 503
  }

  function Pow2(n: nat): nat {
    if n == 0 then 1 else 2 * Pow2(n - 1)
  }

  /** 1, 2, 4, ... seconds. */
  function Backoff(attempt: nat): real
    requires attempt >= 1
  {
    Pow2(attempt - 1) as real
  }

  /** How long to wait after a failed attempt. */
  function Delay(a: Attempt, attempt: nat): real
    requires attempt >= 1
  {
    if a.Response? && a.retryAfter.Seconds? && a.retryAfter.seconds >= 0.0 then
      if a.retryAfter.seconds <= MAX_RETRY_AFTER_SECONDS then a.retryAfter.seconds else MAX_RETRY_AFTER_SECONDS
    else Backoff(attempt)
  }

  /** What the caller gets when no attempt follows this one. */
  function ReplyOf(a: Attempt): Reply {
    match a
    case TimedOut => HttpError(None)
    case TransportFailed => HttpError(None)
    case Response(status, _, body) => if status >= 400 then HttpError(Some(status)) else Replied(status, body)
  }

  /** The waits before attempt `k`. */
  function Waits(wire: nat -> Attempt, k: nat): (r: seq<real>)
    ensures k >= 1 ==> |r| == k - 1
  {
    if k <= 1 then [] else Waits(wire, k - 1) + [Delay(wire(k - 1), k - 1)]
  }

  /** Attempt `k` is the last of at most `n`: the ones before it could be retried, and it cannot be or
      is the n-th. */
  predicate LastAttempt(wire: nat -> Attempt, n: nat, k: nat) {
    && 1 <= k <= n
    && (forall j :: 1 <= j < k ==> Retryable(wire(j)))
    && (k == n || !Retryable(wire(k)))
  }

  lemma LastAttemptUnique(wire: nat -> Attempt, n: nat, j: nat, k: nat)
    requires LastAttempt(wire, n, j) && LastAttempt(wire, n, k)
    ensures j == k
  {
    assert j < k ==> Retryable(wire(j));
    assert k < j ==> Retryable(wire(k));
  }

  // ---------------------------------------------------------------- what a request promises

  /** After such an attempt another one is made: no answer, a throttle or an overload. */
  ghost predicate GoesOn(a: Attempt) {
    a.Response? ==> a.status in {429, 503}
  }

  /** The request ends with attempt `k` of at most `n`. */
  ghost predicate EndsWith(wire: nat -> Attempt, n: int, k: nat) {
    && 1 <= k <= n
    && (forall j :: 1 <= j < k ==> GoesOn(wire(j)))
    && (k < n ==> !GoesOn(wire(k)))
  }

  /** A caller whose request ends with `a` is given `reply`: the response, or an error with its status. */
  ghost predicate Gives(a: Attempt, reply: Reply) {
    && (a.Response? && a.status < 400 ==> reply == Replied(a.status, a.body))
    && (a.Response? && a.status >= 400 ==> reply == HttpError(Some(a.status)))
    && (!a.Response? ==> reply == HttpError(None))
  }

  /** The wait after attempt `k`: what the server asks for, up to a minute, and otherwise 1, 2, 4, ... */
  ghost predicate WaitsFor(a: Attempt, k: nat, wait: real)
    requires k >= 1
  {
    if a.Response? && a.retryAfter.Seconds? && a.retryAfter.seconds >= 0.0 then
      && wait <= a.retryAfter.seconds && wait <= 60.0
      && (wait == a.retryAfter.seconds || wait == 60.0)
    else
      wait == Pow2(k - 1) as real
  }

  lemma {:induction false} WaitsAsAsked(wire: nat -> Attempt, k: nat, j: nat)
    requires 1 <= j < k
    ensures WaitsFor(wire(j), j, Waits(wire, k)[j - 1])
  {
    if j < k - 1 {
      WaitsAsAsked(wire, k - 1, j);
    }
  }

  lemma LastEnds(wire: nat -> Attempt, n: nat, k: nat)
    ensures LastAttempt(wire, n, k) <==> EndsWith(wire, n, k)
    ensures Gives(wire(k), ReplyOf(wire(k)))
  {
    assert forall j :: Retryable(wire(j)) <==> GoesOn(wire(j));
  }

  /** `request_with_retry`: it stops at the first attempt that cannot be retried, or at the n-th. */
  method RequestWithRetry(wire: nat -> Attempt, maxAttempts: int)
    returns (reply: Reply, requests: nat, sleeps: seq<real>)
    ensures maxAttempts >= 1 ==> EndsWith(wire, maxAttempts, requests) && Gives(wire(requests), reply)
    ensures maxAttempts >= 1 ==> |sleeps| == requests - 1
    ensures maxAttempts >= 1 ==> forall j :: 1 <= j < requests ==> WaitsFor(wire(j), j, sleeps[j - 1])
    ensures maxAttempts >= 1 ==> LastAttempt(wire, maxAttempts, requests) && reply == ReplyOf(wire(requests))
    ensures maxAttempts >= 1 ==> sleeps == Waits(wire, requests)
    ensures maxAttempts < 1 ==> requests == 0 && sleeps == [] && reply == HttpError(None)
    ensures reply.Replied? ==> reply.status < 400
  {
    requests, sleeps := 0, [];
    forall k: nat, j: nat | 1 <= j < k ensures WaitsFor(wire(j), j, Waits(wire, k)[j - 1]) {
      WaitsAsAsked(wire, k, j);
    }
    var attempt := 1;
    while attempt <= maxAttempts
      invariant 1 <= attempt && requests == attempt - 1
      invariant if maxAttempts >= 1 then attempt <= maxAttempts else attempt == 1
      invariant sleeps == Waits(wire, attempt)
      invariant forall j :: 1 <= j < attempt ==> Retryable(wire(j))
      decreases maxAttempts - attempt
    {
      var response := wire(attempt);
      requests := attempt;
      if !response.Response? {
        if attempt >= maxAttempts {
          return HttpError(None), requests, sleeps;
        }
        sleeps := sleeps + [Backoff(attempt)];
      } else if (response.status == 429 || response.status == 503) && attempt < maxAttempts {
        sleeps := sleeps + [Delay(response, attempt)];
      } else if response.status >= 400 {
        return HttpError(Some(response.status)), requests, sleeps;
      } else {
        return Replied(response.status, response.body), requests, sleeps;
      }
      attempt := attempt + 1;
    }
    reply := HttpError(None);
  }

  function Sum(s: seq<real>): real {
    if s == [] then 0.0 else Sum(s[..|s| - 1]) + s[|s| - 1]
  }

  /** With no usable Retry-After, k requests sleep exactly 2^(k-1) - 1 seconds. */
  lemma {:induction false} BackoffTotal(wire: nat -> Attempt, k: nat)
    requires k >= 1
    requires forall j :: 1 <= j < k && wire(j).Response? ==>
               wire(j).retryAfter.Unusable? || wire(j).retryAfter.seconds < 0.0
    ensures Sum(Waits(wire, k)) == (Pow2(k - 1) - 1) as real
  {
    if k > 1 {
      BackoffTotal(wire, k - 1);
      assert Waits(wire, k)[..k - 2] == Waits(wire, k - 1);
    }
  }

  lemma SmallBackoff(attempt: nat)
    requires 1 <= attempt <= 6
    ensures Backoff(attempt) <= MAX_RETRY_AFTER_SECONDS
  {
    assert Pow2(5) == 32 by {
      assert Pow2(3) == 8;
    }
    PowMonotone(attempt - 1, 5);
  }

  lemma {:induction false} PowMonotone(a: nat, b: nat)
    requires a <= b
    ensures 1 <= Pow2(a) <= Pow2(b)
  {
    if a < b {
      PowMonotone(a, b - 1);
    } else if a > 0 {
      PowMonotone(a - 1, b - 1);
    }
  }

  /** Up to seven attempts never sleep more than a minute each time; three never more than 120 seconds. */
  lemma {:induction false} SleepBound(wire: nat -> Attempt, k: nat)
    requires 1 <= k <= 7
    ensures 0.0 <= Sum(Waits(wire, k)) <= 60.0 * (k - 1) as real
  {
    if k > 1 {
      SleepBound(wire, k - 1);
      SmallBackoff(k - 1);
      PowMonotone(0, k - 2);
      assert Waits(wire, k)[..k - 2] == Waits(wire, k - 1);
    }
  }

  // ---------------------------------------------------------------- one page

  /** What `request_json` makes of a request: an object's two fields, or an error. */
  datatype Page = Page(value: ValueField, nextLink: Option<string>) | Failed(error: Exn)

  function Decode(r: Reply): Page {
    match r
    case HttpError(_) => Failed(GraphError)
    case Replied(status, body) =>
      if status == 204 then Page.Page(Absent, None)
      else match body
        case Empty => Page.Page(Absent, None)
        case NotJson => Failed(GraphError)
        case NotJsonObject => Failed(GraphError)
        case JsonObject(value, link) => Page.Page(value, link)
  }

  function Last(wire: nat -> Attempt, k: nat): (r: nat)
    requires 1 <= k <= MAX_ATTEMPTS
    requires forall j :: 1 <= j < k ==> Retryable(wire(j))
    ensures LastAttempt(wire, MAX_ATTEMPTS, r)
    decreases MAX_ATTEMPTS - k
  {
    if k == MAX_ATTEMPTS || !Retryable(wire(k)) then k else Last(wire, k + 1)
  }

  /** What a page request meets: no token to send with it, or the attempts of `wire`. */
  datatype Answer = NoToken | Wire(wire: nat -> Attempt)

  /** The outcome of one GET of a page. */
  function Fetch(a: Answer): Page {
    if a.NoToken? then Failed(GraphAuthError) else Decode(ReplyOf(a.wire(Last(a.wire, 1))))
  }

  /** What is made of a request that ends with `a`: a page if that is a response below 400 that is a 204,
      empty or a JSON object, with the object's own value and link; an error otherwise. */
  ghost predicate Reads(a: Attempt, page: Page) {
    && (page.Failed? <==>
          || !a.Response?
          || a.status >= 400
          || (a.status != 204 && (a.body.NotJson? || a.body.NotJsonObject?)))
    && (page.Failed? ==> page.error == GraphError)
    && (page.Page? && (a.status == 204 || a.body.Empty?) ==> page.value == Absent && page.nextLink == None)
    && (page.Page? && a.status != 204 && a.body.JsonObject? ==>
          page.value == a.body.value && page.nextLink == a.body.nextLink)
  }

  /** What a page request answered like this is given. */
  ghost predicate Meets(a: Answer, page: Page) {
    match a
    case NoToken => page == Failed(GraphAuthError)
    case Wire(wire) => exists k: nat :: EndsWith(wire, 3, k) && Reads(wire(k), page)
  }

  lemma DecodeReads(a: Attempt)
    ensures Reads(a, Decode(ReplyOf(a)))
  {}

  lemma FetchMeets(a: Answer, page: Page)
    ensures Meets(a, page) <==> page == Fetch(a)
  {
    if a.Wire? {
      var k := Last(a.wire, 1);
      LastEnds(a.wire, 3, k);
      DecodeReads(a.wire(k));
      if Meets(a, page) {
        var j: nat :| EndsWith(a.wire, 3, j) && Reads(a.wire(j), page);
        LastEnds(a.wire, 3, j);
        LastAttemptUnique(a.wire, 3, j, k);
      }
    }
  }

  method RequestJson(a: Answer) returns (page: Page, requests: nat, slept: real)
    ensures a.NoToken? ==> page == Failed(GraphAuthError)
    ensures a.Wire? ==> EndsWith(a.wire, 3, requests) && Reads(a.wire(requests), page)
    ensures page == Fetch(a)
    ensures slept == if a.NoToken? then 0.0 else Sum(Waits(a.wire, requests))
    ensures requests <= 3 && 0.0 <= slept <= 120.0
    ensures requests == 0 <==> a.NoToken?
    ensures page.Page? ==> requests >= 1
  {
    if a.NoToken? {
      return Failed(GraphAuthError), 0, 0.0;
    }
    var reply, n, sleeps := RequestWithRetry(a.wire, MAX_ATTEMPTS);
    LastAttemptUnique(a.wire, MAX_ATTEMPTS, n, Last(a.wire, 1));
    SleepBound(a.wire, n);
    LastEnds(a.wire, MAX_ATTEMPTS, n);
    DecodeReads(a.wire(n));
    page, requests, slept := Decode(reply), n, Sum(sleeps);
  }

  // ---------------------------------------------------------------- paging

  /** How the server answers the i-th page request, of a given link. */
  type Server = (nat, string) -> Answer

  predicate Good(p: Page) {
    p.Page? && !p.value.NotAList?
  }

  /** A falsy link ends the chain. */
  function Next(p: Page): Option<string> {
    if p.Page? && p.nextLink.Some? && p.nextLink.value != "" then p.nextLink else None
  }

  /** The link of the i-th page, if the pages before it are good and lead there. */
  function LinkAt(server: Server, url: string, i: nat): Option<string> {
    if i == 0 then Some(url)
    else
      var before := LinkAt(server, url, i - 1);
      if before.None? || !Good(Fetch(server(i - 1, before.value))) then None
      else Next(Fetch(server(i - 1, before.value)))
  }

  predicate GoodAt(server: Server, url: string, i: nat) {
    LinkAt(server, url, i).Some? && Good(Fetch(server(i, LinkAt(server, url, i).value)))
  }

  /** Following the links from `url` meets exactly `m` pages, all of them good. */
  ghost predicate ChainEnds(server: Server, url: string, m: nat) {
    (forall i :: 0 <= i < m ==> GoodAt(server, url, i)) && LinkAt(server, url, m).None?
  }

  /** Page `i` is the first that cannot be used, for the reason `e`. */
  ghost predicate BreaksAt(server: Server, url: string, i: nat, e: Exn) {
    && (forall j :: 0 <= j < i ==> GoodAt(server, url, j))
    && LinkAt(server, url, i).Some?
    && !GoodAt(server, url, i)
    && var page := Fetch(server(i, LinkAt(server, url, i).value));
       e == if page.Failed? then page.error else GraphError
  }

  function Objects(entries: seq<Entry>): seq<Entry> {
    if entries == [] then []
    else (if entries[0].Object? then [entries[0]] else []) + Objects(entries[1..])
  }

  function PageObjects(p: Page): seq<Entry> {
    if p.Page? && p.value.Entries? then Objects(p.value.entries) else []
  }

  /** The object entries of the first `m` pages, in order. */
  ghost function Collected(server: Server, url: string, m: nat): seq<Entry> {
    if m == 0 then []
    else
      var link := LinkAt(server, url, m - 1);
      Collected(server, url, m - 1) + if link.None? then [] else PageObjects(Fetch(server(m - 1, link.value)))
  }

  /** The ways following the links can go, of which exactly one happens: the chain ends after fewer
      than MAX_PAGES good pages, a page breaks it, or MAX_PAGES pages are good. */
  lemma OneFate(server: Server, url: string, m: nat, n: nat, e: Exn)
    requires ChainEnds(server, url, m)
    ensures ChainEnds(server, url, n) ==> m == n
    ensures !BreaksAt(server, url, n, e)
    ensures (forall j :: 0 <= j < n ==> GoodAt(server, url, j)) ==> m >= n
  {
    assert GoodAt(server, url, m) ==> LinkAt(server, url, m).Some?;
    assert n < m ==> GoodAt(server, url, n);
  }

  lemma BrokenNeverEnds(server: Server, url: string, i: nat, e: Exn)
    requires BreaksAt(server, url, i, e)
    ensures forall m: nat :: !ChainEnds(server, url, m)
  {
    forall m: nat ensures !ChainEnds(server, url, m) {
      if ChainEnds(server, url, m) {
        OneFate(server, url, m, i, e);
      }
    }
  }

  lemma EndsOnce(server: Server, url: string, i: nat)
    requires ChainEnds(server, url, i)
    ensures forall m: nat :: ChainEnds(server, url, m) ==> m == i
  {
    forall m: nat | ChainEnds(server, url, m) ensures m == i {
      OneFate(server, url, m, i, GraphError);
    }
  }

  lemma TooLong(server: Server, url: string)
    requires forall j :: 0 <= j < MAX_PAGES ==> GoodAt(server, url, j)
    ensures forall m: nat :: ChainEnds(server, url, m) ==> m >= MAX_PAGES
  {
    forall m: nat | ChainEnds(server, url, m) ensures m >= MAX_PAGES {
      OneFate(server, url, m, MAX_PAGES, GraphError);
    }
  }

  // ---------------------------------------------------------------- what paging promises

  /** A page `get_paged` can use. */
  ghost predicate Usable(page: Page) {
    page.Page? && !page.value.NotAList?
  }

  /** The `i`-th request asks for the `i`-th link and is given the `i`-th page. */
  ghost predicate MeetsAt(server: Server, links: seq<string>, pages: seq<Page>, i: nat)
    requires i < |links| == |pages|
  {
    Meets(server(i, links[i]), pages[i])
  }

  /** The `i`-th page is usable and its link is the next one asked for. */
  ghost predicate LeadsOn(links: seq<string>, pages: seq<Page>, i: nat)
    requires i + 1 < |links| == |pages|
  {
    Usable(pages[i]) && links[i + 1] != "" && pages[i].nextLink == Some(links[i + 1])
  }

  /** Following the links from `url` asks for `links` and meets `pages`, all of them usable but perhaps
      the last. */
  ghost predicate Follows(server: Server, url: string, links: seq<string>, pages: seq<Page>) {
    && |links| == |pages| > 0 && links[0] == url
    && (forall i :: 0 <= i < |pages| ==> MeetsAt(server, links, pages, i))
    && (forall i :: 0 <= i < |pages| - 1 ==> LeadsOn(links, pages, i))
  }

  /** They end there, with a page that has no link or an empty one. */
  ghost predicate Complete(server: Server, url: string, links: seq<string>, pages: seq<Page>) {
    && Follows(server, url, links, pages)
    && var last := pages[|pages| - 1];
       Usable(last) && (last.nextLink == None || last.nextLink == Some(""))
  }

  /** They end there, with a page that cannot be used. */
  ghost predicate Broken(server: Server, url: string, links: seq<string>, pages: seq<Page>, e: Exn) {
    && Follows(server, url, links, pages)
    && var last := pages[|pages| - 1];
       !Usable(last) && e == if last.Failed? then last.error else GraphError
  }

  /** The object entries of a page, in order. */
  ghost function ObjectsOf(entries: seq<Entry>): seq<Entry> {
    if entries == [] then []
    else
      var n := |entries| - 1;
      ObjectsOf(entries[..n]) + if entries[n].Object? then [entries[n]] else []
  }

  /** The object entries of all pages, in order. */
  ghost function Gathered(pages: seq<Page>): seq<Entry> {
    if pages == [] then []
    else
      var n := |pages| - 1;
      Gathered(pages[..n]) + Listed(pages[n])
  }

  ghost function Listed(page: Page): seq<Entry> {
    if page.Page? && page.value.Entries? then ObjectsOf(page.value.entries) else []
  }

  lemma {:induction false} ObjectsSnoc(entries: seq<Entry>, x: Entry)
    ensures Objects(entries + [x]) == Objects(entries) + if x.Object? then [x] else []
  {
    var last := if x.Object? then [x] else [];
    if entries == [] {
      assert [x][1..] == [] && [] + [x] == [x] && last + [] == last && [] + last == last;
    } else {
      var first := if entries[0].Object? then [entries[0]] else [];
      assert (entries + [x])[1..] == entries[1..] + [x];
      ObjectsSnoc(entries[1..], x);
      assert Objects(entries + [x]) == first + Objects(entries[1..] + [x]);
      assert first + (Objects(entries[1..]) + last) == first + Objects(entries[1..]) + last;
    }
  }

  lemma {:induction false} ObjectsAreThose(entries: seq<Entry>)
    ensures Objects(entries) == ObjectsOf(entries)
  {
    if entries != [] {
      var n := |entries| - 1;
      ObjectsAreThose(entries[..n]);
      ObjectsSnoc(entries[..n], entries[n]);
      assert entries == entries[..n] + [entries[n]];
    }
  }

  /** The links and pages the first `m` requests meet. */
  ghost function Links(server: Server, url: string, m: nat): (r: seq<string>)
    requires forall i :: 0 <= i < m ==> LinkAt(server, url, i).Some?
    ensures |r| == m && forall i :: 0 <= i < m ==> r[i] == LinkAt(server, url, i).value
  {
    seq(m, i requires 0 <= i < m => LinkAt(server, url, i).value)
  }

  ghost function Pages(server: Server, url: string, m: nat): (r: seq<Page>)
    requires forall i :: 0 <= i < m ==> LinkAt(server, url, i).Some?
    ensures |r| == m && forall i :: 0 <= i < m ==> r[i] == Fetch(server(i, LinkAt(server, url, i).value))
  {
    seq(m, i requires 0 <= i < m => Fetch(server(i, LinkAt(server, url, i).value)))
  }

  lemma GoodLinks(server: Server, url: string, m: nat)
    requires m > 0 && LinkAt(server, url, m - 1).Some? && forall i :: 0 <= i < m - 1 ==> GoodAt(server, url, i)
    ensures forall i :: 0 <= i < m ==> LinkAt(server, url, i).Some?
  {
    forall i | 0 <= i < m ensures LinkAt(server, url, i).Some? {
      if i < m - 1 {
        assert GoodAt(server, url, i);
      }
    }
  }

  lemma NextFollows(server: Server, url: string, i: nat)
    requires GoodAt(server, url, i) && LinkAt(server, url, i + 1).Some?
    ensures
      var page, link := Fetch(server(i, LinkAt(server, url, i).value)), LinkAt(server, url, i + 1).value;
      Usable(page) && link != "" && page.nextLink == Some(link)
  {}

  lemma LinksFollow(server: Server, url: string, m: nat)
    requires m > 0 && LinkAt(server, url, m - 1).Some? && forall i :: 0 <= i < m - 1 ==> GoodAt(server, url, i)
    ensures forall i :: 0 <= i < m ==> LinkAt(server, url, i).Some?
    ensures Follows(server, url, Links(server, url, m), Pages(server, url, m))
  {
    GoodLinks(server, url, m);
    var links, pages := Links(server, url, m), Pages(server, url, m);
    forall i | 0 <= i < m ensures MeetsAt(server, links, pages, i) {
      FetchMeets(server(i, links[i]), pages[i]);
    }
    forall i | 0 <= i < m - 1 ensures LeadsOn(links, pages, i) {
      assert GoodAt(server, url, i);
      NextFollows(server, url, i);
    }
  }

  lemma LinkAfter(server: Server, url: string, i: nat, link: string, page: Page)
    requires LinkAt(server, url, i) == Some(link) && page == Fetch(server(i, link)) && Usable(page)
    ensures GoodAt(server, url, i)
    ensures LinkAt(server, url, i + 1) == if page.nextLink == Some("") then None else page.nextLink
  {}

  /** Whatever follows the links from `url` meets what the requests meet. */
  lemma {:induction false} FollowsLinks(server: Server, url: string, links: seq<string>, pages: seq<Page>, i: nat)
    requires Follows(server, url, links, pages) && i < |pages|
    ensures LinkAt(server, url, i) == Some(links[i]) && pages[i] == Fetch(server(i, links[i]))
    ensures forall j :: 0 <= j < i ==> GoodAt(server, url, j)
    decreases i
  {
    assert MeetsAt(server, links, pages, i);
    FetchMeets(server(i, links[i]), pages[i]);
    if i > 0 {
      FollowsLinks(server, url, links, pages, i - 1);
      assert LeadsOn(links, pages, i - 1);
      LinkAfter(server, url, i - 1, links[i - 1], pages[i - 1]);
    }
  }

  lemma CompleteEnds(server: Server, url: string, links: seq<string>, pages: seq<Page>)
    requires Complete(server, url, links, pages)
    ensures ChainEnds(server, url, |pages|)
  {
    var n := |pages| - 1;
    FollowsLinks(server, url, links, pages, n);
    LinkAfter(server, url, n, links[n], pages[n]);
  }

  lemma LastHasNoLink(server: Server, url: string, m: nat)
    requires m > 0 && GoodAt(server, url, m - 1) && LinkAt(server, url, m).None?
    ensures
      var last := Fetch(server(m - 1, LinkAt(server, url, m - 1).value));
      Usable(last) && (last.nextLink == None || last.nextLink == Some(""))
  {}

  lemma SomePage(server: Server, url: string, m: nat)
    requires ChainEnds(server, url, m)
    ensures m > 0 && GoodAt(server, url, m - 1) && LinkAt(server, url, m - 1).Some?
  {
    assert LinkAt(server, url, 0) == Some(url);
  }

  lemma EndsComplete(server: Server, url: string, m: nat)
    requires ChainEnds(server, url, m)
    ensures m > 0 && forall i :: 0 <= i < m ==> LinkAt(server, url, i).Some?
    ensures Complete(server, url, Links(server, url, m), Pages(server, url, m))
  {
    SomePage(server, url, m);
    LinksFollow(server, url, m);
    LastHasNoLink(server, url, m);
    assert Pages(server, url, m)[m - 1] == Fetch(server(m - 1, LinkAt(server, url, m - 1).value));
  }

  lemma ListedAreThose(page: Page)
    ensures PageObjects(page) == Listed(page)
  {
    if page.Page? && page.value.Entries? {
      ObjectsAreThose(page.value.entries);
    }
  }

  lemma GatheredNext(pages: seq<Page>, m: nat)
    requires m < |pages|
    ensures Gathered(pages[..m + 1]) == Gathered(pages[..m]) + Listed(pages[m])
  {
    assert pages[..m + 1][..m] == pages[..m] && pages[..m + 1][m] == pages[m];
  }

  lemma CollectedNext(server: Server, url: string, m: nat, link: string)
    requires LinkAt(server, url, m) == Some(link)
    ensures Collected(server, url, m + 1) == Collected(server, url, m) + PageObjects(Fetch(server(m, link)))
  {}

  lemma {:induction false} CollectedIsGathered(server: Server, url: string, links: seq<string>, pages: seq<Page>,
                                               m: nat)
    requires Follows(server, url, links, pages) && m <= |pages|
    ensures Collected(server, url, m) == Gathered(pages[..m])
    decreases m
  {
    if m == 0 {
      assert pages[..0] == [];
    } else {
      CollectedIsGathered(server, url, links, pages, m - 1);
      FollowsLinks(server, url, links, pages, m - 1);
      CollectedNext(server, url, m - 1, links[m - 1]);
      GatheredNext(pages, m - 1);
      ListedAreThose(pages[m - 1]);
    }
  }

  lemma CompleteResult(server: Server, url: string, links: seq<string>, pages: seq<Page>)
    requires Complete(server, url, links, pages)
    ensures ChainEnds(server, url, |pages|)
    ensures Collected(server, url, |pages|) == Gathered(pages)
  {
    CompleteEnds(server, url, links, pages);
    CollectedIsGathered(server, url, links, pages, |pages|);
    assert pages[..|pages|] == pages;
  }

  /** They go on after 1000 usable pages. */
  ghost predicate GoesOnFor1000(server: Server, url: string, links: seq<string>, pages: seq<Page>) {
    Follows(server, url, links, pages) && |pages| == 1000 && Usable(pages[999])
  }

  lemma Returns(server: Server, url: string, m: nat)
    requires ChainEnds(server, url, m)
    ensures exists links, pages :: Complete(server, url, links, pages) && |pages| == m
    ensures forall links, pages :: Complete(server, url, links, pages) ==>
              |pages| == m && Gathered(pages) == Collected(server, url, m)
  {
    EndsComplete(server, url, m);
    assert |Pages(server, url, m)| == m;
    forall links, pages | Complete(server, url, links, pages)
      ensures |pages| == m && Gathered(pages) == Collected(server, url, m)
    {
      CompleteResult(server, url, links, pages);
      EndsOnce(server, url, m);
    }
  }

  lemma ReturnsNot(server: Server, url: string)
    requires forall m: nat :: ChainEnds(server, url, m) ==> m >= 1000
    ensures forall links, pages :: Complete(server, url, links, pages) ==> |pages| >= 1000
  {
    forall links, pages | Complete(server, url, links, pages) ensures |pages| >= 1000 {
      CompleteEnds(server, url, links, pages);
    }
  }

  lemma UnusableAt(server: Server, url: string, i: nat, e: Exn)
    requires BreaksAt(server, url, i, e)
    ensures LinkAt(server, url, i).Some? && forall j :: 0 <= j < i ==> GoodAt(server, url, j)
    ensures
      var page := Fetch(server(i, LinkAt(server, url, i).value));
      !Usable(page) && e == if page.Failed? then page.error else GraphError
  {}

  lemma BrokenLast(server: Server, url: string, links: seq<string>, pages: seq<Page>, page: Page, e: Exn)
    requires Follows(server, url, links, pages) && pages[|pages| - 1] == page
    requires !Usable(page) && e == if page.Failed? then page.error else GraphError
    ensures Broken(server, url, links, pages, e)
  {}

  lemma BreaksBroken(server: Server, url: string, i: nat, e: Exn)
    requires BreaksAt(server, url, i, e)
    ensures exists links, pages :: Broken(server, url, links, pages, e) && |pages| == i + 1
  {
    UnusableAt(server, url, i, e);
    LinksFollow(server, url, i + 1);
    var pages := Pages(server, url, i + 1);
    BrokenLast(server, url, Links(server, url, i + 1), pages, Fetch(server(i, LinkAt(server, url, i).value)), e);
    assert |pages| == i + 1;
  }

  lemma GoodFor1000(server: Server, url: string)
    requires forall j :: 0 <= j < 1000 ==> GoodAt(server, url, j)
    ensures exists links, pages :: GoesOnFor1000(server, url, links, pages)
  {
    assert GoodAt(server, url, 999);
    LinksFollow(server, url, 1000);
    var links, pages := Links(server, url, 1000), Pages(server, url, 1000);
    assert pages[999] == Fetch(server(999, LinkAt(server, url, 999).value));
    assert GoesOnFor1000(server, url, links, pages);
  }

  /** What `get_paged` owes its caller: the entries of all pages if the links end in fewer than 1000 usable
      ones, what the first unusable page raises, or an error after 1000 usable ones. */
  ghost predicate Deserved(server: Server, url: string, result: Outcome<seq<Entry>>, fetches: nat) {
    && (result.Ok? <==> exists links, pages :: Complete(server, url, links, pages) && |pages| < 1000)
    && (forall links, pages :: Complete(server, url, links, pages) && |pages| < 1000 ==>
          result == Ok(Gathered(pages)) && fetches == |pages|)
    && (result.Raised? ==>
          || (exists links, pages :: Broken(server, url, links, pages, result.error) && |pages| == fetches)
          || (fetches == 1000 && result.error == GraphError
              && exists links, pages :: GoesOnFor1000(server, url, links, pages)))
  }

  /** How the loop can end: the chain of links has ended, its last page cannot be used, or there were 1000. */
  ghost predicate Ended(server: Server, url: string, result: Outcome<seq<Entry>>, fetches: nat) {
    match result
    case Ok(items) => fetches < 1000 && ChainEnds(server, url, fetches) && items == Collected(server, url, fetches)
    case Raised(e) =>
      || (fetches > 0 && BreaksAt(server, url, fetches - 1, e))
      || (fetches == 1000 && e == GraphError && forall j :: 0 <= j < 1000 ==> GoodAt(server, url, j))
  }

  lemma EndedDeserves(server: Server, url: string, result: Outcome<seq<Entry>>, fetches: nat)
    requires Ended(server, url, result, fetches)
    ensures Deserved(server, url, result, fetches)
    ensures result.Ok? <==> exists m: nat :: m < 1000 && ChainEnds(server, url, m)
  {
    if result.Ok? {
      Returns(server, url, fetches);
    } else if fetches > 0 && BreaksAt(server, url, fetches - 1, result.error) {
      BrokenNeverEnds(server, url, fetches - 1, result.error);
      ReturnsNot(server, url);
      BreaksBroken(server, url, fetches - 1, result.error);
    } else {
      TooLong(server, url);
      ReturnsNot(server, url);
      GoodFor1000(server, url);
    }
  }

  /** The loop has met `i` good pages, has their objects, and asks for `next` now. */
  ghost predicate SoFar(server: Server, url: string, i: nat, next: Option<string>, items: seq<Entry>) {
    && next == LinkAt(server, url, i) && items == Collected(server, url, i)
    && forall j :: 0 <= j < i ==> GoodAt(server, url, j)
  }

  lemma SoFarNext(server: Server, url: string, i: nat, link: string, items: seq<Entry>, page: Page)
    requires SoFar(server, url, i, Some(link), items) && page == Fetch(server(i, link))
    ensures Good(page) ==> SoFar(server, url, i + 1, Next(page), items + PageObjects(page))
    ensures !Good(page) ==>
              Ended(server, url, Raised(if page.Failed? then page.error else GraphError), i + 1)
  {
    if !Good(page) {
      assert BreaksAt(server, url, i, if page.Failed? then page.error else GraphError);
    } else {
      assert GoodAt(server, url, i);
    }
  }

  lemma SoFarEnds(server: Server, url: string, i: nat, items: seq<Entry>)
    requires i < 1000 && SoFar(server, url, i, None, items)
    ensures Ended(server, url, Ok(items), i)
  {}

  lemma SoFarTooLong(server: Server, url: string, next: Option<string>, items: seq<Entry>)
    requires SoFar(server, url, 1000, next, items)
    ensures Ended(server, url, Raised(GraphError), 1000)
  {}

  method Extend(items: seq<Entry>, entries: seq<Entry>) returns (r: seq<Entry>)
    ensures r == items + Objects(entries)
  {
    r := items;
    for i := 0 to |entries|
      invariant r + Objects(entries[i..]) == items + Objects(entries)
    {
      if entries[i].Object? {
        r := r + [entries[i]];
      }
      assert entries[i..][1..] == entries[i + 1..];
    }
    assert r + [] == r;
  }

  /** `get_paged`, whatever the link graph: it returns if and only if the chain of links is well formed
      and ends in fewer than MAX_PAGES pages, and then the object entries of all of them in order; it
      raises what the first unusable page raises, or after MAX_PAGES good ones gives up. */
  method GetPaged(server: Server, url: string)
    returns (result: Outcome<seq<Entry>>, fetches: nat, requests: nat, slept: real)
    ensures Ended(server, url, result, fetches) && Deserved(server, url, result, fetches)
    ensures fetches <= 1000 && requests <= 3000 && (result.Ok? ==> fetches <= requests)
    ensures slept <= 120.0 * fetches as real
  {
    var items: seq<Entry> := [];
    var nextUrl := Some(url);
    fetches, requests, slept := 0, 0, 0.0;
    for i := 0 to MAX_PAGES
      invariant fetches == i <= requests <= i * MAX_ATTEMPTS && slept <= 120.0 * i as real
      invariant SoFar(server, url, i, nextUrl, items)
    {
      if nextUrl.None? {
        SoFarEnds(server, url, i, items);
        EndedDeserves(server, url, Ok(items), i);
        return Ok(items), fetches, requests, slept;
      }
      var page, n, s := RequestJson(server(i, nextUrl.value));
      fetches, requests, slept := fetches + 1, requests + n, slept + s;
      SoFarNext(server, url, i, nextUrl.value, items, page);
      if !Good(page) {
        result := Raised(if page.Failed? then page.error else GraphError);
        EndedDeserves(server, url, result, fetches);
        return;
      }
      if page.value.Entries? {
        items := Extend(items, page.value.entries);
      }
      nextUrl := Next(page);
    }
    result := Raised(GraphError);
    SoFarTooLong(server, url, nextUrl, items);
    EndedDeserves(server, url, result, fetches);
  }

  /** Links that lead round for ever, and chains of exactly MAX_PAGES pages, end in an error. */
  lemma LongChainsRaise(server: Server, url: string)
    requires (forall i: nat :: GoodAt(server, url, i)) || ChainEnds(server, url, MAX_PAGES)
    ensures !exists m: nat :: m < MAX_PAGES && ChainEnds(server, url, m)
  {
    forall m: nat | m < MAX_PAGES ensures !ChainEnds(server, url, m) {
      if ChainEnds(server, url, m) {
        OneFate(server, url, m, MAX_PAGES, GraphError);
      }
    }
  }
}
