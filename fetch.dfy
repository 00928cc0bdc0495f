/**
  The batch fetcher: `fetch_efetch_batch` retries one page request up to three
  times, retrying only on a connect timeout, and `fetch_all_efetch` fetches the
  pages at offsets 0, 200, 400, ... below the total count, in order.

  The HTTP client is replaced by an injected transport: `respond(request, k)` is
  the outcome of the k-th attempt (counting from 0) of a request. In one run every
  page is requested at its own offset and every attempt number occurs at most once
  per page, so such a function can describe any behaviour of the network during a
  run. Sleeps are recorded as events instead of suspending.
*/
module Fetch {
  import opened Wrappers

  /** `MAX_IDS_PER_REQUEST`: the page size. */
  const MaxIdsPerRequest: nat := 200
  /** `range(3)` in the retry loop. */
  const MaxAttempts: nat := 3

  /** The query parameters of one efetch call (`db` and `retmode` are fixed literals). */
  datatype EFetchRequest = EFetchRequest(webEnv: string, queryKey: string, retStart: nat, retMax: nat)

  /** Failures other than a connect timeout: a non-2xx status raised by `raise_for_status`,
      a read timeout, or any other transport exception. */
  datatype TransportError = HttpStatus(code: int) | ReadTimeout | OtherError(name: string)

  /** What one attempt of a request yields. */
  datatype Outcome = Ok(body: string) | ConnectTimeout | Error(error: TransportError)

  /** The injected network: the outcome of attempt k of a request. */
  type Transport = (EFetchRequest, nat) -> Outcome

  /** The five-second cooldown after a connect timeout, and the one-third-second pause
      after each fetched page. */
  datatype Delay = Cooldown | Pacing

  /** What the fetcher does, in order: send a request, or sleep. */
  datatype Event = Sent(request: EFetchRequest) | Slept(delay: Delay)

  /** How fetching a page fails: the `RuntimeError` naming `retstart` after three timeouts,
      or the transport's own exception, propagated unchanged. */
  datatype FetchError = RetriesExhausted(retStart: nat) | Raised(error: TransportError)

  /** The result of fetching one page, with the events it produced. */
  datatype BatchRun = BatchRun(result: Result<string, FetchError>, events: seq<Event>)

  /** The result of fetching all pages, with the events it produced. */
  datatype PagesRun = PagesRun(result: Result<seq<string>, FetchError>, events: seq<Event>)

  /** The request `fetch_efetch_batch` sends for the page at `retStart`. */
  function PageRequest(webEnv: string, queryKey: string, retStart: nat): EFetchRequest {
    EFetchRequest(webEnv, queryKey, retStart, MaxIdsPerRequest)
  }

  /** The requests among `events`, in the order they were sent. */
  function Requests(events: seq<Event>): seq<EFetchRequest> {
    if events == [] then []
    else (if events[0].Sent? then [events[0].request] else []) + Requests(events[1..])
  }

  lemma {:induction false} RequestsAppend(a: seq<Event>, b: seq<Event>)
    ensures Requests(a + b) == Requests(a) + Requests(b)
  {
    if a == [] {
      assert a + b == b;
    } else {
      var head := if a[0].Sent? then [a[0].request] else [];
      calc {
        Requests(a + b);
        { assert (a + b)[0] == a[0]; assert (a + b)[1..] == a[1..] + b; }
        head + Requests(a[1..] + b);
        { RequestsAppend(a[1..], b); }
        head + (Requests(a[1..]) + Requests(b));
        (head + Requests(a[1..])) + Requests(b);
      }
    }
  }

  // ---------------------------------------------------------------- one page

  /** The retry loop from attempt `attempt` on. */
  function BatchFrom(respond: Transport, req: EFetchRequest, attempt: nat): BatchRun
    requires attempt <= MaxAttempts
    decreases MaxAttempts - attempt
  {
    if attempt == MaxAttempts then BatchRun(Failure(RetriesExhausted(req.retStart)), [])
    else
      match respond(req, attempt)
      case Ok(body) => BatchRun(Success(body), [Sent(req)])
      case Error(e) => BatchRun(Failure(Raised(e)), [Sent(req)])
      case ConnectTimeout =>
        var rest := BatchFrom(respond, req, attempt + 1);
        BatchRun(rest.result, [Sent(req), Slept(Cooldown)] + rest.events)
  }

  /** The whole retry loop for one request. */
  function Batch(respond: Transport, req: EFetchRequest): BatchRun {
    BatchFrom(respond, req, 0)
  }

  /** `run`, preceded by the events `before`. */
  function After(before: seq<Event>, run: BatchRun): BatchRun {
    BatchRun(run.result, before + run.events)
  }

  /** One turn of the retry loop. */
  lemma BatchFromStep(respond: Transport, req: EFetchRequest, attempt: nat, before: seq<Event>)
    requires attempt < MaxAttempts
    ensures respond(req, attempt).ConnectTimeout? ==>
      After(before, BatchFrom(respond, req, attempt)) ==
      After(before + [Sent(req)] + [Slept(Cooldown)], BatchFrom(respond, req, attempt + 1))
    ensures respond(req, attempt).Ok? ==>
      After(before, BatchFrom(respond, req, attempt)) == BatchRun(Success(respond(req, attempt).body), before + [Sent(req)])
    ensures respond(req, attempt).Error? ==>
      After(before, BatchFrom(respond, req, attempt)) == BatchRun(Failure(Raised(respond(req, attempt).error)), before + [Sent(req)])
  {
    if respond(req, attempt).ConnectTimeout? {
      var rest := BatchFrom(respond, req, attempt + 1);
      assert before + ([Sent(req), Slept(Cooldown)] + rest.events) == before + [Sent(req)] + [Slept(Cooldown)] + rest.events;
    }
  }

  /** `fetch_efetch_batch`: up to three attempts, returning the first body, propagating any
      error other than a connect timeout, and failing with the page's `retstart` after three
      connect timeouts. */
  method FetchEfetchBatch(respond: Transport, webEnv: string, queryKey: string, retStart: nat)
    returns (result: Result<string, FetchError>, events: seq<Event>)
    ensures BatchRun(result, events) == Batch(respond, PageRequest(webEnv, queryKey, retStart))
  {
    var req := PageRequest(webEnv, queryKey, retStart);
    events := [];
    assert [] + BatchFrom(respond, req, 0).events == BatchFrom(respond, req, 0).events;
    for attempt := 0 to MaxAttempts
      invariant Batch(respond, req) == After(events, BatchFrom(respond, req, attempt))
    {
      BatchFromStep(respond, req, attempt, events);
      var outcome := respond(req, attempt);
      events := events + [Sent(req)];
      match outcome {
        case Ok(body) =>
          result := Success(body);
          return;
        case Error(e) =>
          result := Failure(Raised(e));
          return;
        case ConnectTimeout =>
          events := events + [Slept(Cooldown)];
      }
    }
    assert events + [] == events;
    result := Failure(RetriesExhausted(retStart));
  }

  /** Attempts `from` up to (not including) `upto` all timed out on connect. */
  predicate TimedOutBetween(respond: Transport, req: EFetchRequest, from: nat, upto: nat) {
    forall j: nat :: from <= j < upto ==> respond(req, j).ConnectTimeout?
  }

  /** The result an attempt that did not time out settles the page with. */
  function Settled(o: Outcome): Result<string, FetchError>
    requires !o.ConnectTimeout?
  {
    if o.Ok? then Success(o.body) else Failure(Raised(o.error))
  }

  lemma {:induction false} BatchFromSettles(respond: Transport, req: EFetchRequest, a: nat, k: nat)
    requires a <= k < MaxAttempts
    requires TimedOutBetween(respond, req, a, k) && !respond(req, k).ConnectTimeout?
    ensures BatchFrom(respond, req, a).result == Settled(respond(req, k))
    ensures |Requests(BatchFrom(respond, req, a).events)| == k - a + 1
    decreases k - a
  {
    if a < k {
      BatchFromSettles(respond, req, a + 1, k);
      RequestsAppend([Sent(req), Slept(Cooldown)], BatchFrom(respond, req, a + 1).events);
    }
  }

  lemma {:induction false} BatchFromExhausts(respond: Transport, req: EFetchRequest, a: nat)
    requires a <= MaxAttempts && TimedOutBetween(respond, req, a, MaxAttempts)
    ensures BatchFrom(respond, req, a).result == Failure(RetriesExhausted(req.retStart))
    ensures |Requests(BatchFrom(respond, req, a).events)| == MaxAttempts - a
    decreases MaxAttempts - a
  {
    if a < MaxAttempts {
      BatchFromExhausts(respond, req, a + 1);
      RequestsAppend([Sent(req), Slept(Cooldown)], BatchFrom(respond, req, a + 1).events);
    }
  }

  lemma {:induction false} BatchFromSendsOnlyReq(respond: Transport, req: EFetchRequest, a: nat)
    requires a <= MaxAttempts
    ensures |Requests(BatchFrom(respond, req, a).events)| <= MaxAttempts - a
    ensures a < MaxAttempts ==> |Requests(BatchFrom(respond, req, a).events)| >= 1
    ensures forall r :: r in Requests(BatchFrom(respond, req, a).events) ==> r == req
    decreases MaxAttempts - a
  {
    if a < MaxAttempts && respond(req, a).ConnectTimeout? {
      BatchFromSendsOnlyReq(respond, req, a + 1);
      RequestsAppend([Sent(req), Slept(Cooldown)], BatchFrom(respond, req, a + 1).events);
    }
  }

  /** Retry bound: a page is requested at least once and at most three times, and only
      that page's request is sent. */
  lemma RetryBound(respond: Transport, req: EFetchRequest)
    ensures 1 <= |Requests(Batch(respond, req).events)| <= MaxAttempts
    ensures forall r :: r in Requests(Batch(respond, req).events) ==> r == req
  {
    BatchFromSendsOnlyReq(respond, req, 0);
  }

  /** The first attempt that does not time out decides the page: its body is returned
      (so two timeouts and then a success still succeed), or its error is propagated,
      and no further attempt is made. */
  lemma RetrySettlesOnFirstNonTimeout(respond: Transport, req: EFetchRequest, k: nat)
    requires k < MaxAttempts
    requires TimedOutBetween(respond, req, 0, k) && !respond(req, k).ConnectTimeout?
    ensures respond(req, k).Ok? ==> Batch(respond, req).result == Success(respond(req, k).body)
    ensures respond(req, k).Error? ==> Batch(respond, req).result == Failure(Raised(respond(req, k).error))
    ensures |Requests(Batch(respond, req).events)| == k + 1
  {
    BatchFromSettles(respond, req, 0, k);
  }

  /** Three connect timeouts end the page with the failure that names its `retstart`. */
  lemma RetryExhaustion(respond: Transport, req: EFetchRequest)
    requires TimedOutBetween(respond, req, 0, MaxAttempts)
    ensures Batch(respond, req).result == Failure(RetriesExhausted(req.retStart))
    ensures |Requests(Batch(respond, req).events)| == MaxAttempts
  {
    BatchFromExhausts(respond, req, 0);
  }

  /** Conversely: a page fails with `RetriesExhausted` only after three connect timeouts,
      succeeds only with the body of an attempt preceded by nothing but timeouts, and
      fails with a propagated error only when such an attempt raised exactly that error. */
  lemma {:induction false} RetryResultsAreJustified(respond: Transport, req: EFetchRequest)
    ensures Batch(respond, req).result.Failure? && Batch(respond, req).result.error.RetriesExhausted? ==>
      TimedOutBetween(respond, req, 0, MaxAttempts) && Batch(respond, req).result.error.retStart == req.retStart
    ensures Batch(respond, req).result.Success? ==>
      exists k: nat :: k < MaxAttempts && TimedOutBetween(respond, req, 0, k) &&
        respond(req, k) == Ok(Batch(respond, req).result.value)
    ensures Batch(respond, req).result.Failure? && Batch(respond, req).result.error.Raised? ==>
      exists k: nat :: k < MaxAttempts && TimedOutBetween(respond, req, 0, k) &&
        respond(req, k) == Error(Batch(respond, req).result.error.error)
  {
    if TimedOutBetween(respond, req, 0, MaxAttempts) {
      RetryExhaustion(respond, req);
    } else {
      var k: nat :| k < MaxAttempts && TimedOutBetween(respond, req, 0, k) && !respond(req, k).ConnectTimeout?
        by { FirstNonTimeoutExists(respond, req, 0); }
      RetrySettlesOnFirstNonTimeout(respond, req, k);
    }
  }

  lemma {:induction false} FirstNonTimeoutExists(respond: Transport, req: EFetchRequest, a: nat)
    requires a <= MaxAttempts
    requires !TimedOutBetween(respond, req, a, MaxAttempts)
    ensures exists k: nat :: a <= k < MaxAttempts && TimedOutBetween(respond, req, a, k) && !respond(req, k).ConnectTimeout?
    decreases MaxAttempts - a
  {
    if !respond(req, a).ConnectTimeout? {
      assert TimedOutBetween(respond, req, a, a);
    } else {
      FirstNonTimeoutExists(respond, req, a + 1);
      var k: nat :| a + 1 <= k < MaxAttempts && TimedOutBetween(respond, req, a + 1, k) && !respond(req, k).ConnectTimeout?;
      assert TimedOutBetween(respond, req, a, k);
    }
  }

  // ---------------------------------------------------------------- all pages

  /** `range(start, stop, step)` for a positive step. */
  function Range(start: nat, stop: nat, step: nat): seq<nat>
    requires step > 0
    decreases stop - start
  {
    if start >= stop then [] else [start] + Range(start + step, stop, step)
  }

  lemma {:induction false} RangeByPages(start: nat, stop: nat)
    ensures |Range(start, stop, MaxIdsPerRequest)| == if start >= stop then 0 else (stop - start + 199) / 200
    ensures forall i :: 0 <= i < |Range(start, stop, MaxIdsPerRequest)| ==> Range(start, stop, MaxIdsPerRequest)[i] == start + 200 * i
    decreases stop - start
  {
    if start < stop {
      RangeByPages(start + 200, stop);
    }
  }

  /** The page offsets, from 0 below the total in steps of the page size: 0, 200, 400, ...,
      one for each started block of 200 ids. */
  function PageOffsets(totalCount: nat): (offsets: seq<nat>)
    ensures |offsets| == (totalCount + 199) / 200
    ensures forall i :: 0 <= i < |offsets| ==> offsets[i] == 200 * i
  {
    RangeByPages(0, totalCount);
    Range(0, totalCount, MaxIdsPerRequest)
  }

  /** The offsets are strictly increasing multiples of 200 below the total, and there are
      ceil(total / 200) of them; in particular none when the total is 0. */
  lemma PageOffsetsShape(totalCount: nat)
    ensures forall i, j :: 0 <= i < j < |PageOffsets(totalCount)| ==> PageOffsets(totalCount)[i] < PageOffsets(totalCount)[j]
    ensures forall i :: 0 <= i < |PageOffsets(totalCount)| ==>
      PageOffsets(totalCount)[i] < totalCount && PageOffsets(totalCount)[i] % 200 == 0
    ensures |PageOffsets(totalCount)| * 200 >= totalCount
    ensures |PageOffsets(totalCount)| > 0 ==> (|PageOffsets(totalCount)| - 1) * 200 < totalCount
    ensures totalCount == 0 <==> PageOffsets(totalCount) == []
  {
  }

  /** The pages `before` already fetched and the events so far, followed by `run`. */
  function Prepend(before: seq<string>, events: seq<Event>, run: PagesRun): PagesRun {
    PagesRun(if run.result.Success? then Success(before + run.result.value) else run.result, events + run.events)
  }

  lemma PrependNothing(run: PagesRun)
    ensures Prepend([], [], run) == run
  {
    assert [] + run.events == run.events;
    if run.result.Success? {
      assert [] + run.result.value == run.result.value;
    }
  }

  lemma PrependTwice(pages: seq<string>, events: seq<Event>, page: string, more: seq<Event>, run: PagesRun)
    ensures Prepend(pages, events, Prepend([page], more, run)) == Prepend(pages + [page], events + more, run)
  {
    assert events + (more + run.events) == (events + more) + run.events;
    if run.result.Success? {
      assert pages + ([page] + run.result.value) == (pages + [page]) + run.result.value;
    }
  }

  /** The offset loop over `offsets`: one page after another, stopping at the first failure. */
  function AllFrom(respond: Transport, webEnv: string, queryKey: string, offsets: seq<nat>): PagesRun {
    if offsets == [] then PagesRun(Success([]), [])
    else
      var page := Batch(respond, PageRequest(webEnv, queryKey, offsets[0]));
      match page.result
      case Failure(err) => PagesRun(Failure(err), page.events)
      case Success(body) =>
        Prepend([body], page.events + [Slept(Pacing)], AllFrom(respond, webEnv, queryKey, offsets[1..]))
  }

  /** One step of the offset loop when the first page succeeds. */
  lemma AllFromStepOk(respond: Transport, webEnv: string, queryKey: string, offsets: seq<nat>, body: string)
    requires offsets != [] && Batch(respond, PageRequest(webEnv, queryKey, offsets[0])).result == Success(body)
    ensures AllFrom(respond, webEnv, queryKey, offsets) ==
      Prepend([body], Batch(respond, PageRequest(webEnv, queryKey, offsets[0])).events + [Slept(Pacing)],
              AllFrom(respond, webEnv, queryKey, offsets[1..]))
  {
  }

  /** One step of the offset loop when the first page fails. */
  lemma AllFromStepFails(respond: Transport, webEnv: string, queryKey: string, offsets: seq<nat>, err: FetchError)
    requires offsets != [] && Batch(respond, PageRequest(webEnv, queryKey, offsets[0])).result == Failure(err)
    ensures AllFrom(respond, webEnv, queryKey, offsets) ==
      PagesRun(Failure(err), Batch(respond, PageRequest(webEnv, queryKey, offsets[0])).events)
  {
  }

  /** `fetch_all_efetch`: fetches the pages in offset order, appending each body, pausing
      after each page, and propagating the first page failure. */
  method FetchAllEfetch(respond: Transport, webEnv: string, queryKey: string, totalCount: nat)
    returns (result: Result<seq<string>, FetchError>, events: seq<Event>)
    ensures PagesRun(result, events) == AllFrom(respond, webEnv, queryKey, PageOffsets(totalCount))
  {
    var xmlChunks: seq<string> := [];
    events := [];
    var steps := PageOffsets(totalCount);
    assert steps[0..] == steps;
    PrependNothing(AllFrom(respond, webEnv, queryKey, steps));
    for i := 0 to |steps|
      invariant AllFrom(respond, webEnv, queryKey, steps) ==
        Prepend(xmlChunks, events, AllFrom(respond, webEnv, queryKey, steps[i..]))
    {
      assert steps[i..][0] == steps[i] && steps[i..][1..] == steps[i + 1..];
      var xmlData, batchEvents := FetchEfetchBatch(respond, webEnv, queryKey, steps[i]);
      if xmlData.Failure? {
        assert AllFrom(respond, webEnv, queryKey, steps[i..]) == PagesRun(Failure(xmlData.error), batchEvents);
        events := events + batchEvents;
        result := Failure(xmlData.error);
        assert PagesRun(result, events) == AllFrom(respond, webEnv, queryKey, steps);
        return;
      }
      PrependTwice(xmlChunks, events, xmlData.value, batchEvents + [Slept(Pacing)],
                   AllFrom(respond, webEnv, queryKey, steps[i + 1..]));
      xmlChunks := xmlChunks + [xmlData.value];
      events := events + (batchEvents + [Slept(Pacing)]);
    }
    assert steps[|steps|..] == [];
    assert events + [] == events && xmlChunks + [] == xmlChunks;
    result := Success(xmlChunks);
    assert PagesRun(result, events) == AllFrom(respond, webEnv, queryKey, steps);
  }

  /** The bodies of the pages at `offsets`, one per offset and in offset order, exactly
      when every page's retry loop succeeds. */
  lemma {:induction false} AllPagesInOffsetOrder(respond: Transport, webEnv: string, queryKey: string, offsets: seq<nat>)
    ensures AllFrom(respond, webEnv, queryKey, offsets).result.Success? <==>
      forall i :: 0 <= i < |offsets| ==> Batch(respond, PageRequest(webEnv, queryKey, offsets[i])).result.Success?
    ensures AllFrom(respond, webEnv, queryKey, offsets).result.Success? ==>
      |AllFrom(respond, webEnv, queryKey, offsets).result.value| == |offsets| &&
      forall i :: 0 <= i < |offsets| ==>
        Batch(respond, PageRequest(webEnv, queryKey, offsets[i])).result == Success(AllFrom(respond, webEnv, queryKey, offsets).result.value[i])
  {
    if offsets != [] {
      AllPagesInOffsetOrder(respond, webEnv, queryKey, offsets[1..]);
      var page := Batch(respond, PageRequest(webEnv, queryKey, offsets[0]));
      if page.result.Success? {
        var rest := AllFrom(respond, webEnv, queryKey, offsets[1..]);
        if rest.result.Success? {
          forall i | 0 < i < |offsets|
            ensures Batch(respond, PageRequest(webEnv, queryKey, offsets[i])).result == Success(([page.result.value] + rest.result.value)[i])
          {
            assert offsets[i] == offsets[1..][i - 1];
          }
        } else {
          var i :| 0 <= i < |offsets[1..]| && !Batch(respond, PageRequest(webEnv, queryKey, offsets[1..][i])).result.Success?;
          assert offsets[1..][i] == offsets[i + 1];
        }
      }
    }
  }

  /** The page at `offsets[i]` is the first to fail, and it fails with `err`. */
  predicate FirstFailureAt(respond: Transport, webEnv: string, queryKey: string, offsets: seq<nat>, i: nat, err: FetchError) {
    i < |offsets| &&
    (forall j :: 0 <= j < i ==> Batch(respond, PageRequest(webEnv, queryKey, offsets[j])).result.Success?) &&
    Batch(respond, PageRequest(webEnv, queryKey, offsets[i])).result == Failure(err)
  }

  /** No request is sent for a page after `offsets[i]`. */
  predicate RequestsUpTo(events: seq<Event>, offsets: seq<nat>, i: nat)
    requires i < |offsets|
  {
    forall r :: r in Requests(events) ==> r.retStart in offsets[..i + 1]
  }

  /** A failing run fails with the error of its first failing page; every page before it
      succeeded and no request is sent for a page after it. */
  lemma {:induction false} FirstFailureAborts(respond: Transport, webEnv: string, queryKey: string, offsets: seq<nat>)
    requires AllFrom(respond, webEnv, queryKey, offsets).result.Failure?
    ensures exists i: nat ::
      FirstFailureAt(respond, webEnv, queryKey, offsets, i, AllFrom(respond, webEnv, queryKey, offsets).result.error) &&
      RequestsUpTo(AllFrom(respond, webEnv, queryKey, offsets).events, offsets, i)
  {
    var run := AllFrom(respond, webEnv, queryKey, offsets);
    var req := PageRequest(webEnv, queryKey, offsets[0]);
    var page := Batch(respond, req);
    RetryBound(respond, req);
    AllFromRequests(respond, webEnv, queryKey, offsets);
    if page.result.Failure? {
      AllFromStepFails(respond, webEnv, queryKey, offsets, page.result.error);
      assert offsets[..1] == [offsets[0]];
      assert FirstFailureAt(respond, webEnv, queryKey, offsets, 0, run.result.error);
      assert RequestsUpTo(run.events, offsets, 0);
    } else {
      var rest := offsets[1..];
      var tail := AllFrom(respond, webEnv, queryKey, rest);
      AllFromStepOk(respond, webEnv, queryKey, offsets, page.result.value);
      assert tail.result == run.result;
      FirstFailureAborts(respond, webEnv, queryKey, rest);
      var i: nat :| FirstFailureAt(respond, webEnv, queryKey, rest, i, tail.result.error) && RequestsUpTo(tail.events, rest, i);
      ShiftFirstFailure(respond, webEnv, queryKey, offsets, i, tail.result.error);
      assert rest[..i + 1] == offsets[1..i + 2];
      forall r | r in Requests(run.events) ensures r.retStart in offsets[..i + 2] {
        if r in Requests(page.events) {
          assert r.retStart == offsets[0];
        } else {
          assert r in Requests(tail.events);
        }
      }
      assert RequestsUpTo(run.events, offsets, i + 1);
    }
  }

  lemma ShiftFirstFailure(respond: Transport, webEnv: string, queryKey: string, offsets: seq<nat>, i: nat, err: FetchError)
    requires offsets != [] && Batch(respond, PageRequest(webEnv, queryKey, offsets[0])).result.Success?
    requires FirstFailureAt(respond, webEnv, queryKey, offsets[1..], i, err)
    ensures FirstFailureAt(respond, webEnv, queryKey, offsets, i + 1, err)
  {
    forall j | 0 <= j < i + 1
      ensures Batch(respond, PageRequest(webEnv, queryKey, offsets[j])).result.Success?
    {
      if j > 0 { assert offsets[j] == offsets[1..][j - 1]; }
    }
    assert offsets[i + 1] == offsets[1..][i];
  }

  /** The requests of a run are those of its first page, then those of the rest. */
  lemma AllFromRequests(respond: Transport, webEnv: string, queryKey: string, offsets: seq<nat>)
    requires offsets != []
    ensures Requests(AllFrom(respond, webEnv, queryKey, offsets).events) ==
      var page := Batch(respond, PageRequest(webEnv, queryKey, offsets[0]));
      if page.result.Failure? then Requests(page.events)
      else Requests(page.events) + Requests(AllFrom(respond, webEnv, queryKey, offsets[1..]).events)
  {
    var page := Batch(respond, PageRequest(webEnv, queryKey, offsets[0]));
    if page.result.Success? {
      var rest := AllFrom(respond, webEnv, queryKey, offsets[1..]);
      RequestsAppend(page.events, [Slept(Pacing)]);
      RequestsAppend(page.events + [Slept(Pacing)], rest.events);
      assert Requests([Slept(Pacing)]) == [];
      assert Requests(page.events) + [] == Requests(page.events);
    }
  }

  /** The offsets requests carry never go down. */
  predicate StartsNondecreasing(rs: seq<EFetchRequest>) {
    forall a, b :: 0 <= a < b < |rs| ==> rs[a].retStart <= rs[b].retStart
  }

  lemma ConcatNondecreasing(x: seq<EFetchRequest>, y: seq<EFetchRequest>)
    requires StartsNondecreasing(x) && StartsNondecreasing(y)
    requires forall r, q :: r in x && q in y ==> r.retStart <= q.retStart
    ensures StartsNondecreasing(x + y)
  {
    forall a, b | 0 <= a < b < |x + y| ensures (x + y)[a].retStart <= (x + y)[b].retStart {
      if b < |x| {
        assert (x + y)[a] == x[a] && (x + y)[b] == x[b];
      } else if a < |x| {
        assert (x + y)[a] == x[a] && x[a] in x;
        assert (x + y)[b] == y[b - |x|] && y[b - |x|] in y;
      } else {
        assert (x + y)[a] == y[a - |x|] && (x + y)[b] == y[b - |x|];
      }
    }
  }

  /** Pages are requested strictly one after another in offset order, every request carries
      the same result-set handle and a page size of 200, and no page is requested more than
      three times. */
  lemma {:induction false} RequestsFollowOffsets(respond: Transport, webEnv: string, queryKey: string, offsets: seq<nat>)
    requires forall i, j :: 0 <= i < j < |offsets| ==> offsets[i] < offsets[j]
    ensures StartsNondecreasing(Requests(AllFrom(respond, webEnv, queryKey, offsets).events))
    ensures forall r :: r in Requests(AllFrom(respond, webEnv, queryKey, offsets).events) ==>
      r.webEnv == webEnv && r.queryKey == queryKey && r.retMax == MaxIdsPerRequest && r.retStart in offsets
    ensures |Requests(AllFrom(respond, webEnv, queryKey, offsets).events)| <= MaxAttempts * |offsets|
  {
    if offsets != [] {
      var req := PageRequest(webEnv, queryKey, offsets[0]);
      var head := Requests(Batch(respond, req).events);
      RetryBound(respond, req);
      AllFromRequests(respond, webEnv, queryKey, offsets);
      forall a, b | 0 <= a < b < |head| ensures head[a].retStart <= head[b].retStart {
        assert head[a] in head && head[b] in head;
      }
      if Batch(respond, req).result.Success? {
        var tail := Requests(AllFrom(respond, webEnv, queryKey, offsets[1..]).events);
        RequestsFollowOffsets(respond, webEnv, queryKey, offsets[1..]);
        forall r | r in tail ensures offsets[0] < r.retStart {
          var k :| 0 <= k < |offsets[1..]| && offsets[1..][k] == r.retStart;
          assert offsets[k + 1] == r.retStart;
        }
        ConcatNondecreasing(head, tail);
        forall r | r in tail ensures r.retStart in offsets {
          var k :| 0 <= k < |offsets[1..]| && offsets[1..][k] == r.retStart;
          assert offsets[k + 1] == r.retStart;
        }
      }
    }
  }

  /** No ids, no pages: the run requests nothing and returns an empty list. */
  lemma NoIdsNoRequests(respond: Transport, webEnv: string, queryKey: string)
    ensures AllFrom(respond, webEnv, queryKey, PageOffsets(0)) == PagesRun(Success([]), [])
  {
  }

  /** 250 ids make two pages, at offsets 0 and 200; when the page at 200 times out twice and
      then succeeds, the run still returns both bodies in order, after four requests. */
  lemma TwoTimeoutsThenSuccess(respond: Transport, webEnv: string, queryKey: string, first: string, second: string)
    requires respond(PageRequest(webEnv, queryKey, 0), 0) == Ok(first)
    requires respond(PageRequest(webEnv, queryKey, 200), 0) == ConnectTimeout
    requires respond(PageRequest(webEnv, queryKey, 200), 1) == ConnectTimeout
    requires respond(PageRequest(webEnv, queryKey, 200), 2) == Ok(second)
    ensures PageOffsets(250) == [0, 200]
    ensures AllFrom(respond, webEnv, queryKey, PageOffsets(250)).result == Success([first, second])
    ensures |Requests(AllFrom(respond, webEnv, queryKey, PageOffsets(250)).events)| == 4
  {
    var offsets := PageOffsets(250);
    assert offsets == [0, 200];
    var r0 := PageRequest(webEnv, queryKey, 0);
    var r1 := PageRequest(webEnv, queryKey, 200);
    RetrySettlesOnFirstNonTimeout(respond, r0, 0);
    RetrySettlesOnFirstNonTimeout(respond, r1, 2);
    var rest := offsets[1..];
    assert rest[0] == 200 && rest[1..] == [];
    var tail := AllFrom(respond, webEnv, queryKey, rest);
    AllFromStepOk(respond, webEnv, queryKey, rest, second);
    assert [second] + [] == [second];
    assert tail.result == Success([second]);
    AllFromStepOk(respond, webEnv, queryKey, offsets, first);
    assert [first] + [second] == [first, second];
    AllFromRequests(respond, webEnv, queryKey, offsets);
    AllFromRequests(respond, webEnv, queryKey, rest);
    assert Requests(AllFrom(respond, webEnv, queryKey, rest[1..]).events) == [];
  }

  /** When the pages at offsets 0 and 200 succeed and the page at offset 400 times out three
      times, the run fails with the error that names offset 400. */
  lemma ThreeTimeoutsAbortAt400(respond: Transport, webEnv: string, queryKey: string, totalCount: nat)
    requires 400 < totalCount
    requires respond(PageRequest(webEnv, queryKey, 0), 0).Ok?
    requires respond(PageRequest(webEnv, queryKey, 200), 0).Ok?
    requires TimedOutBetween(respond, PageRequest(webEnv, queryKey, 400), 0, MaxAttempts)
    ensures AllFrom(respond, webEnv, queryKey, PageOffsets(totalCount)).result == Failure(RetriesExhausted(400))
  {
    var offsets := PageOffsets(totalCount);
    RetrySettlesOnFirstNonTimeout(respond, PageRequest(webEnv, queryKey, 0), 0);
    RetrySettlesOnFirstNonTimeout(respond, PageRequest(webEnv, queryKey, 200), 0);
    RetryExhaustion(respond, PageRequest(webEnv, queryKey, 400));
    var rest := offsets[1..];
    var rest2 := rest[1..];
    assert offsets[0] == 0 && rest[0] == 200 && rest2[0] == 400;
    AllFromStepFails(respond, webEnv, queryKey, rest2, RetriesExhausted(400));
    AllFromStepOk(respond, webEnv, queryKey, rest, respond(PageRequest(webEnv, queryKey, 200), 0).body);
    AllFromStepOk(respond, webEnv, queryKey, offsets, respond(PageRequest(webEnv, queryKey, 0), 0).body);
  }
}
