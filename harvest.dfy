/**
  `main` after argument parsing: check the access window, take the ids, the WebEnv and
  the query key that the search returned, fetch every page and normalise the records.
  The search call itself, `ET.fromstring` and the CSV writing are injected or left out:
  the search result arrives as inputs and page bodies are parsed by `parse`.
*/
module Harvest {
  import opened Wrappers
  import opened AccessWindow
  import opened Fetch
  import opened ElementTree
  import opened Normalize

  /** How a run ends: refused by the access window (a printed notice and a clean exit),
      aborted by a page failure (no records kept), or completed with the records. */
  datatype HarvestOutcome = Denied | Aborted(error: FetchError) | Completed(records: seq<Record>)

  /** Each fetched body, parsed. */
  function ParsedPages(bodies: seq<string>, parse: string -> Elem): seq<Elem> {
    seq(|bodies|, i requires 0 <= i < |bodies| => parse(bodies[i]))
  }

  /** What a run yields after the access check passed, for `total_count = len(ids)`. */
  function RunOutcome(ids: seq<string>, webEnv: string, queryKey: string, respond: Transport, parse: string -> Elem): HarvestOutcome {
    var run := AllFrom(respond, webEnv, queryKey, PageOffsets(|ids|));
    if run.result.Failure? then Aborted(run.result.error)
    else Completed(RecordsOf(ParsedPages(run.result.value, parse)))
  }

  /** `main`: a denied run sends nothing; otherwise the pages for `len(ids)` ids are
      fetched and their articles normalised, and a run that finds no ids sends nothing
      and completes with no records. */
  method Harvest(weekday: Weekday, now: ClockTime, ids: seq<string>, webEnv: string, queryKey: string,
                 respond: Transport, parse: string -> Elem)
    returns (outcome: HarvestOutcome, events: seq<Event>)
    requires now.Valid()
    ensures !IsRequestAllowed(weekday, now) ==> outcome == Denied && events == []
    ensures IsRequestAllowed(weekday, now) ==>
      outcome == RunOutcome(ids, webEnv, queryKey, respond, parse) &&
      events == AllFrom(respond, webEnv, queryKey, PageOffsets(|ids|)).events
    ensures IsRequestAllowed(weekday, now) && ids == [] ==> outcome == Completed([]) && events == []
  {
    if !IsRequestAllowed(weekday, now) {
      return Denied, [];
    }
    var totalCount := |ids|;
    var xmlChunks, fetchEvents := FetchAllEfetch(respond, webEnv, queryKey, totalCount);
    events := fetchEvents;
    if xmlChunks.Failure? {
      return Aborted(xmlChunks.error), events;
    }
    var records := ParsePubmedXml(ParsedPages(xmlChunks.value, parse));
    outcome := Completed(records);
    if ids == [] {
      NoIdsNoRequests(respond, webEnv, queryKey);
    }
  }

  /** A completed run holds one record per article of the pages at offsets 0, 200, ...,
      one page per started block of 200 ids, each page the body its own request returned. */
  lemma CompletedRunCoversAllPages(ids: seq<string>, webEnv: string, queryKey: string, respond: Transport, parse: string -> Elem)
    requires RunOutcome(ids, webEnv, queryKey, respond, parse).Completed?
    ensures var run := AllFrom(respond, webEnv, queryKey, PageOffsets(|ids|));
      var bodies := run.result.value;
      |bodies| == (|ids| + 199) / 200 &&
      (forall i :: 0 <= i < |bodies| ==>
        Batch(respond, PageRequest(webEnv, queryKey, 200 * i)).result == Success(bodies[i])) &&
      |RunOutcome(ids, webEnv, queryKey, respond, parse).records| == ArticleCount(ParsedPages(bodies, parse))
  {
    var offsets := PageOffsets(|ids|);
    AllPagesInOffsetOrder(respond, webEnv, queryKey, offsets);
    RecordCount(ParsedPages(AllFrom(respond, webEnv, queryKey, offsets).result.value, parse));
  }

  /** A run aborts only because some page failed, every page before it succeeded, and the
      error is that page's. */
  lemma AbortedRunNamesFailingPage(ids: seq<string>, webEnv: string, queryKey: string, respond: Transport, parse: string -> Elem)
    requires RunOutcome(ids, webEnv, queryKey, respond, parse).Aborted?
    ensures exists i: nat :: FirstFailureAt(respond, webEnv, queryKey, PageOffsets(|ids|), i,
                                            RunOutcome(ids, webEnv, queryKey, respond, parse).error)
  {
    FirstFailureAborts(respond, webEnv, queryKey, PageOffsets(|ids|));
  }
}
