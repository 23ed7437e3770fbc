/**
 * The page walk for one author (src/main.rs:181-204): pages 1 to 99 are requested
 * in turn, a page whose `data` is null ends the walk, and on every other page the
 * records are taken in order up to the first one created before the cutoff.
 */
module Pagination {
  import opened Wrappers
  import opened Errors
  import opened Records
  import opened Decimal
  import opened Sink

  /** What retrieving one page URL yields once the body is decoded. */
  datatype Fetched =
    | FetchFailed(error: FetchError)
    | Page(data: Option<seq<PullRequest>>)  // None: the `data` field is null or absent

  /** The network and the JSON decoding, seen as one function of the page URL. */
  type Fetcher = string -> Fetched

  /** Exclusive upper bound of the page range `1..100`: at most 99 pages per author. */
  const PageLimit: nat := 100

  /** `format!("{}&page={}", url, i)` (src/main.rs:182). */
  function PageUrl(url: string, i: nat): string
  {
    url + "&page=" + DecimalString(i)
  }

  /** Two page numbers never share a URL. */
  lemma PageUrlInjective(url: string, i: nat, j: nat)
    requires PageUrl(url, i) == PageUrl(url, j)
    ensures i == j
  {
    var pre := url + "&page=";
    assert PageUrl(url, i)[|pre|..] == DecimalString(i);
    assert PageUrl(url, j)[|pre|..] == DecimalString(j);
    DecimalStringInjective(i, j);
  }

  /**
   * The records of one page that are kept: the longest prefix none of whose
   * creation times is below the cutoff (the `break` of src/main.rs:189-191
   * leaves the record loop at the first record below it).
   */
  function AcceptedPrefix(page: seq<PullRequest>, cutoff: string): (r: seq<PullRequest>)
    ensures |r| <= |page| && r == page[..|r|]
    ensures forall k :: 0 <= k < |r| ==> !Below(r[k].created_at, cutoff)
    ensures |r| < |page| ==> Below(page[|r|].created_at, cutoff)
    decreases |page|
  {
    if page == [] || Below(page[0].created_at, cutoff) then []
    else [page[0]] + AcceptedPrefix(page[1..], cutoff)
  }

  /** The records that are not below the cutoff, wherever they are on the page. */
  function NotBelow(page: seq<PullRequest>, cutoff: string): seq<PullRequest>
    decreases |page|
  {
    if page == [] then []
    else if Below(page[0].created_at, cutoff) then NotBelow(page[1..], cutoff)
    else [page[0]] + NotBelow(page[1..], cutoff)
  }

  /** A page listed newest first: no creation time is above an earlier one. */
  ghost predicate NewestFirst(page: seq<PullRequest>)
  {
    forall j, k :: 0 <= j < k < |page| ==> !Below(page[j].created_at, page[k].created_at)
  }

  /**
   * When the endpoint lists a page newest first, stopping at the first record
   * below the cutoff loses nothing: the prefix is every record not below it.
   */
  lemma {:induction false} NewestFirstPrefixIsFilter(page: seq<PullRequest>, cutoff: string)
    requires NewestFirst(page)
    ensures AcceptedPrefix(page, cutoff) == NotBelow(page, cutoff)
    decreases |page|
  {
    if page != [] {
      assert NewestFirst(page[1..]);
      if Below(page[0].created_at, cutoff) {
        AllBelow(page, cutoff);
      } else {
        NewestFirstPrefixIsFilter(page[1..], cutoff);
      }
    }
  }

  lemma {:induction false} AllBelow(page: seq<PullRequest>, cutoff: string)
    requires page != [] && NewestFirst(page) && Below(page[0].created_at, cutoff)
    ensures NotBelow(page[1..], cutoff) == []
    decreases |page|
  {
    if |page| > 1 {
      BelowThrough(page[1].created_at, page[0].created_at, cutoff);
      assert NewestFirst(page[1..]);
      AllBelow(page[1..], cutoff);
    }
  }

  /** What the walk of one author did: the URLs requested, the records kept, how it failed. */
  datatype Trace = Trace(requests: seq<string>, accepted: seq<PullRequest>, failure: Option<Failure>)

  predicate HasData(f: Fetched) { f.Page? && f.data.Some? }

  /**
   * The URLs the loop of src/main.rs:181-204 requests from page `i` on: page `i`,
   * then the next page as long as the previous one carried data, up to page 99.
   */
  function RequestsFrom(url: string, fetch: Fetcher, i: nat): (r: seq<string>)
    ensures r == [] || i + |r| <= PageLimit
    decreases PageLimit - i
  {
    if i >= PageLimit then []
    else if HasData(fetch(PageUrl(url, i))) then [PageUrl(url, i)] + RequestsFrom(url, fetch, i + 1)
    else [PageUrl(url, i)]
  }

  /** The requests of a walk are the URLs of pages `i`, `i + 1`, ..., in order. */
  lemma {:induction false} RequestsAreUrls(url: string, fetch: Fetcher, i: nat)
    ensures forall k :: 0 <= k < |RequestsFrom(url, fetch, i)| ==> RequestsFrom(url, fetch, i)[k] == PageUrl(url, i + k)
    decreases PageLimit - i
  {
    if i < PageLimit && HasData(fetch(PageUrl(url, i))) {
      RequestsAreUrls(url, fetch, i + 1);
      var r, rest := RequestsFrom(url, fetch, i), RequestsFrom(url, fetch, i + 1);
      forall k | 0 < k < |r|
        ensures r[k] == PageUrl(url, i + k)
      {
        assert r[k] == rest[k - 1];
        assert rest[k - 1] == PageUrl(url, (i + 1) + (k - 1));
      }
    }
  }

  /** The records that loop keeps from page `i` on: each data page's kept prefix, in page order. */
  function AcceptedFrom(url: string, cutoff: string, fetch: Fetcher, i: nat): (r: seq<PullRequest>)
    ensures forall x :: x in r ==> !Below(x.created_at, cutoff)
    decreases PageLimit - i
  {
    if i >= PageLimit || !HasData(fetch(PageUrl(url, i))) then []
    else AcceptedPrefix(fetch(PageUrl(url, i)).data.value, cutoff) + AcceptedFrom(url, cutoff, fetch, i + 1)
  }

  /** How that loop fails from page `i` on: with the error of the first request that failed, if any. */
  function FailureFrom(url: string, fetch: Fetcher, i: nat): (r: Option<Failure>)
    ensures r.Some? ==> r.value.Fetch?
    decreases PageLimit - i
  {
    if i >= PageLimit then None
    else if fetch(PageUrl(url, i)).FetchFailed? then Some(Fetch(fetch(PageUrl(url, i)).error))
    else if fetch(PageUrl(url, i)).data.None? then None
    else FailureFrom(url, fetch, i + 1)
  }

  /** The walk from page `i` on. */
  function PagesFrom(url: string, cutoff: string, fetch: Fetcher, i: nat): Trace
  {
    Trace(RequestsFrom(url, fetch, i), AcceptedFrom(url, cutoff, fetch, i), FailureFrom(url, fetch, i))
  }

  /** The walk of one author's pages: the loop `for i in 1..100` starts at page 1 (src/main.rs:181). */
  function AuthorPages(url: string, cutoff: string, fetch: Fetcher): Trace
  {
    PagesFrom(url, cutoff, fetch, 1)
  }

  /**
   * The walk stops only where the source stops it: every page but the last
   * carried data, so an empty list or a record below the cutoff never ends it.
   */
  lemma {:induction false} PagesStopOnlyAtEnd(url: string, fetch: Fetcher, i: nat)
    requires 1 <= i <= PageLimit
    ensures var r := RequestsFrom(url, fetch, i);
      && (i < PageLimit ==> r != [])
      && (forall k :: 0 <= k < |r| - 1 ==> HasData(fetch(r[k])))
    decreases PageLimit - i
  {
    if i < PageLimit && HasData(fetch(PageUrl(url, i))) {
      var r, rest := RequestsFrom(url, fetch, i), RequestsFrom(url, fetch, i + 1);
      PagesStopOnlyAtEnd(url, fetch, i + 1);
      forall k | 0 <= k < |r| - 1
        ensures HasData(fetch(r[k]))
      {
        if k > 0 {
          assert r[k] == rest[k - 1];
        }
      }
    }
  }

  /**
   * How a walk ends: before the page bound, only at a null page or a failure;
   * the walk fails exactly when its last request failed, and with that error.
   */
  lemma {:induction false} PagesEndAtNullOrFailure(url: string, fetch: Fetcher, i: nat)
    requires 1 <= i <= PageLimit
    ensures var r, f := RequestsFrom(url, fetch, i), FailureFrom(url, fetch, i);
      && (f.None? && 0 < |r| < PageLimit - i ==> fetch(r[|r| - 1]) == Page(None))
      && (f.Some? ==> r != [] && fetch(r[|r| - 1]) == FetchFailed(f.value.error))
      && (r != [] && fetch(r[|r| - 1]).FetchFailed? ==> f == Some(Fetch(fetch(r[|r| - 1]).error)))
    decreases PageLimit - i
  {
    if i < PageLimit && HasData(fetch(PageUrl(url, i))) {
      var r, rest := RequestsFrom(url, fetch, i), RequestsFrom(url, fetch, i + 1);
      PagesEndAtNullOrFailure(url, fetch, i + 1);
      if rest != [] {
        assert r[|r| - 1] == rest[|rest| - 1];
      }
    }
  }

  /** An endpoint that never signals the end is still asked for 99 pages at most, and exactly that many. */
  lemma {:induction false} PageLimitReached(url: string, fetch: Fetcher, i: nat)
    requires 1 <= i <= PageLimit
    requires forall j :: i <= j < PageLimit ==> HasData(fetch(PageUrl(url, j)))
    ensures |RequestsFrom(url, fetch, i)| == PageLimit - i
    ensures FailureFrom(url, fetch, i).None?
    decreases PageLimit - i
  {
    if i < PageLimit {
      PageLimitReached(url, fetch, i + 1);
    }
  }

  /** Pages 1..k with data followed by a null page k+1 cost exactly k+1 requests. */
  lemma EndMarkerAfter(url: string, cutoff: string, fetch: Fetcher, k: nat)
    requires k + 1 < PageLimit
    requires forall j :: 1 <= j <= k ==> HasData(fetch(PageUrl(url, j)))
    requires fetch(PageUrl(url, k + 1)) == Page(None)
    ensures |AuthorPages(url, cutoff, fetch).requests| == k + 1
    ensures AuthorPages(url, cutoff, fetch).failure.None?
  {
    EndMarkerFrom(url, fetch, k, 1);
  }

  /** From page `i` on, pages i..k with data and a null page k+1 cost k+2-i requests and no failure. */
  lemma {:induction false} EndMarkerFrom(url: string, fetch: Fetcher, k: nat, i: nat)
    requires 1 <= i <= k + 1 < PageLimit
    requires forall j :: i <= j <= k ==> HasData(fetch(PageUrl(url, j)))
    requires fetch(PageUrl(url, k + 1)) == Page(None)
    ensures |RequestsFrom(url, fetch, i)| == k + 2 - i
    ensures FailureFrom(url, fetch, i).None?
    decreases k + 1 - i
  {
    if i <= k {
      EndMarkerFrom(url, fetch, k, i + 1);
    }
  }

  /** One page with data followed by a null page: two requests, and that page's kept prefix. */
  lemma OnePageThenEnd(url: string, cutoff: string, fetch: Fetcher, page: seq<PullRequest>)
    requires fetch(PageUrl(url, 1)) == Page(Some(page))
    requires fetch(PageUrl(url, 2)) == Page(None)
    ensures AuthorPages(url, cutoff, fetch) == Trace([PageUrl(url, 1), PageUrl(url, 2)], AcceptedPrefix(page, cutoff), None)
  {
  }

  /** No page URL is requested twice during one walk. */
  lemma RequestsDistinct(url: string, fetch: Fetcher, i: nat)
    requires 1 <= i <= PageLimit
    ensures var r := RequestsFrom(url, fetch, i);
      forall j, k :: 0 <= j < k < |r| ==> r[j] != r[k]
  {
    var r := RequestsFrom(url, fetch, i);
    RequestsAreUrls(url, fetch, i);
    forall j, k | 0 <= j < k < |r|
      ensures r[j] != r[k]
    {
      if r[j] == r[k] {
        PageUrlInjective(url, i + j, i + k);
      }
    }
  }

  /** The records a page contributes: its kept prefix when it carried data, none otherwise. */
  function PageContribution(f: Fetched, cutoff: string): seq<PullRequest>
  {
    if HasData(f) then AcceptedPrefix(f.data.value, cutoff) else []
  }

  /** The kept prefixes of the pages fetched from `requests`, concatenated in request order. */
  function Contributions(requests: seq<string>, fetch: Fetcher, cutoff: string): seq<PullRequest>
    decreases |requests|
  {
    if requests == [] then []
    else PageContribution(fetch(requests[0]), cutoff) + Contributions(requests[1..], fetch, cutoff)
  }

  /** What one walk keeps is the in-order concatenation of the kept prefix of every page it fetched. */
  lemma {:induction false} AcceptedAreContributions(url: string, cutoff: string, fetch: Fetcher, i: nat)
    requires 1 <= i <= PageLimit
    ensures AcceptedFrom(url, cutoff, fetch, i) == Contributions(RequestsFrom(url, fetch, i), fetch, cutoff)
    decreases PageLimit - i
  {
    if i < PageLimit && HasData(fetch(PageUrl(url, i))) {
      AcceptedAreContributions(url, cutoff, fetch, i + 1);
      assert RequestsFrom(url, fetch, i)[1..] == RequestsFrom(url, fetch, i + 1);
    }
  }

  /** A prefix none of whose records is below the cutoff, ending at the page's end or at one below it, is the kept prefix. */
  lemma AcceptedPrefixIs(items: seq<PullRequest>, cutoff: string, k: nat)
    requires k <= |items|
    requires forall j :: 0 <= j < k ==> !Below(items[j].created_at, cutoff)
    requires k < |items| ==> Below(items[k].created_at, cutoff)
    ensures AcceptedPrefix(items, cutoff) == items[..k]
  {
  }

  /** The whole walk, given what was requested and kept before the walk `rest` that remains. */
  function Resume(done: seq<string>, kept: seq<PullRequest>, rest: Trace): Trace
  {
    Trace(done + rest.requests, kept + rest.accepted, rest.failure)
  }

  /** A page with data: the walk from page `i` requests that page, then walks on from page `i + 1`, failing as that walk fails. */
  lemma WalkContinues(url: string, fetch: Fetcher, i: nat, done: seq<string>)
    requires 1 <= i < PageLimit && HasData(fetch(PageUrl(url, i)))
    requires done + RequestsFrom(url, fetch, i) == RequestsFrom(url, fetch, 1)
    ensures (done + [PageUrl(url, i)]) + RequestsFrom(url, fetch, i + 1) == RequestsFrom(url, fetch, 1)
    ensures FailureFrom(url, fetch, i + 1) == FailureFrom(url, fetch, i)
  {
    var u, rest := PageUrl(url, i), RequestsFrom(url, fetch, i + 1);
    assert RequestsFrom(url, fetch, i) == [u] + rest;
    assert done + ([u] + rest) == (done + [u]) + rest;
  }

  /** A page with data: the walk from page `i` keeps that page's kept prefix, then what the walk from page `i + 1` keeps. */
  lemma AcceptedContinue(url: string, cutoff: string, fetch: Fetcher, i: nat, items: seq<PullRequest>, kept: seq<PullRequest>)
    requires 1 <= i < PageLimit && fetch(PageUrl(url, i)) == Page(Some(items))
    requires kept + AcceptedFrom(url, cutoff, fetch, i) == AcceptedFrom(url, cutoff, fetch, 1)
    ensures (kept + AcceptedPrefix(items, cutoff)) + AcceptedFrom(url, cutoff, fetch, i + 1) == AcceptedFrom(url, cutoff, fetch, 1)
  {
    var page, rest := AcceptedPrefix(items, cutoff), AcceptedFrom(url, cutoff, fetch, i + 1);
    assert AcceptedFrom(url, cutoff, fetch, i) == page + rest;
    assert kept + (page + rest) == (kept + page) + rest;
  }

  /** A page without data ends the walk: nothing more is requested or kept, and a failed request is the walk's failure. */
  lemma WalkEnds(url: string, cutoff: string, fetch: Fetcher, i: nat, done: seq<string>, kept: seq<PullRequest>)
    requires 1 <= i < PageLimit && !HasData(fetch(PageUrl(url, i)))
    requires done + RequestsFrom(url, fetch, i) == RequestsFrom(url, fetch, 1)
    requires kept + AcceptedFrom(url, cutoff, fetch, i) == AcceptedFrom(url, cutoff, fetch, 1)
    ensures done + [PageUrl(url, i)] == RequestsFrom(url, fetch, 1)
    ensures kept == AcceptedFrom(url, cutoff, fetch, 1)
    ensures FailureFrom(url, fetch, i) == if fetch(PageUrl(url, i)).FetchFailed? then Some(Fetch(fetch(PageUrl(url, i)).error)) else None
  {
    assert kept + [] == kept;
  }

  /**
   * The record loop of src/main.rs:188-200 over one page: each record is pushed
   * (spreadsheet mode) or printed (console mode) until the first one below the cutoff.
   */
  method ScanPage(items: seq<PullRequest>, cutoff: string, sink0: Sink) returns (sink: Sink)
    ensures sink == Emit(sink0, AcceptedPrefix(items, cutoff))
  {
    sink := sink0;
    var k := 0;
    while k < |items| && !Below(items[k].created_at, cutoff)
      invariant k <= |items|
      invariant forall j :: 0 <= j < k ==> !Below(items[j].created_at, cutoff)
      invariant sink == Emit(sink0, items[..k])
    {
      var item := items[k];
      if sink.exc {
        sink := sink.(excel := sink.excel + [item]);
      } else {
        sink := sink.(lines := sink.lines + [ConsoleLine(item)]);
      }
      EmitTwice(sink0, items[..k], [item]);
      assert items[..k + 1] == items[..k] + [item];
      k := k + 1;
    }
    AcceptedPrefixIs(items, cutoff, k);
  }

  /**
   * The page loop of src/main.rs:181-204 for one author whose query URL is `url`:
   * the URLs requested, the records delivered and the failure, if any, are those of AuthorPages.
   */
  method ScanAuthor(url: string, cutoff: string, fetch: Fetcher, requests0: seq<string>, sink0: Sink)
    returns (requests: seq<string>, sink: Sink, failure: Option<Failure>)
    ensures var t := AuthorPages(url, cutoff, fetch);
      && requests == requests0 + t.requests
      && sink == Emit(sink0, t.accepted)
      && failure == t.failure
  {
    requests, sink, failure := requests0, sink0, None;
    ghost var done: seq<string>, kept: seq<PullRequest> := [], [];
    for i := 1 to PageLimit
      invariant requests == requests0 + done
      invariant done + RequestsFrom(url, fetch, i) == RequestsFrom(url, fetch, 1)
      invariant kept + AcceptedFrom(url, cutoff, fetch, i) == AcceptedFrom(url, cutoff, fetch, 1)
      invariant FailureFrom(url, fetch, i) == FailureFrom(url, fetch, 1)
      invariant sink == Emit(sink0, kept)
      invariant failure.None?
    {
      var urlReal := PageUrl(url, i);
      assert requests0 + done + [urlReal] == requests0 + (done + [urlReal]);
      requests := requests + [urlReal];
      var answer := fetch(urlReal);
      if answer.FetchFailed? {
        WalkEnds(url, cutoff, fetch, i, done, kept);
        failure := Some(Fetch(answer.error));
        return;
      } else if answer.data.None? {
        WalkEnds(url, cutoff, fetch, i, done, kept);
        done := done + [urlReal];
        break;
      }
      var items := answer.data.value;
      WalkContinues(url, fetch, i, done);
      AcceptedContinue(url, cutoff, fetch, i, items, kept);
      ghost var page := AcceptedPrefix(items, cutoff);
      sink := ScanPage(items, cutoff, sink);
      EmitTwice(sink0, kept, page);
      done, kept := done + [urlReal], kept + page;
    }
    assert done + [] == done && kept + [] == kept;
  }
}
