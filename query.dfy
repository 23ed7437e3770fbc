/**
 * One run of `query_pr_info` (src/main.rs:150-212): check the arguments, resolve
 * the authors, walk every author's pages in order, and either print each kept
 * pull request or hand them all to the spreadsheet export at the end.
 */
module Query {
  import opened Wrappers
  import opened Errors
  import opened Records
  import opened Params
  import opened Sink
  import opened Pagination
  import opened Excel

  /**
   * The walk over `authors` in order (src/main.rs:176-205): each author's query URL
   * is built, then its pages are walked; the first failure ends everything.
   */
  function ScanAuthors(authors: seq<string>, arg: QueryPullParam, cutoff: string, fetch: Fetcher): (t: Trace)
    ensures forall x :: x in t.accepted ==> !Below(x.created_at, cutoff)
    ensures |t.requests| <= (PageLimit - 1) * |authors|
    ensures t.failure.Some? ==> t.failure.value.Fetch? || (t.failure.value == NoState && arg.state.None?)
    decreases |authors|
  {
    if authors == [] then Trace([], [], None)
    else
      var before := ScanAuthors(authors[..|authors| - 1], arg, cutoff, fetch);
      if before.failure.Some? then before
      else
        match UrlSplice(Link, arg, Some(authors[|authors| - 1]))
        case Failure(e) => Trace(before.requests, before.accepted, Some(e))
        case Success(url) => Resume(before.requests, before.accepted, AuthorPages(url, cutoff, fetch))
  }

  /** After the first failure no further author is walked: the trace of the whole list is that of the prefix. */
  lemma {:induction false} FailureIsFinal(authors: seq<string>, k: nat, arg: QueryPullParam, cutoff: string, fetch: Fetcher)
    requires k <= |authors|
    requires ScanAuthors(authors[..k], arg, cutoff, fetch).failure.Some?
    ensures ScanAuthors(authors, arg, cutoff, fetch) == ScanAuthors(authors[..k], arg, cutoff, fetch)
    decreases |authors| - k
  {
    if k < |authors| {
      var shorter := authors[..|authors| - 1];
      assert shorter[..k] == authors[..k];
      FailureIsFinal(shorter, k, arg, cutoff, fetch);
    } else {
      assert authors[..k] == authors;
    }
  }

  /**
   * What a run leaves behind: how it ended, the page URLs it requested, the
   * final `excel_vec`, the lines it printed and the workbook it wrote.
   */
  datatype Report = Report(
    status: Outcome<Failure>,
    requests: seq<string>,
    excel: seq<PullRequest>,
    lines: seq<string>,
    workbook: Option<Workbook>)

  /** The sink a run starts with: nothing pushed, nothing printed. */
  function EmptySink(exc: bool): Sink
  {
    Sink(exc, [], [])
  }

  /**
   * A run, given the parsed arguments, the inventory file's lines (None when it
   * cannot be opened), the cutoff (None when `checked_sub_days` yields none) and the fetcher.
   */
  function Run(arg: QueryPullParam, inventoryFile: Option<seq<string>>, cutoff: Option<string>, fetch: Fetcher): Report
  {
    match ParamCheck(arg)
    case Fail(e) => Report(Fail(e), [], [], [], None)
    case Pass =>
      match ResolveAuthors(arg, inventoryFile)
      case Failure(e) => Report(Fail(e), [], [], [], None)
      case Success(authors) =>
        match cutoff
        case None => Report(Fail(DurationOverflow), [], [], [], None)
        case Some(next) =>
          var t := ScanAuthors(authors, arg, next, fetch);
          var sink := Emit(EmptySink(arg.exc), t.accepted);
          if t.failure.Some? then Report(Fail(t.failure.value), t.requests, sink.excel, sink.lines, None)
          else Report(Pass, t.requests, sink.excel, sink.lines,
                      if arg.exc then ExpectedWorkbook(sink.excel) else None)
  }

  /**
   * `query_pr_info` with its author loop; the page loop and the record loop are
   * ScanAuthor and ScanPage.
   */
  method QueryPrInfo(arg: QueryPullParam, inventoryFile: Option<seq<string>>, cutoff: Option<string>, fetch: Fetcher)
    returns (report: Report)
    ensures report == Run(arg, inventoryFile, cutoff, fetch)
  {
    var check := ParamCheck(arg);
    if check.Fail? {
      return Report(check, [], [], [], None);
    }
    var resolved := ResolveAuthors(arg, inventoryFile);
    if resolved.Failure? {
      return Report(Fail(resolved.error), [], [], [], None);
    }
    var userInventory := resolved.value;
    if cutoff.None? {
      return Report(Fail(DurationOverflow), [], [], [], None);
    }
    var next := cutoff.value;

    var requests: seq<string> := [];
    var sink := EmptySink(arg.exc);
    for a := 0 to |userInventory|
      invariant var t := ScanAuthors(userInventory[..a], arg, next, fetch);
        t.failure.None? && requests == t.requests && sink == Emit(EmptySink(arg.exc), t.accepted)
    {
      ghost var before := ScanAuthors(userInventory[..a], arg, next, fetch);
      assert userInventory[..a + 1][..a] == userInventory[..a];
      var user := userInventory[a];
      var url := UrlSplice(Link, arg, Some(user));
      if url.Failure? {
        FailureIsFinal(userInventory, a + 1, arg, next, fetch);
        return Report(Fail(url.error), requests, sink.excel, sink.lines, None);
      }
      var failure: Option<Failure>;
      ghost var pages := AuthorPages(url.value, next, fetch);
      requests, sink, failure := ScanAuthor(url.value, next, fetch, requests, sink);
      EmitTwice(EmptySink(arg.exc), before.accepted, pages.accepted);
      if failure.Some? {
        FailureIsFinal(userInventory, a + 1, arg, next, fetch);
        return Report(Fail(failure.value), requests, sink.excel, sink.lines, None);
      }
    }
    assert userInventory[..|userInventory|] == userInventory;

    if arg.exc {
      var wb := DoExcel(sink.excel);
      return Report(Pass, requests, sink.excel, sink.lines, wb);
    }
    return Report(Pass, requests, sink.excel, sink.lines, None);
  }

  /**
   * The process's exit status (src/main.rs:215-218). A panic ends it with 101; a
   * transport error leaves `query_pr_info` through `?` as an `Err`, which `main`
   * discards, so the process then ends normally.
   */
  function ExitCode(status: Outcome<Failure>): (code: int)
    ensures code == 0 <==> status.Pass? || status.error == Fetch(Transport)
    ensures code != 0 ==> code == 101
  {
    match status
    case Pass => 0
    case Fail(Fetch(Transport)) => 0
    case Fail(_) => 101
  }

  /** Without a state, walking any author fails at once, before a single request. */
  lemma {:induction false} NoStateNoRequests(authors: seq<string>, arg: QueryPullParam, cutoff: string, fetch: Fetcher)
    requires arg.state.None?
    ensures var t := ScanAuthors(authors, arg, cutoff, fetch);
      && t.requests == [] && t.accepted == []
      && t.failure == (if authors == [] then None else Some(NoState))
    decreases |authors|
  {
    if authors != [] {
      NoStateNoRequests(authors[..|authors| - 1], arg, cutoff, fetch);
    }
  }

  /** The pull requests a run keeps, in the order it meets them. */
  function Kept(arg: QueryPullParam, inventoryFile: Option<seq<string>>, next: string, fetch: Fetcher): seq<PullRequest>
  {
    if ParamCheck(arg).Pass? && ResolveAuthors(arg, inventoryFile).Success?
    then ScanAuthors(ResolveAuthors(arg, inventoryFile).value, arg, next, fetch).accepted
    else []
  }

  /**
   * Nothing a run keeps was created before the cutoff; spreadsheet mode pushes
   * the kept requests and prints no record line, console mode prints one line per kept
   * request, in order, and pushes nothing; a failed run writes no workbook.
   */
  lemma RunKeepsOnlyRecent(arg: QueryPullParam, inventoryFile: Option<seq<string>>, next: string, fetch: Fetcher)
    ensures forall x :: x in Kept(arg, inventoryFile, next, fetch) ==> !Below(x.created_at, next)
    ensures var r := Run(arg, inventoryFile, Some(next), fetch);
      var kept := Kept(arg, inventoryFile, next, fetch);
      && r.excel == (if arg.exc then kept else [])
      && r.lines == (if arg.exc then [] else ConsoleLines(kept))
      && (!arg.exc || r.status.Fail? ==> r.workbook.None?)
  {
  }

  /**
   * In spreadsheet mode a successful run exports everything it kept once, at the
   * end: no workbook when nothing was kept, otherwise one named after the author
   * field of the first kept request, holding the header and one row per request.
   */
  lemma SpreadsheetExport(arg: QueryPullParam, inventoryFile: Option<seq<string>>, next: string, fetch: Fetcher)
    requires arg.exc
    ensures var r := Run(arg, inventoryFile, Some(next), fetch);
      r.status.Pass? ==>
        && (r.workbook.None? <==> r.excel == [])
        && (r.workbook.Some? ==>
              r.workbook.value.filename == r.excel[0].author + ".xlsx" &&
              r.workbook.value.cells == SheetCells(r.excel))
  {
  }

  /**
   * The configuration errors are found before any request is made and before
   * anything is printed or pushed; a missing state stops the run at the first
   * author, and only when there is one.
   */
  lemma ConfigurationErrorsComeFirst(arg: QueryPullParam, inventoryFile: Option<seq<string>>, cutoff: Option<string>, fetch: Fetcher)
    ensures var r := Run(arg, inventoryFile, cutoff, fetch);
      r.status.Fail? && !r.status.error.Fetch? ==> r.requests == [] && r.excel == [] && r.lines == []
    ensures var r := Run(arg, inventoryFile, cutoff, fetch);
      ParamCheck(arg).Fail? ==> r.status == Fail(AuthorInventoryConflict)
    ensures var r := Run(arg, inventoryFile, cutoff, fetch);
      ParamCheck(arg).Pass? && ResolveAuthors(arg, inventoryFile).Success? && cutoff.Some? && arg.state.None? ==>
        r.status == (if ResolveAuthors(arg, inventoryFile).value == [] then Pass else Fail(NoState))
  {
    if ParamCheck(arg).Pass? && ResolveAuthors(arg, inventoryFile).Success? && cutoff.Some? {
      var authors := ResolveAuthors(arg, inventoryFile).value;
      if arg.state.None? {
        NoStateNoRequests(authors, arg, cutoff.value, fetch);
      }
    }
  }

  /**
   * A run never reaches the "no author" panics, and it asks for at most 99 pages
   * per author.
   */
  lemma RunBounds(arg: QueryPullParam, inventoryFile: Option<seq<string>>, next: string, fetch: Fetcher)
    requires ParamCheck(arg).Pass? && ResolveAuthors(arg, inventoryFile).Success?
    ensures var r := Run(arg, inventoryFile, Some(next), fetch);
      && r.status != Fail(NoAuthor) && r.status != Fail(AuthorMissing)
      && |r.requests| <= (PageLimit - 1) * |ResolveAuthors(arg, inventoryFile).value|
  {
  }

  /** With a single --author, the run is that author's page walk. */
  lemma SingleAuthorRun(arg: QueryPullParam, next: string, fetch: Fetcher)
    requires arg.author.Some? && arg.inventory.None? && arg.state.Some?
    ensures var r := Run(arg, None, Some(next), fetch);
      var t := AuthorPages(Link + "author=" + arg.author.value + "&state=" + arg.state.value, next, fetch);
      && r.requests == t.requests
      && r.status == (if t.failure.Some? then Fail(t.failure.value) else Pass)
      && r.excel == (if arg.exc then t.accepted else [])
      && r.lines == (if arg.exc then [] else ConsoleLines(t.accepted))
  {
    var authors := [arg.author.value];
    assert authors[..0] == [];
    var url := Link + "author=" + arg.author.value + "&state=" + arg.state.value;
    var t := AuthorPages(url, next, fetch);
    assert ScanAuthors(authors, arg, next, fetch) == Resume([], [], t);
    assert [] + t.requests == t.requests && [] + t.accepted == t.accepted;
    assert [] + ConsoleLines(t.accepted) == ConsoleLines(t.accepted);
  }

  /** A pull request by alice created at `created`, its other fields left empty. */
  function AliceRequest(created: string): PullRequest
  {
    PullRequest("", "", "", "", "", "open", "alice", "", created, created, "", "", false, false)
  }

  /** A timestamp between 2026-10-10 and 2026-10-19, given from the last digit of the day on. */
  function MidOctober(rest: string): string
  {
    "2026-10-1" + rest
  }

  /** On alice's page only the request from eight days before is below the cutoff, and it comes last. */
  lemma AlicePage()
    ensures AcceptedPrefix([AliceRequest(MidOctober("8 09:00:00")),
                            AliceRequest(MidOctober("7 09:00:00")),
                            AliceRequest(MidOctober("0 09:00:00"))], MidOctober("1 12:00:00"))
         == [AliceRequest(MidOctober("8 09:00:00")), AliceRequest(MidOctober("7 09:00:00"))]
  {
    BelowAfterCommonPrefix("2026-10-1", "8 09:00:00", "1 12:00:00");
    BelowAfterCommonPrefix("2026-10-1", "7 09:00:00", "1 12:00:00");
    BelowAfterCommonPrefix("2026-10-1", "0 09:00:00", "1 12:00:00");
  }

  /**
   * A seven-day window ending 2026-10-18 12:00:00 for alice: page 1 holds requests
   * from that day, the day before and eight days before, page 2 is null. Two pages
   * are requested and the first two requests are printed, in order.
   */
  lemma AliceScenario(fetch: Fetcher)
    requires var url := Link + "author=" + "alice" + "&state=" + "open";
      && fetch(PageUrl(url, 1)) == Page(Some([AliceRequest(MidOctober("8 09:00:00")),
                                              AliceRequest(MidOctober("7 09:00:00")),
                                              AliceRequest(MidOctober("0 09:00:00"))]))
      && fetch(PageUrl(url, 2)) == Page(None)
    ensures var r := Run(QueryPullParam(Some("alice"), Some("open"), 7, false, None), None,
                         Some(MidOctober("1 12:00:00")), fetch);
      && r.status == Pass
      && |r.requests| == 2
      && r.lines == [ConsoleLine(AliceRequest(MidOctober("8 09:00:00"))),
                     ConsoleLine(AliceRequest(MidOctober("7 09:00:00")))]
  {
    var arg := QueryPullParam(Some("alice"), Some("open"), 7, false, None);
    var url := Link + "author=" + "alice" + "&state=" + "open";
    var cutoff := MidOctober("1 12:00:00");
    var page := [AliceRequest(MidOctober("8 09:00:00")),
                 AliceRequest(MidOctober("7 09:00:00")),
                 AliceRequest(MidOctober("0 09:00:00"))];
    var kept := [AliceRequest(MidOctober("8 09:00:00")), AliceRequest(MidOctober("7 09:00:00"))];
    AlicePage();
    OnePageThenEnd(url, cutoff, fetch, page);
    SingleAuthorRun(arg, cutoff, fetch);
    ConsoleLinesOfTwo(kept[0], kept[1]);
  }
}
