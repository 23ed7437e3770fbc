/**
 * Where accepted pull requests go: in spreadsheet mode onto the run's
 * `excel_vec`, in console mode straight to standard output, one line each
 * (src/main.rs:192-199).
 */
module Sink {
  import opened Records

  /** The mode and everything delivered so far in that mode. */
  datatype Sink = Sink(exc: bool, excel: seq<PullRequest>, lines: seq<string>)

  /** Deliver `prs`, in order. */
  function Emit(s: Sink, prs: seq<PullRequest>): Sink
  {
    if s.exc then s.(excel := s.excel + prs) else s.(lines := s.lines + ConsoleLines(prs))
  }

  /**
   * Spreadsheet mode appends the records and prints no record line; console mode prints
   * the line of each record, in order, and appends nothing.
   */
  lemma EmitModes(s: Sink, prs: seq<PullRequest>)
    ensures Emit(s, prs).exc == s.exc
    ensures s.exc ==> Emit(s, prs).excel == s.excel + prs && Emit(s, prs).lines == s.lines
    ensures !s.exc ==> Emit(s, prs).excel == s.excel && |Emit(s, prs).lines| == |s.lines| + |prs|
    ensures !s.exc ==> forall k :: 0 <= k < |prs| ==> Emit(s, prs).lines[|s.lines| + k] == ConsoleLine(prs[k])
  {
    ConsoleLinesAt(prs);
  }

  /** Delivering in two steps is delivering the concatenation. */
  lemma EmitTwice(s: Sink, a: seq<PullRequest>, b: seq<PullRequest>)
    ensures Emit(Emit(s, a), b) == Emit(s, a + b)
  {
    if s.exc {
      assert s.excel + a + b == s.excel + (a + b);
    } else {
      ConsoleLinesAppend(a, b);
      assert s.lines + ConsoleLines(a) + ConsoleLines(b) == s.lines + (ConsoleLines(a) + ConsoleLines(b));
    }
  }
}
