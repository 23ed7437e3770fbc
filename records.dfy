/**
 * One pull request as the endpoint reports it, the string order used to compare
 * its creation time with the cutoff, and the console line printed for it.
 */
module Records {

  /** The fourteen fields of a decoded pull request (src/main.rs:10-26). */
  datatype PullRequest = PullRequest(
    org: string,
    repo: string,
    reference: string,
    sig: string,
    link: string,
    state: string,
    author: string,
    assignees: string,
    created_at: string,
    updated_at: string,
    title: string,
    labels: string,
    draft: bool,
    mergeable: bool)

  /**
   * Lexicographic "strictly less than" on strings, as `<` on Rust strings: the
   * first differing character decides, and a proper prefix is smaller.
   * Rust compares the UTF-8 bytes; on valid text that order is the order of
   * the code points compared here.
   */
  predicate Below(a: string, b: string)
    decreases |a|
  {
    if a == [] then b != []
    else if b == [] then false
    else if a[0] != b[0] then a[0] < b[0]
    else Below(a[1..], b[1..])
  }

  lemma {:induction false} BelowIrreflexive(a: string)
    ensures !Below(a, a)
    decreases |a|
  {
    if a != [] {
      BelowIrreflexive(a[1..]);
    }
  }

  lemma {:induction false} BelowTransitive(a: string, b: string, c: string)
    requires Below(a, b) && Below(b, c)
    ensures Below(a, c)
    decreases |a|
  {
    if a != [] && a[0] == b[0] && b[0] == c[0] {
      BelowTransitive(a[1..], b[1..], c[1..]);
    }
  }

  /** Any two different strings are ordered one way or the other. */
  lemma {:induction false} BelowTotal(a: string, b: string)
    requires a != b
    ensures Below(a, b) || Below(b, a)
    decreases |a|
  {
    if a != [] && b != [] && a[0] == b[0] {
      assert a == [a[0]] + a[1..] && b == [b[0]] + b[1..];
      BelowTotal(a[1..], b[1..]);
    }
  }

  /** The first position where two strings differ decides their order. */
  lemma {:induction false} BelowAtFirstDifference(a: string, b: string, k: nat)
    requires k < |a| && k < |b| && a[..k] == b[..k] && a[k] != b[k]
    ensures Below(a, b) <==> a[k] < b[k]
    decreases k
  {
    if k > 0 {
      assert a[0] == a[..k][0] == b[..k][0] == b[0];
      assert a[1..][..k - 1] == a[..k][1..] == b[..k][1..] == b[1..][..k - 1];
      BelowAtFirstDifference(a[1..], b[1..], k - 1);
    }
  }

  /** A common prefix does not change the order of two strings. */
  lemma {:induction false} BelowAfterCommonPrefix(p: string, a: string, b: string)
    ensures Below(p + a, p + b) <==> Below(a, b)
    decreases |p|
  {
    if p != [] {
      assert (p + a)[1..] == p[1..] + a && (p + b)[1..] == p[1..] + b;
      BelowAfterCommonPrefix(p[1..], a, b);
    } else {
      assert p + a == a && p + b == b;
    }
  }

  /** A string that is not below `c` and not above `b` is below `c` whenever `b` is. */
  lemma BelowThrough(a: string, b: string, c: string)
    requires !Below(b, a) && Below(b, c)
    ensures Below(a, c)
  {
    if a != b {
      BelowTotal(a, b);
      BelowTransitive(a, b, c);
    }
  }

  /** The line printed for an accepted pull request in console mode (src/main.rs:195-198). */
  function ConsoleLine(pr: PullRequest): string
  {
    pr.author + ", " + pr.sig + ", " + pr.repo + ", " + pr.link + ", " + pr.created_at
  }

  /** The console lines for a sequence of pull requests, one per request, in order. */
  function ConsoleLines(prs: seq<PullRequest>): (lines: seq<string>)
    ensures |lines| == |prs|
    decreases |prs|
  {
    if prs == [] then [] else [ConsoleLine(prs[0])] + ConsoleLines(prs[1..])
  }

  /** Line `k` is the line of record `k`. */
  lemma {:induction false} ConsoleLinesAt(prs: seq<PullRequest>)
    ensures forall k :: 0 <= k < |prs| ==> ConsoleLines(prs)[k] == ConsoleLine(prs[k])
    decreases |prs|
  {
    if prs != [] {
      ConsoleLinesAt(prs[1..]);
    }
  }

  /** The lines of a concatenation are the concatenated lines. */
  lemma {:induction false} ConsoleLinesAppend(prs: seq<PullRequest>, more: seq<PullRequest>)
    ensures ConsoleLines(prs + more) == ConsoleLines(prs) + ConsoleLines(more)
    decreases |prs|
  {
    if prs != [] {
      assert (prs + more)[1..] == prs[1..] + more;
      ConsoleLinesAppend(prs[1..], more);
    } else {
      assert prs + more == more;
    }
  }

  /** Two records print as two lines, in order. */
  lemma ConsoleLinesOfTwo(a: PullRequest, b: PullRequest)
    ensures ConsoleLines([a, b]) == [ConsoleLine(a), ConsoleLine(b)]
  {
    assert [a, b][1..] == [b] && [b][1..] == [];
  }
}
