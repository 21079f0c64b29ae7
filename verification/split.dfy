/**
 Swift's `split(separator:)` on a string with its default arguments
 (`maxSplits` unbounded, `omittingEmptySubsequences` true): the maximal
 separator-free runs of the string, in order, with empty runs dropped.
 */
module Split {

  /** No element of `s` is the separator. */
  predicate Free(s: string, sep: char)
  {
    forall i :: 0 <= i < |s| ==> s[i] != sep
  }

  /** `s` with every separator removed. */
  function Without(s: string, sep: char): (r: string)
    ensures Free(r, sep)
    ensures |r| <= |s|
  {
    if s == [] then []
    else if s[0] == sep then Without(s[1..], sep)
    else [s[0]] + Without(s[1..], sep)
  }

  /** The pieces glued back together, with nothing in between. */
  function Concat(pieces: seq<string>): string
  {
    if pieces == [] then [] else pieces[0] + Concat(pieces[1..])
  }

  /** The longest prefix of `s` that holds no separator: it stops either at
      the end of `s` or right before a separator. */
  function LeadingRun(s: string, sep: char): (w: string)
    ensures |w| <= |s| && w == s[..|w|]
    ensures s != [] && s[0] != sep ==> w != []
    ensures Free(w, sep)
    ensures |w| < |s| ==> s[|w|] == sep
  {
    if s == [] || s[0] == sep then [] else [s[0]] + LeadingRun(s[1..], sep)
  }

  /** The pieces `split(separator: sep)` returns: separators are skipped, and
      each maximal separator-free run becomes one piece. Every piece is
      non-empty and holds no separator. */
  function SplitOn(s: string, sep: char): (pieces: seq<string>)
    ensures forall k :: 0 <= k < |pieces| ==> pieces[k] != [] && Free(pieces[k], sep)
    decreases |s|
  {
    if s == [] then []
    else if s[0] == sep then SplitOn(s[1..], sep)
    else
      var w := LeadingRun(s, sep);
      [w] + SplitOn(s[|w|..], sep)
  }

  /** Nothing but separators is lost: gluing the pieces back together gives
      the string with its separators removed. */
  lemma {:induction false} ConcatSplitIsWithout(s: string, sep: char)
    ensures Concat(SplitOn(s, sep)) == Without(s, sep)
    decreases |s|
  {
    if s == [] {
    } else if s[0] == sep {
      ConcatSplitIsWithout(s[1..], sep);
    } else {
      var w := LeadingRun(s, sep);
      ConcatSplitIsWithout(s[|w|..], sep);
      WithoutOfFreePrefix(w, s[|w|..], sep);
      assert s == w + s[|w|..];
      assert SplitOn(s, sep) == [w] + SplitOn(s[|w|..], sep);
      assert ([w] + SplitOn(s[|w|..], sep))[1..] == SplitOn(s[|w|..], sep);
    }
  }

  /** Removing separators from a separator-free prefix leaves it intact. */
  lemma {:induction false} WithoutOfFreePrefix(w: string, rest: string, sep: char)
    requires Free(w, sep)
    ensures Without(w + rest, sep) == w + Without(rest, sep)
    decreases |w|
  {
    if w != [] {
      assert (w + rest)[0] == w[0];
      assert (w + rest)[1..] == w[1..] + rest;
      WithoutOfFreePrefix(w[1..], rest, sep);
      assert w == [w[0]] + w[1..];
    } else {
      assert w + rest == rest;
    }
  }

  /** The split is empty exactly when the string consists of separators
      only (the empty string included). */
  lemma {:induction false} SplitEmptyIffAllSeparators(s: string, sep: char)
    ensures SplitOn(s, sep) == [] <==> (forall i :: 0 <= i < |s| ==> s[i] == sep)
    decreases |s|
  {
    if s != [] && s[0] == sep {
      SplitEmptyIffAllSeparators(s[1..], sep);
      if forall i :: 0 <= i < |s[1..]| ==> s[1..][i] == sep {
        forall i | 0 <= i < |s|
          ensures s[i] == sep
        {
          if i > 0 {
            assert s[i] == s[1..][i - 1];
          }
        }
      }
    }
  }

  /** A non-empty string free of separators is split into itself alone. */
  lemma {:induction false} SplitOfFree(s: string, sep: char)
    requires s != [] && Free(s, sep)
    ensures SplitOn(s, sep) == [s]
  {
    LeadingRunOfFreePrefix(s, [], sep);
    assert s + [] == s;
    assert s[|s|..] == [];
  }

  /** Leading separators are skipped: they never give rise to a piece. */
  lemma {:induction false} SplitSkipsLeadingSeparators(lead: string, s: string, sep: char)
    requires forall i :: 0 <= i < |lead| ==> lead[i] == sep
    ensures SplitOn(lead + s, sep) == SplitOn(s, sep)
    decreases |lead|
  {
    if lead == [] {
      assert lead + s == s;
    } else {
      assert (lead + s)[0] == sep;
      assert (lead + s)[1..] == lead[1..] + s;
      SplitSkipsLeadingSeparators(lead[1..], s, sep);
    }
  }

  /** A non-empty separator-free run followed by a separator is the first
      piece, whatever comes after it. */
  lemma {:induction false} SplitFirstPiece(w: string, rest: string, sep: char)
    requires w != [] && Free(w, sep)
    ensures SplitOn(w + [sep] + rest, sep) == [w] + SplitOn(rest, sep)
  {
    var s := w + [sep] + rest;
    LeadingRunOfFreePrefix(w, [sep] + rest, sep);
    assert s == w + ([sep] + rest);
    assert s[|w|..] == [sep] + rest;
    assert ([sep] + rest)[1..] == rest;
  }

  /** The leading run of a separator-free prefix followed by a separator
      (or by nothing) is that prefix. */
  lemma {:induction false} LeadingRunOfFreePrefix(w: string, rest: string, sep: char)
    requires Free(w, sep)
    requires rest == [] || rest[0] == sep
    ensures LeadingRun(w + rest, sep) == w
    decreases |w|
  {
    if w == [] {
      assert w + rest == rest;
    } else {
      assert (w + rest)[0] == w[0];
      assert (w + rest)[1..] == w[1..] + rest;
      LeadingRunOfFreePrefix(w[1..], rest, sep);
      assert w == [w[0]] + w[1..];
    }
  }

  /** What the scan closes at a separator: the run since `start` (when it
      is non-empty) and then the pieces after the separator. */
  function Closed(s: string, start: nat, i: nat): seq<string>
    requires start <= i <= |s|
  {
    if start < i then [s[start..i]] else []
  }

  /** One step of the scan at a separator, in terms of `SplitOn`. */
  lemma ScanStepAtSeparator(s: string, start: nat, i: nat, sep: char)
    requires start <= i < |s| && s[i] == sep
    requires Free(s[start..i], sep)
    ensures SplitOn(s[start..], sep) == Closed(s, start, i) + SplitOn(s[i + 1..], sep)
  {
    var w := s[start..i];
    assert s[start..] == w + [sep] + s[i + 1..];
    if start < i {
      SplitFirstPiece(w, s[i + 1..], sep);
    } else {
      assert s[start..] == [sep] + s[i + 1..];
      assert s[start..][1..] == s[i + 1..];
    }
  }

  /** The scanning loop the standard library runs: walk the string once,
      remembering where the current piece started, and close the piece at
      every separator (dropping it when empty) and at the end. It yields
      exactly the pieces of `SplitOn`. */
  method SplitScan(s: string, sep: char) returns (pieces: seq<string>)
    ensures pieces == SplitOn(s, sep)
  {
    pieces := [];
    var start := 0;
    var i := 0;
    while i < |s|
      invariant 0 <= start <= i <= |s|
      invariant Free(s[start..i], sep)
      invariant pieces + SplitOn(s[start..], sep) == SplitOn(s, sep)
    {
      if s[i] == sep {
        ScanStepAtSeparator(s, start, i, sep);
        pieces := pieces + Closed(s, start, i);
        start := i + 1;
      } else {
        assert s[start..i + 1] == s[start..i] + [s[i]];
      }
      i := i + 1;
    }
    if start < |s| {
      assert s[start..i] == s[start..];
      SplitOfFree(s[start..], sep);
      pieces := pieces + [s[start..]];
    } else {
      assert pieces + SplitOn([], sep) == pieces;
    }
  }
}
