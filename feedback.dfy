/**
 * The critique feedback as the research and moderator prompts receive it:
 * one `- issue` line per issue, joined by newlines.
 */
module Feedback {
  import opened Text
  import opened CritiqueAgent

  /** One `- issue` line per issue. */
  function Bullets(issues: seq<string>): (r: seq<string>)
    ensures |r| == |issues|
    ensures forall k :: 0 <= k < |r| ==> r[k] == "- " + issues[k]
  {
    seq(|issues|, k requires 0 <= k < |issues| => "- " + issues[k])
  }

  /** `"\n".join([f"- {issue}" for issue in feedback])`; empty exactly when there are no issues. */
  function FeedbackText(issues: seq<string>): (r: string)
    ensures r == [] <==> issues == []
  {
    Join(Bullets(issues), "\n")
  }

  /**
   * An issue as the critique parser would give it back: one non-empty line
   * that neither starts nor ends with whitespace or a hyphen.
   */
  predicate IsCleanIssue(x: string)
  {
    x != [] && '\n' !in x
    && x[0] !in Whitespace && x[0] != '-'
    && x[|x| - 1] !in Whitespace && x[|x| - 1] != '-'
  }

  /** The bullet line of a clean issue is not blank and cleans back to the issue. */
  lemma CleanBullet(x: string)
    requires IsCleanIssue(x)
    ensures IsIssueLine("- " + x) && CleanIssue("- " + x) == x
  {
    var line := "- " + x;
    TrimStartRun("- ", x, IssueTrim);
    assert StripChars(line, IssueTrim) == x;
    StripCharsKeeps(x, Whitespace);
    StripEmpty(line);
    assert line[0] == '-';
  }

  /** A comprehension that keeps every input maps each input to its image. */
  lemma {:induction false} ComprehensionKeepsAll(xs: seq<string>, ys: seq<string>, keep: string -> bool, clean: string -> string)
    requires |xs| == |ys|
    requires forall k :: 0 <= k < |xs| ==> keep(xs[k]) && clean(xs[k]) == ys[k]
    ensures Comprehension(xs, keep, clean) == ys
  {
    if xs != [] {
      ComprehensionKeepsAll(xs[1..], ys[1..], keep, clean);
      assert ys == [ys[0]] + ys[1..];
    }
  }

  /** Reading the bullet lines of clean issues gives the issues back. */
  lemma IssuesOfBullets(issues: seq<string>)
    requires forall k :: 0 <= k < |issues| ==> IsCleanIssue(issues[k])
    ensures Comprehension(Bullets(issues), IsIssueLine, CleanIssue) == issues
  {
    var lines := Bullets(issues);
    forall k | 0 <= k < |lines| ensures IsIssueLine(lines[k]) && CleanIssue(lines[k]) == issues[k] {
      CleanBullet(issues[k]);
    }
    ComprehensionKeepsAll(lines, issues, IsIssueLine, CleanIssue);
  }

  /**
   * The moderator's and the research agent's rendering of the feedback
   * inverts the critique parser's line reading: splitting the text into
   * lines and reading the issues gives the feedback back.
   */
  lemma FeedbackRoundTrip(issues: seq<string>)
    requires forall k :: 0 <= k < |issues| ==> IsCleanIssue(issues[k])
    ensures IssuesFrom(Split(FeedbackText(issues), "\n")) == issues
  {
    if issues == [] {
      assert Split("", "\n") == [""];
      StripEmpty("");
      assert Comprehension([""], IsIssueLine, CleanIssue) == [];
    } else {
      var lines := Bullets(issues);
      forall k | 0 <= k < |lines| ensures '\n' !in lines[k] {
        assert lines[k] == "- " + issues[k];
      }
      JoinSplitChar(lines, '\n');
      IssuesOfBullets(issues);
      assert IssuesFrom(lines) == Comprehension(lines, IsIssueLine, CleanIssue);
    }
  }
  /** Two texts without `ISSUES:` joined by a newline hold none, since the marker has no newline. */
  lemma NoMarkerAcross(a: string, b: string)
    requires !Contains(a, IssuesMarker) && !Contains(b, IssuesMarker)
    ensures !Contains(a + "\n" + b, IssuesMarker)
  {
    var s := a + "\n" + b;
    var m := |IssuesMarker|;
    assert s[..|a|] == a && s[|a| + 1..] == b;
    forall j: nat | j + m <= |s| ensures !OccursAt(s, IssuesMarker, j) {
      if j + m <= |a| {
        assert s[j..j + m] == a[j..j + m];
        assert !OccursAt(a, IssuesMarker, j);
      } else if j > |a| {
        assert s[j..j + m] == b[j - |a| - 1..j - |a| - 1 + m];
        assert !OccursAt(b, IssuesMarker, j - |a| - 1);
      } else {
        assert s[j..j + m][|a| - j] == s[|a|] == '\n';
      }
    }
  }

  /** Lines without `ISSUES:` joined by newlines hold no `ISSUES:`. */
  lemma {:induction false} NoMarkerInJoin(parts: seq<string>)
    requires forall k :: 0 <= k < |parts| ==> !Contains(parts[k], IssuesMarker)
    ensures !Contains(Join(parts, "\n"), IssuesMarker)
  {
    if |parts| > 1 {
      NoMarkerInJoin(parts[1..]);
      assert Join(parts, "\n") == parts[0] + "\n" + Join(parts[1..], "\n");
      NoMarkerAcross(parts[0], Join(parts[1..], "\n"));
    } else if |parts| == 1 {
      assert !Contains(parts[0], IssuesMarker);
    }
  }

  /** The bullet line of an issue without `ISSUES:` holds no `ISSUES:`. */
  lemma NoMarkerInBullet(x: string)
    requires !Contains(x, IssuesMarker)
    ensures !Contains("- " + x, IssuesMarker)
  {
    var s := "- " + x;
    assert s[2..] == x;
    forall j: nat | j + |IssuesMarker| <= |s| ensures !OccursAt(s, IssuesMarker, j) {
      if j >= 2 {
        assert s[j..j + |IssuesMarker|] == x[j - 2..j - 2 + |IssuesMarker|];
        assert !OccursAt(x, IssuesMarker, j - 2);
      } else {
        assert s[j..j + |IssuesMarker|][0] == s[j] != 'I';
      }
    }
  }

  /** A join of non-empty parts starts with the first part's first character and ends with the last part's last one. */
  lemma {:induction false} JoinEnds(parts: seq<string>, sep: string)
    requires parts != [] && forall k :: 0 <= k < |parts| ==> parts[k] != []
    ensures var s := Join(parts, sep); var last := parts[|parts| - 1];
            s != [] && s[0] == parts[0][0] && s[|s| - 1] == last[|last| - 1]
  {
    if |parts| > 1 {
      JoinEnds(parts[1..], sep);
      assert parts[1..][|parts| - 2] == parts[|parts| - 1];
    }
  }

  /** The text after a leading `ISSUES:` is the rest of the reply when the rest has no `ISSUES:`. */
  lemma SectionAfterMarker(rest: string)
    requires !Contains(rest, IssuesMarker)
    ensures var text := IssuesMarker + rest;
            Contains(text, IssuesMarker) && Split(text, IssuesMarker)[1] == rest
  {
    var text := IssuesMarker + rest;
    assert OccursAt(text, IssuesMarker, 0);
    assert IndexOf(text, IssuesMarker).value == 0;
    SplitFirst(text, IssuesMarker);
    assert text[|IssuesMarker|..] == rest;
    SplitFirst(rest, IssuesMarker);
  }

  /** The feedback after a newline strips back to the feedback. */
  lemma StripNewlineFeedback(issues: seq<string>)
    requires forall k :: 0 <= k < |issues| ==> IsCleanIssue(issues[k])
    ensures Strip("\n" + FeedbackText(issues)) == FeedbackText(issues)
  {
    var f := FeedbackText(issues);
    if issues == [] {
      StripEmpty("\n" + f);
    } else {
      var lines := Bullets(issues);
      JoinEnds(lines, "\n");
      assert f[0] == '-';
      TrimStartRun("\n", f, Whitespace);
      assert TrimStart(f, Whitespace) == f;
      StripCharsKeeps(f, Whitespace);
    }
  }

  /** The feedback of issues that do not mention `ISSUES:` does not either, nor does it after a newline. */
  lemma NoMarkerInFeedback(issues: seq<string>)
    requires forall k :: 0 <= k < |issues| ==> !Contains(issues[k], IssuesMarker)
    ensures !Contains("\n" + FeedbackText(issues), IssuesMarker)
  {
    var lines := Bullets(issues);
    var f := FeedbackText(issues);
    forall k | 0 <= k < |lines| ensures !Contains(lines[k], IssuesMarker) {
      NoMarkerInBullet(issues[k]);
    }
    NoMarkerInJoin(lines);
    assert Join([[], f], "\n") == "\n" + f;
    NoMarkerInJoin([[], f]);
  }

  /**
   * The feedback rendering is inverted by the critique parser on a whole
   * reply: a reply made of `ISSUES:` and, on the next lines, the bullet
   * lines of clean issues that do not mention `ISSUES:` is read as a failing
   * verdict with exactly those issues, in order.
   */
  lemma ReplyRoundTrip(issues: seq<string>)
    requires forall k :: 0 <= k < |issues| ==> IsCleanIssue(issues[k]) && !Contains(issues[k], IssuesMarker)
    ensures ParseCritique(IssuesMarker + "\n" + FeedbackText(issues)) == Verdict(false, issues)
  {
    var rest := "\n" + FeedbackText(issues);
    NoMarkerInFeedback(issues);
    SectionAfterMarker(rest);
    assert IssuesMarker + "\n" + FeedbackText(issues) == IssuesMarker + rest;
    StripNewlineFeedback(issues);
    FeedbackRoundTrip(issues);
  }
}
