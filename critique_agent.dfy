/**
 * The critique agent: it reads the model's verdict on the article, marked by
 * `PASS: YES` and `ISSUES:`, and records whether the article passed and the
 * list of issues raised.
 */
module CritiqueAgent {
  import opened Text
  import opened ArticleStates

  const PassMarker: string := "PASS: YES"
  const IssuesMarker: string := "ISSUES:"

  /** The characters `line.strip("- ")` removes from both ends of an issue line. */
  const IssueTrim: set<char> := {'-', ' '}

  /** The outcome of reading one critique reply. */
  datatype Verdict = Verdict(passed: bool, issues: seq<string>)

  /** A line that `line.strip()` turns into the empty string. */
  predicate IsBlank(line: string)
  {
    Strip(line) == []
  }

  /** `line.strip("- ").strip()` */
  function CleanIssue(line: string): string
  {
    Strip(StripChars(line, IssueTrim))
  }

  /** The list comprehension `[clean(x) for x in xs if keep(x)]`. */
  function Comprehension(xs: seq<string>, keep: string -> bool, clean: string -> string): seq<string>
  {
    if xs == [] then [] else (if keep(xs[0]) then [clean(xs[0])] else []) + Comprehension(xs[1..], keep, clean)
  }

  /** The number of elements a comprehension keeps. */
  function KeptCount(xs: seq<string>, keep: string -> bool): nat
  {
    if xs == [] then 0 else (if keep(xs[0]) then 1 else 0) + KeptCount(xs[1..], keep)
  }

  /** A comprehension has one element per kept input. */
  lemma {:induction false} ComprehensionLength(xs: seq<string>, keep: string -> bool, clean: string -> string)
    ensures |Comprehension(xs, keep, clean)| == KeptCount(xs, keep)
  {
    if xs != [] {
      ComprehensionLength(xs[1..], keep, clean);
    }
  }

  /** `y` is the image under `clean` of some input that `keep` accepts. */
  predicate FromKept(y: string, xs: seq<string>, keep: string -> bool, clean: string -> string)
  {
    exists k :: 0 <= k < |xs| && keep(xs[k]) && y == clean(xs[k])
  }

  /** Every element of a comprehension is the image of a kept input. */
  lemma {:induction false} ComprehensionSound(xs: seq<string>, keep: string -> bool, clean: string -> string)
    ensures forall j :: 0 <= j < |Comprehension(xs, keep, clean)| ==>
      FromKept(Comprehension(xs, keep, clean)[j], xs, keep, clean)
  {
    if xs != [] {
      ComprehensionSound(xs[1..], keep, clean);
      var r := Comprehension(xs, keep, clean);
      var rest := Comprehension(xs[1..], keep, clean);
      var head := if keep(xs[0]) then [clean(xs[0])] else [];
      assert r == head + rest;
      forall j | 0 <= j < |r|
        ensures FromKept(r[j], xs, keep, clean)
      {
        if j < |head| {
          assert keep(xs[0]) && r[j] == clean(xs[0]);
        } else {
          assert r[j] == rest[j - |head|];
          var k :| 0 <= k < |xs[1..]| && keep(xs[1..][k]) && rest[j - |head|] == clean(xs[1..][k]);
          assert xs[1..][k] == xs[k + 1];
        }
      }
    }
  }

  /** The image of every kept input is in the comprehension. */
  lemma {:induction false} ComprehensionComplete(xs: seq<string>, keep: string -> bool, clean: string -> string)
    ensures forall k :: 0 <= k < |xs| && keep(xs[k]) ==> clean(xs[k]) in Comprehension(xs, keep, clean)
  {
    if xs != [] {
      ComprehensionComplete(xs[1..], keep, clean);
      forall k | 0 <= k < |xs| && keep(xs[k]) ensures clean(xs[k]) in Comprehension(xs, keep, clean) {
        if k > 0 {
          assert xs[k] == xs[1..][k - 1];
        }
      }
    }
  }

  /** The lines the comprehension keeps: those that are not blank. */
  predicate IsIssueLine(line: string)
  {
    !IsBlank(line)
  }

  /**
   * The issue comprehension: one cleaned issue per non-blank line. Every issue
   * is the cleaned form of a non-blank line, and every non-blank line gives one.
   */
  function IssuesFrom(lines: seq<string>): (r: seq<string>)
    ensures |r| == KeptCount(lines, IsIssueLine)
    ensures forall j :: 0 <= j < |r| ==> FromKept(r[j], lines, IsIssueLine, CleanIssue)
    ensures forall k :: 0 <= k < |lines| && IsIssueLine(lines[k]) ==> CleanIssue(lines[k]) in r
  {
    ComprehensionLength(lines, IsIssueLine, CleanIssue);
    ComprehensionSound(lines, IsIssueLine, CleanIssue);
    ComprehensionComplete(lines, IsIssueLine, CleanIssue);
    Comprehension(lines, IsIssueLine, CleanIssue)
  }

  /** A comprehension over joined inputs is the join of the comprehensions, in order. */
  lemma {:induction false} ComprehensionAppend(a: seq<string>, b: seq<string>, keep: string -> bool, clean: string -> string)
    ensures Comprehension(a + b, keep, clean) == Comprehension(a, keep, clean) + Comprehension(b, keep, clean)
  {
    if a == [] {
      assert a + b == b;
    } else {
      assert (a + b)[0] == a[0] && (a + b)[1..] == a[1..] + b;
      ComprehensionAppend(a[1..], b, keep, clean);
    }
  }

  /**
   * The issues of joined lines are the issues of the first lines followed by
   * those of the rest: the order and the repetitions of issues follow the
   * lines. With `IssuesFromLine` this determines the issues of every text.
   */
  lemma IssuesFromAppend(a: seq<string>, b: seq<string>)
    ensures IssuesFrom(a + b) == IssuesFrom(a) + IssuesFrom(b)
  {
    ComprehensionAppend(a, b, IsIssueLine, CleanIssue);
  }

  /** One line gives its cleaned issue when it is not blank, and nothing otherwise. */
  lemma IssuesFromLine(line: string)
    ensures IssuesFrom([line]) == if IsIssueLine(line) then [CleanIssue(line)] else []
  {
    assert [line][0] == line && [line][1..] == [];
    assert Comprehension([], IsIssueLine, CleanIssue) == [];
    assert Comprehension([line], IsIssueLine, CleanIssue)
        == (if IsIssueLine(line) then [CleanIssue(line)] else []) + Comprehension([], IsIssueLine, CleanIssue);
  }

  /** A `---` line is not blank, and cleans to an empty issue, which is kept. */
  lemma DashLineGivesEmptyIssue()
    ensures IsIssueLine("---") && CleanIssue("---") == ""
    ensures IssuesFrom(["---"]) == [""]
  {
    var s := "---";
    assert s[0] !in Whitespace && s[|s| - 1] !in Whitespace;
    StripCharsKeeps(s, Whitespace);
    assert TrimStart(s, IssueTrim) == TrimStart(s[1..], IssueTrim) == TrimStart(s[2..], IssueTrim) == TrimStart(s[3..], IssueTrim) == "";
    IssuesFromLine(s);
  }

  /** The text after the first `ISSUES:` up to the next one (or the end), whitespace trimmed. */
  function IssuesSection(text: string): string
    requires Contains(text, IssuesMarker)
  {
    Strip(Split(text, IssuesMarker)[1])
  }

  /**
   * How a critique reply is read: it passes exactly when it contains
   * `PASS: YES` and no `ISSUES:` (both case-sensitive); a pass has no issues,
   * and so has a failing reply without `ISSUES:`; otherwise the issues are
   * read from the lines of the issues section.
   */
  function ParseCritique(text: string): (v: Verdict)
    ensures v.passed <==> Contains(text, PassMarker) && !Contains(text, IssuesMarker)
    ensures !Contains(text, IssuesMarker) ==> v.issues == []
    ensures Contains(text, IssuesMarker) ==> v.issues == IssuesFrom(Split(IssuesSection(text), "\n"))
  {
    if Contains(text, PassMarker) && !Contains(text, IssuesMarker) then Verdict(true, [])
    else if Contains(text, IssuesMarker) then Verdict(false, IssuesFrom(Split(IssuesSection(text), "\n")))
    else Verdict(false, [])
  }

  /**
   * The issues section is read from the text right after the first `ISSUES:`
   * and stops at the next `ISSUES:` or at the end of the reply.
   */
  lemma IssuesSectionBounds(text: string)
    requires Contains(text, IssuesMarker)
    ensures var start := IndexOf(text, IssuesMarker).value + |IssuesMarker|;
            var raw := Split(text, IssuesMarker)[1];
            IssuesSection(text) == Strip(raw)
            && start + |raw| <= |text| && raw == text[start..start + |raw|]
            && !Contains(raw, IssuesMarker)
            && (start + |raw| == |text| || OccursAt(text, IssuesMarker, start + |raw|))
  {
    SplitSecond(text, IssuesMarker);
  }

  /** The critique node's effect: only `critique_passed` and `critique_feedback` are written. */
  method Run(st: ArticleState, reply: string)
    modifies st`critiquePassed, st`critiqueFeedback
    ensures st.critiquePassed == ParseCritique(reply).passed
    ensures st.critiqueFeedback == ParseCritique(reply).issues
  {
    var verdict := ParseCritique(reply);
    st.critiquePassed := verdict.passed;
    st.critiqueFeedback := verdict.issues;
  }
}
