/** Optional values and results with an error, used across the model. */
module Outcomes {
  datatype Option<T> = None | Some(value: T) {
    function GetOr(default: T): T {
      match this
      case Some(v) => v
      case None => default
    }
  }

  datatype Result<T, E> = Ok(value: T) | Err(error: E)
}

/**
 * The Python string operations the workflow relies on (`in`, `find`, `split`,
 * `join`, `replace`, `strip`, `lower`, `str(int)`), over `seq<char>`.
 * Only ASCII is modelled: `lower` folds A-Z and whitespace is the ASCII part
 * of `str.isspace`.
 */
module Text {
  import opened Outcomes

  /** The ASCII characters for which Python's `str.isspace()` holds. */
  const Whitespace: set<char> := {' ', '\t', '\n', '\r', '\U{000B}', '\U{000C}',
                                  '\U{001C}', '\U{001D}', '\U{001E}', '\U{001F}'}

  predicate OccursAt(s: string, p: string, i: nat) {
    i + |p| <= |s| && s[i..i + |p|] == p
  }

  /** First index at or after `from` where `p` occurs in `s`. */
  function IndexFrom(s: string, p: string, from: nat): (r: Option<nat>)
    ensures r.Some? ==> from <= r.value && OccursAt(s, p, r.value)
    ensures r.Some? ==> forall j :: from <= j < r.value ==> !OccursAt(s, p, j)
    ensures r.None? ==> forall j :: from <= j ==> !OccursAt(s, p, j)
    decreases |s| - from
  {
    if from + |p| > |s| then None
    else if s[from..from + |p|] == p then Some(from)
    else IndexFrom(s, p, from + 1)
  }

  /** Python's `s.find(p)`, with `None` for -1. */
  function IndexOf(s: string, p: string): (r: Option<nat>)
    ensures r.Some? ==> OccursAt(s, p, r.value) && forall j: nat :: j < r.value ==> !OccursAt(s, p, j)
    ensures r.None? ==> forall j: nat :: !OccursAt(s, p, j)
  {
    IndexFrom(s, p, 0)
  }

  /** Python's `p in s`. */
  function Contains(s: string, p: string): (b: bool)
    ensures b <==> exists i: nat :: OccursAt(s, p, i)
  {
    IndexOf(s, p).Some?
  }

  /** For a one-character pattern, `p in s` is plain membership. */
  lemma ContainsChar(s: string, c: char)
    ensures Contains(s, [c]) <==> c in s
  {
    if c in s {
      var i :| 0 <= i < |s| && s[i] == c;
      assert OccursAt(s, [c], i);
    }
    if Contains(s, [c]) {
      var i: nat :| OccursAt(s, [c], i);
      assert s[i] == s[i..i + 1][0];
    }
  }

  /** Python's `sep.join(parts)`. */
  function Join(parts: seq<string>, sep: string): string
  {
    if |parts| == 0 then []
    else if |parts| == 1 then parts[0]
    else parts[0] + sep + Join(parts[1..], sep)
  }

  /** An occurrence inside a prefix of `s` is an occurrence in `s`. */
  lemma OccursInPrefix(s: string, p: string, i: nat, j: nat)
    requires i <= |s| && OccursAt(s[..i], p, j)
    ensures OccursAt(s, p, j)
  {
    assert s[..i][j..j + |p|] == s[j..j + |p|];
  }

  /** An occurrence inside a suffix of `s` is an occurrence in `s`, shifted. */
  lemma OccursInSuffix(s: string, p: string, i: nat, j: nat)
    requires i <= |s| && OccursAt(s[i..], p, j)
    ensures OccursAt(s, p, i + j)
  {
    assert s[i..][j..j + |p|] == s[i + j..i + j + |p|];
  }

  /**
   * Python's `s.split(sep)` for a non-empty separator: the pieces between
   * the non-overlapping occurrences of `sep`, found left to right.
   */
  function Split(s: string, sep: string): (r: seq<string>)
    requires sep != []
    ensures |r| >= 1
    decreases |s|
  {
    match IndexOf(s, sep)
    case None => [s]
    case Some(i) => [s[..i]] + Split(s[i + |sep|..], sep)
  }

  /** No piece of `s.split(sep)` contains `sep`. */
  lemma {:induction false} SplitPiecesFree(s: string, sep: string)
    requires sep != []
    ensures forall k :: 0 <= k < |Split(s, sep)| ==> !Contains(Split(s, sep)[k], sep)
    decreases |s|
  {
    match IndexOf(s, sep)
    case None =>
    case Some(i) =>
      var head := s[..i];
      var tail := s[i + |sep|..];
      SplitPiecesFree(tail, sep);
      assert !Contains(head, sep) by {
        forall j: nat | OccursAt(head, sep, j) ensures false {
          OccursInPrefix(s, sep, i, j);
        }
      }
      assert Split(s, sep) == [head] + Split(tail, sep);
  }

  /** The pieces of a split hold only characters of the split string. */
  lemma {:induction false} SplitPiecesWithin(s: string, sep: string)
    requires sep != []
    ensures forall k, c :: 0 <= k < |Split(s, sep)| && c in Split(s, sep)[k] ==> c in s
    decreases |s|
  {
    match IndexOf(s, sep)
    case None =>
    case Some(i) =>
      var tail := s[i + |sep|..];
      SplitPiecesWithin(tail, sep);
      var r := Split(s, sep);
      assert r == [s[..i]] + Split(tail, sep);
      forall k, c | 0 <= k < |r| && c in r[k] ensures c in s {
        if k == 0 {
          var m :| 0 <= m < i && s[..i][m] == c;
          assert s[m] == c;
        } else {
          assert r[k] == Split(tail, sep)[k - 1];
          assert c in tail;
          var m :| 0 <= m < |tail| && tail[m] == c;
          assert s[i + |sep| + m] == c;
        }
      }
  }

  /**
   * Where the pieces come from: without an occurrence the one piece is `s`;
   * otherwise the first piece ends at the first occurrence and the other
   * pieces are those of the text after it.
   */
  lemma SplitFirst(s: string, sep: string)
    requires sep != []
    ensures !Contains(s, sep) ==> Split(s, sep) == [s]
    ensures Contains(s, sep) ==> var i := IndexOf(s, sep).value;
      |Split(s, sep)| >= 2 && Split(s, sep)[0] == s[..i] && Split(s, sep)[1..] == Split(s[i + |sep|..], sep)
  {
    match IndexOf(s, sep)
    case None =>
    case Some(i) =>
      var rest := Split(s[i + |sep|..], sep);
      assert Split(s, sep) == [s[..i]] + rest;
      assert ([s[..i]] + rest)[1..] == rest;
  }

  /**
   * `s.split(sep)[0]` is the prefix of `s` before the first `sep`, or all of
   * `s` when there is none.
   */
  lemma SplitHead(s: string, sep: string)
    requires sep != []
    ensures var head := Split(s, sep)[0];
            |head| <= |s| && head == s[..|head|] && !Contains(head, sep)
            && (|head| == |s| || OccursAt(s, sep, |head|))
  {
    SplitFirst(s, sep);
    SplitPiecesFree(s, sep);
  }

  /** The first piece of the text after `start` lies in `s` and ends at `sep` or at the end. */
  lemma PieceAfter(s: string, sep: string, start: nat)
    requires sep != [] && start <= |s|
    ensures var piece := Split(s[start..], sep)[0];
            start + |piece| <= |s| && piece == s[start..start + |piece|] && !Contains(piece, sep)
            && (start + |piece| == |s| || OccursAt(s, sep, start + |piece|))
  {
    var tail := s[start..];
    var piece := Split(tail, sep)[0];
    SplitHead(tail, sep);
    assert tail[..|piece|] == s[start..start + |piece|];
    if |piece| < |tail| {
      OccursInSuffix(s, sep, start, |piece|);
    }
  }

  /**
   * `s.split(sep)[1]` is the text right after the first `sep`, up to the next
   * `sep` or the end of `s`.
   */
  lemma SplitSecond(s: string, sep: string)
    requires sep != [] && Contains(s, sep)
    ensures var start := IndexOf(s, sep).value + |sep|;
            var piece := Split(s, sep)[1];
            start + |piece| <= |s| && piece == s[start..start + |piece|]
            && !Contains(piece, sep)
            && (start + |piece| == |s| || OccursAt(s, sep, start + |piece|))
  {
    SplitFirst(s, sep);
    var start := IndexOf(s, sep).value + |sep|;
    var tail := s[start..];
    var piece := Split(s, sep)[1];
    assert piece == Split(tail, sep)[0] by {
      assert Split(s, sep)[1..][0] == piece;
    }
    PieceAfter(s, sep, start);
  }

  /** Python's `s.replace(pattern, replacement)`, which equals `replacement.join(s.split(pattern))`. */
  function Replace(s: string, pattern: string, replacement: string): string
    requires pattern != []
  {
    Join(Split(s, pattern), replacement)
  }

  /** Splitting and joining again with the same separator gives back the string. */
  lemma {:induction false} SplitJoin(s: string, sep: string)
    requires sep != []
    ensures Join(Split(s, sep), sep) == s
    decreases |s|
  {
    match IndexOf(s, sep)
    case None =>
    case Some(i) =>
      var tail := s[i + |sep|..];
      var rest := Split(tail, sep);
      SplitJoin(tail, sep);
      assert Split(s, sep) == [s[..i]] + rest;
      assert Join([s[..i]] + rest, sep) == s[..i] + sep + Join(rest, sep);
      assert s == s[..i] + sep + tail;
  }

  /** The first occurrence of `[c]` in `a + [c] + b`, where `c` is not in `a`, is at `|a|`. */
  lemma FirstCharOccurrence(a: string, c: char, b: string)
    requires c !in a
    ensures IndexOf(a + [c] + b, [c]) == Some(|a|)
  {
    var s := a + [c] + b;
    assert OccursAt(s, [c], |a|);
    forall j: nat | j < |a| ensures !OccursAt(s, [c], j) {
      assert s[j] == a[j];
    }
  }

  /** Splitting on one character counts its occurrences. */
  lemma {:induction false} SplitCharCount(s: string, c: char)
    ensures |Split(s, [c])| == multiset(s)[c] + 1
    decreases |s|
  {
    match IndexOf(s, [c])
    case None =>
      if c in s {
        var j :| 0 <= j < |s| && s[j] == c;
        assert OccursAt(s, [c], j);
      }
    case Some(i) =>
      SplitCharCount(s[i + 1..], c);
      assert s == s[..i] + [c] + s[i + 1..];
      if c in s[..i] {
        var j :| 0 <= j < i && s[..i][j] == c;
        assert OccursAt(s, [c], j);
      }
      assert multiset(s) == multiset(s[..i]) + multiset{c} + multiset(s[i + 1..]);
  }

  /** Joining pieces that do not contain `c` on `c` and splitting again gives the pieces back. */
  lemma {:induction false} JoinSplitChar(parts: seq<string>, c: char)
    requires |parts| >= 1
    requires forall k :: 0 <= k < |parts| ==> c !in parts[k]
    ensures Split(Join(parts, [c]), [c]) == parts
    decreases |parts|
  {
    if |parts| == 1 {
      var s := parts[0];
      assert forall j: nat :: OccursAt(s, [c], j) ==> s[j] == c;
    } else {
      var tail := Join(parts[1..], [c]);
      FirstCharOccurrence(parts[0], c, tail);
      JoinSplitChar(parts[1..], c);
      var s := parts[0] + [c] + tail;
      assert s[..|parts[0]|] == parts[0];
      assert s[|parts[0]| + 1..] == tail;
    }
  }

  /** The leading characters of `s` that are in `cs` removed (`str.lstrip`). */
  function TrimStart(s: string, cs: set<char>): (r: string)
    ensures |r| <= |s|
    ensures r == [] || r[0] !in cs
  {
    if s != [] && s[0] in cs then TrimStart(s[1..], cs) else s
  }

  /** `lstrip` keeps a suffix of `s` and removes only characters of `cs`. */
  lemma {:induction false} TrimStartSuffix(s: string, cs: set<char>)
    ensures var r := TrimStart(s, cs);
            r == s[|s| - |r|..] && forall k :: 0 <= k < |s| - |r| ==> s[k] in cs
    decreases |s|
  {
    if s != [] && s[0] in cs {
      TrimStartSuffix(s[1..], cs);
    }
  }

  /** A leading run of characters of `cs` before a character outside `cs` is exactly what `lstrip` removes. */
  lemma {:induction false} TrimStartRun(run: string, rest: string, cs: set<char>)
    requires forall k :: 0 <= k < |run| ==> run[k] in cs
    requires rest == [] || rest[0] !in cs
    ensures TrimStart(run + rest, cs) == rest
    decreases |run|
  {
    if run != [] {
      assert (run + rest)[1..] == run[1..] + rest;
      TrimStartRun(run[1..], rest, cs);
    }
  }

  /** The trailing characters of `s` that are in `cs` removed (`str.rstrip`). */
  function TrimEnd(s: string, cs: set<char>): (r: string)
    ensures |r| <= |s|
    ensures r == [] || r[|r| - 1] !in cs
  {
    if s != [] && s[|s| - 1] in cs then TrimEnd(s[..|s| - 1], cs) else s
  }

  /** `rstrip` keeps a prefix of `s` and removes only characters of `cs`. */
  lemma {:induction false} TrimEndPrefix(s: string, cs: set<char>)
    ensures var r := TrimEnd(s, cs);
            r == s[..|r|] && forall k :: |r| <= k < |s| ==> s[k] in cs
    decreases |s|
  {
    if s != [] && s[|s| - 1] in cs {
      TrimEndPrefix(s[..|s| - 1], cs);
    }
  }

  /** Python's `s.strip(chars)`. */
  function StripChars(s: string, cs: set<char>): string
  {
    TrimEnd(TrimStart(s, cs), cs)
  }

  /** Python's `s.strip()`. */
  function Strip(s: string): string
  {
    StripChars(s, Whitespace)
  }

  /** Stripping leaves a string unchanged exactly when neither end is a stripped character. */
  lemma StripCharsKeeps(s: string, cs: set<char>)
    requires s == [] || (s[0] !in cs && s[|s| - 1] !in cs)
    ensures StripChars(s, cs) == s
  {
  }

  /** `s.strip()` is empty exactly when every character of `s` is whitespace. */
  lemma StripEmpty(s: string)
    ensures Strip(s) == [] <==> forall k :: 0 <= k < |s| ==> s[k] in Whitespace
  {
    var t := TrimStart(s, Whitespace);
    TrimStartSuffix(s, Whitespace);
    TrimEndPrefix(t, Whitespace);
    if t != [] {
      assert t[0] == s[|s| - |t|];
    }
  }

  /** The result of `strip` neither starts nor ends with a stripped character. */
  lemma StripCharsEnds(s: string, cs: set<char>)
    ensures var r := StripChars(s, cs); r == [] || (r[0] !in cs && r[|r| - 1] !in cs)
  {
    var t := TrimStart(s, cs);
    var r := TrimEnd(t, cs);
    TrimEndPrefix(t, cs);
    if r != [] {
      assert r[0] == t[0];
    }
  }

  /** `strip` only removes characters: whatever it keeps was in `s`. */
  lemma StripWithin(s: string, cs: set<char>)
    ensures forall c :: c in StripChars(s, cs) ==> c in s
  {
    var t := TrimStart(s, cs);
    var r := TrimEnd(t, cs);
    TrimStartSuffix(s, cs);
    TrimEndPrefix(t, cs);
    forall c | c in r ensures c in s {
      var k :| 0 <= k < |r| && r[k] == c;
      assert t[k] == c;
      assert s[|s| - |t| + k] == c;
    }
  }

  /** `strip` keeps a slice of `s`, so it cannot make `p` occur where it did not. */
  lemma StripCharsAbsent(s: string, cs: set<char>, p: string)
    requires !Contains(s, p)
    ensures !Contains(StripChars(s, cs), p)
  {
    var t := TrimStart(s, cs);
    var r := TrimEnd(t, cs);
    TrimStartSuffix(s, cs);
    TrimEndPrefix(t, cs);
    forall j: nat | OccursAt(r, p, j) ensures false {
      OccursInPrefix(t, p, |r|, j);
      OccursInSuffix(s, p, |s| - |t|, j);
    }
  }

  /** Stripping twice is stripping once. */
  lemma StripIdempotent(s: string)
    ensures Strip(Strip(s)) == Strip(s)
  {
    StripCharsEnds(s, Whitespace);
    StripCharsKeeps(Strip(s), Whitespace);
  }

  /** Python's `s.startswith(p)`. */
  predicate StartsWith(s: string, p: string)
  {
    |p| <= |s| && s[..|p|] == p
  }

  function LowerChar(c: char): char
  {
    if 'A' <= c <= 'Z' then (c as int + 32) as char else c
  }

  /** Python's `s.lower()` on ASCII letters. */
  function Lower(s: string): (r: string)
    ensures |r| == |s|
    ensures forall k :: 0 <= k < |s| ==> r[k] == LowerChar(s[k])
  {
    seq(|s|, k requires 0 <= k < |s| => LowerChar(s[k]))
  }

  /** The longest prefix of `s` holding no character of `cs`. */
  function TakeUntil(s: string, cs: set<char>): (r: string)
    ensures |r| <= |s| && r == s[..|r|]
    ensures |r| == |s| || s[|r|] in cs
    ensures forall k :: 0 <= k < |r| ==> r[k] !in cs
  {
    if s == [] || s[0] in cs then [] else [s[0]] + TakeUntil(s[1..], cs)
  }

  /** A non-empty string holding no character of `cs`. */
  predicate IsRun(w: string, cs: set<char>)
  {
    w != [] && forall k :: 0 <= k < |w| ==> w[k] !in cs
  }

  /** The maximal runs of characters outside `cs`, in order. */
  function Runs(s: string, cs: set<char>): (r: seq<string>)
    ensures forall k :: 0 <= k < |r| ==> IsRun(r[k], cs)
    decreases |s|
  {
    var t := TrimStart(s, cs);
    if t == [] then []
    else
      var w := TakeUntil(t, cs);
      assert w != [] by { assert t[0] !in cs; }
      var rest := Runs(t[|w|..], cs);
      assert IsRun(w, cs);
      assert forall k :: 1 <= k < |[w] + rest| ==> ([w] + rest)[k] == rest[k - 1];
      [w] + rest
  }

  predicate IsWord(w: string)
  {
    IsRun(w, Whitespace)
  }

  /** Python's `s.split()`: the maximal runs of non-whitespace characters. */
  function Words(s: string): (r: seq<string>)
    ensures forall k :: 0 <= k < |r| ==> IsWord(r[k])
  {
    Runs(s, Whitespace)
  }

  /** A leading separator character does not change the runs. */
  lemma RunsSkipSeparator(s: string, cs: set<char>)
    requires s != [] && s[0] in cs
    ensures Runs(s, cs) == Runs(s[1..], cs)
  {
  }

  /** A run followed by a separator (or by nothing) is the first of the runs. */
  lemma RunsStep(w: string, tail: string, cs: set<char>)
    requires IsRun(w, cs)
    requires tail == [] || tail[0] in cs
    ensures Runs(w + tail, cs) == [w] + Runs(tail, cs)
  {
    var s := w + tail;
    assert s[0] !in cs by { assert s[0] == w[0]; }
    assert TrimStart(s, cs) == s;
    assert forall k :: 0 <= k < |w| ==> s[k] == w[k];
    assert s[|w|..] == tail;
    var taken := TakeUntil(s, cs);
    assert |taken| == |w|;
    assert taken == w;
  }

  /** Joining runs on one separator character and splitting into runs gives them back. */
  lemma {:induction false} RunsOfJoin(ws: seq<string>, c: char, cs: set<char>)
    requires c in cs
    requires forall k :: 0 <= k < |ws| ==> IsRun(ws[k], cs)
    ensures Runs(Join(ws, [c]), cs) == ws
    decreases |ws|
  {
    if |ws| == 1 {
      RunsStep(ws[0], [], cs);
      assert ws[0] + [] == ws[0];
    } else if |ws| > 1 {
      var rest := Join(ws[1..], [c]);
      assert Join(ws, [c]) == ws[0] + ([c] + rest);
      RunsOfJoin(ws[1..], c, cs);
      RunsJoinStep(ws[0], c, rest, cs);
      assert [ws[0]] + ws[1..] == ws;
    }
  }

  lemma RunsJoinStep(w: string, c: char, rest: string, cs: set<char>)
    requires c in cs && IsRun(w, cs)
    ensures Runs(w + ([c] + rest), cs) == [w] + Runs(rest, cs)
  {
    RunsStep(w, [c] + rest, cs);
    RunsSkipSeparator([c] + rest, cs);
    assert ([c] + rest)[1..] == rest;
  }

  /** Joining words with single spaces and splitting on whitespace gives the words back. */
  lemma WordsOfJoin(ws: seq<string>)
    requires forall k :: 0 <= k < |ws| ==> IsWord(ws[k])
    ensures Words(Join(ws, " ")) == ws
  {
    RunsOfJoin(ws, ' ', Whitespace);
  }

  function DigitChar(d: nat): char
    requires d < 10
  {
    ('0' as int + d) as char
  }

  /** Python's `str(n)` for a natural number: its decimal digits. */
  function NatToString(n: nat): (r: string)
    ensures |r| >= 1
    ensures forall k :: 0 <= k < |r| ==> '0' <= r[k] <= '9'
  {
    if n < 10 then [DigitChar(n)] else NatToString(n / 10) + [DigitChar(n % 10)]
  }

  /** The number a string of decimal digits denotes. */
  function DigitsValue(s: string): nat
    requires forall k :: 0 <= k < |s| ==> '0' <= s[k] <= '9'
  {
    if s == [] then 0 else 10 * DigitsValue(s[..|s| - 1]) + (s[|s| - 1] as int - '0' as int)
  }

  /** Reading back the decimal digits `str(n)` gives `n`. */
  lemma {:induction false} NatToStringRoundTrip(n: nat)
    ensures DigitsValue(NatToString(n)) == n
  {
    if n >= 10 {
      NatToStringRoundTrip(n / 10);
      var r := NatToString(n);
      assert r[..|r| - 1] == NatToString(n / 10);
    }
  }

  /** Python's `str(i)` for an integer. */
  function IntToString(i: int): (r: string)
    ensures r != []
    ensures i < 0 <==> r[0] == '-'
  {
    if i < 0 then "-" + NatToString(-i) else NatToString(i)
  }

  /** Python's `s[:n] + "..."`: at most `n` leading characters of `s`, then three dots. */
  function Excerpt(s: string, n: nat): (r: string)
    ensures |r| == (if |s| <= n then |s| else n) + 3
    ensures r[..|r| - 3] == s[..|r| - 3] && r[|r| - 3..] == "..."
  {
    (if |s| <= n then s else s[..n]) + "..."
  }
}
