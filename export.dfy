/**
 * The string handling of the article export: the file-name sanitiser and the
 * package paths of `create_article_package`, the line classifier of
 * `export_to_word`, and the title chooser of `create_placeholder_image`.
 * Building the Word document and drawing the image are not modelled.
 */
module Export {
  import opened Outcomes
  import opened Text

  /** The ASCII part of the regular-expression class `\w`. */
  predicate IsWordChar(c: char)
  {
    'a' <= c <= 'z' || 'A' <= c <= 'Z' || '0' <= c <= '9' || c == '_'
  }

  /** The characters of the class `[-\s]`. */
  const Separators: set<char> := {' ', '\t', '\n', '\r', '\U{000B}', '\U{000C}',
                                  '\U{001C}', '\U{001D}', '\U{001E}', '\U{001F}', '-'}

  /** True for the characters the first substitution keeps: `\w`, `\s` and `-`. */
  predicate IsSafeChar(c: char)
  {
    IsWordChar(c) || c in Separators
  }

  /** `re.sub(r'[^\w\s-]', '', s)`: every character outside `\w`, `\s` and `-` dropped. */
  function DropUnsafe(s: string): (r: string)
    ensures |r| <= |s|
    ensures forall k :: 0 <= k < |r| ==> IsSafeChar(r[k]) && r[k] in s
  {
    if s == [] then []
    else (if IsSafeChar(s[0]) then [s[0]] else []) + DropUnsafe(s[1..])
  }

  /**
   * The filter works character by character and keeps the order: filtering
   * joined strings joins the filtered strings. With `DropUnsafeChar` this
   * determines the result for every string.
   */
  lemma {:induction false} DropUnsafeAppend(a: string, b: string)
    ensures DropUnsafe(a + b) == DropUnsafe(a) + DropUnsafe(b)
  {
    if a == [] {
      assert a + b == b;
    } else {
      assert (a + b)[0] == a[0] && (a + b)[1..] == a[1..] + b;
      DropUnsafeAppend(a[1..], b);
    }
  }

  /** One character is kept exactly when it is a word character, whitespace or a hyphen. */
  lemma DropUnsafeChar(c: char)
    ensures DropUnsafe([c]) == if IsSafeChar(c) then [c] else []
  {
    assert [c][0] == c && [c][1..] == [];
  }

  /** A string made only of word characters, whitespace and hyphens passes the filter unchanged. */
  lemma {:induction false} DropUnsafeKeeps(s: string)
    requires forall k :: 0 <= k < |s| ==> IsSafeChar(s[k])
    ensures DropUnsafe(s) == s
  {
    if s != [] {
      DropUnsafeKeeps(s[1..]);
    }
  }

  /** `re.sub(r'[-\s]+', '_', s)`: every maximal run of hyphens and whitespace becomes one `_`. */
  function CollapseSeparators(s: string): (r: string)
    ensures |r| <= |s|
    ensures forall k :: 0 <= k < |r| ==> r[k] !in Separators && (r[k] == '_' || r[k] in s)
    decreases |s|
  {
    if s == [] then []
    else if s[0] in Separators then
      var rest := TrimStart(s, Separators);
      TrimStartSuffix(s, Separators);
      var tail := CollapseSeparators(rest);
      assert forall k :: 0 <= k < |tail| && tail[k] in rest ==> tail[k] in s;
      "_" + tail
    else
      var tail := CollapseSeparators(s[1..]);
      assert forall k :: 0 <= k < |tail| && tail[k] in s[1..] ==> tail[k] in s;
      [s[0]] + tail
  }

  /** A non-empty run of separators followed by a non-separator collapses to a single `_`. */
  lemma CollapseRun(run: string, rest: string)
    requires run != [] && forall k :: 0 <= k < |run| ==> run[k] in Separators
    requires rest == [] || rest[0] !in Separators
    ensures CollapseSeparators(run + rest) == "_" + CollapseSeparators(rest)
  {
    TrimStartRun(run, rest, Separators);
  }

  /** A character that is not a separator is kept, and the rest collapses on its own. */
  lemma CollapseNonSeparator(c: char, rest: string)
    requires c !in Separators
    ensures CollapseSeparators([c] + rest) == [c] + CollapseSeparators(rest)
  {
    assert ([c] + rest)[1..] == rest;
  }

  /** A string with no hyphen or whitespace is left alone. */
  lemma {:induction false} CollapseKeeps(s: string)
    requires forall k :: 0 <= k < |s| ==> s[k] !in Separators
    ensures CollapseSeparators(s) == s
  {
    if s != [] {
      CollapseKeeps(s[1..]);
    }
  }

  /** Stripping whitespace keeps a string made of safe characters safe. */
  lemma StripSafe(s: string)
    requires forall k :: 0 <= k < |s| ==> IsSafeChar(s[k])
    ensures forall k :: 0 <= k < |Strip(s)| ==> IsSafeChar(Strip(s)[k])
  {
    var t := TrimStart(s, Whitespace);
    TrimStartSuffix(s, Whitespace);
    assert forall k :: 0 <= k < |t| ==> t[k] == s[|s| - |t| + k];
    var r := TrimEnd(t, Whitespace);
    TrimEndPrefix(t, Whitespace);
    assert forall k :: 0 <= k < |r| ==> r[k] == t[k];
  }

  /** Collapsing the separators of a safe string leaves only word characters. */
  lemma CollapseSafe(s: string)
    requires forall k :: 0 <= k < |s| ==> IsSafeChar(s[k])
    ensures forall k :: 0 <= k < |CollapseSeparators(s)| ==> IsWordChar(CollapseSeparators(s)[k])
  {
    var r := CollapseSeparators(s);
    forall k | 0 <= k < |r| ensures IsWordChar(r[k]) {
      if r[k] != '_' {
        var j :| 0 <= j < |s| && s[j] == r[k];
      }
    }
  }

  /** The file-name stem made from the article topic, at most 50 characters long. */
  function SafeTopic(topic: string): (r: string)
    ensures |r| <= 50
    ensures forall k :: 0 <= k < |r| ==> IsWordChar(r[k])
  {
    var stripped := Strip(DropUnsafe(topic));
    StripSafe(DropUnsafe(topic));
    var collapsed := CollapseSeparators(stripped);
    CollapseSafe(stripped);
    if |collapsed| <= 50 then collapsed else collapsed[..50]
  }

  /** `os.path.join(directory, name)` with POSIX separators. */
  function JoinPath(directory: string, name: string): string
  {
    if StartsWith(name, "/") then name
    else if directory == [] || directory[|directory| - 1] == '/' then directory + name
    else directory + "/" + name
  }

  /** The paths `create_article_package` returns. */
  datatype ExportPaths = ExportPaths(wordDocument: string, imageFile: string, outputDirectory: string)

  /** Joining a relative name keeps it under the directory, so an extension can be added before or after. */
  lemma JoinPathExtension(directory: string, name: string, extension: string)
    requires name != [] && name[0] != '/'
    ensures JoinPath(directory, name + extension) == JoinPath(directory, name) + extension
    ensures StartsWith(JoinPath(directory, name), directory)
  {
    assert !StartsWith(name, "/") && !StartsWith(name + extension, "/") by {
      assert (name + extension)[0] == name[0];
    }
    if directory == [] || directory[|directory| - 1] == '/' {
      assert directory + (name + extension) == directory + name + extension;
      assert (directory + name)[..|directory|] == directory;
    } else {
      assert directory + "/" + (name + extension) == directory + "/" + name + extension;
      assert (directory + "/" + name)[..|directory|] == directory;
    }
  }

  /** The path without extension that both package files share. */
  function PackageStem(topic: string, outputDirectory: string, timestamp: string): string
  {
    JoinPath(outputDirectory, SafeTopic(topic) + "_" + timestamp)
  }

  /**
   * The paths of the package for `topic`: the Word document and the image share
   * one stem inside `outputDirectory` and differ only by extension. The
   * timestamp is a parameter.
   */
  function CreateArticlePackage(topic: string, outputDirectory: string, timestamp: string): (r: ExportPaths)
    ensures r.outputDirectory == outputDirectory
    ensures r.wordDocument == PackageStem(topic, outputDirectory, timestamp) + ".docx"
    ensures r.imageFile == PackageStem(topic, outputDirectory, timestamp) + ".jpg"
    ensures StartsWith(r.wordDocument, outputDirectory) && StartsWith(r.imageFile, outputDirectory)
  {
    var safe := SafeTopic(topic);
    var name := safe + "_" + timestamp;
    assert name[0] != '/' by {
      if safe != [] {
        assert name[0] == safe[0];
      }
    }
    JoinPathExtension(outputDirectory, name, ".docx");
    JoinPathExtension(outputDirectory, name, ".jpg");
    ExportPaths(JoinPath(outputDirectory, name + ".docx"), JoinPath(outputDirectory, name + ".jpg"), outputDirectory)
  }

  /** A block added to the Word document for one article line. */
  datatype Block = Heading(level: nat, text: string) | Paragraph(text: string)

  /** No piece holding `c` gives a concatenation without `c`. */
  lemma {:induction false} JoinWithout(parts: seq<string>, c: char)
    requires forall k :: 0 <= k < |parts| ==> c !in parts[k]
    ensures c !in Join(parts, "")
  {
    if |parts| > 1 {
      JoinWithout(parts[1..], c);
    }
  }

  /** `s.replace(c, "")` for one character `c` leaves no `c` behind. */
  lemma RemoveAll(s: string, c: char)
    ensures c !in Replace(s, [c], "")
  {
    var parts := Split(s, [c]);
    SplitPiecesFree(s, [c]);
    forall k | 0 <= k < |parts| ensures c !in parts[k] {
      ContainsChar(parts[k], c);
    }
    JoinWithout(parts, c);
  }

  /** Two texts without `##`, the first not ending in `#`, are joined without making a `##`. */
  lemma JoinNoDoubleHash(a: string, b: string)
    requires !Contains(a, "##") && !Contains(b, "##")
    requires a == [] || a[|a| - 1] != '#'
    ensures !Contains(a + b, "##")
  {
    var s := a + b;
    forall j: nat | j + 2 <= |s| ensures !OccursAt(s, "##", j) {
      if j + 2 <= |a| {
        assert a[j..j + 2] == s[j..j + 2];
        assert !OccursAt(a, "##", j);
      } else if j >= |a| {
        assert b[j - |a|..j - |a| + 2] == s[j..j + 2];
        assert !OccursAt(b, "##", j - |a|);
      } else {
        assert s[j..j + 2][0] == a[|a| - 1];
      }
    }
  }

  /** `s.replace(p, r)` is the text before the first `p`, then `r`, then the rest replaced. */
  lemma ReplaceFirst(s: string, p: string, r: string)
    requires p != [] && Contains(s, p)
    ensures var i := IndexOf(s, p).value;
            Replace(s, p, r) == s[..i] + r + Replace(s[i + |p|..], p, r)
  {
    var i := IndexOf(s, p).value;
    var rest := Split(s[i + |p|..], p);
    SplitFirst(s, p);
    assert Split(s, p) == [s[..i]] + rest;
  }

  /** The text before the first `##` neither holds `##` nor ends in `#`. */
  lemma BeforeFirstDoubleHash(s: string)
    requires Contains(s, "##")
    ensures var head := s[..IndexOf(s, "##").value];
            !Contains(head, "##") && (head == [] || head[|head| - 1] != '#')
  {
    var i := IndexOf(s, "##").value;
    SplitHead(s, "##");
    SplitFirst(s, "##");
    var head := s[..i];
    if head != [] {
      assert !OccursAt(s, "##", i - 1);
      assert s[i] == '#' by {
        assert s[i] == s[i..i + 2][0];
      }
      assert s[i - 1..i + 1] == [s[i - 1], s[i]];
      assert head[|head| - 1] == s[i - 1];
    }
  }

  /**
   * `s.replace("##", "")` leaves no `##` behind: the text before the first
   * `##` cannot end in `#`, or the first `##` would start one place earlier.
   */
  lemma {:induction false} RemoveDoubleHash(s: string)
    ensures !Contains(Replace(s, "##", ""), "##")
    decreases |s|
  {
    if !Contains(s, "##") {
      SplitFirst(s, "##");
    } else {
      var i := IndexOf(s, "##").value;
      RemoveDoubleHash(s[i + 2..]);
      ReplaceFirst(s, "##", "");
      BeforeFirstDoubleHash(s);
      assert s[..i] + "" == s[..i];
      JoinNoDoubleHash(s[..i], Replace(s[i + 2..], "##", ""));
    }
  }

  /**
   * How `export_to_word` renders one article line: nothing for a blank line,
   * a level-2 heading for a `##` line with every `##` removed, a level-1
   * heading for another `#` line with every `#` removed, a paragraph otherwise.
   */
  function ClassifyLine(raw: string): (r: Option<Block>)
    ensures r.None? <==> forall k :: 0 <= k < |raw| ==> raw[k] in Whitespace
    ensures r.Some? ==> (r.value.Heading? <==> StartsWith(Strip(raw), "#"))
    ensures r.Some? && r.value.Heading? ==> (r.value.level == 2 <==> StartsWith(Strip(raw), "##"))
    ensures r.Some? && r.value.Heading? ==> (r.value.level == 1 || r.value.level == 2)
    ensures r.Some? && r.value.Heading? && r.value.level == 1 ==> '#' !in r.value.text
    ensures r.Some? && r.value.Heading? && r.value.level == 2 ==> !Contains(r.value.text, "##")
    ensures r.Some? && r.value.Heading? ==> Strip(r.value.text) == r.value.text
    ensures r.Some? && r.value.Heading? && r.value.level == 2 ==> r.value.text == Strip(Replace(Strip(raw), "##", ""))
    ensures r.Some? && r.value.Heading? && r.value.level == 1 ==> r.value.text == Strip(Replace(Strip(raw), "#", ""))
    ensures r.Some? && r.value.Paragraph? ==> r.value.text == Strip(raw) && r.value.text != []
  {
    StripEmpty(raw);
    var line := Strip(raw);
    if line == [] then None
    else if StartsWith(line, "##") then
      assert StartsWith(line, "#") by {
        assert line[..1] == line[..2][..1];
      }
      var removed := Replace(line, "##", "");
      RemoveDoubleHash(line);
      StripCharsAbsent(removed, Whitespace, "##");
      StripIdempotent(removed);
      Some(Heading(2, Strip(removed)))
    else if StartsWith(line, "#") then
      var removed := Replace(line, "#", "");
      RemoveAll(line, '#');
      StripWithin(removed, Whitespace);
      StripIdempotent(removed);
      Some(Heading(1, Strip(removed)))
    else Some(Paragraph(line))
  }

  /** A `###` line becomes a level-2 heading that keeps one `#`. */
  lemma TripleHashHeading()
    ensures ClassifyLine("### X") == Some(Heading(2, "# X"))
  {
    var line := "### X";
    StripCharsKeeps(line, Whitespace);
    assert IndexOf(line, "##") == Some(0);
    var rest := "# X";
    assert rest[0..2] != "##" by {
      assert rest[0..2][1] == rest[1] == ' ';
    }
    assert rest[1..3] != "##" by {
      assert rest[1..3][0] == rest[1];
    }
    assert IndexFrom("# X", "##", 2) == None;
    assert IndexOf("# X", "##") == None;
    assert Split(line, "##") == ["", "# X"];
    assert Replace(line, "##", "") == "# X";
    StripCharsKeeps("# X", Whitespace);
  }

  /** The blocks for a sequence of lines, in line order. */
  function Blocks(lines: seq<string>): (r: seq<Block>)
    ensures |r| <= |lines|
  {
    if lines == [] then []
    else
      var init := Blocks(lines[..|lines| - 1]);
      match ClassifyLine(lines[|lines| - 1])
      case None => init
      case Some(b) => init + [b]
  }

  /** The blocks of the lines `a + b` are the blocks of `a` followed by those of `b`. */
  lemma {:induction false} BlocksAppend(a: seq<string>, b: seq<string>)
    ensures Blocks(a + b) == Blocks(a) + Blocks(b)
    decreases |b|
  {
    if b == [] {
      assert a + b == a;
    } else {
      var b' := b[..|b| - 1];
      assert (a + b)[..|a + b| - 1] == a + b';
      BlocksAppend(a, b');
    }
  }

  /** The document blocks of an article: one per non-blank line, in order. */
  function ArticleBlocks(article: string): seq<Block>
  {
    Blocks(Split(article, "\n"))
  }

  /** The line loop of `export_to_word`. */
  method ExportArticleContent(article: string) returns (blocks: seq<Block>)
    ensures blocks == ArticleBlocks(article)
  {
    var lines := Split(article, "\n");
    blocks := [];
    var i := 0;
    while i < |lines|
      invariant 0 <= i <= |lines|
      invariant blocks == Blocks(lines[..i])
    {
      var b := ClassifyLine(lines[i]);
      if b.Some? {
        blocks := blocks + [b.value];
      }
      i := i + 1;
      assert lines[..i][..i - 1] == lines[..i - 1];
    }
    assert lines[..|lines|] == lines;
  }

  /** The placeholder prompt with the stock phrases of the image prompt removed and whitespace trimmed. */
  function CleanPrompt(text: string): string
  {
    var first := Strip(Replace(Replace(text, "Create a high-definition abstract image that", ""), "encapsulates", ""));
    Strip(Replace(Replace(first, "Create an HD abstract image", ""), "that symbolizes", ""))
  }

  /** Title and subtitle drawn on the placeholder image. */
  datatype Caption = Caption(title: string, subtitle: string)

  predicate MentionsEither(s: string, a: string, b: string)
  {
    Contains(Lower(s), a) || Contains(Lower(s), b)
  }

  /** True when one of the three fixed themes applies to the cleaned prompt. */
  predicate Themed(clean: string)
  {
    MentionsEither(clean, "sustainability", "carbon")
      || MentionsEither(clean, "optimization", "efficiency")
      || MentionsEither(clean, "machine learning", "llm")
  }

  /** The caption made from the words of an unthemed prompt. */
  function CaptionFromWords(words: seq<string>): Caption
  {
    var titleWords := if |words| > 6 then words[..6] else words;
    var subtitleWords := if |words| > 6 then words[6..] else [];
    Caption(Join(titleWords, " "), if subtitleWords != [] then Join(subtitleWords, " ") else "Technology")
  }

  /**
   * The caption of `create_placeholder_image`: themes are tested in a fixed
   * order, and otherwise the caption is made from the words of the cleaned prompt.
   */
  function PlaceholderCaption(text: string): (r: Caption)
    ensures MentionsEither(CleanPrompt(text), "sustainability", "carbon") ==>
      r == Caption("Green AI", "Sustainable Technology")
    ensures !MentionsEither(CleanPrompt(text), "sustainability", "carbon")
            && MentionsEither(CleanPrompt(text), "optimization", "efficiency") ==>
      r == Caption("AI Optimization", "Performance & Efficiency")
    ensures !MentionsEither(CleanPrompt(text), "sustainability", "carbon")
            && !MentionsEither(CleanPrompt(text), "optimization", "efficiency")
            && MentionsEither(CleanPrompt(text), "machine learning", "llm") ==>
      r == Caption("AI Innovation", "Machine Learning")
    ensures !Themed(CleanPrompt(text)) ==> r == CaptionFromWords(Words(CleanPrompt(text)))
  {
    var clean := CleanPrompt(text);
    if MentionsEither(clean, "sustainability", "carbon") then
      Caption("Green AI", "Sustainable Technology")
    else if MentionsEither(clean, "optimization", "efficiency") then
      Caption("AI Optimization", "Performance & Efficiency")
    else if MentionsEither(clean, "machine learning", "llm") then
      Caption("AI Innovation", "Machine Learning")
    else
      CaptionFromWords(Words(clean))
  }

  /**
   * Made from words, the title holds the first six words and the subtitle the
   * remaining ones, or "Technology" when there are at most six.
   */
  lemma CaptionWords(words: seq<string>)
    requires forall k :: 0 <= k < |words| ==> IsWord(words[k])
    ensures var c := CaptionFromWords(words);
            if |words| > 6 then Words(c.title) == words[..6] && Words(c.subtitle) == words[6..]
            else Words(c.title) == words && c.subtitle == "Technology"
  {
    if |words| > 6 {
      WordsOfJoin(words[..6]);
      WordsOfJoin(words[6..]);
    } else {
      WordsOfJoin(words);
    }
  }
}
