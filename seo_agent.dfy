/**
 * The SEO agent: it reads comma-separated hashtags and keywords from the
 * lines marked `HASHTAGS:` and `KEYWORDS:` of the model's reply.
 */
module SeoAgent {
  import opened Text
  import opened ArticleStates

  const HashtagsMarker: string := "HASHTAGS:"
  const KeywordsMarker: string := "KEYWORDS:"

  /** `[item.strip() for item in line.split(",")]`: one value per comma-separated item. */
  function LineValues(line: string): (r: seq<string>)
    ensures |r| == multiset(line)[','] + 1
    ensures |r| == |Split(line, ",")| && forall k :: 0 <= k < |r| ==> r[k] == Strip(Split(line, ",")[k])
  {
    var items := Split(line, ",");
    SplitCharCount(line, ',');
    seq(|items|, k requires 0 <= k < |items| => Strip(items[k]))
  }

  /** Every value of a line is stripped already. */
  lemma LineValuesStripped(line: string)
    ensures forall k :: 0 <= k < |LineValues(line)| ==> Strip(LineValues(line)[k]) == LineValues(line)[k]
  {
    var items := Split(line, ",");
    forall k | 0 <= k < |items| ensures Strip(Strip(items[k])) == Strip(items[k]) {
      StripIdempotent(items[k]);
    }
  }

  /** Stripped items without commas, joined by commas, are read back unchanged. */
  lemma LineValuesOfJoin(items: seq<string>)
    requires |items| >= 1
    requires forall k :: 0 <= k < |items| ==> ',' !in items[k] && Strip(items[k]) == items[k]
    ensures LineValues(Join(items, ",")) == items
  {
    JoinSplitChar(items, ',');
  }

  /** `content.split(marker)[1].split("\n")[0]` */
  function MarkerLine(content: string, marker: string): string
    requires marker != [] && Contains(content, marker)
  {
    Split(Split(content, marker)[1], "\n")[0]
  }

  /**
   * The marker line is the text right after the first marker, up to the
   * first newline, the next marker or the end of the reply, whichever comes
   * first.
   */
  lemma MarkerLineBounds(content: string, marker: string)
    requires marker != [] && Contains(content, marker)
    ensures var start := IndexOf(content, marker).value + |marker|;
            var line := MarkerLine(content, marker);
            var end := start + |line|;
            end <= |content| && line == content[start..end] && '\n' !in line
            && (end == |content| || content[end] == '\n' || OccursAt(content, marker, end))
  {
    var start := IndexOf(content, marker).value + |marker|;
    var piece := Split(content, marker)[1];
    var line := MarkerLine(content, marker);
    SplitSecond(content, marker);
    SplitHead(piece, "\n");
    ContainsChar(line, '\n');
    assert line == content[start..start + |line|] by {
      assert piece[..|line|] == content[start..start + |line|];
    }
    if |line| < |piece| {
      assert piece[|line|] == piece[|line|..|line| + 1][0];
      assert content[start + |line|] == piece[|line|];
    }
  }

  /**
   * The values read after `marker`: none when the reply lacks the marker;
   * otherwise one value per comma-separated item of the marker line.
   */
  function MarkerValues(content: string, marker: string): (r: seq<string>)
    requires marker != []
    ensures !Contains(content, marker) ==> r == []
    ensures Contains(content, marker) ==> |r| == multiset(MarkerLine(content, marker))[','] + 1
    ensures Contains(content, marker) ==> r == LineValues(MarkerLine(content, marker))
  {
    if Contains(content, marker) then LineValues(MarkerLine(content, marker)) else []
  }

  /** Every value read after a marker is stripped and lies within one line. */
  lemma MarkerValuesClean(content: string, marker: string)
    requires marker != []
    ensures forall k :: 0 <= k < |MarkerValues(content, marker)| ==>
      Strip(MarkerValues(content, marker)[k]) == MarkerValues(content, marker)[k]
      && '\n' !in MarkerValues(content, marker)[k]
  {
    if Contains(content, marker) {
      var line := MarkerLine(content, marker);
      var r := LineValues(line);
      LineValuesStripped(line);
      assert '\n' !in line by { MarkerLineBounds(content, marker); }
      SplitPiecesWithin(line, ",");
      forall k | 0 <= k < |r| ensures '\n' !in r[k] {
        StripWithin(Split(line, ",")[k], Whitespace);
      }
    }
  }

  /** A marker followed directly by a newline gives one empty value. */
  lemma EmptyMarkerLine(content: string, marker: string)
    requires marker != [] && Contains(content, marker) && MarkerLine(content, marker) == []
    ensures MarkerValues(content, marker) == [""]
  {
    assert Split([], ",") == [[]];
  }

  /** The inputs of the SEO prompt. */
  datatype SeoPrompt = SeoPrompt(topic: string, excerpt: string)

  /** The SEO node: it writes `hashtags` and `seo_keywords` and nothing else. */
  method Run(st: ArticleState, reply: string) returns (prompt: SeoPrompt)
    modifies st`hashtags, st`seoKeywords
    ensures prompt == SeoPrompt(st.topic, Excerpt(st.article, 800))
    ensures st.hashtags == MarkerValues(reply, HashtagsMarker)
    ensures st.seoKeywords == MarkerValues(reply, KeywordsMarker)
  {
    prompt := SeoPrompt(st.topic, Excerpt(st.article, 800));
    var hashtags := [];
    var keywords := [];
    if Contains(reply, HashtagsMarker) {
      hashtags := LineValues(MarkerLine(reply, HashtagsMarker));
    }
    if Contains(reply, KeywordsMarker) {
      keywords := LineValues(MarkerLine(reply, KeywordsMarker));
    }
    st.hashtags := hashtags;
    st.seoKeywords := keywords;
  }
}
