/** The AI service's counseling-notes analysis (nlp_service.py): keyword
    sentiment, ordered key-point extraction and a truncating summary. */
module NotesAnalysis {
  import Text
  import Lists

  const PositiveWords: seq<string> := ["progress", "good", "cooperative", "improving", "positive"]
  const NegativeWords: seq<string> := ["aggressive", "resistance", "declined", "poor", "negative"]

  datatype Sentiment = Positive | Negative | Neutral {
    /** The label the response carries. */
    function Label(): string
    {
      match this
      case Positive => "positive"
      case Negative => "negative"
      case Neutral => "neutral"
    }
  }

  /** Python `any(word in text for word in words)`. */
  predicate AnyOccurs(text: string, words: seq<string>)
  {
    exists i :: 0 <= i < |words| && Text.Contains(text, words[i])
  }

  /** _analyze_sentiment: positive words take precedence over negative ones. */
  function SentimentOf(text: string): (r: Sentiment)
    ensures r == Positive <==> AnyOccurs(text, PositiveWords)
    ensures r == Negative <==> !AnyOccurs(text, PositiveWords) && AnyOccurs(text, NegativeWords)
    ensures r == Neutral <==> !AnyOccurs(text, PositiveWords) && !AnyOccurs(text, NegativeWords)
  {
    if AnyOccurs(text, PositiveWords) then Positive
    else if AnyOccurs(text, NegativeWords) then Negative
    else Neutral
  }

  /** A key point is reported when any of its trigger words occurs. */
  datatype KeyPointRule = KeyPointRule(triggers: seq<string>, point: string)

  predicate Fires(rule: KeyPointRule, text: string)
  {
    AnyOccurs(text, rule.triggers)
  }

  /** _extract_key_points' rules, in the order they are tested. */
  const KeyPointRules: seq<KeyPointRule> := [
    KeyPointRule(["cooperative"], "Inmate showing cooperation"),
    KeyPointRule(["stress", "anxiety"], "Signs of stress or anxiety"),
    KeyPointRule(["progress"], "Progress noted in rehabilitation"),
    KeyPointRule(["aggressive", "violent"], "Behavioral concerns noted"),
    KeyPointRule(["medication", "therapy"], "Treatment compliance mentioned")
  ]

  const DefaultKeyPoint := "General counseling session conducted"

  function Labels(rules: seq<KeyPointRule>): (ls: seq<string>)
    ensures |ls| == |rules|
    ensures forall k :: 0 <= k < |rules| ==> ls[k] == rules[k].point
  {
    seq(|rules|, k requires 0 <= k < |rules| => rules[k].point)
  }

  /** The labels of the rules that fire, in rule order. */
  function KeyPointsFrom(rules: seq<KeyPointRule>, text: string): (r: seq<string>)
    requires Lists.NoDuplicates(Labels(rules))
    ensures |r| <= |rules|
    ensures forall k :: 0 <= k < |rules| ==> (rules[k].point in r <==> Fires(rules[k], text))
    ensures forall x :: x in r ==> x in Labels(rules)
    ensures forall i, j :: 0 <= i < j < |r| ==>
              Lists.IndexOf(Labels(rules), r[i]) < Lists.IndexOf(Labels(rules), r[j])
  {
    if |rules| == 0 then []
    else
      var ls := Labels(rules);
      var tail := Labels(rules[1..]);
      assert tail == ls[1..];
      assert Lists.NoDuplicates(tail);
      var rest := KeyPointsFrom(rules[1..], text);
      forall x | x in rest
        ensures x != rules[0].point && Lists.IndexOf(ls, x) == 1 + Lists.IndexOf(tail, x)
      {
        var k := Lists.IndexOf(tail, x);
        assert ls[k + 1] == x;
      }
      if Fires(rules[0], text) then
        assert ls[0] == rules[0].point;
        [rules[0].point] + rest
      else
        rest
  }

  /** _extract_key_points over the fixed rules: at most five, in rule order. */
  function KeyPoints(text: string): (r: seq<string>)
    ensures |r| <= 5
    ensures forall x :: x in r ==> x in Labels(KeyPointRules)
    ensures forall k :: 0 <= k < |KeyPointRules| ==> (KeyPointRules[k].point in r <==> Fires(KeyPointRules[k], text))
    ensures forall i, j :: 0 <= i < j < |r| ==>
              Lists.IndexOf(Labels(KeyPointRules), r[i]) < Lists.IndexOf(Labels(KeyPointRules), r[j])
  {
    RuleLabelFacts();
    KeyPointsFrom(KeyPointRules, text)
  }

  /** The five key points are distinct, and none is the default one. */
  lemma RuleLabelFacts()
    ensures Lists.NoDuplicates(Labels(KeyPointRules))
    ensures DefaultKeyPoint !in Labels(KeyPointRules)
  {
    var ls := Labels(KeyPointRules);
    assert ls == ["Inmate showing cooperation", "Signs of stress or anxiety", "Progress noted in rehabilitation",
                  "Behavioral concerns noted", "Treatment compliance mentioned"];
    forall i, j | 0 <= i < j < |ls| ensures ls[i] != ls[j] {
      assert ls[i][0] != ls[j][0];
    }
    forall i | 0 <= i < |ls| ensures ls[i] != DefaultKeyPoint {
      assert ls[i][0] != DefaultKeyPoint[0];
    }
  }

  const SummaryLimit: nat := 150
  const SummaryPrefix := "Session summary: "

  /** _generate_summary: short text unchanged; longer text cut to its first 150
      characters between a prefix and an ellipsis. */
  function Summary(text: string): (r: string)
    ensures |text| <= SummaryLimit ==> r == text
    ensures |text| > SummaryLimit ==> |r| == |SummaryPrefix| + SummaryLimit + 3
    ensures |text| > SummaryLimit ==>
              r[..|SummaryPrefix|] == SummaryPrefix && r[|SummaryPrefix|..|SummaryPrefix| + SummaryLimit] == text[..SummaryLimit]
              && r[|SummaryPrefix| + SummaryLimit..] == "..."
  {
    if |text| > SummaryLimit then SummaryPrefix + text[..SummaryLimit] + "..." else text
  }

  datatype Analysis = Analysis(summary: string, sentiment: Sentiment, keyPoints: seq<string>)

  const ValidationFailed: int := 422

  /** analyze_notes (with the request schema's `min_length=1` on the text): sentiment
      and key points read the lower-cased text, the summary reads the original. */
  function AnalyzeNotes(text: string): (r: Result)
    ensures r.Rejected? <==> |text| == 0
    ensures r.Analyzed? ==>
              && r.analysis.sentiment == SentimentOf(Text.ToLower(text))
              && r.analysis.summary == Summary(text)
              && |r.analysis.keyPoints| >= 1
              && (r.analysis.keyPoints == [DefaultKeyPoint] <==> KeyPoints(Text.ToLower(text)) == [])
    ensures r.Analyzed? ==>
              r.analysis.keyPoints == (if KeyPoints(Text.ToLower(text)) != [] then KeyPoints(Text.ToLower(text))
                                       else [DefaultKeyPoint])
  {
    if |text| == 0 then Rejected(ValidationFailed)
    else
      var lowered := Text.ToLower(text);
      var points := KeyPoints(lowered);
      RuleLabelFacts();
      Analyzed(Analysis(Summary(text), SentimentOf(lowered), if points != [] then points else [DefaultKeyPoint]))
  }

  datatype Result = Analyzed(analysis: Analysis) | Rejected(status: int)

  /** Sentiment and key points ignore letter case. */
  lemma CaseInsensitiveClassification(a: string, b: string)
    requires |a| > 0 && Text.EqualsIgnoreCase(a, b)
    ensures AnalyzeNotes(a).analysis.sentiment == AnalyzeNotes(b).analysis.sentiment
    ensures AnalyzeNotes(a).analysis.keyPoints == AnalyzeNotes(b).analysis.keyPoints
  {
  }

  /** "Inmate showed good progress today. Very cooperative." reads as positive. */
  lemma PositiveNotesExample()
    ensures AnalyzeNotes("Inmate showed good progress today. Very cooperative.").analysis.sentiment == Positive
  {
    var text := "Inmate showed good progress today. Very cooperative.";
    var lowered := Text.ToLower(text);
    assert lowered[14] == 'g' && lowered[15] == 'o' && lowered[16] == 'o' && lowered[17] == 'd';
    assert lowered[14..18] == "good";
    Text.ContainsAt(lowered, "good", 14);
    assert PositiveWords[1] == "good";
  }
}
