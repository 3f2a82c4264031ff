/**
 * The keyword sentiment classifier of the dashboard
 * (`classify_governance_sentiment` in government_analysis.py).
 */
module Sentiment {
  import opened Wrappers
  import opened Text

  /** The five labels the classifier can give. */
  datatype Label = Misgovernance | GoodGovernance | AntiState | AntiCentral | GeneralProtest

  /** The two configured news topics. */
  const GovtAnalysis: string := "Govt Analysis"
  const ProtestsAgainstGovernment: string := "Protests Against Government"

  /** Keyword lists, checked in this order. */
  const MisgovernanceWords: seq<string> := ["failure", "misgovernance", "corruption", "controversy"]
  const GoodGovernanceWords: seq<string> := ["success", "achievement", "development", "growth"]
  const StateWords: seq<string> := ["dmk", "stalin", "tamil nadu government"]
  const CentralWords: seq<string> := ["modi", "bjp government", "central government"]

  /**
   * The text stored in the Sentiment column for each label. Every one is
   * non-empty, so Python's truth test on a returned label holds exactly
   * when a label was returned.
   */
  function LabelText(l: Label): (r: string)
    ensures r != []
  {
    match l
    case Misgovernance => "Misgovernance (TN Govt Only)"
    case GoodGovernance => "Good Governance (TN Govt Only)"
    case AntiState => "Anti TN State Government"
    case AntiCentral => "Anti Central Government"
    case GeneralProtest => "General Protest"
  }

  /** Distinct labels are stored as distinct texts. */
  lemma LabelTextInjective(l: Label, m: Label)
    ensures LabelText(l) == LabelText(m) ==> l == m
  {
  }

  /**
   * Classifies a headline under a topic. The title is lower-cased once and
   * searched for the keyword lists; the first list that matches decides.
   * An unknown topic, and a Govt Analysis headline matching neither list,
   * get no label.
   */
  function Classify(text: string, category: string): (r: Option<Label>)
    ensures category == ProtestsAgainstGovernment ==> r.Some?
    ensures category != GovtAnalysis && category != ProtestsAgainstGovernment ==> r == None
    ensures category == GovtAnalysis && r.Some? ==> r.value in {Misgovernance, GoodGovernance}
    ensures category == ProtestsAgainstGovernment ==> r.value in {AntiState, AntiCentral, GeneralProtest}
  {
    var t := Lower(text);
    if category == GovtAnalysis then
      if ContainsAny(t, MisgovernanceWords) then Some(Misgovernance)
      else if ContainsAny(t, GoodGovernanceWords) then Some(GoodGovernance)
      else None
    else if category == ProtestsAgainstGovernment then
      if ContainsAny(t, StateWords) then Some(AntiState)
      else if ContainsAny(t, CentralWords) then Some(AntiCentral)
      else Some(GeneralProtest)
    else None
  }

  /** Some keyword of `words` occurs in the lower-cased headline. */
  ghost predicate Mentions(text: string, words: seq<string>) {
    exists w :: w in words && Contains(Lower(text), w)
  }

  /** Govt Analysis: Misgovernance exactly when a Misgovernance keyword occurs, whatever else occurs. */
  lemma GovtMisgovernance(text: string)
    ensures Classify(text, GovtAnalysis) == Some(Misgovernance) <==> Mentions(text, MisgovernanceWords)
  {
  }

  /** Govt Analysis: Good Governance exactly when no Misgovernance keyword but some Good Governance keyword occurs. */
  lemma GovtGoodGovernance(text: string)
    ensures Classify(text, GovtAnalysis) == Some(GoodGovernance)
        <==> !Mentions(text, MisgovernanceWords) && Mentions(text, GoodGovernanceWords)
  {
  }

  /** Govt Analysis: no label exactly when neither keyword list occurs. */
  lemma GovtNoLabel(text: string)
    ensures Classify(text, GovtAnalysis) == None
        <==> !Mentions(text, MisgovernanceWords) && !Mentions(text, GoodGovernanceWords)
  {
  }

  /** Protests: the state keywords take priority over the central ones; General Protest is the default. */
  lemma ProtestPriority(text: string)
    ensures Classify(text, ProtestsAgainstGovernment) == Some(AntiState) <==> Mentions(text, StateWords)
    ensures Classify(text, ProtestsAgainstGovernment) == Some(AntiCentral)
        <==> !Mentions(text, StateWords) && Mentions(text, CentralWords)
    ensures Classify(text, ProtestsAgainstGovernment) == Some(GeneralProtest)
        <==> !Mentions(text, StateWords) && !Mentions(text, CentralWords)
  {
  }

  /** Classification ignores case: a headline and its lower-cased form get the same label. */
  lemma ClassifyIgnoresCase(text: string, category: string)
    ensures Classify(text, category) == Classify(Lower(text), category)
  {
    LowerIdempotent(text);
  }

  /** The label lists that each dashboard tab keeps (its `isin` filter). */
  function TabLabels(category: string): (r: seq<string>)
    ensures category == GovtAnalysis ==> |r| == 2
    ensures category == ProtestsAgainstGovernment ==> |r| == 3
  {
    if category == GovtAnalysis then
      ["Good Governance (TN Govt Only)", "Misgovernance (TN Govt Only)"]
    else if category == ProtestsAgainstGovernment then
      ["Anti TN State Government", "Anti Central Government", "General Protest"]
    else []
  }

  /** Every label the classifier gives under a topic is one its tab keeps. */
  lemma ClassifyWithinTab(text: string, category: string)
    requires Classify(text, category).Some?
    ensures LabelText(Classify(text, category).value) in TabLabels(category)
  {
  }

  /** The two headlines of the worked Govt Analysis example. */
  lemma GovtExample()
    ensures Classify("TN govt hit by corruption scandal", GovtAnalysis) == Some(Misgovernance)
    ensures Classify("TN achieves record growth", GovtAnalysis) == Some(GoodGovernance)
  {
    MisgovernanceExample("TN govt hit by corruption scandal");
    GoodGovernanceExample("TN achieves record growth");
  }

  lemma MisgovernanceExample(a: string)
    requires a == "TN govt hit by corruption scandal"
    ensures Classify(a, GovtAnalysis) == Some(Misgovernance)
  {
    assert a[15..25] == MisgovernanceWords[2];
    LowerOfLowerCase(a[15..25]);
    OccursLowered(a, MisgovernanceWords[2], 15);
  }

  lemma GoodGovernanceExample(b: string)
    requires b == "TN achieves record growth"
    ensures Classify(b, GovtAnalysis) == Some(GoodGovernance)
  {
    assert b[19..25] == GoodGovernanceWords[3];
    LowerOfLowerCase(b[19..25]);
    OccursLowered(b, GoodGovernanceWords[3], 19);
    NoMisgovernanceKeyword(b);
  }

  /** Each Misgovernance keyword has a letter that "TN achieves record growth" lacks. */
  lemma NoMisgovernanceKeyword(b: string)
    requires b == "TN achieves record growth"
    ensures forall k :: 0 <= k < |MisgovernanceWords| ==> !Contains(Lower(b), MisgovernanceWords[k])
  {
    LacksLetter(b, 'f');
    MissingLetter(b, MisgovernanceWords[0], 0);
    LacksLetter(b, 'm');
    MissingLetter(b, MisgovernanceWords[1], 0);
    LacksLetter(b, 'p');
    MissingLetter(b, MisgovernanceWords[2], 5);
    LacksLetter(b, 'y');
    MissingLetter(b, MisgovernanceWords[3], 10);
  }

  /** The letters f, m, p and y occur in "TN achieves record growth" in neither case. */
  lemma LacksLetter(b: string, c: char)
    requires b == "TN achieves record growth"
    requires c == 'f' || c == 'm' || c == 'p' || c == 'y'
    ensures c !in b && (c as int - 'a' as int + 'A' as int) as char !in b
  {
  }

  /** A headline naming both Stalin and Modi is classed as against the state government. */
  lemma ProtestExample(a: string)
    requires a == "Protest against Stalin and Modi"
    ensures Classify(a, ProtestsAgainstGovernment) == Some(AntiState)
  {
    assert Lower(a[16..22]) == "stalin" by {
      assert a[16..22] == ['S'] + "talin";
      LowerAppend(['S'], "talin");
      LowerOfLowerCase("talin");
    }
    assert Lower(a[16..22]) == StateWords[1];
    OccursLowered(a, StateWords[1], 16);
  }
}
