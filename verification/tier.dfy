/** The tier estimator and the tier gate.

    `EstimateTier` turns five lexical signals of a passage (word count,
    connective words, causal phrases, reference markers and fallacy terms)
    into an integer "tier": a base of 2 plus capped bonuses, minus a capped
    penalty, clamped to [2, 16]. `Enforce` compares the tier with a minimum
    and, on failure, explains it with an ordered list of reason tags.
 */
module TierEnforcer {
  import opened Text

  /** Connective words; their occurrences are counted case-insensitively. */
  const Connectors: seq<string> := ["however", "therefore", "thus", "hence", "although", "because"]

  /** Fallacy terms; their occurrences pull the tier down. */
  const Fallacies: seq<string> := ["ad hominem", "strawman", "whataboutism", "slippery slope"]

  /** The third reference marker, kept exactly as the source stores it
      (two Thai letters, a re-encoding of the section sign). */
  const SectionMarker: string := "\U{0E22}\U{0E07}"

  /** The minimum tier the gate asks for when the caller names none. */
  const DefaultMinimum: int := 13

  /** The five signals the score is computed from. */
  datatype Signals = Signals(words: nat, connectors: nat, causals: nat, refs: nat, fallacies: nat)

  function Min(a: int, b: int): int {
    if a <= b then a else b
  }

  function Max(a: int, b: int): int {
    if a >= b then a else b
  }

  /** The signals of a passage. Connectives, causal phrases and fallacy terms
      are counted in the lower-cased text; reference markers in the text as is. */
  function SignalsOf(text: string): (r: Signals)
    ensures r.words == 0 <==> AllSpace(text)
  {
    var t := Lower(text);
    NoWordsIffAllSpace(text);
    Signals(
      WordCount(text),
      CountAll(t, Connectors),
      Count(t, "because") + Count(t, "due to"),
      Count(text, "http") + Count(text, "[") + Count(text, SectionMarker),
      CountAll(t, Fallacies))
  }

  /** Each count signal is positive exactly when one of its patterns is
      present; in particular the causal and fallacy signals agree with the
      gate's causal-anchor and fallacy conditions. */
  lemma SignalsMeanPresence(text: string)
    ensures SignalsOf(text).connectors > 0 <==> AnyIn(Connectors, Lower(text))
    ensures SignalsOf(text).causals > 0 <==> !LacksCausalAnchor(text)
    ensures SignalsOf(text).refs > 0 <==> In("http", text) || In("[", text) || In(SectionMarker, text)
    ensures SignalsOf(text).fallacies > 0 <==> HasFallacyTerm(text)
  {
  }

  /** The score before clamping: base 2, at most 6 + 4 + 2 + 2 of bonus and
      at most 3 of penalty, so it always lies in [-1, 16]. */
  function RawScore(s: Signals): (score: int)
    ensures -1 <= score <= 16
    ensures s == Signals(0, 0, 0, 0, 0) ==> score == 2
  {
    2 + Min(6, s.words / 120) + Min(4, s.connectors) + Min(2, s.causals) + Min(2, s.refs)
      - Min(3, s.fallacies)
  }

  /** The clamped score. Because the raw score never exceeds 16, only the
      lower bound of the clamp can ever change it. */
  function TierOf(s: Signals): (tier: int)
    ensures 2 <= tier <= 16
    ensures tier == Max(2, RawScore(s))
    ensures RawScore(s) >= 2 ==> tier == RawScore(s)
  {
    Max(2, Min(16, RawScore(s)))
  }

  /** The tier of a passage. */
  function EstimateTier(text: string): (tier: int)
    ensures 2 <= tier <= 16
  {
    TierOf(SignalsOf(text))
  }

  /** More words, connectives, causal phrases or references never lower the
      tier, and more fallacy terms never raise it. */
  lemma TierMonotone(s: Signals, s': Signals)
    requires s.words <= s'.words && s.connectors <= s'.connectors
    requires s.causals <= s'.causals && s.refs <= s'.refs
    requires s.fallacies >= s'.fallacies
    ensures TierOf(s) <= TierOf(s')
  {
    assert s.words / 120 <= s'.words / 120;
  }

  /** Patterns that start with a non-whitespace character are never counted
      in an all-whitespace text. */
  lemma CountAllInSpace(t: string, ks: seq<string>)
    requires AllSpace(t)
    requires forall j :: 0 <= j < |ks| ==> |ks[j]| > 0 && !IsSpace(ks[j][0])
    ensures CountAll(t, ks) == 0
  {
    forall j | 0 <= j < |ks|
      ensures !In(ks[j], t)
    {
      AbsentCharMeansAbsent(t, ks[j], ks[j][0]);
    }
  }

  /** An empty or all-whitespace passage has every signal at zero, so its
      tier is the base tier 2. */
  lemma WhitespaceTextHasTierTwo(text: string)
    requires AllSpace(text)
    ensures SignalsOf(text) == Signals(0, 0, 0, 0, 0)
    ensures EstimateTier(text) == 2
  {
    var t := Lower(text);
    assert AllSpace(t);
    CountAllInSpace(t, Connectors);
    CountAllInSpace(t, Fallacies);
    CountAllInSpace(t, ["because", "due to"]);
    CountAllInSpace(text, ["http", "[", SectionMarker]);
  }

  /* ---------------------------------------------------------------------
     The gate
     --------------------------------------------------------------------- */

  /** The reasons the gate can give, in the fixed order it checks them in;
      the fallback comes last. */
  datatype Reason = TooShort | WeakConnectives | NoCausalAnchor | FallacyTerms | WeakSignal
  {
    /** The tag the gate reports for this reason. */
    function Tag(): string {
      match this
      case TooShort => "too_short_for_high_tier"
      case WeakConnectives => "insufficient_connective_logic"
      case NoCausalAnchor => "missing_causal_anchors"
      case FallacyTerms => "fallacy_terms_detected"
      case WeakSignal => "insufficient_complexity_signal"
    }

    /** Position in the check order. */
    function Rank(): nat {
      match this
      case TooShort => 0
      case WeakConnectives => 1
      case NoCausalAnchor => 2
      case FallacyTerms => 3
      case WeakSignal => 4
    }
  }

  /** Distinct reasons are reported under distinct tags. */
  lemma TagInjective(a: Reason, b: Reason)
    ensures a != b ==> a.Tag() != b.Tag()
  {
    if a != b {
      assert a.Tag()[0] != b.Tag()[0] || a.Tag()[15] != b.Tag()[15];
    }
  }

  /** The gate's verdict: the tier and the minimum as `T<n>` labels. */
  datatype TierResult = TierResult(ok: bool, estimatedTier: string, minimum: string, reasons: seq<Reason>)

  /** The label `"T" + str(n)`. */
  function Label(n: int): (l: string)
    ensures |l| > 1 && l[0] == 'T'
    ensures l[1..] == ShowInt(n)
  {
    "T" + ShowInt(n)
  }

  /** Different tiers get different labels. */
  lemma LabelInjective(a: int, b: int)
    requires Label(a) == Label(b)
    ensures a == b
  {
    assert Label(a)[1..] == Label(b)[1..];
    ShowIntInjective(a, b);
  }

  /** The four independent failure conditions, in check order. */
  predicate IsTooShort(text: string) {
    WordCount(text) < 360
  }

  predicate HasWeakConnectives(text: string) {
    CountAll(Lower(text), Connectors) < 2
  }

  predicate LacksCausalAnchor(text: string) {
    !In("because", Lower(text)) && !In("due to", Lower(text))
  }

  predicate HasFallacyTerm(text: string) {
    AnyIn(Fallacies, Lower(text))
  }

  /** Every applicable reason in check order, given which of the four
      conditions hold; the fallback only when none of them does. */
  function CollectReasons(short: bool, weak: bool, noCause: bool, fallacy: bool): (r: seq<Reason>)
    ensures |r| > 0
    ensures forall i, j :: 0 <= i < j < |r| ==> r[i].Rank() < r[j].Rank()
    ensures TooShort in r <==> short
    ensures WeakConnectives in r <==> weak
    ensures NoCausalAnchor in r <==> noCause
    ensures FallacyTerms in r <==> fallacy
    ensures WeakSignal in r <==> !short && !weak && !noCause && !fallacy
    ensures WeakSignal in r ==> r == [WeakSignal]
  {
    var r := (if short then [TooShort] else [])
      + (if weak then [WeakConnectives] else [])
      + (if noCause then [NoCausalAnchor] else [])
      + (if fallacy then [FallacyTerms] else []);
    if r == [] then [WeakSignal] else r
  }

  /** Compares the passage's tier with `minimum` and, when it falls short,
      lists why. */
  function Enforce(text: string, minimum: int): (r: TierResult)
    ensures r.ok <==> EstimateTier(text) >= minimum
    ensures r.ok ==> r.reasons == []
    ensures !r.ok ==> |r.reasons| > 0
    ensures forall i, j :: 0 <= i < j < |r.reasons| ==> r.reasons[i].Rank() < r.reasons[j].Rank()
    ensures TooShort in r.reasons <==> !r.ok && IsTooShort(text)
    ensures WeakConnectives in r.reasons <==> !r.ok && HasWeakConnectives(text)
    ensures NoCausalAnchor in r.reasons <==> !r.ok && LacksCausalAnchor(text)
    ensures FallacyTerms in r.reasons <==> !r.ok && HasFallacyTerm(text)
    ensures WeakSignal in r.reasons <==>
              !r.ok && !IsTooShort(text) && !HasWeakConnectives(text)
              && !LacksCausalAnchor(text) && !HasFallacyTerm(text)
    ensures WeakSignal in r.reasons ==> r.reasons == [WeakSignal]
    ensures r.estimatedTier == Label(EstimateTier(text)) && r.minimum == Label(minimum)
  {
    var tier := EstimateTier(text);
    var ok := tier >= minimum;
    var reasons := CollectReasons(IsTooShort(text), HasWeakConnectives(text),
                                  LacksCausalAnchor(text), HasFallacyTerm(text));
    TierResult(ok, Label(tier), Label(minimum), if ok then [] else reasons)
  }

  /** An empty or all-whitespace passage fails the default gate at tier 2
      with exactly the reasons "too short", "weak connectives" and "no causal
      anchor"; the fallback is not added because other reasons fired. */
  lemma WhitespaceTextVerdict(text: string)
    requires AllSpace(text)
    ensures Enforce(text, DefaultMinimum)
            == TierResult(false, "T2", "T13", [TooShort, WeakConnectives, NoCausalAnchor])
  {
    WhitespaceTextHasTierTwo(text);
    WhitespaceTextConditions(text);
    LabelsOfTwoAndThirteen();
    assert CollectReasons(true, true, true, false) == [TooShort, WeakConnectives, NoCausalAnchor];
  }

  lemma WhitespaceTextConditions(text: string)
    requires AllSpace(text)
    ensures IsTooShort(text) && HasWeakConnectives(text)
    ensures LacksCausalAnchor(text) && !HasFallacyTerm(text)
  {
    WhitespaceTextHasTierTwo(text);
  }

  lemma LabelsOfTwoAndThirteen()
    ensures Label(2) == "T2" && Label(13) == "T13"
  {
    assert ShowNat(2) == "2" by {
      assert DigitChar(2) == '2';
    }
    assert ShowNat(13) == "13" by {
      assert DigitChar(1) == '1' && DigitChar(3) == '3';
      assert ShowNat(1) == "1";
    }
  }
}
