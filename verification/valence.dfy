/** The satire detector and the valence adjuster.

    `Detect` scores a passage for satire from the PRESENCE of marker phrases,
    hyperbole words and punctuation patterns, a contrast test and the share
    of capital letters, and normalises the integer score to a confidence.
    `Adjust` copies a valence record and, when satire is detected, dampens
    its intensity and neutralises its polarity.
 */
module ValenceSwap {
  import opened Text

  /* Three of the satire markers are emoji as the source stores them: each a
     four-character re-encoding whose second character is U+0178, which
     lower-casing maps to U+00FF. */
  const RollingEyes: string := "\U{00F0}\U{0178}\U{2122}\U{201E}"
  const TearsOfJoy: string := "\U{00F0}\U{0178}\U{02DC}\U{201A}"
  const Rofl: string := "\U{00F0}\U{0178}\U{00A4}\U{00A3}"

  /** Satire marker phrases; each present one adds 2 to the score. */
  const SatireMarkers: seq<string> :=
    ["/s", "s/ ", "sarcasm", "irony", "ironic", "yeah right", "as if",
     "totally", "obviously", "sure, jan", RollingEyes, TearsOfJoy, Rofl, "smh"]

  /** Words that, together with "but" or "however", signal a contrast. */
  const Contrasters: seq<string> := ["sure", "right", "totally", "literally", "obviously"]

  /** Hyperbole words; each present one adds 1. */
  const Hyperbole: seq<string> := ["literally", "absolutely", "infinitely", "always", "never", "best", "worst"]

  /** Punctuation patterns, matched case-sensitively; each present one adds 1. */
  const Punct: seq<string> := ["?!", "!!!"]

  /* ---------------------------------------------------------------------
     Capital-letter ratio
     --------------------------------------------------------------------- */

  /** Share of upper-case letters among all letters; 0 when there are none. */
  function RatioCaps(text: string): (r: real)
    ensures CountAlpha(text) == 0 ==> r == 0.0
    ensures 0.0 <= r <= 1.0
  {
    var caps, letters := CountUpper(text), CountAlpha(text);
    if letters == 0 then 0.0
    else
      RatioFacts(caps, letters);
      caps as real / letters as real
  }

  /** The facts about `c / l` the capitals test relies on. */
  lemma RatioFacts(c: int, l: int)
    requires 0 <= c <= l && l > 0
    ensures 0.0 <= c as real / l as real <= 1.0
    ensures c * 50 > l * 9 <==> c as real / l as real > 0.18
  {
    var cr, lr := c as real, l as real;
    RealRatio(cr, lr);
    assert (c * 50) as real == cr * 50.0;
    assert (l * 9) as real == lr * 9.0;
  }

  lemma RealRatio(cr: real, lr: real)
    requires 0.0 <= cr <= lr && lr > 0.0
    ensures 0.0 <= cr / lr <= 1.0
    ensures cr / lr > 0.18 <==> cr * 50.0 > lr * 9.0
  {
  }

  /** The detector's capitals test `ratio > 0.18`, in integers: 0.18 is
      9/50, so the test needs no division. */
  function CapsHeavy(text: string): (b: bool)
    ensures b <==> RatioCaps(text) > 0.18
  {
    var caps, letters := CountUpper(text), CountAlpha(text);
    if letters > 0 then
      RatioFacts(caps, letters);
      caps * 50 > letters * 9
    else
      false
  }

  /* ---------------------------------------------------------------------
     Detection
     --------------------------------------------------------------------- */

  /** The detector's verdict. `confidence` is in hundredths: the score's
      confidence rounded to two decimals, times 100. */
  datatype Detection = Detection(isSatire: bool, confidence: nat, raw: nat)

  /** The integer raw score of a passage, given the marker list to look for
      in the lower-cased text. Every list contributes the number of its
      entries PRESENT, not the number of occurrences. */
  function RawScore(text: string, markers: seq<string>): (raw: nat)
    ensures raw <= 2 * |markers| + |Hyperbole| + |Punct| + 2
  {
    var t := Lower(text);
    2 * Hits(t, markers)
      + Hits(t, Hyperbole)
      + Hits(text, Punct)
      + (if AnyIn(Contrasters, t) && (In("but", t) || In("however", t)) then 1 else 0)
      + (if CapsHeavy(text) then 1 else 0)
  }

  /** `round(x, 2)` as a whole number of hundredths, rounding halves up:
      the nearest whole number to `100·x`. */
  function Hundredths(x: real): (h: int)
    ensures h as real - 0.5 <= x * 100.0 < h as real + 0.5
  {
    (x * 100.0 + 0.5).Floor
  }

  /** Normalises a raw score: confidence `min(1, raw / 6)`, satire when that
      is at least one half. */
  function Classify(raw: nat): (d: Detection)
    ensures d.raw == raw
    ensures d.isSatire <==> raw >= 3
    ensures d.confidence <= 100
    ensures raw >= 6 ==> d.confidence == 100
    ensures raw < 6 ==> -3 <= d.confidence * 6 - raw * 100 <= 3
    ensures d.isSatire <==> d.confidence >= 50
  {
    var ratio := raw as real / 6.0;
    var conf := if ratio < 1.0 then ratio else 1.0;
    Detection(conf >= 0.5, Hundredths(conf), raw)
  }

  /** The detector exactly as written: markers are looked for verbatim in the
      lower-cased text. */
  function DetectAsWritten(text: string): (d: Detection)
    ensures d.raw <= 39
    ensures d.isSatire <==> d.raw >= 3
    ensures d.isSatire <==> d.confidence >= 50
    ensures d.confidence <= 100
    ensures d.raw >= 6 ==> d.confidence == 100
  {
    Classify(RawScore(text, SatireMarkers))
  }

  /** The markers in lower case, as they can appear in a lower-cased text. */
  function LoweredMarkers(): (ms: seq<string>)
    ensures |ms| == |SatireMarkers|
    ensures forall j :: 0 <= j < |ms| ==> ms[j] == Lower(SatireMarkers[j])
  {
    seq(|SatireMarkers|, j requires 0 <= j < |SatireMarkers| => Lower(SatireMarkers[j]))
  }

  /** The detector with the markers lower-cased before they are looked for. */
  function Detect(text: string): (d: Detection)
    ensures d.raw <= 39
    ensures d.isSatire <==> d.raw >= 3
    ensures d.isSatire <==> d.confidence >= 50
    ensures d.confidence <= 100
    ensures d.raw >= 6 ==> d.confidence == 100
  {
    Classify(RawScore(text, LoweredMarkers()))
  }

  /** Each list entry adds at most once: the raw score depends only on which
      markers, hyperbole words and punctuation patterns are present, whatever
      the marker list (`SatireMarkers` as written, or `LoweredMarkers()`). */
  lemma {:induction false} RawScoreDependsOnPresence(text: string, text': string, ms: seq<string>)
    requires forall j :: 0 <= j < |ms| ==> (In(ms[j], Lower(text)) <==> In(ms[j], Lower(text')))
    requires forall j :: 0 <= j < |Hyperbole| ==>
               (In(Hyperbole[j], Lower(text)) <==> In(Hyperbole[j], Lower(text')))
    requires forall j :: 0 <= j < |Punct| ==> (In(Punct[j], text) <==> In(Punct[j], text'))
    requires AnyIn(Contrasters, Lower(text)) <==> AnyIn(Contrasters, Lower(text'))
    requires (In("but", Lower(text)) || In("however", Lower(text)))
             <==> (In("but", Lower(text')) || In("however", Lower(text')))
    requires CapsHeavy(text) <==> CapsHeavy(text')
    ensures RawScore(text, ms) == RawScore(text', ms)
  {
    HitsDependOnPresenceOnly(Lower(text), Lower(text'), ms);
    HitsDependOnPresenceOnly(Lower(text), Lower(text'), Hyperbole);
    HitsDependOnPresenceOnly(text, text', Punct);
  }

  /** As written, the three emoji markers can never fire: the lower-cased
      text holds no U+0178, and every emoji marker does. */
  lemma EmojiMarkersNeverFireAsWritten(text: string)
    ensures !In(RollingEyes, Lower(text))
    ensures !In(TearsOfJoy, Lower(text))
    ensures !In(Rofl, Lower(text))
  {
    LowerHasNoUpper(text);
    assert IsUpper('\U{0178}');
    assert RollingEyes[1] == '\U{0178}' && TearsOfJoy[1] == '\U{0178}' && Rofl[1] == '\U{0178}';
    AbsentCharMeansAbsent(Lower(text), RollingEyes, '\U{0178}');
    AbsentCharMeansAbsent(Lower(text), TearsOfJoy, '\U{0178}');
    AbsentCharMeansAbsent(Lower(text), Rofl, '\U{0178}');
  }

  /** A concrete witness: the passage consisting of the rolling-eyes marker
      contains that marker, yet the as-written test does not see it. */
  lemma RollingEyesMissedAsWritten()
    ensures In(RollingEyes, RollingEyes)
    ensures !In(RollingEyes, Lower(RollingEyes))
  {
    assert OccursAt(RollingEyes, RollingEyes, 0);
    EmojiMarkersNeverFireAsWritten(RollingEyes);
  }

  /** With lower-cased markers, every marker present in the passage fires. */
  lemma DetectSeesEveryPresentMarker(text: string, j: nat)
    requires j < |SatireMarkers|
    requires In(SatireMarkers[j], text)
    ensures In(LoweredMarkers()[j], Lower(text))
  {
    LowerPreservesOccurrence(SatireMarkers[j], text);
  }

  /** The two detectors differ only on the emoji markers: on a passage in
      which no lower-cased emoji marker occurs they agree. */
  lemma DetectAgreesAwayFromEmoji(text: string)
    requires !In(Lower(RollingEyes), Lower(text))
    requires !In(Lower(TearsOfJoy), Lower(text))
    requires !In(Lower(Rofl), Lower(text))
    ensures Detect(text) == DetectAsWritten(text)
  {
    var t := Lower(text);
    EmojiMarkersNeverFireAsWritten(text);
    forall j | 0 <= j < |SatireMarkers|
      ensures In(LoweredMarkers()[j], t) <==> In(SatireMarkers[j], t)
    {
      if j < 10 || j == 13 {
        LowerFixesCaseless(SatireMarkers[j]);
      }
    }
    HitsMatchPairwise(t, LoweredMarkers(), SatireMarkers);
  }

  /** Two pattern lists that are present in `t` entry by entry score the same. */
  lemma {:induction false} HitsMatchPairwise(t: string, ks: seq<string>, ks': seq<string>)
    requires |ks| == |ks'|
    requires forall j :: 0 <= j < |ks| ==> (In(ks[j], t) <==> In(ks'[j], t))
    ensures Hits(t, ks) == Hits(t, ks')
    decreases |ks|
  {
    if |ks| > 0 {
      assert forall j :: 1 <= j < |ks| ==> ks[j] == ks[1..][j - 1] && ks'[j] == ks'[1..][j - 1];
      HitsMatchPairwise(t, ks[1..], ks'[1..]);
    }
  }

  /* ---------------------------------------------------------------------
     Valence adjustment
     --------------------------------------------------------------------- */

  /** A value in a valence record. */
  datatype Value = Str(s: string) | Number(x: real) | Flag(b: bool)

  /** A valence record: field name to value. */
  type Valence = map<string, Value>

  datatype Option<T> = None | Some(value: T)

  /** `float(v)`: numbers as they are, flags as 1 or 0; text fails. */
  function ToFloat(v: Value): Option<real> {
    match v
    case Number(x) => Some(x)
    case Flag(b) => Some(if b then 1.0 else 0.0)
    case Str(_) => None
  }

  /** The intensity the adjuster starts from: the record's, or 0.3 when it
      has none. */
  function BaseIntensity(valence: Valence): Option<real> {
    if "intensity" in valence then ToFloat(valence["intensity"]) else Some(0.3)
  }

  /** The fields a satirical adjustment writes; a plain one writes only the
      last two. */
  const SatireFields: set<string> := {"mode", "intensity", "polarity", "swap_applied", "satire_confidence"}
  const PlainFields: set<string> := {"swap_applied", "satire_confidence"}

  /** What an adjustment by detection `det` promises: `None` exactly when
      the passage is satire and the record's intensity is text; otherwise
      the confidence and the swap flag are written, a plain passage changes
      nothing else, and a satirical one sets the mode, the polarity and a
      non-negative intensity. Every other field is kept. */
  predicate AdjustedBy(valence: Valence, det: Detection, r: Option<Valence>) {
    (r.None? <==> det.isSatire && "intensity" in valence && valence["intensity"].Str?)
    && (r.Some? ==>
          "satire_confidence" in r.value
          && r.value["satire_confidence"] == Number(det.confidence as real / 100.0)
          && "swap_applied" in r.value
          && r.value["swap_applied"] == Flag(det.isSatire))
    && (r.Some? && !det.isSatire ==>
          r.value.Keys == valence.Keys + PlainFields
          && forall k :: k in valence && k !in PlainFields ==> r.value[k] == valence[k])
    && (r.Some? && det.isSatire ==>
          r.value.Keys == valence.Keys + SatireFields
          && r.value["mode"] == Str("satirical")
          && r.value["polarity"] == Str("neutral")
          && r.value["intensity"].Number? && r.value["intensity"].x >= 0.0
          && forall k :: k in valence && k !in SatireFields ==> r.value[k] == valence[k])
  }

  /** Copies the record and, when the detection says satire, switches the
      mode to satirical, scales the intensity by 0.35 (never below 0) and
      neutralises the polarity. `None` is the failure of `float()` on a
      textual intensity. */
  function AdjustWith(valence: Valence, det: Detection): (r: Option<Valence>)
    ensures AdjustedBy(valence, det, r)
  {
    var conf := Number(det.confidence as real / 100.0);
    if det.isSatire then
      match BaseIntensity(valence)
      case None => None
      case Some(i) => Some(SwapSatire(valence, i, conf))
    else
      Some(MarkPlain(valence, conf))
  }

  /** The adjuster as written: it asks the as-written detector. */
  function Adjust(valence: Valence, text: string): (r: Option<Valence>)
    ensures AdjustedBy(valence, DetectAsWritten(text), r)
  {
    AdjustWith(valence, DetectAsWritten(text))
  }

  /** The adjuster over the corrected detector. */
  function AdjustCorrected(valence: Valence, text: string): (r: Option<Valence>)
    ensures AdjustedBy(valence, Detect(text), r)
  {
    AdjustWith(valence, Detect(text))
  }

  /** Away from the emoji markers the two adjusters give the same record. */
  lemma AdjustAgreesAwayFromEmoji(valence: Valence, text: string)
    requires !In(Lower(RollingEyes), Lower(text))
    requires !In(Lower(TearsOfJoy), Lower(text))
    requires !In(Lower(Rofl), Lower(text))
    ensures AdjustCorrected(valence, text) == Adjust(valence, text)
  {
    DetectAgreesAwayFromEmoji(text);
  }

  /** The satirical rewrite of a record whose intensity reads as `i`. */
  function SwapSatire(valence: Valence, i: real, conf: Value): (v: Valence)
    ensures v.Keys == valence.Keys + SatireFields
    ensures v["mode"] == Str("satirical") && v["polarity"] == Str("neutral")
    ensures v["intensity"] == Number(if i * 0.35 > 0.0 then i * 0.35 else 0.0)
    ensures v["swap_applied"] == Flag(true) && v["satire_confidence"] == conf
    ensures forall k :: k in valence && k !in SatireFields ==> v[k] == valence[k]
  {
    var scaled := i * 0.35;
    valence["mode" := Str("satirical")]
           ["intensity" := Number(if scaled > 0.0 then scaled else 0.0)]
           ["polarity" := Str("neutral")]
           ["swap_applied" := Flag(true)]
           ["satire_confidence" := conf]
  }

  /** The bookkeeping a non-satirical passage adds to a record. */
  function MarkPlain(valence: Valence, conf: Value): (v: Valence)
    ensures v.Keys == valence.Keys + PlainFields
    ensures v["swap_applied"] == Flag(false) && v["satire_confidence"] == conf
    ensures forall k :: k in valence && k !in PlainFields ==> v[k] == valence[k]
  {
    valence["swap_applied" := Flag(false)]["satire_confidence" := conf]
  }

  /** A satirical passage scales a non-negative intensity down to 35% of
      itself, and a negative one up to 0. */
  lemma SatireDampensIntensity(valence: Valence, text: string, x: real)
    ensures DetectAsWritten(text).isSatire && "intensity" in valence && valence["intensity"] == Number(x) ==>
              Adjust(valence, text).Some?
              && (x >= 0.0 ==> Adjust(valence, text).value["intensity"] == Number(x * 0.35))
              && (x >= 0.0 ==> Adjust(valence, text).value["intensity"].x <= x)
              && (x < 0.0 ==> Adjust(valence, text).value["intensity"] == Number(0.0))
  {
  }

  /** A record without an intensity is treated as intensity 0.3, so a
      satirical passage leaves it at 0.3 * 0.35. */
  lemma MissingIntensityDefaults(valence: Valence, text: string)
    ensures DetectAsWritten(text).isSatire && "intensity" !in valence ==>
              Adjust(valence, text).Some?
              && Adjust(valence, text).value["intensity"] == Number(0.105)
  {
  }
}
