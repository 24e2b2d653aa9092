# Tier gate, satire swap and certification capsule — a Dafny model

This project models the core of a small text-certification toolkit.

- **Tier enforcer** (`tier_enforcer.py`). `estimate_tier` gives a passage an
  integer "tier" in 2..16. It starts from a base of 2 and adds capped bonuses
  for length, connective words, causal phrases and reference markers. It
  subtracts a capped penalty for fallacy terms. `TierEnforcer.enforce` compares
  the tier with a minimum (13 by default). When the passage falls short, it
  explains why with reason tags in a fixed order. If no specific reason
  applies, it gives the fallback tag `insufficient_complexity_signal`.
- **Valence swap** (`valence_swap.py`). `detect` scores a passage for satire.
  Each satire marker found adds two, and each hyperbole word and punctuation
  pattern adds one. One more point comes from a contrast word together with
  "but" or "however", and another from a capital-letter ratio above 0.18. It
  reports a confidence of `min(1, raw/6)` rounded to two places, and calls the
  passage satire at confidence 0.5 or above. `adjust` copies a valence record.
  On satire it switches the mode to satirical, scales the intensity by 0.35
  (never below 0) and neutralises the polarity.
- **Capsule** (`capsule/run_demo.py`). This part has three pieces:
  - An append-only causal audit log (CMF). Node ids come from the node's
    1-based position (`CN1`, `CN2`, …). It can explain why a node emerged,
    audit a node for a fault and repair a faulty node.
  - A dialectic simulator (RDE). It records introspections and forms a
    fixed-template "disputation" from two of them.
  - A thin certification engine. It logs a passage, runs two fixed
    introspections and their disputation, and audits (and if needed repairs)
    the logged node. It returns a constant tier hint, the node's explanation,
    the disputation and the whole history.

The Python built-ins the code relies on are modelled in module `Text`:
- `in` on strings (substring presence).
- `str.count` (non-overlapping, leftmost first).
- `str.split()` with no argument (maximal runs of non-whitespace).
- `str.lower()`, `isupper()`, `isalpha()`.
- `str()` of an integer.

The object state of `CMFEngine`, `RDE` and `CertEngine` becomes immutable
datatypes. Every operation takes the current state and returns the new state
with its result. This makes "the rest of the history is unchanged" a property
of returned values.

The certification engine in `capsule/run_demo.py` is a thin one. It always
reports the tier hint `"T13-15"` and computes neither a tier nor a valence.

## Model

| member | source | states |
|---|---|---|
| Text.In | valence_swap.py:25-28 | Python's `k in s` holds exactly when `k` occurs in `s` at some position. |
| Text.Count | tier_enforcer.py:13-16 | `s.count(k)` is positive exactly when `k` occurs in `s`. For a non-empty pattern it is at most `len(s)`. |
| Text.CountAll | tier_enforcer.py:13-16 | The sum of `count` over a pattern list is positive exactly when some pattern of the list occurs. |
| Text.Hits | valence_swap.py:25-27 | The number of patterns present is at most the number of patterns. It is 0 exactly when none occurs and equals the total exactly when all occur. |
| Text.HitsDependOnPresenceOnly | valence_swap.py:25-27 | Two texts that contain the same patterns get the same hit count. |
| Text.AbsentCharMeansAbsent | tier_enforcer.py:13-16 | A pattern containing a character the text lacks neither occurs nor is counted. |
| Text.LowerChar | tier_enforcer.py:13 | Lower-casing changes a character exactly when it is upper case, and never yields an upper-case character. |
| Text.Lower | tier_enforcer.py:13 | `lower()` keeps the length and lowers each character on its own (no modelled character changes length when lowered). |
| Text.LowerHasNoUpper | valence_swap.py:23 | A lower-cased text holds no upper-case character. |
| Text.LowerPreservesOccurrence | valence_swap.py:23-25 | A pattern present in a text stays present, lower-cased, in the lower-cased text. |
| Text.CountAlpha | valence_swap.py:16-17 | The letters of a text number at least its capitals and at most its length. |
| Text.CountUpper | valence_swap.py:16 | The capitals of a text number at most its length, and are zero exactly when no character is upper case. |
| Text.Split | tier_enforcer.py:12 | `split()` returns non-empty whitespace-free pieces, and they are exactly those of the independent character-by-character reading `SplitByChar`: whitespace is dropped and each other character joins the word that directly follows it or ends a word. |
| Text.SplitCountsAndKeeps | tier_enforcer.py:12 | `len(text.split())` is the number of positions holding a non-whitespace character followed by whitespace or the end. The words run together are the text with its whitespace removed. |
| Text.NoWordsIffAllSpace | tier_enforcer.py:12 | `len(text.split())` is 0 exactly when the text is empty or all whitespace. |
| Text.ShowNat | capsule/run_demo.py:20 | `str(n)` is a non-empty string of decimal digits. It has a single digit exactly when `n < 10`. |
| Text.ParseShowNat | capsule/run_demo.py:20 | Reading back the decimal digits of `str(n)` gives `n` again. |
| Text.ShowIntInjective | tier_enforcer.py:46 | Distinct integers have distinct decimal renderings. |
| TierEnforcer.SignalsOf | tier_enforcer.py:12-16 | The word signal is zero exactly when the text is empty or all whitespace. |
| TierEnforcer.SignalsMeanPresence | tier_enforcer.py:13-16 | Each count signal is positive exactly when one of its patterns occurs. So the causal signal is positive exactly when the gate sees a causal anchor, and the fallacy signal exactly when the gate sees a fallacy term. |
| TierEnforcer.RawScore | tier_enforcer.py:19-24 | The unclamped score lies in -1..16 whatever the signals are. It is the base 2 when every signal is 0. |
| TierEnforcer.TierOf | tier_enforcer.py:26 | The clamped tier lies in 2..16. Only the lower bound of the clamp can ever change the score. |
| TierEnforcer.EstimateTier | tier_enforcer.py:10-26 | Every passage gets a tier in 2..16. |
| TierEnforcer.TierMonotone | tier_enforcer.py:19-26 | More words, connectives, causal phrases or references never lower the tier. More fallacy terms never raise it. |
| TierEnforcer.WhitespaceTextHasTierTwo | tier_enforcer.py:10-26 | An empty or all-whitespace passage has every signal at zero and tier 2. |
| TierEnforcer.TagInjective | tier_enforcer.py:36-45 | The five reasons are reported under five distinct tags. |
| TierEnforcer.Label | tier_enforcer.py:46 | A label is `T` followed by the decimal rendering of the number. |
| TierEnforcer.LabelInjective | tier_enforcer.py:46 | Different tiers get different `T<n>` labels. |
| TierEnforcer.CollectReasons | tier_enforcer.py:36-45 | The reason list is never empty and is in check order. Each specific reason appears exactly when its condition holds. The fallback appears exactly when none holds, and then it is the only reason. |
| TierEnforcer.Enforce | tier_enforcer.py:31-46 | `ok` holds exactly when the tier reaches the minimum, and then there are no reasons. A failure lists each reason exactly when its condition holds, in check order. The fallback appears alone and only when no specific condition holds. The tier and the minimum are reported as `T<n>` labels. |
| TierEnforcer.WhitespaceTextVerdict | tier_enforcer.py:31-46 | An empty or all-whitespace passage fails the default gate at `T2` against `T13`. The reasons are exactly too short, weak connectives and missing causal anchors. |
| ValenceSwap.RatioCaps | valence_swap.py:15-18 | The capital-letter ratio is 0 for a text without letters and lies in [0, 1] otherwise. |
| ValenceSwap.CapsHeavy | valence_swap.py:29 | The integer test `50·caps > 9·letters` (false without letters) holds exactly when the capital-letter ratio exceeds 0.18. |
| ValenceSwap.RawScore | valence_swap.py:24-29 | The raw score is at most two per marker plus the hyperbole and punctuation counts plus 2. |
| ValenceSwap.Hundredths | valence_swap.py:32 | `round(x, 2)` in hundredths is the whole number nearest to `100·x`, halves rounded up. |
| ValenceSwap.Classify | valence_swap.py:30-32 | Satire holds exactly at raw score 3 or above, which is exactly confidence 0.50 or above. Confidence is capped at 1.00, reached from raw 6. Below that it is `raw/6` to within half a hundredth. |
| ValenceSwap.DetectAsWritten | valence_swap.py:22-32 | The detector as written, looking for the markers verbatim in the lower-cased text: raw score at most 39, satire exactly at raw 3 or above and exactly at confidence 0.50 or above, confidence at most 1.00 and equal to it from raw 6. |
| ValenceSwap.Detect | valence_swap.py:22-32 | The corrected detector: raw score at most 39, with the confidence and verdict facts of `Classify`. |
| ValenceSwap.RawScoreDependsOnPresence | valence_swap.py:25-29 | For any marker list, so for both detectors: two texts with the same marker, hyperbole, contrast and punctuation presence, and the same caps verdict, get the same raw score. Each list entry adds at most once. |
| ValenceSwap.EmojiMarkersNeverFireAsWritten | valence_swap.py:8-25 | As written, none of the three emoji markers is ever found in any lower-cased text. |
| ValenceSwap.RollingEyesMissedAsWritten | valence_swap.py:8-25 | The rolling-eyes marker occurs in itself but not in its own lower-cased form. |
| ValenceSwap.DetectSeesEveryPresentMarker | valence_swap.py:25 | In the corrected detector every marker present in the text counts, emoji included. |
| ValenceSwap.DetectAgreesAwayFromEmoji | valence_swap.py:6-25 | When no lower-cased emoji marker occurs in the lower-cased text, the corrected and as-written detectors give the same result. |
| ValenceSwap.Adjust | valence_swap.py:34-47 | The adjuster as written, driven by the as-written detector. The result is a failure exactly when that detector says satire and the record's intensity is textual. Confidence and the swap flag are always written. A non-satirical text changes only those two fields. A satirical one sets the satirical mode, neutral polarity and a non-negative intensity. Every other field is kept. |
| ValenceSwap.AdjustWith | valence_swap.py:37-47 | The same promises for any given detection: failure exactly on satire with a textual intensity, the two bookkeeping fields always written, and the frame on every other field. |
| ValenceSwap.AdjustCorrected | valence_swap.py:34-47 | The adjuster over the corrected detector keeps all those promises with that detector's verdict. |
| ValenceSwap.AdjustAgreesAwayFromEmoji | valence_swap.py:34-47 | When no lower-cased emoji marker occurs in the lower-cased text, the as-written and corrected adjusters give the same record. |
| ValenceSwap.SwapSatire | valence_swap.py:38-43 | The satirical rewrite adds exactly the five written fields. It sets mode, polarity, swap flag and confidence, clamps the scaled intensity at 0, and keeps every other field. |
| ValenceSwap.MarkPlain | valence_swap.py:44-46 | The plain rewrite adds exactly the swap flag (false) and the confidence, and keeps every other field. |
| ValenceSwap.SatireDampensIntensity | valence_swap.py:40 | When the as-written detector says satire, a non-negative numeric intensity `x` becomes `0.35·x`, which is at most `x`. A negative one becomes 0. |
| ValenceSwap.MissingIntensityDefaults | valence_swap.py:40 | When the as-written detector says satire, a record without an intensity is treated as 0.3 and ends at 0.105. |
| Capsule.NodeId | capsule/run_demo.py:20 | A node id is `CN` followed by the decimal rendering of the position. |
| Capsule.NodeIdInjective | capsule/run_demo.py:20 | Nodes at different positions get different `CN<n>` ids. |
| Capsule.NumberedIdsDistinct | capsule/run_demo.py:19-22 | In a history whose ids follow positions, no two nodes share an id. |
| Capsule.Add | capsule/run_demo.py:19-23 | Adding appends exactly one node, with id `CN<len+1>` and the given fields. It leaves the earlier history untouched and keeps ids numbered by position. |
| Capsule.AddInput | capsule/run_demo.py:19 | The defaults are cause "input", mutation "none" and result "ok". |
| Capsule.WhyEmerged | capsule/run_demo.py:24-25 | The explanation is exactly the template `'<clause>' due to <cause>/<mutation>`: the quoted clause, then the cause, then the mutation after a slash. Its length and its two ends are also stated on their own. |
| Capsule.WhyEmergedDeterminesClause | capsule/run_demo.py:24-25 | Two nodes with the same explanation, cause and mutation have the same clause. |
| Capsule.AuditFault | capsule/run_demo.py:26-27 | The audit says "fault" exactly when the result contains "drift" or "contradiction", and "ok" otherwise. |
| Capsule.Repair | capsule/run_demo.py:28-30 | Repair appends one node with cause "cmf-repair", mutation "refactor" and result "progression", and keeps the earlier history. The clause gets the prefix "Refactor:" exactly when the repaired node's result mentions drift. |
| Capsule.ContradictionRepairKeepsClause | capsule/run_demo.py:26-30 | A node whose result is "contradiction detected" is audited as a fault, yet its repair keeps the clause without the "Refactor:" prefix, because only drift triggers the prefix. |
| Capsule.Introspect | capsule/run_demo.py:36-39 | The trace grows by exactly the returned record, which carries the given agent, claim and method. |
| Capsule.Disputation | capsule/run_demo.py:40-41 | The synthesis is exactly `Method critique: <first method> vs <second method>`, and "agree on" is the constant "shared premises?". |
| Capsule.DisputationIgnoresAgentsAndClaims | capsule/run_demo.py:40-41 | Only the two methods affect a disputation. |
| Capsule.NewEngine | capsule/run_demo.py:45-47 | A fresh engine has an empty history and trace. |
| Capsule.Certify | capsule/run_demo.py:48-61 | Certifying appends exactly the input node `CN<n+1>` for the passage, with cause "input", mutation "none" and result "ok". The hint is always "T13-15". The explanation is that of the logged node. The dialectic is the disputation of agentA's "pattern" reading against agentB's "counterfactual" one, and the trace gains those two records in that order. The returned history is the engine's, and ids stay numbered by position. |
| Capsule.CertifyReport | capsule/run_demo.py:49-58 | The reported explanation is `'<text>' due to input/none`. |
| Capsule.CertifySynthesis | capsule/run_demo.py:50-52 | The reported critique is "Method critique: pattern vs counterfactual", and "agree on" is "shared premises?". |
| Capsule.AuditAndRepair | capsule/run_demo.py:53-55 | A node audited "ok" leaves the log as it is. A faulty one gets its repair logged. |
| Capsule.CertifyNeverRepairs | capsule/run_demo.py:49-55 | The node certify audits always has result "ok", so the repair branch is never taken. |
| Capsule.CertifyAll | capsule/run_demo.py:48-55 | Certifying a run of passages on one engine grows the history by one node and the trace by two records per passage, and keeps ids numbered by position. |
| Capsule.InputNodes | capsule/run_demo.py:19-22 | There is one input node per passage. |
| Capsule.InputNodesAt | capsule/run_demo.py:19-22 | The `i`-th input node logged after `base` earlier ones carries the `i`-th passage and the id `CN<base+i+1>`. |
| Capsule.CertifyAllAppendsOnePerText | capsule/run_demo.py:48-61 | Certifying passages one after another on one engine leaves the earlier history in place. It appends exactly one input node per passage, in order, numbered on from the existing history. |

## Left out

- The `__main__` block (environment variable, JSON printing) and `json`/`os` are I/O and are not modelled.
- The `datetime.utcnow()` timestamp of each introspection is a clock read, so `Introspection` has no time field.
- Unicode case mapping, letter classes and whitespace are modelled only partly:
  - `Text.LowerChar`, `Text.IsUpper` and `Text.IsAlpha` follow Python for ASCII, Latin-1 and U+0178. Every other character counts as a caseless non-letter, Latin letters beyond Latin-1 such as U+0100, U+0141 and U+0152 included.
  - `Text.IsSpace` is Python's whitespace within Latin-1: the ASCII set, U+001C–U+001F, U+0085 and U+00A0. Other Unicode spaces count as word characters in `split()`.
- Floating point is modelled with exact reals:
  - The confidence is integer hundredths, rounded half up. Python's `round` rounds halves to even, but `raw/6` never lands on a half hundredth, so the two agree.
  - `intensity * 0.35` is the exact real product, with no binary rounding.
  - The 0.18 caps test is the exact integer comparison `50·caps > 9·letters`.
- ValenceSwap.Adjust, ValenceSwap.AdjustWith, ValenceSwap.AdjustCorrected, ValenceSwap.ToFloat: `float()` of a textual intensity is always the failure case. Python would parse numeric strings such as "0.5". Intensities of types other than text, number and boolean are not modelled.
- The `minimum` of `enforce` and the `method` of `introspect` are explicit parameters. The Python defaults are the constant `DefaultMinimum` and the caller passing "analysis".
- Aliasing of the copied dictionary in `adjust` and of the returned node objects is moot: the model has value semantics.
- Text.Count: its contract states presence and a bound, not the exact count. The count is the definition itself, leftmost non-overlapping matching as Python does it.

## Findings

| source | as written | input that shows it | evidently intended | confidence | as-written member | corrected member |
|---|---|---|---|---|---|---|
| valence_swap.py:8-25 | The three emoji markers are stored as mis-decoded text containing U+0178 (Ÿ). They are tested with `marker in text.lower()`. Lower-casing maps U+0178 to U+00FF, so the lowered text never contains them. `adjust` (line 36) calls this detector, so it inherits the miss. | The text "ðŸ™„", which is the rolling-eyes marker itself: the marker occurs in the text but not in the lowered text the test searches. | An emoji marker present in the text adds 2 to the score. The literals are the cp1252 reading of the UTF-8 bytes of U+1F644, U+1F602 and U+1F923, so the correction fixes only the case mismatch: it matches that mis-decoded text, never the real emoji characters. | medium — not executed; the literals may be a re-encoding of real emoji, in which case this reading does not apply | ValenceSwap.DetectAsWritten, ValenceSwap.RollingEyesMissedAsWritten, ValenceSwap.Adjust | ValenceSwap.Detect, ValenceSwap.DetectSeesEveryPresentMarker, ValenceSwap.AdjustCorrected |
