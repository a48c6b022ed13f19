# Reifegrad calculator: a verified model

`backend/src/lib/reifegrad.js` is a reworked copy of the FIRST.org CVSS v3.1
reference calculator. Its CVSS tables were replaced by a five-metric
"Reifegrad" (maturity) scheme with metrics U, D, G, E and V. Each metric has a
single legal value, `X`, with weights 0 to 4. The file also has five severity
bands from 0.0 to 4.0.

This Dafny project models the parts of that file that can actually run:

- the static tables (`Weight`, `severityRatings`, `CVSSVersionIdentifier`);
- the two validation passes of `calculateCVSSFromMetrics` and its weight lookup;
- `roundUp1`, computed on integers;
- `severityRating`, a first-match scan over the bands;
- the vector-string decoder shared by `calculateCVSSFromVector` and
  `generateXMLFromVector`: the grammar check, the prefix strip, the splits on
  `/` and `:`, and the loop that fills the metric dictionary and records
  repeated codes;
- the error forwarding of `generateXMLFromMetrics` and `generateXMLFromVector`.

The score formulas after the weight lookup read identifiers that are never
declared (`metricWeightC`, `S`, `MS`, …). In JavaScript a call that passes
validation therefore throws at line 223. The model stops at that point and
returns `ScoreFormulaReached(weights)` with the five weights it looked up.

Modules, one per file:

| file | module | what it holds |
|---|---|---|
| `schema.dfy` | `Schema` | metrics, codes, weight tables, version identifier, severity bands |
| `validation.dfy` | `Validation` | arguments, outcomes, the two passes, the calculator up to the weight lookup |
| `rounding.dfy` | `Rounding` | `roundUp1` on integers |
| `severity.dfy` | `Severity` | `severityRating` and the band properties |
| `vector.dfy` | `VectorString` | grammar, split, the decoding loop, `calculateCVSSFromVector` |
| `xml_export.dfy` | `XmlExport` | the error paths of the two XML generators |

Representation choices:

- A JavaScript argument is `Undefined` or `Str(s)`.
- Error lists are sequences of `Metric` in the order they are pushed. Metric
  `m` stands for the string `Code(m)`, which is "U" … "V".
- Scores are integer tenths, so 2.5 is 25.
- The input to `roundUp1` is the integer `n = Math.round(input * 100000)`. The
  result is in tenths.
- The dictionary `metricValues` is a `map<string, string>`. A key that is
  absent from the map stands for a key whose value is still `undefined`. The
  source's `typeof … === "undefined"` test treats the two alike.
- Each imperative part of the source is a method proved against a
  specification function: the two validation passes (`CompletenessPass`,
  `LegalityPass`), the decoding loop (`DecodeSegments`) and the band scan
  (`SeverityRating`). The lemmas state their properties about those functions.

Main results:

- The calculator's error lists hold exactly the failing metrics, in U, D, G,
  E, V order.
- Validation passes exactly when every argument is `"X"`, and the weights are
  then 0, 1, 2, 3, 4.
- `roundUp1` gives the least number of tenths that covers its input.
- Every score from 0.0 to 4.0 falls in exactly one band, and band indices are
  monotone in the score.
- A vector string fails the grammar exactly when it is not `CVSS:3.0/` or
  `CVSS:3.1/` followed by segments of the form `U:X` … `V:X`.
- Repeated codes are reported exactly when some code occurs twice. Each
  occurrence after the first is listed once.
- The vector path never scores. `calculateCVSSFromVector` hands the
  calculator the entries `AV`, `AC`, `PR`, `UI` and `S`, and the grammar never
  lets the loop set any of them. So every well-formed vector string without
  repeats yields `MissingBaseMetric` listing all five metrics. The XML export
  of a vector string fails in the same way.

The source handles a negative `n` in `roundUp1` the same way as a positive
one. JavaScript's `%` on a negative dividend gives a result that is zero
exactly when Dafny's `%` does, so the model needs no `n >= 0` restriction
(`Rounding.JsRemainderZero`).

## Model

| member | source | states |
|---|---|---|
| `Schema.WeightTableShape` | backend/src/lib/reifegrad.js:99-105 | the only legal value of each metric is "X", and its weight is the metric's position 0..4 |
| `Schema.CodeInjective` | backend/src/lib/reifegrad.js:161-165 | distinct metrics push distinct codes |
| `Validation.CompletenessPass` | backend/src/lib/reifegrad.js:154-165 | the list the first pass pushes is the completeness filter over U, D, G, E, V |
| `Validation.LegalityPass` | backend/src/lib/reifegrad.js:195-199 | the list the second pass pushes is the legality filter over U, D, G, E, V |
| `Validation.CalculateFromMetrics` | backend/src/lib/reifegrad.js:150-213 | the calculator returns the missing list, else the illegal list, else the gathered weights |
| `Validation.OffendingMembers` | backend/src/lib/reifegrad.js:161-165 | a metric is listed iff it is among those checked and fails the check |
| `Validation.OffendingOrdered` | backend/src/lib/reifegrad.js:161-165 | filtering keeps the declaration order, so no metric is listed twice |
| `Validation.OffendingAllMetrics` | backend/src/lib/reifegrad.js:195-199 | the filter over the five metrics is the concatenation of one optional entry per metric, in order |
| `Validation.PassListsExactly` | backend/src/lib/reifegrad.js:195-199 | each pass lists exactly its failing metrics, in strictly increasing order |
| `Validation.MissingBaseMetricExactly` | backend/src/lib/reifegrad.js:161-169 | MissingBaseMetric iff some argument is undefined or "", listing exactly those metrics, in order |
| `Validation.NothingGivenMissing` | backend/src/lib/reifegrad.js:161-169 | with no arguments all five metrics are listed missing, as [U, D, G, E, V] |
| `Validation.UnknownMetricValueExactly` | backend/src/lib/reifegrad.js:195-203 | once all arguments are present, UnknownMetricValue iff some value is not "X", listing exactly those metrics, in order |
| `Validation.WeightsAfterValidation` | backend/src/lib/reifegrad.js:209-213 | validation passes iff every argument is "X", and the weights are then 0, 1, 2, 3, 4 |
| `Rounding.FloorDiv` | backend/src/lib/reifegrad.js:433 | Math.floor of the quotient: q·d ≤ n < q·d + d |
| `Rounding.RoundUp1` | backend/src/lib/reifegrad.js:427-435 | the result r is the ceiling of n/10000: r·10000 ≥ n and r·10000 − n < 10000 |
| `Rounding.JsRemainderZero` | backend/src/lib/reifegrad.js:430 | the JavaScript remainder test is a divisibility test, for negative n too |
| `Rounding.RoundUp1Exact` | backend/src/lib/reifegrad.js:430-431 | the result is exactly n/10000 iff n is divisible by 10000 |
| `Rounding.RoundUp1Least` | backend/src/lib/reifegrad.js:432-434 | no smaller number of tenths covers n |
| `Rounding.RoundUp1Monotone` | backend/src/lib/reifegrad.js:427-435 | a larger input never rounds to fewer tenths |
| `Rounding.RoundUp1Idempotent` | backend/src/lib/reifegrad.js:409-411 | a value that is already a whole number of tenths is returned unchanged |
| `Rounding.RoundUp1Examples` | backend/src/lib/reifegrad.js:416-422 | 0.000001 gives 0.0, 0.000009 gives 0.1, 0.42 gives 0.5 and 0.4 stays 0.4 |
| `Severity.FirstBand` | backend/src/lib/reifegrad.js:457-461 | the index found holds the score and no earlier band does; None means no band holds it |
| `Severity.SeverityRating` | backend/src/lib/reifegrad.js:448-464 | the scan returns the name of the first band containing the score, or undefined |
| `Severity.BandOfScore` | backend/src/lib/reifegrad.js:110-114 | a score of 0..40 tenths falls in band 0 if zero, else in band ⌈score/10⌉ |
| `Severity.NameOfScore` | backend/src/lib/reifegrad.js:457-459 | a score of 0..40 tenths gets the name of the band ⌈score/10⌉ |
| `Severity.SeverityCoverage` | backend/src/lib/reifegrad.js:110-114 | every score from 0.0 to 4.0 gets a defined rating |
| `Severity.SeverityMonotone` | backend/src/lib/reifegrad.js:110-114 | a higher score never falls into an earlier band |
| `Severity.SeverityOutOfRange` | backend/src/lib/reifegrad.js:463 | below 0.0 or above 4.0 the rating is undefined |
| `Severity.BandsDisjoint` | backend/src/lib/reifegrad.js:110-114 | no score lies in two bands |
| `Severity.SeverityBoundaries` | backend/src/lib/reifegrad.js:110-114 | both ends of every band get that band's name |
| `VectorString.JoinSegmentsOk` | backend/src/lib/reifegrad.js:93 | every '/'-joined list of segments U:X … V:X matches the segment part of the grammar |
| `VectorString.ParseSegmentsJoin` | backend/src/lib/reifegrad.js:93 | every string matching the segment part is such a join |
| `VectorString.GrammarExactly` | backend/src/lib/reifegrad.js:93 | a string passes the regular expression iff it is CVSS:3.0/ or CVSS:3.1/ followed by a non-empty '/'-joined list of segments |
| `VectorString.PrefixStrip` | backend/src/lib/reifegrad.js:85 | "Reifegrad" has nine characters, so stripping its length removes exactly the CVSS:3.x/ prefix |
| `VectorString.IndexOf` | backend/src/lib/reifegrad.js:378 | the position of the first separator, or the length if there is none |
| `VectorString.Split` | backend/src/lib/reifegrad.js:378 | a split always yields at least one piece |
| `VectorString.SplitNoSeparator` | backend/src/lib/reifegrad.js:382 | a string without the separator splits into itself |
| `VectorString.SplitAtFirst` | backend/src/lib/reifegrad.js:378 | the split cuts at the first separator and continues on the rest |
| `VectorString.SplitJoinSegments` | backend/src/lib/reifegrad.js:378 | splitting a joined segment list on '/' gives back its segments |
| `VectorString.SegmentParts` | backend/src/lib/reifegrad.js:382 | a segment splits on ':' into the metric code and "X" |
| `VectorString.DecodeSegments` | backend/src/lib/reifegrad.js:380-391 | the loop's dictionary and repeated list are those of the step-by-step decoding |
| `VectorString.DecodeKeys` | backend/src/lib/reifegrad.js:384-388 | the dictionary holds exactly the keys that occur, and every later occurrence is reported once, in order |
| `VectorString.DecodeFirstValue` | backend/src/lib/reifegrad.js:384-385 | each key holds the value of its first occurrence |
| `VectorString.StepKeeps` | backend/src/lib/reifegrad.js:384-388 | a key that is set keeps its value through later segments |
| `VectorString.DecodeAllCharacterized` | backend/src/lib/reifegrad.js:380-391 | keys, first-occurrence values and repeated codes of the loop, stated without the loop |
| `VectorString.RepeatsNonEmpty` | backend/src/lib/reifegrad.js:393 | some code is reported iff some key occurs twice |
| `VectorString.RepeatsCount` | backend/src/lib/reifegrad.js:386-388 | a key occurring k > 0 times is reported k − 1 times |
| `VectorString.DecodeVectorString` | backend/src/lib/reifegrad.js:374-395 | decoding is the grammar check, the strip and split, the loop, and the repeat test |
| `VectorString.CalculateFromVector` | backend/src/lib/reifegrad.js:360-404 | calculateCVSSFromVector returns the decoding failure, or the calculator's result on the entries AV, AC, PR, UI, S |
| `VectorString.MalformedExactly` | backend/src/lib/reifegrad.js:374-376 | the result is MalformedVectorString iff the string fails the grammar |
| `VectorString.SegmentTextsParts` | backend/src/lib/reifegrad.js:382 | the keys of the segments of a metric list are the metric codes, and every value is "X" |
| `VectorString.DecodeSegmentTextsRepeated` | backend/src/lib/reifegrad.js:386-388 | on a metric list the reported codes are the later occurrences of its codes |
| `VectorString.DecodeAllX` | backend/src/lib/reifegrad.js:384-385 | when every segment has the value "X", the dictionary maps each key present to "X" and holds nothing else |
| `VectorString.ValueAtKey` | backend/src/lib/reifegrad.js:384-385 | every key that occurs is set to the value "X" |
| `VectorString.DecodeSegmentTextsValues` | backend/src/lib/reifegrad.js:380-391 | on a metric list the dictionary maps each code that occurs to "X" |
| `VectorString.GrammaticalSplit` | backend/src/lib/reifegrad.js:378 | on a grammatical string the strip and split yield the segments it names |
| `VectorString.DecodeGrammatical` | backend/src/lib/reifegrad.js:378-395 | a grammatical string is rejected with its repeated codes if any, else decodes to {code: "X"} for the codes it names |
| `VectorString.FirstIndex` | backend/src/lib/reifegrad.js:384 | the first position of a key that occurs |
| `VectorString.MultipleDefinitionsExactly` | backend/src/lib/reifegrad.js:393-395 | a grammatical string gives MultipleDefinitionsOfMetric iff it names a metric twice, listing every later occurrence |
| `VectorString.ForwardedOfCodes` | backend/src/lib/reifegrad.js:397-398 | none of AV, AC, PR, UI, S is a metric code, so all five forwarded arguments are undefined |
| `VectorString.VectorPathAlwaysFails` | backend/src/lib/reifegrad.js:397-403 | every grammatical string without repeats yields MissingBaseMetric with [U, D, G, E, V] |
| `VectorString.VectorNeverScores` | backend/src/lib/reifegrad.js:360-404 | no vector string passes validation, and none fails the legality check |
| `XmlExport.GenerateXmlFromMetrics` | backend/src/lib/reifegrad.js:573-582 | the calculator's result is passed on unchanged, and a failure is one of the calculator's two kinds |
| `XmlExport.GenerateXmlFromVector` | backend/src/lib/reifegrad.js:633-677 | the XML export of a vector string fails exactly as calculateCVSSFromVector does |

## Left out

- Score formulas, lines 218-284. They use floating point and read undeclared
  identifiers, so evaluating line 223 throws. A call that passes validation
  ends in `ScoreFormulaReached(weights)`.
- Vector-string construction and formatting of a successful result, lines
  289-339. They can only run after the score formulas.
- The XML template and label substitution, lines 478-490, 524-568 and
  584-616. They run only once the calculator has succeeded, which it never
  does. The label table is keyed by CVSS names, not by U … V.
- The 17 further arguments of `generateXMLFromMetrics` and the 22 arguments the
  vector functions pass. Only the first five reach the calculator, which
  declares five parameters. The others feed only the template, so the model
  passes five.
- The float-to-integer step `Math.round(input * 100000)` of `roundUp1`. The
  model starts from the resulting integer and gives the result in integer
  tenths instead of a float.
- The `Number()`/`NaN` branch of `severityRating`, lines 451-455. Scores are
  integer tenths. The source compares the formatted score numerically, so the
  comparison on tenths is exact.
- JavaScript values other than `undefined` and strings as calculator
  arguments, such as numbers, `null` or objects.
- Keys inherited from `Object.prototype` in `metricValues`, such as
  `constructor`. The grammar admits only the keys U … V, so they cannot be
  reached.
- Order of JavaScript `for … in` over an array. The model visits indices in
  ascending order, which is what engines do for array indices.
- `backend/src/routes/user.js`: HTTP routes, cookies, JWT and database calls.
  It is I/O around the calculator, so it is not part of this model.
