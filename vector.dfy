/**
 * The vector-string path of calculateCVSSFromVector: the grammar check, the
 * prefix strip, the split on '/' and ':', the loop that fills the metric
 * dictionary and records repeated codes, and the positional call into the
 * calculator.
 */
module VectorString {
  import opened Schema
  import opened Validation

  // ---------------------------------------------------------------------
  // The grammar: CVSS:3.0/ or CVSS:3.1/ and then one or more
  // '/'-separated segments, each one of U:X, D:X, G:X, E:X, V:X
  // ---------------------------------------------------------------------

  predicate IsSegment(t: string)
  {
    |t| == 3 && t[0] in {'U', 'D', 'G', 'E', 'V'} && t[1] == ':' && t[2] == 'X'
  }

  /** `(SEGMENT/)*SEGMENT`, anchored at both ends. */
  predicate SegmentsOk(t: string)
    decreases |t|
  {
    |t| >= 3 && IsSegment(t[..3]) && (|t| == 3 || (t[3] == '/' && SegmentsOk(t[4..])))
  }

  /** The regular expression test of the source. */
  predicate MatchesGrammar(s: string)
  {
    |s| >= 9 && s[..7] == "CVSS:3." && (s[7] == '0' || s[7] == '1') && s[8] == '/'
    && SegmentsOk(s[9..])
  }

  /** The text of one segment naming metric m. */
  function SegmentText(m: Metric): (t: string)
    ensures |t| == 3 && t[1] == ':' && t[2] == 'X'
  {
    Code(m) + ":X"
  }

  /** The segments of the metric list, joined with '/'. */
  function JoinSegments(ms: seq<Metric>): string
    requires |ms| >= 1
  {
    if |ms| == 1 then SegmentText(ms[0]) else SegmentText(ms[0]) + "/" + JoinSegments(ms[1..])
  }

  /** The vector string of a version digit and a non-empty list of metrics. */
  function VectorText(version: char, ms: seq<Metric>): string
    requires |ms| >= 1
  {
    "CVSS:3." + [version] + "/" + JoinSegments(ms)
  }

  function MetricOfChar(c: char): (m: Metric)
    requires c in {'U', 'D', 'G', 'E', 'V'}
    ensures Code(m) == [c]
  {
    if c == 'U' then U else if c == 'D' then D else if c == 'G' then G else if c == 'E' then E else V
  }

  /** The metrics a grammatical segment list names, in order. */
  function ParseSegments(t: string): (ms: seq<Metric>)
    requires SegmentsOk(t)
    ensures |ms| >= 1
    decreases |t|
  {
    [MetricOfChar(t[0])] + (if |t| == 3 then [] else ParseSegments(t[4..]))
  }

  lemma SegmentTextOf(t: string)
    requires IsSegment(t)
    ensures SegmentText(MetricOfChar(t[0])) == t
  {
  }

  /** Every string the generator builds passes the grammar. */
  lemma {:induction false} JoinSegmentsOk(ms: seq<Metric>)
    requires |ms| >= 1
    ensures SegmentsOk(JoinSegments(ms))
  {
    var t := JoinSegments(ms);
    assert t[..3] == SegmentText(ms[0]);
    assert t[0] == Code(ms[0])[0];
    if |ms| > 1 {
      JoinSegmentsOk(ms[1..]);
      assert t[4..] == JoinSegments(ms[1..]);
    }
  }

  /** Every grammatical segment list is what the generator builds from its parse. */
  lemma {:induction false} ParseSegmentsJoin(t: string)
    requires SegmentsOk(t)
    ensures JoinSegments(ParseSegments(t)) == t
    decreases |t|
  {
    var ms := ParseSegments(t);
    SegmentTextOf(t[..3]);
    if |t| > 3 {
      ParseSegmentsJoin(t[4..]);
      assert ms[1..] == ParseSegments(t[4..]);
      assert t == t[..3] + "/" + t[4..];
    }
  }

  /**
   * The grammar admits exactly the strings `CVSS:3.<0 or 1>/` followed by one
   * or more '/'-separated segments drawn from U:X, D:X, G:X, E:X, V:X.
   */
  lemma GrammarExactly(s: string)
    ensures MatchesGrammar(s) <==>
      exists version: char, ms: seq<Metric> ::
        (version == '0' || version == '1') && |ms| >= 1 && s == VectorText(version, ms)
  {
    if MatchesGrammar(s) {
      var ms := ParseSegments(s[9..]);
      ParseSegmentsJoin(s[9..]);
      assert s == VectorText(s[7], ms) by {
        assert s == s[..7] + [s[7]] + [s[8]] + s[9..];
      }
    }
    if exists version: char, ms: seq<Metric> ::
        (version == '0' || version == '1') && |ms| >= 1 && s == VectorText(version, ms) {
      var version: char, ms: seq<Metric> :|
        (version == '0' || version == '1') && |ms| >= 1 && s == VectorText(version, ms);
      JoinSegmentsOk(ms);
      assert s[9..] == JoinSegments(ms);
    }
  }

  /**
   * The prefix strip works because the identifier "Reifegrad" has the same
   * length, nine, as the prefix CVSS:3.x/: what remains is the segment list.
   */
  lemma PrefixStrip(version: char, ms: seq<Metric>)
    requires |ms| >= 1
    ensures |VersionIdentifier| == |"CVSS:3.0/"| == 9
    ensures VectorText(version, ms)[..|VersionIdentifier|] == "CVSS:3." + [version] + "/"
    ensures VectorText(version, ms)[|VersionIdentifier|..] == JoinSegments(ms)
  {
    var p := "CVSS:3." + [version] + "/";
    assert VectorText(version, ms) == p + JoinSegments(ms);
  }

  // ---------------------------------------------------------------------
  // String.prototype.split with a one-character separator
  // ---------------------------------------------------------------------

  /** The index of the first `c` in `s`, or |s| if there is none. */
  function IndexOf(s: string, c: char): (i: nat)
    ensures i <= |s|
    ensures i < |s| ==> s[i] == c
    ensures forall j :: 0 <= j < i ==> s[j] != c
  {
    if s == [] then 0 else if s[0] == c then 0 else 1 + IndexOf(s[1..], c)
  }

  /** The pieces between separators; empty pieces are kept, and there is always at least one. */
  function Split(s: string, sep: char): (parts: seq<string>)
    ensures |parts| >= 1
    decreases |s|
  {
    var i := IndexOf(s, sep);
    if i == |s| then [s] else [s[..i]] + Split(s[i + 1..], sep)
  }

  lemma SplitNoSeparator(s: string, sep: char)
    requires sep !in s
    ensures Split(s, sep) == [s]
  {
    assert forall j :: 0 <= j < |s| ==> s[j] != sep;
  }

  lemma SplitAtFirst(a: string, sep: char, b: string)
    requires sep !in a
    ensures Split(a + [sep] + b, sep) == [a] + Split(b, sep)
  {
    var s := a + [sep] + b;
    assert s[|a|] == sep;
    assert forall j :: 0 <= j < |a| ==> s[j] == a[j] && a[j] != sep;
    assert IndexOf(s, sep) == |a|;
    assert s[..|a|] == a && s[|a| + 1..] == b;
  }

  /** The texts of the segments, one per metric. */
  function SegmentTexts(ms: seq<Metric>): (ts: seq<string>)
    ensures |ts| == |ms|
    ensures forall i :: 0 <= i < |ms| ==> ts[i] == SegmentText(ms[i])
  {
    seq(|ms|, i requires 0 <= i < |ms| => SegmentText(ms[i]))
  }

  /** Splitting the joined segment list on '/' gives back the segments. */
  lemma {:induction false} SplitJoinSegments(ms: seq<Metric>)
    requires |ms| >= 1
    ensures Split(JoinSegments(ms), '/') == SegmentTexts(ms)
  {
    var t := SegmentText(ms[0]);
    assert '/' !in t;
    if |ms| == 1 {
      SplitNoSeparator(t, '/');
    } else {
      SplitJoinSegments(ms[1..]);
      SplitAtFirst(t, '/', JoinSegments(ms[1..]));
      assert SegmentTexts(ms) == [t] + SegmentTexts(ms[1..]);
    }
  }

  /** The key of a segment: the text before the first ':'. */
  function KeyOf(seg: string): string
  {
    Split(seg, ':')[0]
  }

  /** The value of a segment, the second piece of the split; None stands for `undefined`. */
  function ValueOf(seg: string): Option<string>
  {
    var parts := Split(seg, ':');
    if |parts| > 1 then Some(parts[1]) else None
  }

  lemma SegmentParts(m: Metric)
    ensures KeyOf(SegmentText(m)) == Code(m)
    ensures ValueOf(SegmentText(m)) == Some("X")
  {
    assert SegmentText(m) == Code(m) + [':'] + "X";
    assert ':' !in Code(m);
    assert ':' !in "X";
    SplitAtFirst(Code(m), ':', "X");
    SplitNoSeparator("X", ':');
  }

  // ---------------------------------------------------------------------
  // The loop that fills the metric dictionary
  // ---------------------------------------------------------------------

  /**
   * The state of the decoding loop: the dictionary of metric values (a key
   * that is absent reads as `undefined`) and the codes seen again.
   */
  datatype Scan = Scan(values: map<string, string>, repeated: seq<string>)

  /**
   * One iteration: a key whose entry is still undefined gets the segment's
   * value (which leaves it undefined if the segment has no ':'); any other
   * key is appended to the repeated codes.
   */
  function Step(acc: Scan, seg: string): Scan
  {
    var key := KeyOf(seg);
    if key !in acc.values then
      match ValueOf(seg)
      case Some(v) => Scan(acc.values[key := v], acc.repeated)
      case None => acc
    else
      Scan(acc.values, acc.repeated + [key])
  }

  /** The loop state after the given segments, from an all-undefined dictionary. */
  function DecodeAll(segs: seq<string>): Scan
  {
    if segs == [] then Scan(map[], [])
    else Step(DecodeAll(segs[..|segs| - 1]), segs[|segs| - 1])
  }

  /** The `for (var i in metricNameValue)` loop of the source. */
  method DecodeSegments(segments: seq<string>) returns (values: map<string, string>, repeated: seq<string>)
    ensures Scan(values, repeated) == DecodeAll(segments)
  {
    values, repeated := map[], [];
    for i := 0 to |segments|
      invariant Scan(values, repeated) == DecodeAll(segments[..i])
    {
      assert segments[..i + 1][..i] == segments[..i];
      var single := Split(segments[i], ':');
      var key := single[0];
      if key !in values {
        if |single| > 1 {
          values := values[key := single[1]];
        }
      } else {
        repeated := repeated + [key];
      }
    }
    assert segments[..|segments|] == segments;
  }

  // ---------------------------------------------------------------------
  // What the loop computes, stated without the loop
  // ---------------------------------------------------------------------

  /** The keys of the segments, in order. */
  function KeysOf(segs: seq<string>): (ks: seq<string>)
    ensures |ks| == |segs|
    ensures forall i :: 0 <= i < |segs| ==> ks[i] == KeyOf(segs[i])
  {
    seq(|segs|, i requires 0 <= i < |segs| => KeyOf(segs[i]))
  }

  /**
   * Every occurrence of a key after its first, in order of appearance: a key
   * that occurs three times is listed twice.
   */
  function Repeats(ks: seq<string>): seq<string>
  {
    if ks == [] then []
    else
      var init, last := ks[..|ks| - 1], ks[|ks| - 1];
      Repeats(init) + (if last in init then [last] else [])
  }

  predicate HasDuplicate(ks: seq<string>)
  {
    exists i, j :: 0 <= i < j < |ks| && ks[i] == ks[j]
  }

  predicate AllHaveValues(segs: seq<string>)
  {
    forall i :: 0 <= i < |segs| ==> ValueOf(segs[i]).Some?
  }

  lemma AllHaveValuesPrefix(segs: seq<string>, k: nat)
    requires AllHaveValues(segs) && k <= |segs|
    ensures AllHaveValues(segs[..k])
  {
    forall i | 0 <= i < k ensures ValueOf(segs[..k][i]).Some? {
      assert segs[..k][i] == segs[i];
    }
  }

  lemma KeysOfSnoc(segs: seq<string>)
    requires segs != []
    ensures KeysOf(segs) == KeysOf(segs[..|segs| - 1]) + [KeyOf(segs[|segs| - 1])]
    ensures KeysOf(segs)[..|segs| - 1] == KeysOf(segs[..|segs| - 1])
  {
  }

  /**
   * When every segment has a value, the dictionary holds exactly the keys
   * that occur, and the repeated codes are the later occurrences.
   */
  lemma {:induction false} DecodeKeys(segs: seq<string>)
    requires AllHaveValues(segs)
    ensures forall k :: k in DecodeAll(segs).values <==> k in KeysOf(segs)
    ensures DecodeAll(segs).repeated == Repeats(KeysOf(segs))
  {
    if segs != [] {
      var n := |segs|;
      var init, last := segs[..n - 1], segs[n - 1];
      AllHaveValuesPrefix(segs, n - 1);
      DecodeKeys(init);
      KeysOfSnoc(segs);
      assert ValueOf(last).Some?;
    }
  }

  /** ... and each key holds the value of its FIRST occurrence. */
  lemma {:induction false} DecodeFirstValue(segs: seq<string>, i: nat)
    requires AllHaveValues(segs)
    requires i < |segs| && KeyOf(segs[i]) !in KeysOf(segs)[..i]
    ensures KeyOf(segs[i]) in DecodeAll(segs).values
    ensures Some(DecodeAll(segs).values[KeyOf(segs[i])]) == ValueOf(segs[i])
  {
    var n := |segs|;
    var init, last := segs[..n - 1], segs[n - 1];
    var k := KeyOf(segs[i]);
    var acc := DecodeAll(init);
    assert DecodeAll(segs) == Step(acc, last);
    if i < n - 1 {
      AllHaveValuesPrefix(segs, n - 1);
      KeysOfSnoc(segs);
      assert segs[i] == init[i];
      assert KeysOf(init)[..i] == KeysOf(segs)[..i];
      DecodeFirstValue(init, i);
      StepKeeps(acc, last, k);
    } else {
      AllHaveValuesPrefix(segs, n - 1);
      KeysOfSnoc(segs);
      DecodeKeys(init);
      assert KeysOf(segs)[..i] == KeysOf(init);
      assert k !in acc.values;
      assert ValueOf(last).Some?;
    }
  }

  /** A key that is already set keeps its value through a step. */
  lemma StepKeeps(acc: Scan, seg: string, k: string)
    requires k in acc.values
    ensures k in Step(acc, seg).values && Step(acc, seg).values[k] == acc.values[k]
  {
  }

  /** Both halves of what the loop computes. */
  lemma DecodeAllCharacterized(segs: seq<string>)
    requires AllHaveValues(segs)
    ensures DecodeAll(segs).repeated == Repeats(KeysOf(segs))
    ensures forall k :: k in DecodeAll(segs).values <==> k in KeysOf(segs)
    ensures forall i :: 0 <= i < |segs| && KeyOf(segs[i]) !in KeysOf(segs)[..i] ==>
      KeyOf(segs[i]) in DecodeAll(segs).values &&
      Some(DecodeAll(segs).values[KeyOf(segs[i])]) == ValueOf(segs[i])
  {
    DecodeKeys(segs);
    forall i | 0 <= i < |segs| && KeyOf(segs[i]) !in KeysOf(segs)[..i]
      ensures KeyOf(segs[i]) in DecodeAll(segs).values
      ensures Some(DecodeAll(segs).values[KeyOf(segs[i])]) == ValueOf(segs[i])
    {
      DecodeFirstValue(segs, i);
    }
  }

  /** Some code is reported exactly when some key occurs twice. */
  lemma {:induction false} RepeatsNonEmpty(ks: seq<string>)
    ensures Repeats(ks) != [] <==> HasDuplicate(ks)
  {
    if ks != [] {
      var n := |ks|;
      var init, last := ks[..n - 1], ks[n - 1];
      RepeatsNonEmpty(init);
      if HasDuplicate(init) {
        var i, j :| 0 <= i < j < |init| && init[i] == init[j];
        assert ks[i] == ks[j];
      }
      if last in init {
        var i :| 0 <= i < |init| && init[i] == last;
        assert ks[i] == ks[n - 1];
      }
      if HasDuplicate(ks) {
        var i, j :| 0 <= i < j < n && ks[i] == ks[j];
        if j < n - 1 {
          assert init[i] == init[j];
        } else {
          assert init[i] == last;
        }
      }
    }
  }

  /** Each key is reported once for every occurrence after its first. */
  lemma {:induction false} RepeatsCount(ks: seq<string>, k: string)
    ensures multiset(Repeats(ks))[k] == if k in ks then multiset(ks)[k] - 1 else 0
  {
    if ks != [] {
      var n := |ks|;
      var init, last := ks[..n - 1], ks[n - 1];
      RepeatsCount(init, k);
      assert ks == init + [last];
      assert multiset(ks) == multiset(init) + multiset{last};
      if k !in init && k == last {
        assert multiset(init)[k] == 0;
      }
    }
  }

  // ---------------------------------------------------------------------
  // Decoding a vector string and calling the calculator
  // ---------------------------------------------------------------------

  /** The end of decoding: a failure to return, or the filled dictionary. */
  datatype Decoded = Rejected(failure: Outcome) | Values(values: map<string, string>)

  function DecodeVector(s: string): Decoded
  {
    if !MatchesGrammar(s) then Rejected(MalformedVectorString)
    else
      var scan := DecodeAll(Split(s[|VersionIdentifier|..], '/'));
      if |scan.repeated| > 0 then Rejected(MultipleDefinitionsOfMetric(scan.repeated))
      else Values(scan.values)
  }

  /** Lines 362-395 (and their copy in generateXMLFromVector). */
  method DecodeVectorString(s: string) returns (d: Decoded)
    ensures d == DecodeVector(s)
  {
    if !MatchesGrammar(s) {
      return Rejected(MalformedVectorString);
    }
    var metricNameValue := Split(s[|VersionIdentifier|..], '/');
    var values, repeated := DecodeSegments(metricNameValue);
    if |repeated| > 0 {
      return Rejected(MultipleDefinitionsOfMetric(repeated));
    }
    d := Values(values);
  }

  function Lookup(values: map<string, string>, key: string): Arg
  {
    if key in values then Str(values[key]) else Undefined
  }

  /**
   * The five arguments the calculator receives: the entries AV, AC, PR, UI
   * and S, which the source passes positionally.
   */
  function ForwardedParams(values: map<string, string>): Params
  {
    Params(Lookup(values, "AV"), Lookup(values, "AC"), Lookup(values, "PR"),
           Lookup(values, "UI"), Lookup(values, "S"))
  }

  function VectorOutcome(s: string): Outcome
  {
    match DecodeVector(s)
    case Rejected(failure) => failure
    case Values(values) => MetricsOutcome(ForwardedParams(values))
  }

  /** calculateCVSSFromVector. */
  method CalculateFromVector(s: string) returns (r: Outcome)
    ensures r == VectorOutcome(s)
  {
    var d := DecodeVectorString(s);
    if d.Rejected? {
      return d.failure;
    }
    var values := d.values;
    r := CalculateFromMetrics(Params(Lookup(values, "AV"), Lookup(values, "AC"), Lookup(values, "PR"),
                                     Lookup(values, "UI"), Lookup(values, "S")));
  }

  // ---------------------------------------------------------------------
  // Properties of the vector path
  // ---------------------------------------------------------------------

  /** A string outside the grammar gives MalformedVectorString, which carries no metric list. */
  lemma MalformedExactly(s: string)
    ensures VectorOutcome(s) == MalformedVectorString <==> !MatchesGrammar(s)
  {
    if MatchesGrammar(s) {
      match DecodeVector(s)
      case Rejected(failure) =>
        assert failure.MultipleDefinitionsOfMetric?;
      case Values(values) =>
        var o := MetricsOutcome(ForwardedParams(values));
        assert o.MissingBaseMetric? || o.UnknownMetricValue? || o.ScoreFormulaReached?;
    }
  }

  /** The metric codes a grammatical vector string names, in order. */
  function CodesOf(s: string): seq<string>
    requires MatchesGrammar(s)
  {
    Codes(ParseSegments(s[9..]))
  }

  /** The segments of a list of metric texts: keys are the codes, every value is "X". */
  lemma SegmentTextsParts(ms: seq<Metric>)
    ensures AllHaveValues(SegmentTexts(ms))
    ensures KeysOf(SegmentTexts(ms)) == Codes(ms)
    ensures forall i :: 0 <= i < |ms| ==> ValueOf(SegmentTexts(ms)[i]) == Some("X")
  {
    var segs := SegmentTexts(ms);
    forall i | 0 <= i < |segs| ensures KeyOf(segs[i]) == Code(ms[i]) && ValueOf(segs[i]) == Some("X") {
      SegmentParts(ms[i]);
    }
  }

  /** The loop over the segments of a metric list reports the repeated codes. */
  lemma DecodeSegmentTextsRepeated(ms: seq<Metric>)
    ensures DecodeAll(SegmentTexts(ms)).repeated == Repeats(Codes(ms))
  {
    SegmentTextsParts(ms);
    DecodeKeys(SegmentTexts(ms));
  }

  /** When every segment has the value "X", the dictionary maps each key that occurs to "X". */
  lemma DecodeAllX(segs: seq<string>)
    requires forall i :: 0 <= i < |segs| ==> ValueOf(segs[i]) == Some("X")
    ensures DecodeAll(segs).values == map k | k in KeysOf(segs) :: "X"
  {
    assert AllHaveValues(segs);
    DecodeKeys(segs);
    var values := DecodeAll(segs).values;
    forall k | k in values ensures values[k] == "X" {
      ValueAtKey(segs, k);
    }
    AllX(values, KeysOf(segs));
  }

  lemma AllX(m: map<string, string>, ks: seq<string>)
    requires forall k :: k in m <==> k in ks
    requires forall k :: k in m ==> m[k] == "X"
    ensures m == map k | k in ks :: "X"
  {
  }

  /** Each entry of the dictionary is the value of the first segment with that key. */
  lemma ValueAtKey(segs: seq<string>, k: string)
    requires forall i :: 0 <= i < |segs| ==> ValueOf(segs[i]) == Some("X")
    requires k in KeysOf(segs)
    ensures k in DecodeAll(segs).values && DecodeAll(segs).values[k] == "X"
  {
    var ks := KeysOf(segs);
    var i :| 0 <= i < |ks| && ks[i] == k;
    var j := FirstIndex(ks, k, i);
    assert AllHaveValues(segs);
    DecodeFirstValue(segs, j);
    assert ValueOf(segs[j]) == Some("X");
  }

  /** The loop over the segments of a metric list sets every code that occurs to "X". */
  lemma DecodeSegmentTextsValues(ms: seq<Metric>)
    ensures DecodeAll(SegmentTexts(ms)).values == map k | k in Codes(ms) :: "X"
  {
    SegmentTextsParts(ms);
    DecodeAllX(SegmentTexts(ms));
  }

  /** On a grammatical string the split yields exactly the segment texts of the named metrics. */
  lemma GrammaticalSplit(s: string)
    requires MatchesGrammar(s)
    ensures Split(s[|VersionIdentifier|..], '/') == SegmentTexts(ParseSegments(s[9..]))
  {
    ParseSegmentsJoin(s[9..]);
    SplitJoinSegments(ParseSegments(s[9..]));
  }

  /**
   * Decoding a grammatical vector string: the repeated codes are reported
   * when there are any; otherwise the dictionary maps each code that occurs
   * to "X" and holds nothing else.
   */
  lemma DecodeGrammatical(s: string)
    requires MatchesGrammar(s)
    ensures DecodeVector(s) ==
      if Repeats(CodesOf(s)) != [] then Rejected(MultipleDefinitionsOfMetric(Repeats(CodesOf(s))))
      else Values(map k | k in CodesOf(s) :: "X")
  {
    var ms := ParseSegments(s[9..]);
    var codes := CodesOf(s);
    assert codes == Codes(ms);
    GrammaticalSplit(s);
    DecodeSegmentTextsRepeated(ms);
    DecodeSegmentTextsValues(ms);
    var scan := DecodeAll(SegmentTexts(ms));
    assert DecodeVector(s) ==
      if |scan.repeated| > 0 then Rejected(MultipleDefinitionsOfMetric(scan.repeated)) else Values(scan.values);
  }

  /** The first position of a key known to occur at position i. */
  function FirstIndex(ks: seq<string>, k: string, i: nat): (j: nat)
    requires i < |ks| && ks[i] == k
    ensures j <= i && ks[j] == k && k !in ks[..j]
  {
    if k in ks[..i] then
      var i' :| 0 <= i' < i && ks[i'] == k;
      FirstIndex(ks, k, i')
    else i
  }

  /**
   * The vector path reports a repeated code exactly when the string names
   * some metric twice, and lists every later occurrence.
   */
  lemma MultipleDefinitionsExactly(s: string)
    requires MatchesGrammar(s)
    ensures VectorOutcome(s).MultipleDefinitionsOfMetric? <==> HasDuplicate(CodesOf(s))
    ensures VectorOutcome(s).MultipleDefinitionsOfMetric? ==>
      VectorOutcome(s).codes == Repeats(CodesOf(s))
  {
    DecodeGrammatical(s);
    RepeatsNonEmpty(CodesOf(s));
    if Repeats(CodesOf(s)) == [] {
      var o := MetricsOutcome(ForwardedParams(map k | k in CodesOf(s) :: "X"));
      assert o.MissingBaseMetric? || o.UnknownMetricValue? || o.ScoreFormulaReached?;
    }
  }

  /**
   * A grammatical vector string without repeated codes always fails with
   * MissingBaseMetric naming all five metrics: the calculator is handed the
   * entries AV, AC, PR, UI and S, which the grammar never lets the loop set.
   */
  lemma VectorPathAlwaysFails(s: string)
    requires MatchesGrammar(s) && !HasDuplicate(CodesOf(s))
    ensures VectorOutcome(s) == MissingBaseMetric([U, D, G, E, V])
  {
    DecodeGrammatical(s);
    RepeatsNonEmpty(CodesOf(s));
    ForwardedOfCodes(ParseSegments(s[9..]));
    NothingGivenMissing();
  }

  /** A metric code is a single capital letter other than S. */
  lemma CodeNotForwarded(m: Metric)
    ensures |Code(m)| == 1 && Code(m)[0] != 'S'
  {
  }

  /** None of the keys AV, AC, PR, UI and S is the code of a metric, so all five arguments are undefined. */
  lemma ForwardedOfCodes(ms: seq<Metric>)
    ensures ForwardedParams(map k | k in Codes(ms) :: "X") == Params(Undefined, Undefined, Undefined, Undefined, Undefined)
  {
    var values := map k | k in Codes(ms) :: "X";
    forall k | k in values ensures |k| == 1 && k[0] != 'S' {
      var i :| 0 <= i < |ms| && Codes(ms)[i] == k;
      CodeNotForwarded(ms[i]);
    }
    assert "AV" !in values && "AC" !in values && "PR" !in values && "UI" !in values;
    assert "S"[0] == 'S';
    assert "S" !in values;
  }

  /** No vector string gets past validation, and none fails its legality check. */
  lemma VectorNeverScores(s: string)
    ensures !VectorOutcome(s).ScoreFormulaReached?
    ensures !VectorOutcome(s).UnknownMetricValue?
  {
    if MatchesGrammar(s) {
      MultipleDefinitionsExactly(s);
      if !HasDuplicate(CodesOf(s)) {
        VectorPathAlwaysFails(s);
      }
    }
  }
}
