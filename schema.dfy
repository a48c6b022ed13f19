/**
 * The static tables of the Reifegrad (maturity) scheme: the five metrics,
 * their weight tables, the version identifier and the severity bands.
 * All tables are immutable constants.
 */
module Schema {

  datatype Option<T> = None | Some(value: T)

  /** The five metrics of the scheme, in their declaration order. */
  datatype Metric = U | D | G | E | V

  const AllMetrics: seq<Metric> := [U, D, G, E, V]

  /** The short code a metric has in vector strings and in error lists. */
  function Code(m: Metric): string
  {
    match m
    case U => "U"
    case D => "D"
    case G => "G"
    case E => "E"
    case V => "V"
  }

  /** The place of a metric in the declaration order. */
  function Position(m: Metric): (k: nat)
    ensures k < |AllMetrics| && AllMetrics[k] == m
  {
    match m
    case U => 0
    case D => 1
    case G => 2
    case E => 3
    case V => 4
  }

  /** The codes of a list of metrics, in the same order. */
  function Codes(ms: seq<Metric>): (cs: seq<string>)
    ensures |cs| == |ms|
    ensures forall i :: 0 <= i < |ms| ==> cs[i] == Code(ms[i])
  {
    if ms == [] then [] else [Code(ms[0])] + Codes(ms[1..])
  }

  lemma CodeInjective(m: Metric, n: Metric)
    requires Code(m) == Code(n)
    ensures m == n
  {
    assert Code(m)[0] == Code(n)[0];
  }

  /**
   * The weight table of a metric: a value code is legal for the metric
   * exactly when it is a key of this map, and the entry is its weight.
   * Each metric has the single value "X"; the weights run 0..4.
   */
  function WeightTable(m: Metric): map<string, int>
  {
    match m
    case U => map["X" := 0]
    case D => map["X" := 1]
    case G => map["X" := 2]
    case E => map["X" := 3]
    case V => map["X" := 4]
  }

  /** The only legal value of every metric is "X", and its weight is the metric's position. */
  lemma WeightTableShape(m: Metric)
    ensures forall v :: v in WeightTable(m) <==> v == "X"
    ensures WeightTable(m)["X"] == Position(m)
  {
  }

  /** The identifier whose length is used to strip the version prefix off a vector string. */
  const VersionIdentifier: string := "Reifegrad"

  /**
   * A severity band. Bounds are in tenths of a score point, so the band
   * [0.1, 1.0] is Band(_, 1, 10); both bounds are inclusive.
   */
  datatype Band = Band(name: string, bottom: int, top: int)

  predicate InBand(b: Band, score: int)
  {
    b.bottom <= score <= b.top
  }

  const SeverityRatings: seq<Band> := [
    Band("Unvoständig", 0, 0),
    Band("Durchgeführt", 1, 10),
    Band("Gesteuert", 11, 20),
    Band("Etabliert", 21, 30),
    Band("Vorhersagbar", 31, 40)
  ]

  /** The top of the highest band, in tenths. */
  const MaxScore: int := 40
}
