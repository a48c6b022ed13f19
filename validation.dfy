/**
 * The validating part of calculateCVSSFromMetrics: a completeness pass, a
 * legality pass against the weight tables, and the weight lookup. The score
 * formulas that follow in the source are not modelled (they read undeclared
 * identifiers), so a call that passes both checks ends in
 * ScoreFormulaReached with the gathered weights.
 */
module Validation {
  import opened Schema

  /** A JavaScript argument as the calculator sees it: undefined, or a string. */
  datatype Arg = Undefined | Str(s: string)

  /** The five positional parameters, one per metric. */
  datatype Params = Params(u: Arg, d: Arg, g: Arg, e: Arg, v: Arg)

  datatype Weights = Weights(u: int, d: int, g: int, e: int, v: int)

  /** The result object of the calculator and of the functions that forward it. */
  datatype Outcome =
    | MissingBaseMetric(metrics: seq<Metric>)
    | UnknownMetricValue(metrics: seq<Metric>)
    | MalformedVectorString
    | MultipleDefinitionsOfMetric(codes: seq<string>)
      /** Validation passed and the weights were gathered; the source goes on into
          score formulas that cannot be evaluated. */
    | ScoreFormulaReached(weights: Weights)
  {
    /** The source's `success !== true`. */
    predicate Failed()
    {
      !ScoreFormulaReached?
    }
  }

  function ArgOf(p: Params, m: Metric): Arg
  {
    match m
    case U => p.u
    case D => p.d
    case G => p.g
    case E => p.e
    case V => p.v
  }

  /** `typeof x === "undefined" || x === ""` */
  predicate IsMissing(a: Arg)
  {
    a.Undefined? || a.s == ""
  }

  /** `Weight[m].hasOwnProperty(x)` on a present argument. */
  predicate IsLegal(m: Metric, a: Arg)
  {
    a.Str? && a.s in WeightTable(m)
  }

  /** The two passes of the validator. */
  datatype Check = Completeness | Legality

  predicate Offends(c: Check, p: Params, m: Metric)
  {
    match c
    case Completeness => IsMissing(ArgOf(p, m))
    case Legality => !IsLegal(m, ArgOf(p, m))
  }

  /** The metrics of `ms` that fail check `c`, keeping the order of `ms`. */
  function Offending(c: Check, p: Params, ms: seq<Metric>): seq<Metric>
  {
    if ms == [] then []
    else
      var last := ms[|ms| - 1];
      Offending(c, p, ms[..|ms| - 1]) + (if Offends(c, p, last) then [last] else [])
  }

  /** Metrics listed in strictly increasing declaration order (so each at most once). */
  predicate SchemaOrdered(ms: seq<Metric>)
  {
    forall i, j :: 0 <= i < j < |ms| ==> Position(ms[i]) < Position(ms[j])
  }

  /** The weights looked up for five legal arguments. */
  function GatherWeights(p: Params): Weights
    requires IsLegal(U, p.u) && IsLegal(D, p.d) && IsLegal(G, p.g) && IsLegal(E, p.e) && IsLegal(V, p.v)
  {
    Weights(WeightTable(U)[p.u.s], WeightTable(D)[p.d.s], WeightTable(G)[p.g.s],
            WeightTable(E)[p.e.s], WeightTable(V)[p.v.s])
  }

  /** What calculateCVSSFromMetrics produces for the given parameters. */
  function MetricsOutcome(p: Params): Outcome
  {
    var missing := Offending(Completeness, p, AllMetrics);
    if missing != [] then MissingBaseMetric(missing)
    else
      var illegal := Offending(Legality, p, AllMetrics);
      if illegal != [] then UnknownMetricValue(illegal)
      else
        OffendingAllMetrics(Legality, p);
        ScoreFormulaReached(GatherWeights(p))
  }

  /** The first pass: the metrics whose argument is undefined or empty, pushed in declaration order. */
  method CompletenessPass(p: Params) returns (bad: seq<Metric>)
    ensures bad == Offending(Completeness, p, AllMetrics)
  {
    bad := [];
    if IsMissing(p.u) { bad := bad + [U]; }
    assert bad == Flag(Completeness, p, U);
    if IsMissing(p.d) { bad := bad + [D]; }
    assert bad == Flag(Completeness, p, U) + Flag(Completeness, p, D);
    if IsMissing(p.g) { bad := bad + [G]; }
    assert bad == Flag(Completeness, p, U) + Flag(Completeness, p, D) + Flag(Completeness, p, G);
    if IsMissing(p.e) { bad := bad + [E]; }
    assert bad == Flag(Completeness, p, U) + Flag(Completeness, p, D) + Flag(Completeness, p, G)
      + Flag(Completeness, p, E);
    if IsMissing(p.v) { bad := bad + [V]; }
    OffendingAllMetrics(Completeness, p);
  }

  /** The second pass: the metrics whose value is not a key of their weight table. */
  method LegalityPass(p: Params) returns (bad: seq<Metric>)
    ensures bad == Offending(Legality, p, AllMetrics)
  {
    bad := [];
    if !IsLegal(U, p.u) { bad := bad + [U]; }
    assert bad == Flag(Legality, p, U);
    if !IsLegal(D, p.d) { bad := bad + [D]; }
    assert bad == Flag(Legality, p, U) + Flag(Legality, p, D);
    if !IsLegal(G, p.g) { bad := bad + [G]; }
    assert bad == Flag(Legality, p, U) + Flag(Legality, p, D) + Flag(Legality, p, G);
    if !IsLegal(E, p.e) { bad := bad + [E]; }
    assert bad == Flag(Legality, p, U) + Flag(Legality, p, D) + Flag(Legality, p, G)
      + Flag(Legality, p, E);
    if !IsLegal(V, p.v) { bad := bad + [V]; }
    OffendingAllMetrics(Legality, p);
  }

  /**
   * calculateCVSSFromMetrics up to the weight lookup: the first pass that
   * finds anything returns its list; otherwise the five weights are looked up.
   */
  method CalculateFromMetrics(p: Params) returns (r: Outcome)
    ensures r == MetricsOutcome(p)
  {
    var missing := CompletenessPass(p);
    if |missing| > 0 {
      return MissingBaseMetric(missing);
    }
    var illegal := LegalityPass(p);
    if |illegal| > 0 {
      return UnknownMetricValue(illegal);
    }
    OffendingAllMetrics(Legality, p);
    var wu := WeightTable(U)[p.u.s];
    var wd := WeightTable(D)[p.d.s];
    var wg := WeightTable(G)[p.g.s];
    var we := WeightTable(E)[p.e.s];
    var wv := WeightTable(V)[p.v.s];
    r := ScoreFormulaReached(Weights(wu, wd, wg, we, wv));
  }

  // ---------------------------------------------------------------------
  // Properties of the filter both passes share
  // ---------------------------------------------------------------------

  /** A metric is listed exactly when it is in `ms` and fails the check. */
  lemma {:induction false} OffendingMembers(c: Check, p: Params, ms: seq<Metric>, m: Metric)
    ensures m in Offending(c, p, ms) <==> m in ms && Offends(c, p, m)
  {
    if ms != [] {
      OffendingMembers(c, p, ms[..|ms| - 1], m);
      assert ms == ms[..|ms| - 1] + [ms[|ms| - 1]];
    }
  }

  /** Filtering an ordered list keeps it ordered. */
  lemma {:induction false} OffendingOrdered(c: Check, p: Params, ms: seq<Metric>)
    requires SchemaOrdered(ms)
    ensures SchemaOrdered(Offending(c, p, ms))
  {
    if ms != [] {
      var init, last := ms[..|ms| - 1], ms[|ms| - 1];
      var front := Offending(c, p, init);
      OffendingOrdered(c, p, init);
      forall x | x in front ensures Position(x) < Position(last) {
        OffendingMembers(c, p, init, x);
        var k :| 0 <= k < |init| && init[k] == x;
      }
      var tail: seq<Metric> := if Offends(c, p, last) then [last] else [];
      var r := front + tail;
      forall i, j | 0 <= i < j < |r| ensures Position(r[i]) < Position(r[j]) {
        if j < |front| {
          assert r[i] == front[i] && r[j] == front[j];
        } else {
          assert r[i] in front && r[j] == last;
        }
      }
    }
  }

  /** The contribution of one metric to an error list. */
  function Flag(c: Check, p: Params, m: Metric): seq<Metric>
  {
    if Offends(c, p, m) then [m] else []
  }

  /** The filter over the five metrics, written out. */
  lemma OffendingAllMetrics(c: Check, p: Params)
    ensures Offending(c, p, AllMetrics) ==
      Flag(c, p, U) + Flag(c, p, D) + Flag(c, p, G) + Flag(c, p, E) + Flag(c, p, V)
  {
    assert [U][..0] == [];
    assert Offending(c, p, [U]) == Flag(c, p, U);
    assert [U, D][..1] == [U];
    assert Offending(c, p, [U, D]) == Flag(c, p, U) + Flag(c, p, D);
    assert [U, D, G][..2] == [U, D];
    assert Offending(c, p, [U, D, G]) == Flag(c, p, U) + Flag(c, p, D) + Flag(c, p, G);
    assert [U, D, G, E][..3] == [U, D, G];
    assert Offending(c, p, [U, D, G, E]) == Flag(c, p, U) + Flag(c, p, D) + Flag(c, p, G) + Flag(c, p, E);
    assert AllMetrics[..4] == [U, D, G, E];
  }

  lemma AllMetricsOrdered()
    ensures SchemaOrdered(AllMetrics)
  {
  }

  /** The error list of a pass holds exactly the failing metrics, in U, D, G, E, V order. */
  lemma PassListsExactly(c: Check, p: Params)
    ensures SchemaOrdered(Offending(c, p, AllMetrics))
    ensures forall m :: m in Offending(c, p, AllMetrics) <==> Offends(c, p, m)
  {
    AllMetricsOrdered();
    OffendingOrdered(c, p, AllMetrics);
    forall m ensures m in Offending(c, p, AllMetrics) <==> Offends(c, p, m) {
      OffendingMembers(c, p, AllMetrics, m);
      assert AllMetrics[Position(m)] == m;
    }
  }

  // ---------------------------------------------------------------------
  // The properties the calculator promises
  // ---------------------------------------------------------------------

  /**
   * Completeness: the result is MissingBaseMetric exactly when some argument
   * is undefined or empty, and then its list names exactly those metrics,
   * in declaration order.
   */
  lemma MissingBaseMetricExactly(p: Params)
    ensures MetricsOutcome(p).MissingBaseMetric? <==> exists m :: IsMissing(ArgOf(p, m))
    ensures MetricsOutcome(p).MissingBaseMetric? ==>
      var ms := Offending(Completeness, p, AllMetrics);
      && MetricsOutcome(p).metrics == ms
      && SchemaOrdered(ms)
      && (forall m :: m in ms <==> IsMissing(ArgOf(p, m)))
  {
    PassListsExactly(Completeness, p);
    var ms := Offending(Completeness, p, AllMetrics);
    if ms != [] {
      assert ms[0] in ms;
      assert IsMissing(ArgOf(p, ms[0]));
    } else {
      forall m ensures !IsMissing(ArgOf(p, m)) {
        assert m !in ms;
      }
    }
  }

  /** With no argument given, every metric is reported missing, in declaration order. */
  lemma NothingGivenMissing()
    ensures MetricsOutcome(Params(Undefined, Undefined, Undefined, Undefined, Undefined)) == MissingBaseMetric([U, D, G, E, V])
  {
    OffendingAllMetrics(Completeness, Params(Undefined, Undefined, Undefined, Undefined, Undefined));
  }

  /**
   * Legality: once every argument is present, the result is
   * UnknownMetricValue exactly when some value is not a key of its weight
   * table (with these tables: is not "X"), and its list names exactly those
   * metrics, in declaration order.
   */
  lemma UnknownMetricValueExactly(p: Params)
    requires forall m :: !IsMissing(ArgOf(p, m))
    ensures MetricsOutcome(p).UnknownMetricValue? <==> exists m :: ArgOf(p, m) != Str("X")
    ensures MetricsOutcome(p).UnknownMetricValue? ==>
      var ms := Offending(Legality, p, AllMetrics);
      && MetricsOutcome(p).metrics == ms
      && SchemaOrdered(ms)
      && (forall m :: m in ms <==> ArgOf(p, m) != Str("X"))
  {
    MissingBaseMetricExactly(p);
    PassListsExactly(Legality, p);
    forall m ensures Offends(Legality, p, m) <==> ArgOf(p, m) != Str("X") {
      WeightTableShape(m);
    }
    var ms := Offending(Legality, p, AllMetrics);
    if ms != [] {
      assert ms[0] in ms;
      assert ArgOf(p, ms[0]) != Str("X");
    } else {
      forall m ensures ArgOf(p, m) == Str("X") {
        assert m !in ms;
      }
    }
  }

  /**
   * Both checks pass exactly when every argument is the string "X", and the
   * gathered weights are then U=0, D=1, G=2, E=3, V=4.
   */
  lemma WeightsAfterValidation(p: Params)
    ensures MetricsOutcome(p).ScoreFormulaReached? <==> forall m :: ArgOf(p, m) == Str("X")
    ensures MetricsOutcome(p).ScoreFormulaReached? ==>
      MetricsOutcome(p).weights == Weights(0, 1, 2, 3, 4)
  {
    var x := Str("X");
    if forall m :: ArgOf(p, m) == x {
      assert p == Params(x, x, x, x, x) by {
        assert ArgOf(p, U) == x && ArgOf(p, D) == x && ArgOf(p, G) == x;
        assert ArgOf(p, E) == x && ArgOf(p, V) == x;
      }
      OffendingAllMetrics(Completeness, p);
      OffendingAllMetrics(Legality, p);
    } else {
      var m :| ArgOf(p, m) != x;
      WeightTableShape(m);
      if IsMissing(ArgOf(p, m)) {
        OffendingMembers(Completeness, p, AllMetrics, m);
      } else {
        OffendingMembers(Legality, p, AllMetrics, m);
      }
      assert m in AllMetrics by {
        assert AllMetrics[Position(m)] == m;
      }
    }
  }
}
