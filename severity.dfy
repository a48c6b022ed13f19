/**
 * severityRating: a first-match scan over the severity bands. Scores are in
 * tenths; the source receives a score already formatted to one decimal and
 * compares it numerically with the band bounds, so the comparison is exact.
 */
module Severity {
  import opened Schema

  /** The index of the first band that contains the score, if any. */
  function FirstBand(bands: seq<Band>, score: int): (r: Option<nat>)
    ensures r.Some? ==> r.value < |bands| && InBand(bands[r.value], score)
    ensures r.Some? ==> forall j :: 0 <= j < r.value ==> !InBand(bands[j], score)
    ensures r.None? ==> forall j :: 0 <= j < |bands| ==> !InBand(bands[j], score)
  {
    if bands == [] then None
    else if InBand(bands[0], score) then Some(0)
    else
      match FirstBand(bands[1..], score)
      case None => None
      case Some(k) => Some(k + 1)
  }

  /** The name severityRating returns, None standing for `undefined`. */
  function RatingOf(score: int): Option<string>
  {
    match FirstBand(SeverityRatings, score)
    case None => None
    case Some(i) => Some(SeverityRatings[i].name)
  }

  /** The scan of the source, returning at the first band whose bounds enclose the score. */
  method SeverityRating(score: int) returns (name: Option<string>)
    ensures name == RatingOf(score)
  {
    var n := |SeverityRatings|;
    for i := 0 to n
      invariant forall j :: 0 <= j < i ==> !InBand(SeverityRatings[j], score)
    {
      if score >= SeverityRatings[i].bottom && score <= SeverityRatings[i].top {
        var first := FirstBand(SeverityRatings, score);
        assert first == Some(i);
        return Some(SeverityRatings[i].name);
      }
    }
    return None;
  }

  /** The band that holds a score between 0.0 and 4.0: one band per started point. */
  lemma {:induction false} BandOfScore(score: int)
    requires 0 <= score <= MaxScore
    ensures FirstBand(SeverityRatings, score) == Some(if score == 0 then 0 else (score + 9) / 10)
  {
    var k := if score == 0 then 0 else (score + 9) / 10;
    assert k < |SeverityRatings|;
    assert InBand(SeverityRatings[k], score);
    forall j | 0 <= j < |SeverityRatings| && j != k ensures !InBand(SeverityRatings[j], score) {
    }
  }

  /** The name of the band of a score between 0.0 and 4.0. */
  lemma NameOfScore(score: int)
    requires 0 <= score <= MaxScore
    ensures RatingOf(score) == Some(SeverityRatings[if score == 0 then 0 else (score + 9) / 10].name)
  {
    BandOfScore(score);
  }

  /** Every score from 0.0 to the top of the highest band gets a defined rating. */
  lemma SeverityCoverage(score: int)
    requires 0 <= score <= MaxScore
    ensures RatingOf(score).Some?
  {
    BandOfScore(score);
  }

  /** A higher score never falls into an earlier band. */
  lemma SeverityMonotone(s1: int, s2: int)
    requires 0 <= s1 <= s2 <= MaxScore
    ensures FirstBand(SeverityRatings, s1).Some? && FirstBand(SeverityRatings, s2).Some?
    ensures FirstBand(SeverityRatings, s1).value <= FirstBand(SeverityRatings, s2).value
  {
    BandOfScore(s1);
    BandOfScore(s2);
  }

  /** Below 0.0 and above 4.0 the rating is undefined. */
  lemma SeverityOutOfRange(score: int)
    requires score < 0 || score > MaxScore
    ensures RatingOf(score) == None
  {
    forall j | 0 <= j < |SeverityRatings| ensures !InBand(SeverityRatings[j], score) {
    }
  }

  /** The bands do not overlap, so the first match is the only match. */
  lemma BandsDisjoint(score: int, i: nat, j: nat)
    requires i < j < |SeverityRatings|
    ensures !(InBand(SeverityRatings[i], score) && InBand(SeverityRatings[j], score))
  {
  }

  /** The boundary values of every band. */
  lemma SeverityBoundaries()
    ensures RatingOf(0) == Some("Unvoständig")
    ensures RatingOf(1) == Some("Durchgeführt") && RatingOf(10) == Some("Durchgeführt")
    ensures RatingOf(11) == Some("Gesteuert") && RatingOf(20) == Some("Gesteuert")
    ensures RatingOf(21) == Some("Etabliert") && RatingOf(30) == Some("Etabliert")
    ensures RatingOf(31) == Some("Vorhersagbar") && RatingOf(40) == Some("Vorhersagbar")
  {
    NameOfScore(0);
    NameOfScore(1);
    NameOfScore(10);
    NameOfScore(11);
    NameOfScore(20);
    NameOfScore(21);
    NameOfScore(30);
    NameOfScore(31);
    NameOfScore(40);
  }
}
