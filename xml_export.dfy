/**
 * The error paths of generateXMLFromMetrics and generateXMLFromVector. The
 * metrics function hands its arguments to the calculator and returns any
 * failure object unchanged; the vector function decodes the string exactly
 * as calculateCVSSFromVector does and then calls the metrics function.
 * Filling the XML template happens only after the calculator has succeeded,
 * which it never does, so it is not part of this model.
 */
module XmlExport {
  import opened Schema
  import opened Validation
  import opened VectorString

  /**
   * generateXMLFromMetrics up to the point where the template would be
   * filled: the calculator's result, returned as it is when it is a failure.
   */
  method GenerateXmlFromMetrics(p: Params) returns (r: Outcome)
    ensures r == MetricsOutcome(p)
    ensures r.Failed() ==> r.MissingBaseMetric? || r.UnknownMetricValue?
  {
    r := CalculateFromMetrics(p);
    if r.Failed() {
      return;
    }
  }

  /** generateXMLFromVector: the same decoding, then the metrics function. */
  method GenerateXmlFromVector(s: string) returns (r: Outcome)
    ensures r == VectorOutcome(s)
  {
    var d := DecodeVectorString(s);
    if d.Rejected? {
      return d.failure;
    }
    r := GenerateXmlFromMetrics(ForwardedParams(d.values));
  }
}
