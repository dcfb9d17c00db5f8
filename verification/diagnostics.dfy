/** The console report of a `ValidationResult` and the decision between
    staying quiet, logging it and failing the build. The headers differ between
    the two copies of the formatter, so they are parameters here. */
module Diagnostics {
  import opened Text
  import opened Validation

  /** `NODE_ENV === 'production'` or not. */
  datatype Posture = Production | Development

  /** What `handleValidationResult` does: nothing, `console.error(message)`,
      or `throw new Error(message)`. */
  datatype Dispatch = Silent | Log(message: string) | Abort(message: string)

  /** A header is recognisable among the lines: it starts with a newline, which
      no bullet does. */
  predicate IsHeader(line: string) {
    |line| > 0 && line[0] == '\n'
  }

  /** The line `   - [field] message`. */
  function Bullet(e: ValidationError): (line: string)
    ensures StartsWith(line, "   - [")
    ensures EndsWith(line, "] " + e.message)
    ensures !IsHeader(line)
  {
    var line := "   - [" + e.field + "] " + e.message;
    assert line[|line| - |"] " + e.message|..] == "] " + e.message;
    line
  }

  function Bullets(es: seq<ValidationError>): (lines: seq<string>)
    ensures |lines| == |es|
    ensures forall k :: 0 <= k < |es| ==> lines[k] == Bullet(es[k])
  {
    seq(|es|, k requires 0 <= k < |es| => Bullet(es[k]))
  }

  /** The lines of the report: the failure header and one bullet per error when
      there are errors; then, when there are warnings, the warnings header (only
      if there was no error) and one bullet per warning. */
  function ReportLines(failedHeader: string, warningsHeader: string, r: ValidationResult): (lines: seq<string>)
    ensures |lines| == |r.errors| + |r.warnings| + (if r.errors != [] || r.warnings != [] then 1 else 0)
    ensures r.errors != [] ==> lines[0] == failedHeader
    ensures r.errors == [] && r.warnings != [] ==> lines[0] == warningsHeader
    ensures r.errors != [] ==> forall k :: 0 <= k < |r.errors| ==> lines[1 + k] == Bullet(r.errors[k])
    ensures forall k :: 0 <= k < |r.warnings| ==> lines[|lines| - |r.warnings| + k] == Bullet(r.warnings[k])
    ensures forall i :: 1 <= i < |lines| ==> !IsHeader(lines[i])
  {
    var head := if |r.errors| > 0 then [failedHeader] + Bullets(r.errors) else [];
    var tail :=
      if |r.warnings| > 0 then (if |r.errors| == 0 then [warningsHeader] else []) + Bullets(r.warnings)
      else [];
    head + tail
  }

  /** With headers that start with a newline, the failure header is present
      exactly when there are errors, and the warnings header exactly when there
      are warnings but no errors. */
  lemma HeadersIff(failedHeader: string, warningsHeader: string, r: ValidationResult)
    requires IsHeader(failedHeader) && IsHeader(warningsHeader) && failedHeader != warningsHeader
    ensures failedHeader in ReportLines(failedHeader, warningsHeader, r) <==> r.errors != []
    ensures warningsHeader in ReportLines(failedHeader, warningsHeader, r) <==> r.errors == [] && r.warnings != []
  {
    var lines := ReportLines(failedHeader, warningsHeader, r);
    if failedHeader in lines {
      var i :| 0 <= i < |lines| && lines[i] == failedHeader;
      assert i == 0;
    }
    if warningsHeader in lines {
      var i :| 0 <= i < |lines| && lines[i] == warningsHeader;
      assert i == 0;
    }
  }

  /** `lines.join('\n')`: it begins with the header of its case. */
  function Report(failedHeader: string, warningsHeader: string, r: ValidationResult): (report: string)
    ensures r.errors != [] ==> StartsWith(report, failedHeader)
    ensures r.errors == [] && r.warnings != [] ==> StartsWith(report, warningsHeader)
  {
    var lines := ReportLines(failedHeader, warningsHeader, r);
    if |lines| > 0 then
      JoinStartsWithFirst(lines, "\n");
      Join(lines, "\n")
    else Join(lines, "\n")
  }

  /** Nothing to report gives the empty string, and anything to report gives a
      non-empty one. */
  lemma ReportEmptyIff(failedHeader: string, warningsHeader: string, r: ValidationResult)
    requires IsHeader(failedHeader) && IsHeader(warningsHeader)
    ensures Report(failedHeader, warningsHeader, r) == "" <==> r.errors == [] && r.warnings == []
  {
    var lines := ReportLines(failedHeader, warningsHeader, r);
    if |lines| > 0 {
      JoinStartsWithFirst(lines, "\n");
    }
  }

  /** The decision of `handleValidationResult`: quiet for a valid result with no
      warnings; otherwise throw `thrown` for an invalid result in production, and
      log `message` in every other case. */
  function Decide(posture: Posture, r: ValidationResult, message: string, thrown: string): (d: Dispatch)
    ensures d == Silent <==> r.valid && r.warnings == []
    ensures d.Abort? <==> !r.valid && posture == Production
    ensures d.Abort? ==> d.message == thrown
    ensures d.Log? ==> d.message == message && (r.valid ==> r.warnings != [])
  {
    if !r.valid || |r.warnings| > 0 then
      if !r.valid && posture == Production then Abort(thrown) else Log(message)
    else Silent
  }

  /** Development never fails the build, and a valid result never does. */
  lemma NeverAbortsUnlessInvalidInProduction(posture: Posture, r: ValidationResult, message: string, thrown: string)
    ensures posture == Development ==> !Decide(posture, r, message, thrown).Abort?
    ensures r.valid ==> !Decide(posture, r, message, thrown).Abort?
    ensures !r.valid ==> Decide(posture, r, message, thrown) != Silent
  {
  }
}
