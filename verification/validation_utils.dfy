/** The shared formatter and dispatcher of `validationUtils.ts`, used for
    registry-wide results such as the standards and categories checks. */
module ValidationUtils {
  import opened Text
  import opened Validation
  import opened Diagnostics

  function FailedHeader(context: string): string {
    "\n\U{274C} Validation FAILED for \"" + context + "\":"
  }

  function WarningsHeader(context: string): string {
    "\n\U{26A0}\U{FE0F}  Validation warnings for \"" + context + "\":"
  }

  /** `formatValidationResult(context, result)`: the empty string exactly when
      there is nothing to report; otherwise its first line is the failure header
      when there are errors and the warnings header when there are only warnings. */
  function FormatValidationResult(context: string, r: ValidationResult): (message: string)
    ensures message == Report(FailedHeader(context), WarningsHeader(context), r)
    ensures r.errors != [] ==> StartsWith(message, FailedHeader(context))
    ensures r.errors == [] && r.warnings != [] ==> StartsWith(message, WarningsHeader(context))
    ensures message == "" <==> r.errors == [] && r.warnings == []
    ensures FailedHeader(context) in ReportLines(FailedHeader(context), WarningsHeader(context), r) <==> r.errors != []
    ensures WarningsHeader(context) in ReportLines(FailedHeader(context), WarningsHeader(context), r)
      <==> r.errors == [] && r.warnings != []
  {
    var failed := FailedHeader(context);
    var warnings := WarningsHeader(context);
    assert failed[1] != warnings[1];
    ReportEmptyIff(failed, warnings, r);
    HeadersIff(failed, warnings, r);
    Report(failed, warnings, r)
  }

  /** `handleValidationResult(context, result)`: quiet for a clean result, a
      thrown `Validation failed: <context>` followed by the report for an invalid
      result in production, and the report logged otherwise. */
  function HandleValidationResult(posture: Posture, context: string, r: ValidationResult): (d: Dispatch)
    ensures d == Silent <==> r.valid && r.warnings == []
    ensures d.Abort? <==> !r.valid && posture == Production
    ensures d.Abort? ==> d.message == "Validation failed: " + context + "\n" + FormatValidationResult(context, r)
    ensures d.Log? ==> d.message == FormatValidationResult(context, r)
  {
    var message := FormatValidationResult(context, r);
    Decide(posture, r, message, "Validation failed: " + context + "\n" + message)
  }
}
