/** The validators' shared result types (`ValidationError`, `ValidationResult`)
    and the pieces every validator is assembled from. */
module Validation {
  import opened Js
  import opened Text
  import opened Seqs

  datatype Severity = Error | Warning

  datatype ValidationError = ValidationError(field: string, message: string, severity: Severity)

  /** `valid` is meant to be `errors.length === 0`; `Summarize` builds it so. */
  datatype ValidationResult = ValidationResult(valid: bool, errors: seq<ValidationError>, warnings: seq<ValidationError>)

  /** Every entry has severity `error`. */
  predicate AllErrors(errs: seq<ValidationError>) {
    forall i :: 0 <= i < |errs| ==> errs[i].severity == Error
  }

  /** Some entry has severity `error`. */
  predicate HasError(errs: seq<ValidationError>) {
    exists i :: 0 <= i < |errs| && errs[i].severity == Error
  }

  /** Some entry has severity `warning`. */
  predicate HasWarning(errs: seq<ValidationError>) {
    exists i :: 0 <= i < |errs| && errs[i].severity == Warning
  }

  lemma SeverityConcat(a: seq<ValidationError>, b: seq<ValidationError>)
    ensures HasError(a + b) <==> HasError(a) || HasError(b)
    ensures HasWarning(a + b) <==> HasWarning(a) || HasWarning(b)
  {
    assert forall i :: 0 <= i < |a| ==> (a + b)[i] == a[i];
    assert forall i :: 0 <= i < |b| ==> (a + b)[|a| + i] == b[i];
  }

  lemma AllErrorsConcat(a: seq<ValidationError>, b: seq<ValidationError>)
    ensures AllErrors(a + b) <==> AllErrors(a) && AllErrors(b)
  {
    assert forall i :: 0 <= i < |a| ==> (a + b)[i] == a[i];
    assert forall i :: 0 <= i < |b| ==> (a + b)[|a| + i] == b[i];
  }

  /** `all.filter(e => e.severity === sev)`. */
  function OfSeverity(all: seq<ValidationError>, sev: Severity): (r: seq<ValidationError>)
    ensures forall e :: e in r <==> e in all && e.severity == sev
    ensures |r| <= |all|
    ensures (forall i :: 0 <= i < |all| ==> all[i].severity != sev) ==> r == []
  {
    if |all| == 0 then []
    else (if all[0].severity == sev then [all[0]] else []) + OfSeverity(all[1..], sev)
  }

  /** Splitting by severity loses and invents nothing. */
  lemma {:induction false} SplitIsPermutation(all: seq<ValidationError>)
    ensures multiset(OfSeverity(all, Error)) + multiset(OfSeverity(all, Warning)) == multiset(all)
  {
    if |all| > 0 {
      var rest := all[1..];
      SplitIsPermutation(rest);
      var first := all[0];
      assert OfSeverity(all, Error) == (if first.severity == Error then [first] else []) + OfSeverity(rest, Error);
      assert OfSeverity(all, Warning) == (if first.severity == Warning then [first] else []) + OfSeverity(rest, Warning);
      assert multiset(all) == multiset{first} + multiset(rest) by {
        assert all == [first] + rest;
      }
    }
  }

  /** The closing step of every `validateAll*`/`validateTool`: split the collected
      entries by severity; valid iff no error-severity entry was collected. */
  function Summarize(all: seq<ValidationError>): (r: ValidationResult)
    ensures r.valid <==> forall i :: 0 <= i < |all| ==> all[i].severity == Warning
    ensures r.valid <==> r.errors == []
    ensures forall e :: e in r.errors <==> e in all && e.severity == Error
    ensures forall e :: e in r.warnings <==> e in all && e.severity == Warning
    ensures multiset(r.errors) + multiset(r.warnings) == multiset(all)
  {
    var errors := OfSeverity(all, Error);
    SplitIsPermutation(all);
    assert errors == [] <==> forall i :: 0 <= i < |all| ==> all[i].severity == Warning by {
      if errors != [] {
        assert errors[0] in all;
      }
      if exists i :: 0 <= i < |all| && all[i].severity != Warning {
        var i :| 0 <= i < |all| && all[i].severity != Warning;
        assert all[i] in errors;
      }
    }
    ValidationResult(|errors| == 0, errors, OfSeverity(all, Warning))
  }

  /** The entries reported against `field`. */
  function FieldErrors(errs: seq<ValidationError>, field: string): (r: seq<ValidationError>)
    ensures forall e :: e in r <==> e in errs && e.field == field
    ensures |r| <= |errs|
  {
    if |errs| == 0 then []
    else (if errs[0].field == field then [errs[0]] else []) + FieldErrors(errs[1..], field)
  }

  lemma {:induction false} FieldErrorsAppend(a: seq<ValidationError>, b: seq<ValidationError>)
    ensures forall f :: FieldErrors(a + b, f) == FieldErrors(a, f) + FieldErrors(b, f)
  {
    if |a| > 0 {
      FieldErrorsAppend(a[1..], b);
      assert (a + b)[0] == a[0];
      assert (a + b)[1..] == a[1..] + b;
      forall f
        ensures FieldErrors(a + b, f) == FieldErrors(a, f) + FieldErrors(b, f)
      {
        var head := if a[0].field == f then [a[0]] else [];
        assert FieldErrors(a + b, f) == head + FieldErrors(a[1..] + b, f);
        assert FieldErrors(a, f) == head + FieldErrors(a[1..], f);
      }
    } else {
      assert a + b == b;
    }
  }

  /** The required-field loop: one error per listed field whose value is
      missing, not a string, or blank after trimming, in list order. */
  function RequiredFieldErrors(fields: seq<string>, lookup: string -> Value, message: string -> string): (r: seq<ValidationError>)
    requires Distinct(fields)
    ensures AllErrors(r) && |r| <= |fields|
    ensures forall e :: e in r ==> e.field in fields && MissingOrBlank(lookup(e.field)) && e.message == message(e.field)
    ensures forall f :: f in fields ==> |FieldErrors(r, f)| == (if MissingOrBlank(lookup(f)) then 1 else 0)
    ensures forall f :: f !in fields ==> FieldErrors(r, f) == []
  {
    if |fields| == 0 then []
    else
      var rest := RequiredFieldErrors(fields[1..], lookup, message);
      RequiredFieldErrorsStep(fields, lookup, message, rest);
      MissingError(fields[0], lookup, message) + rest
  }

  /** The error one field contributes, if any. */
  function MissingError(f: string, lookup: string -> Value, message: string -> string): seq<ValidationError> {
    if MissingOrBlank(lookup(f)) then [ValidationError(f, message(f), Error)] else []
  }

  /** One iteration of the required-field loop keeps the loop's promises: the
      first field's error, if any, is its only one. */
  lemma RequiredFieldErrorsStep(fields: seq<string>, lookup: string -> Value, message: string -> string, rest: seq<ValidationError>)
    requires |fields| > 0 && Distinct(fields)
    requires AllErrors(rest)
    requires forall e :: e in rest ==> e.field in fields[1..] && MissingOrBlank(lookup(e.field)) && e.message == message(e.field)
    requires forall f :: f in fields[1..] ==> |FieldErrors(rest, f)| == (if MissingOrBlank(lookup(f)) then 1 else 0)
    requires forall f :: f !in fields[1..] ==> FieldErrors(rest, f) == []
    ensures var r := MissingError(fields[0], lookup, message) + rest;
      && AllErrors(r)
      && (forall e :: e in r ==> e.field in fields && MissingOrBlank(lookup(e.field)) && e.message == message(e.field))
      && (forall f :: f in fields ==> |FieldErrors(r, f)| == (if MissingOrBlank(lookup(f)) then 1 else 0))
      && (forall f :: f !in fields ==> FieldErrors(r, f) == [])
  {
    var f0 := fields[0];
    var head := MissingError(f0, lookup, message);
    var r := head + rest;
    AllErrorsConcat(head, rest);
    FieldErrorsAppend(head, rest);
    forall k | 0 <= k < |fields[1..]|
      ensures fields[1..][k] != f0
    {
      assert fields[1..][k] == fields[k + 1];
    }
    forall f | f in fields
      ensures |FieldErrors(r, f)| == (if MissingOrBlank(lookup(f)) then 1 else 0)
    {
      if f == f0 {
        assert FieldErrors(head, f) == head;
      } else {
        assert f in fields[1..];
        assert FieldErrors(head, f) == [];
      }
    }
    forall f | f !in fields
      ensures FieldErrors(r, f) == []
    {
      assert f !in fields[1..];
      assert FieldErrors(head, f) == [];
    }
  }

  /** No required-field error exactly when every listed field holds a string
      with a non-white-space character. */
  lemma RequiredFieldErrorsEmptyIff(fields: seq<string>, lookup: string -> Value, message: string -> string)
    requires Distinct(fields)
    ensures RequiredFieldErrors(fields, lookup, message) == [] <==>
      forall i :: 0 <= i < |fields| ==> Filled(lookup(fields[i]))
  {
    var r := RequiredFieldErrors(fields, lookup, message);
    if r != [] {
      assert r[0] in r;
      MissingOrBlankIff(lookup(r[0].field));
    } else {
      forall i | 0 <= i < |fields|
        ensures Filled(lookup(fields[i]))
      {
        MissingOrBlankIff(lookup(fields[i]));
        assert |FieldErrors(r, fields[i])| == 0;
      }
    }
  }

  /** The loop reads only the listed fields: lookups that agree on them give
      the same errors. */
  lemma {:induction false} RequiredFieldErrorsAgree(fields: seq<string>, l1: string -> Value, l2: string -> Value, message: string -> string)
    requires Distinct(fields)
    requires forall i :: 0 <= i < |fields| ==> l1(fields[i]) == l2(fields[i])
    ensures RequiredFieldErrors(fields, l1, message) == RequiredFieldErrors(fields, l2, message)
  {
    if |fields| > 0 {
      assert Distinct(fields[1..]);
      assert forall i :: 1 <= i < |fields| ==> fields[i] == fields[1..][i - 1];
      RequiredFieldErrorsAgree(fields[1..], l1, l2, message);
    }
  }

  /** `errs.map(err => ({...err, message: prefix + err.message}))`. */
  function Prefixed(errs: seq<ValidationError>, prefix: string): (r: seq<ValidationError>)
    ensures |r| == |errs|
    ensures forall i :: 0 <= i < |errs| ==>
      r[i] == errs[i].(message := prefix + errs[i].message)
  {
    seq(|errs|, i requires 0 <= i < |errs| => errs[i].(message := prefix + errs[i].message))
  }

  /** The loop `for (const x of xs) allErrors.push(...f(x))`. */
  function Collect<X>(xs: seq<X>, f: X -> seq<ValidationError>): (r: seq<ValidationError>)
    ensures (forall i :: 0 <= i < |xs| ==> AllErrors(f(xs[i]))) ==> AllErrors(r)
    ensures r == [] <==> forall i :: 0 <= i < |xs| ==> f(xs[i]) == []
  {
    if |xs| == 0 then []
    else
      var rest := Collect(xs[1..], f);
      assert forall i :: 1 <= i < |xs| ==> xs[i] == xs[1..][i - 1];
      AllErrorsConcat(f(xs[0]), rest);
      f(xs[0]) + rest
  }

  /** A summary is valid exactly when no error was collected, and has warnings
      exactly when a warning was collected. */
  lemma SummarizeIff(all: seq<ValidationError>)
    ensures Summarize(all).valid <==> !HasError(all)
    ensures Summarize(all).warnings != [] <==> HasWarning(all)
  {
    var r := Summarize(all);
    if r.warnings != [] {
      assert r.warnings[0] in all;
    }
    if HasWarning(all) {
      var i :| 0 <= i < |all| && all[i].severity == Warning;
      assert all[i] in r.warnings;
    }
  }

  /** When every collected entry is an error, the summary has no warnings and is
      valid exactly when nothing was collected. */
  lemma SummarizeOnlyErrors(all: seq<ValidationError>)
    requires AllErrors(all)
    ensures Summarize(all).warnings == []
    ensures Summarize(all).valid <==> all == []
  {
    assert |all| == 0 || all[0].severity == Error;
  }
}
