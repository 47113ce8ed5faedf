/**
 The error type of src/error.rs and its `Display` rendering: every variant
 prints as a fixed prefix ending in ": " followed by its message, unchanged.
 `Parse` is the inverse of the rendering.
 */
module Errors {
  import opened Wrappers

  datatype BenchmarkError =
    | KeyGeneration(msg: string)
    | SignatureOperation(msg: string)
    | VerificationFailed(msg: string)
    | EncapsulationFailed(msg: string)
    | DecapsulationFailed(msg: string)
    | MeasurementError(msg: string)

  const KEY_GENERATION_PREFIX: string := "Key generation failed: "
  const SIGNATURE_OPERATION_PREFIX: string := "Signature operation failed: "
  const VERIFICATION_FAILED_PREFIX: string := "Verification failed: "
  const ENCAPSULATION_FAILED_PREFIX: string := "Encapsulation failed: "
  const DECAPSULATION_FAILED_PREFIX: string := "Decapsulation failed: "
  const MEASUREMENT_ERROR_PREFIX: string := "Measurement error: "

  /** True when `p` is an initial segment of `s`. */
  predicate IsPrefix(p: string, s: string)
  {
    |p| <= |s| && s[..|p|] == p
  }

  /** The same variant, whatever the messages. */
  predicate SameVariant(a: BenchmarkError, b: BenchmarkError)
  {
    match (a, b)
    case (KeyGeneration(_), KeyGeneration(_)) => true
    case (SignatureOperation(_), SignatureOperation(_)) => true
    case (VerificationFailed(_), VerificationFailed(_)) => true
    case (EncapsulationFailed(_), EncapsulationFailed(_)) => true
    case (DecapsulationFailed(_), DecapsulationFailed(_)) => true
    case (MeasurementError(_), MeasurementError(_)) => true
    case _ => false
  }

  /** The fixed text written before the message of each variant. */
  function Prefix(e: BenchmarkError): (p: string)
    ensures |p| > 2 && p[|p| - 2..] == ": "
  {
    match e
    case KeyGeneration(_) => KEY_GENERATION_PREFIX
    case SignatureOperation(_) => SIGNATURE_OPERATION_PREFIX
    case VerificationFailed(_) => VERIFICATION_FAILED_PREFIX
    case EncapsulationFailed(_) => ENCAPSULATION_FAILED_PREFIX
    case DecapsulationFailed(_) => DECAPSULATION_FAILED_PREFIX
    case MeasurementError(_) => MEASUREMENT_ERROR_PREFIX
  }

  /** The `Display` output of an error. */
  function Render(e: BenchmarkError): (s: string)
    ensures |s| == |Prefix(e)| + |e.msg|
    ensures IsPrefix(Prefix(e), s)
    ensures s[|Prefix(e)|..] == e.msg
    ensures |s| > 0
  {
    Prefix(e) + e.msg
  }

  /** Recovers the error from its rendering, or `None` when the text starts
      with none of the six prefixes. */
  function Parse(s: string): (r: Option<BenchmarkError>)
    ensures r.Some? ==> Render(r.value) == s
  {
    if IsPrefix(KEY_GENERATION_PREFIX, s) then
      Some(KeyGeneration(s[|KEY_GENERATION_PREFIX|..]))
    else if IsPrefix(SIGNATURE_OPERATION_PREFIX, s) then
      Some(SignatureOperation(s[|SIGNATURE_OPERATION_PREFIX|..]))
    else if IsPrefix(VERIFICATION_FAILED_PREFIX, s) then
      Some(VerificationFailed(s[|VERIFICATION_FAILED_PREFIX|..]))
    else if IsPrefix(ENCAPSULATION_FAILED_PREFIX, s) then
      Some(EncapsulationFailed(s[|ENCAPSULATION_FAILED_PREFIX|..]))
    else if IsPrefix(DECAPSULATION_FAILED_PREFIX, s) then
      Some(DecapsulationFailed(s[|DECAPSULATION_FAILED_PREFIX|..]))
    else if IsPrefix(MEASUREMENT_ERROR_PREFIX, s) then
      Some(MeasurementError(s[|MEASUREMENT_ERROR_PREFIX|..]))
    else
      None
  }

  /** The six prefixes start with six different letters, so no prefix is an
      initial segment of another variant's prefix or rendering. */
  lemma PrefixesDistinct(a: BenchmarkError, b: BenchmarkError)
    ensures Prefix(a)[0] == Prefix(b)[0] <==> SameVariant(a, b)
    ensures IsPrefix(Prefix(a), Render(b)) <==> SameVariant(a, b)
  {
    if IsPrefix(Prefix(a), Render(b)) {
      assert Prefix(a)[0] == Render(b)[0] == Prefix(b)[0];
    }
  }

  /** Parsing a rendering gives back the error: variant and message. */
  lemma ParseRender(e: BenchmarkError)
    ensures Parse(Render(e)) == Some(e)
  {
    var s := Render(e);
    forall other: BenchmarkError | !SameVariant(other, e)
      ensures !IsPrefix(Prefix(other), s)
    {
      PrefixesDistinct(other, e);
    }
    assert s[|Prefix(e)|..] == e.msg;
  }

  /** Text is parsed exactly when it is the rendering of some error. */
  lemma ParseDefinedIff(s: string)
    ensures Parse(s).Some? <==> exists e :: Render(e) == s
  {
    if e :| Render(e) == s {
      ParseRender(e);
    }
  }

  /** Distinct errors render differently. */
  lemma RenderInjective(a: BenchmarkError, b: BenchmarkError)
    requires Render(a) == Render(b)
    ensures a == b
  {
    ParseRender(a);
    ParseRender(b);
  }
}
