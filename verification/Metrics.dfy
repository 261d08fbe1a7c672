/** Evaluation counters: 64-bit words that wrap around, with what they have counted since the start. */
module Metrics {
  import opened Doubles
  import opened Rules

  const WORD: nat := TWO_64

  /** What the counters have counted: evaluations, the errors and type errors among them, and payload errors. */
  datatype Counts = Counts(evals: nat, errors: nat, typeErrors: nat, schemaErrors: nat, decodeErrors: nat,
                           buildErrors: nat)
  {
    function Plus(other: Counts): Counts {
      Counts(evals + other.evals, errors + other.errors, typeErrors + other.typeErrors,
             schemaErrors + other.schemaErrors, decodeErrors + other.decodeErrors, buildErrors + other.buildErrors)
    }
  }

  const NOTHING := Counts(0, 0, 0, 0, 0, 0)

  lemma PlusAssociates(a: Counts, b: Counts, c: Counts)
    ensures a.Plus(b).Plus(c) == a.Plus(b.Plus(c)) && a.Plus(NOTHING) == a
  {}

  function PayloadError(kind: PayloadErrorKind): Counts {
    match kind
    case SchemaError => NOTHING.(schemaErrors := 1)
    case DecodeError => NOTHING.(decodeErrors := 1)
    case BuildError => NOTHING.(buildErrors := 1)
  }

  function Bumped(word: nat): nat {
    (word + 1) % WORD
  }

  lemma BumpedCounts(n: nat)
    ensures Bumped(n % WORD) == (n + 1) % WORD
  {}

  class EvalMetrics {
    var evalCount: nat
    var evalErrorCount: nat
    var evalTypeErrorCount: nat
    var payloadSchemaErrorCount: nat
    var payloadDecodeErrorCount: nat
    var payloadBuildErrorCount: nat
    ghost var counts: Counts

    /** Every type error is an error and every error an evaluation; the words hold the counts modulo 2^64. */
    ghost predicate Valid()
      reads this
    {
      && counts.typeErrors <= counts.errors <= counts.evals
      && evalCount == counts.evals % WORD
      && evalErrorCount == counts.errors % WORD
      && evalTypeErrorCount == counts.typeErrors % WORD
      && payloadSchemaErrorCount == counts.schemaErrors % WORD
      && payloadDecodeErrorCount == counts.decodeErrors % WORD
      && payloadBuildErrorCount == counts.buildErrors % WORD
    }

    constructor ()
      ensures Valid() && counts == NOTHING
    {
      evalCount, evalErrorCount, evalTypeErrorCount := 0, 0, 0;
      payloadSchemaErrorCount, payloadDecodeErrorCount, payloadBuildErrorCount := 0, 0, 0;
      counts := NOTHING;
    }

    method RecordEvalSuccess()
      requires Valid()
      modifies this`evalCount, this`counts
      ensures Valid() && counts == old(counts).Plus(NOTHING.(evals := 1))
    {
      BumpedCounts(counts.evals);
      evalCount := Bumped(evalCount);
      counts := counts.Plus(NOTHING.(evals := 1));
    }

    method RecordEvalError(isTypeError: bool)
      requires Valid()
      modifies this`evalCount, this`evalErrorCount, this`evalTypeErrorCount, this`counts
      ensures Valid()
      ensures counts == old(counts).Plus(Counts(1, 1, if isTypeError then 1 else 0, 0, 0, 0))
    {
      BumpedCounts(counts.evals);
      evalCount := Bumped(evalCount);
      BumpedCounts(counts.errors);
      evalErrorCount := Bumped(evalErrorCount);
      if isTypeError {
        BumpedCounts(counts.typeErrors);
        evalTypeErrorCount := Bumped(evalTypeErrorCount);
      }
      counts := counts.Plus(Counts(1, 1, if isTypeError then 1 else 0, 0, 0, 0));
    }

    method RecordPayloadError(kind: PayloadErrorKind)
      requires Valid()
      modifies this`payloadSchemaErrorCount, this`payloadDecodeErrorCount, this`payloadBuildErrorCount, this`counts
      ensures Valid() && counts == old(counts).Plus(PayloadError(kind))
    {
      match kind {
        case SchemaError =>
          BumpedCounts(counts.schemaErrors);
          payloadSchemaErrorCount := Bumped(payloadSchemaErrorCount);
        case DecodeError =>
          BumpedCounts(counts.decodeErrors);
          payloadDecodeErrorCount := Bumped(payloadDecodeErrorCount);
        case BuildError =>
          BumpedCounts(counts.buildErrors);
          payloadBuildErrorCount := Bumped(payloadBuildErrorCount);
      }
      counts := counts.Plus(PayloadError(kind));
    }
  }
}
