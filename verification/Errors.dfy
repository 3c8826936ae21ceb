/** Error values of the write path, reduced to what callers can tell apart. */
module Errors {
  import opened Basics

  datatype DiagnosticCode =
    | SchemaMismatch
    | IdentifierInvalid
    | UnsupportedArrowType
    | ProfileDependentConversion
    | ObservedDataRequired
    | ValueTypeMismatch
    | ValueConversionUnsupported
    | NullInNonNullableColumn
    | ValueTooLong
    | NonFiniteFloat
    | IntegerOutOfRange
    | DecimalOutOfRange
    | TimestampOutOfRange
    | TimezoneUnsupported
    | LossyConversionRequiresPolicy
    | RowIndexOutOfBounds
    | DirectEncodingInvalidPayload
    | DirectEncodingUnsupportedMapping

  /** A diagnostic keeps its code and the field and row it points at. */
  datatype Diagnostic = Diagnostic(code: DiagnosticCode, field: Option<nat>, row: Option<nat>)

  datatype Error =
    | Planning(diagnostics: seq<Diagnostic>)
    | ValueConversion(diagnostics: seq<Diagnostic>)
    | DirectEncoding(diagnostics: seq<Diagnostic>)
    | BackendUnavailable
    | Tiberius

  function InvalidPayload(): Error {
    DirectEncoding([Diagnostic(DirectEncodingInvalidPayload, None, None)])
  }

  function CellError(code: DiagnosticCode, field: nat, row: nat): Error {
    ValueConversion([Diagnostic(code, Some(field), Some(row))])
  }

  /** The phase attached to a failed batch write. */
  datatype WritePhase = BatchSchemaValidation | ValueConversionPhase | DirectEncodingPhase | PacketWrite | BatchWrite

  predicate OnlySchemaMismatches(diagnostics: seq<Diagnostic>) {
    forall i :: 0 <= i < |diagnostics| ==> diagnostics[i].code == SchemaMismatch
  }

  /** One schema mismatch, whatever it points at. */
  predicate IsShapeError(error: Error) {
    error.ValueConversion? && |error.diagnostics| == 1 && error.diagnostics[0].code == SchemaMismatch
  }

  /** `write_phase_for_batch_error`. */
  function PhaseOfBatchError(error: Error): WritePhase {
    match error
    case ValueConversion(diagnostics) =>
      if OnlySchemaMismatches(diagnostics) then BatchSchemaValidation else ValueConversionPhase
    case DirectEncoding(_) => DirectEncodingPhase
    case BackendUnavailable => DirectEncodingPhase
    case Tiberius => PacketWrite
    case Planning(_) => BatchWrite
  }
}
