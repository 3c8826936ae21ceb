# Arrow to TDS write path, verified

This Dafny project models how Arrow record batches become SQL Server bulk-load
rows, and proves that the fast direct encoder sends the same rows as the simple
row-by-row path.

A schema is *planned*: each Arrow field gets a SQL Server type by policy
(`Planner`, `Schema`). A plan can be *rendered* as `CREATE TABLE` (`Ddl`) and the
rendering reads back (`DdlParser`). Two backends then write batches:

- The *baseline* converts one row at a time into semantic cells and sends them
  (`Cells`, `Batches`).
- The *direct* backend classifies each column (`Classifiers`), measures all cells
  column by column (`DirectCells`, `Payload`), splits the rows greedily into
  byte-capped ranges (`Measure`), lays each range out (`Layout`), fills a buffer
  column by column or appends row by row (`Payload`, `Rows`), and sends raw bytes
  (`Encoder`, `Writer`).

`Wire` and `RowStream` hold a reader of the row stream that knows only the target
columns, and `PinnedRows` holds literal rows. `PlannedValues` and `PlannedTimes` state
what plans promise about values, and `Zones` what a timezone string means. `Refinement`
and `Batches.PayloadReadsBack` prove that the direct bytes read back as the baseline
rows, and `Failures` what the direct path reports where it cannot send them.
`Writer` is the state machine over sinks that may fail at any call. `Decimals`,
`DateTimes` and `Bytes` carry the arithmetic.

Machine arithmetic is explicit: `usize` and `u64` are 64 bits wide, `i128` and `i64`
limits are checked where the code checks them. Loops and in-place buffers of the code
are methods over arrays with invariants; pure matches are functions.

Where code and documentation disagree, the model follows the code:

- `docs/type-mapping.md` allows every decimal shape with p <= 38 and s <= p;
  decimal(38,38) plans, but `decimal_target` refuses scale 38
  (`Classifiers.Decimal38Scale38PlansButIsRefused`).
- `docs/type-mapping.md` says view arrays are not mapped; planner, extraction and
  binding accept `Utf8View` and `BinaryView`.
- Fixed-size binary has no length limit of its own in the direct encoder; only
  mappings made by hand can reach it (`Refinement.FixedBinaryLimit`).

`dafny verify dfyconfig.toml` checks the whole project.

## Model

| member | source | states |
|---|---|---|
| Measure.New | src/write/direct/measure.rs:53-78 | Succeeds if and only if the cell count equals rows times columns without overflow and row tokens plus cells fit a `usize`; the result is a valid measured batch, and every failure is an invalid-payload error. |
| Measure.MeasureRowLengths | src/write/direct/measure.rs:199-223 | The checked row sums overflow exactly when the whole payload does, whichever intermediate sum meets the limit first. |
| Measure.PayloadTotal | src/write/direct/measure.rs:199-223 | Row lengths add up to one token per row plus every cell. |
| Measure.RowRanges | src/write/direct/measure.rs:96-130 | Fails only for a zero limit; otherwise returns a greedy partition of all rows: contiguous, non-empty, each range within the limit or one oversized row, and no range could have taken its successor's first row. The overflow branch in the loop is dead. |
| Measure.GreedyStaysAhead | src/write/direct/measure.rs:96-130 | The i-th range ends no earlier than that of any other feasible split. |
| Measure.GreedyIsOptimal | src/write/direct/measure.rs:96-130 | No feasible split of the rows uses fewer ranges. |
| Measure.GreedyUnique | src/write/direct/measure.rs:96-130 | The greedy properties leave exactly one split. |
| Measure.RangePayloadLenExact | src/write/direct/measure.rs:132-144 | Inside a valid batch the checked fold never overflows and is the range's byte count; outside it always fails. |
| Measure.CellLenExact | src/write/direct/measure.rs:147-168 | Inside the matrix the indexed length, outside it an error; index arithmetic overflows nowhere inside. |
| Measure.RowCountFits | src/write/direct/measure.rs:184-197 | A measured batch never has more rows than payload bytes. |
| Measure.RangesConserveBytes | src/write/direct/measure.rs:96-144 | The byte counts of any partition into ranges add up to the payload length. |
| Layout.BuildRowRangeLayout | src/write/direct/layout.rs:151-192 | Builds exactly the row-major layout of the range's window of the length matrix, or fails when sizes do not fit. |
| Layout.BuiltLayoutIsAccepted | src/write/direct/layout.rs:100-115 | Layout validation accepts every layout the builder makes. |
| Layout.CellsDisjoint | src/write/direct/layout.rs:277-306 | Two different cells of a layout never share a byte. |
| Layout.CellsMissTokens | src/write/direct/layout.rs:212-275 | No cell covers a row token. |
| Layout.RangeOffsetsShift | src/write/direct/measure.rs:170-182 | A range's row-token offsets restart at zero and are the full offsets shifted by the bytes before the range. |
| Layout.RangeLayout | src/write/direct/measure.rs:170-182 | For a valid batch the layout of an in-bounds range always exists; out of bounds it fails. |
| Payload.MeasureCellLengths | src/write/direct/binding.rs:76-94 | Column-by-column writes into the shared vector build the row-major length matrix; a failure is the first failing cell in column order. |
| Payload.AllocateRowsPayload | src/write/direct/layout.rs:195-205 | The buffer has the payload length and a 0xD1 token at every row start. |
| Payload.WriteKeepsOthers | src/write/direct/binding.rs:107-121 | Writing one cell leaves every token and every other cell as it was. |
| Payload.FillColumn | src/write/direct/types/decimal.rs:347-385 | Filling one column succeeds exactly when each cell encodes to its reserved length, and preserves the columns filled before. |
| Payload.FillColumns | src/write/direct/binding.rs:107-121 | All columns are filled exactly when every encoded cell has its reserved length. |
| Payload.FilledIsPayload | src/write/direct/binding.rs:107-121 | A buffer filled column by column is byte for byte the row-major concatenation of token and cells. |
| Payload.PayloadConcat | src/write/direct/encoder.rs:124-146 | Payloads of neighbouring row ranges concatenate. |
| Rows.NewPayload | src/write/direct/payload.rs:17-88 | Accepts exactly strictly increasing offsets that point at row tokens, and no offsets only with no bytes. |
| Rows.FromRowLayout | src/write/direct/rows/fixed_width.rs:560-630 | The fast path's per-row cursors start right after each row's token; its layout check accepts every built layout. |
| Rows.MeasureFixedWidthRows | src/write/direct/rows/fixed_width.rs:658-708 | Row lengths accumulated column by column give the layout that row-by-row construction gives, under the same size condition. |
| Rows.FillFixedWidthColumn | src/write/direct/rows/fixed_width.rs:1669-1699 | Writing at running cursors puts each cell where the row-major layout puts it. |
| Rows.EncodeFixedWidthRows | src/write/direct/rows/fixed_width.rs:147-556 | The fast path yields the row-major payload and offsets. |
| Rows.EncodeRowsWithLayout | src/write/direct/rows/payload.rs:82-88 | The general route yields the same payload and offsets. |
| Rows.EncodeMeasuredRange | src/write/direct/rows/payload.rs:49-89 | For the batch that was measured it succeeds exactly inside the batch, by either route, with the range's row-major bytes and restarted offsets; a batch of another shape is refused. |
| Rows.MeasureLayout | src/write/direct/binding.rs:97-104 | The measured layout is the row-major layout of the length matrix. |
| Rows.EncodeBatch | src/write/direct/rows/payload.rs:91-111 | Succeeds exactly when every cell measures and the payload fits a `usize`; the result is the row-major payload on either route. |
| Rows.AppendRow | src/write/direct/rows/append.rs:46-57 | One row appends token and cells in plan order and counts its bytes without overflow. |
| Rows.EncodeMeasuredRangeInto | src/write/direct/rows/append.rs:13-60 | The append route appends exactly the range's row-major bytes with the same offsets as the payload routes; it fails only outside the batch, before touching the buffer. |
| Rows.RawRowsBuffer.PutU8 | src/write/direct/rows/append.rs:46-49 | Appends one byte. |
| Rows.RawRowsBuffer.ExtendFromSlice | src/write/direct/types/variable_width.rs:23-44 | Appends a slice. |
| Rows.RangesConcatenate | src/write/direct.rs:1912-2009 | For any partition, the range payloads in order concatenate to the whole payload. |
| Decimals.NormalizeShapeExact | src/schema/type_conversion.rs:182-247 | A decimal shape normalises exactly when p >= 1, p + max(0,-s) <= 38, s <= p and the policy allows a negative scale; integer digits are kept. |
| Decimals.NormalizePreservesValue | src/mssql/cell/from_arrow/decimal.rs:229-287 | Every value of the declared precision rescales exactly to the same number, within the planned precision and within `i128`. |
| Decimals.AcceptedUnscaledExact | src/mssql/cell/from_arrow/decimal.rs:229-287 | A stored value is accepted if and only if its rescaled form has no more digits than planned. |
| Decimals.CheckedPow10IsI128 | src/mssql/cell/from_arrow/decimal.rs:252-261 | `checked_pow` fails exactly from 10^39 on, the `i128` bound. |
| Decimals.FitsPrecisionExact | src/mssql/cell/from_arrow/decimal.rs:273-287 | Fitting a precision is having at most that many digits, and implies fitting `i128`. |
| Classifiers.FamiliesAreDisjoint | src/write/direct/plan.rs:68-154 | No mapping, planned or made by hand, is accepted by two classifiers, so the order of the cascade does not matter; supported means exactly one accepts. |
| Classifiers.PlannedMappingsClassify | src/schema/type_conversion.rs:11-70 | Whatever the policies, timezone, length or decimal shape, a planned mapping is accepted by exactly one family, except decimal(38,38), which none accepts. |
| Classifiers.SupportExact | src/write/direct/plan.rs:68-154 | The direct path supports exactly the pairs of types listed, for mappings made by hand too: float only with 53 digits, datetimeoffset only with scale 7 and a zone, a decimal only with its own scale below 38. |
| Classifiers.Decimal38Scale38PlansButIsRefused | src/conversion/arrow_to_mssql/decimal.rs:149-182 | The exception on a concrete mapping. |
| Classifiers.SupportedShape | src/write/direct/plan.rs:68-154 | Which pair of types each chosen encoding stands for. |
| DateTimes.HalfUpNearest | src/mssql/cell/from_arrow/temporal/datetime.rs:264-294 | The Euclidean half-up quotient is the nearest integer, ties upwards, for negative values too. |
| DateTimes.CalendarConstants | src/mssql/cell/from_arrow/temporal/datetime.rs:12-20 | The day constants are the proleptic Gregorian calendar's. |
| DateTimes.RoundingNeverOverflows | src/mssql/cell/from_arrow/temporal/datetime.rs:197-294 | No `i128` overflow branch of either rounding is reachable from an Arrow timestamp. |
| DateTimes.FragmentsMonotone | src/mssql/profile.rs:110-141 | Both `datetime` roundings keep the order of instants. |
| DateTimes.FragmentsErrorBound | src/mssql/profile.rs:110-141 | Direct rounding is off by at most half a 1/300 s fragment; legacy rounding first goes to the nearest millisecond and then to its nearest fragment, so it is off by at most half a millisecond more. |
| DateTimes.RoundingsAgree | src/mssql/profile.rs:110-141 | The two roundings agree on whole milliseconds and never differ by more than one fragment. |
| DateTimes.RoundingsDiffer | src/mssql/cell/from_arrow/temporal/datetime.rs:180-212 | On .684582 s legacy rounding gives fragment 206 (.687) and direct rounding 205 (.683). |
| DateTimes.DateTimeExact | src/mssql/cell/from_arrow/temporal/datetime.rs:104-162 | Conversion succeeds exactly from 1753-01-01 to the last instant that still rounds inside 9999-12-31, and is out of range otherwise; the result has fewer than 25,920,000 fragments and carries rounding into the day. |
| DateTimes.NanosecondTicksExact | src/mssql/cell/from_arrow/temporal/datetime2.rs:16-54 | Rejecting accepts exactly whole ticks and calls the rest lossy; truncating is the floor and rounding the nearest tick; neither can fail. |
| DateTimes.RoundToScaleExact | src/mssql/cell/from_arrow/temporal/datetime2.rs:255-293 | Rounding to a scale is the nearest multiple of its increment and never overflows. |
| DateTimes.DateTime2Exact | src/mssql/cell/from_arrow/temporal/datetime2.rs:73-132 | Conversion to datetime2(p) succeeds exactly in range after rounding, and stores the nearest increment with the carry in the day. |
| DateTimes.DateTimeOffsetExact | src/mssql/cell/from_arrow/temporal/datetimeoffset.rs:176-207 | A datetimeoffset exists exactly when instant and local time are both in the years 1 to 9999; it stores the instant to the tick. |
| DateTimes.ConvertedTimesAreValid | src/mssql/cell/from_arrow/temporal/time.rs:150-200 | Converted times are inside one day at their scale; date64 keeps its millisecond. |
| DateTimes.FixedOffsetsParse | src/mssql/cell/from_arrow/temporal/timezone.rs:98-167 | Both spellings of a fixed offset parse to the minutes they name, exactly up to fourteen hours. |
| Zones.SpelledIsParsed | src/mssql/cell/from_arrow/temporal/timezone.rs:98-167 | A sign with HH:MM, HHMM or HH, minutes below 60 and at most fourteen hours in all, is read as the minutes it names, with its sign. |
| Zones.ParsedIsSpelled | src/mssql/cell/from_arrow/temporal/timezone.rs:98-167 | Nothing else is read as a fixed offset. |
| Zones.ZoneResolves | src/mssql/cell/from_arrow/temporal/timezone.rs:51-69 | A timezone is usable exactly when it names UTC in any case, spells an offset, or is a known name without a sign; otherwise it is unsupported. |
| Zones.ZoneOffsetExact | src/mssql/cell/from_arrow/temporal/timezone.rs:25-96 | The offset of a usable timezone: 0 for UTC, the spelled minutes for a fixed offset, and for a name the database's offset at that instant, in whole minutes within fourteen hours. |
| Zones.ZoneOffsetFailure | src/mssql/cell/from_arrow/temporal/timezone.rs:25-96 | Only a name can fail at an instant: out of range where it has no single offset, unsupported where its offset is not whole minutes within fourteen hours. |
| Zones.PinnedOffsets | src/mssql/cell/from_arrow/temporal/timezone.rs:226-254 | Spellings that the unit tests pin, one of each form and both limits. |
| DateTimes.OffsetsAreBounded | src/mssql/cell/from_arrow/temporal/timezone.rs:25-96 | Every offset that any timezone yields is within fourteen hours. |
| Bytes.LERoundTrip | src/write/direct/types/temporal/value.rs:366-376 | Little-endian bytes read back as the number when it fits. |
| Bytes.SignedRoundTrip | src/write/direct/types/primitive.rs:631-644 | Two's complement little-endian bytes read back as the signed number. |
| Bytes.UnitsRoundTrip | src/write/direct/types/variable_width.rs:810-814 | UTF-16LE bytes read back as the code units. |
| Cells.FiniteIsExponentTest | src/mssql/cell/from_arrow/primitive.rs:54-71 | The finiteness check on bytes is the IEEE 754 exponent test on the word. |
| Cells.TimestampTicksExact | src/mssql/cell/from_arrow/temporal/datetime2.rs:150-210 | Ticks of every unit are the one tick that the policy names the source instant by: exact, last before, or nearest; only a part of a tick under the rejecting policy has none, and is lossy. |
| Cells.EpochPartsExact | src/mssql/cell/from_arrow/temporal/datetimeoffset.rs:209-255 | Seconds and nanoseconds add up to the instant, with nanoseconds in range. |
| Cells.TimeOfDayExact | src/mssql/cell/from_arrow/temporal/time.rs:96-200 | A time of day converts to a value if and only if that value is the valid time of the unit's scale holding it: the value itself, or for nanoseconds the tick the policy names. |
| Cells.TimeOfDayError | src/mssql/cell/from_arrow/temporal/time.rs:150-238 | It fails exactly outside the day, on a part of a tick under the rejecting policy, or when rounding would reach the next day (from 86,399,999,999,950 ns), with the code of each. |
| Wire.TakeFixedInverts | src/write/direct/types/primitive.rs:987-1073 | Nullable primitives read back, null told apart by length byte 0; non-nullable ones carry no length byte. |
| Wire.TakePrefixedInverts | src/write/direct/types/temporal/value.rs:61-123 | Length-byte cells read back, null told apart by 0. |
| Wire.TakeBoundedInverts | src/write/direct/types/variable_width.rs:566-574 | Two-byte-length cells below 0xFFFF bytes read back, null told apart from empty. |
| Wire.BoundedNullCollides | src/write/direct/types/fixed_size_binary.rs:207-224 | A value of exactly 0xFFFF bytes reads back as null: the bound is sharp. |
| Wire.TakeMaxInverts | src/write/direct/types/variable_width.rs:528-544 | Max cells (unknown length, one chunk, terminator only when not empty) read back, null told apart from empty. |
| Wire.DecimalPrecision | src/write/direct/types/decimal.rs:663-670 | The dividing loop counts the decimal digits. |
| Wire.DigitsExact | src/write/direct/types/decimal.rs:663-670 | n digits mean at least 10^(n-1) and less than 10^n. |
| Wire.MagnitudeFits | src/write/direct/types/decimal.rs:654-661 | The width chosen by digit count always holds the magnitude. |
| Wire.DecimalWidth | src/write/direct/types/decimal.rs:654-661 | A decimal's sign and magnitude take 5 bytes below 10^9, 9 below 10^19, 13 below 10^28 and 17 otherwise. |
| Wire.TimeWidths | src/write/direct/types/temporal/value.rs:61-123 | A time takes 3, 3, 3, 4, 4, 5, 5, 5 bytes at scales 0 to 7, and a datetime2 three more. |
| Wire.WordsAreLE | src/write/direct/types/decimal.rs:672-689 | The truncating word casts write exactly the little-endian magnitude. |
| Wire.DecimalRoundTrip | src/write/direct/types/decimal.rs:635-652 | Sign and magnitude read back as the unscaled number, for every `i128`. |
| Wire.DateTime2RoundTrip | src/write/direct/types/temporal/value.rs:105-123 | datetime2 bytes (time, then date) read back at every scale. |
| Wire.OffsetRoundTrip | src/write/direct/types/temporal/value.rs:156-183 | datetimeoffset bytes read back, negative offsets included. |
| Wire.DateTimeRoundTrip | src/write/direct/types/temporal/value.rs:140-153 | datetime bytes (days, then fragments) read back, days before 1900 included. |
| Wire.PinnedDecimals | src/write/direct/types/decimal.rs:718-760 | The decimal cells that the unit tests pin, one of every width: 0, plus and minus nine digits, 2^63, the largest u64, and thirty digits. |
| Wire.PinnedFramings | src/write/direct.rs:4452-4576 | The null and empty framings byte by byte: a null max cell is eight 0xFF bytes, an empty one the unknown length and an empty chunk, a null bounded cell 0xFFFF. |
| Wire.CellRoundTrip | src/write/direct/types/variable_width.rs:593-764 | Every framed cell of every column type is recovered from type and nullability alone, and the bytes after it are left untouched. |
| DirectCells.FixedLenIsMeasured | src/write/direct/rows/fixed_width.rs:902-995 | The fast path's plan-only cell lengths are what measuring the value reports. |
| Refinement.PrimitiveRefines | src/write/direct/types/primitive.rs:26-245 | Primitive columns: direct measuring and encoding refine the baseline cell. |
| Refinement.UInt64FitsTwentyDigits | src/write/direct/types/uint64.rs:117-130 | Every UInt64 fits decimal(20,0), so the direct path may skip the precision check. |
| Refinement.DecimalRefines | src/write/direct/types/decimal.rs:316-465 | Decimal columns: both paths normalise to the same integer or fail alike. |
| Refinement.TextRefines | src/write/direct/types/variable_width.rs:311-350 | nvarchar columns: accepted when the baseline accepts and the UTF-16 bytes fit the framing; the length read back from the measured cell is the one measured. |
| Refinement.BinaryRefines | src/write/direct/types/variable_width.rs:352-389 | varbinary columns, likewise. |
| Refinement.FixedBinaryRefines | src/write/direct/types/fixed_size_binary.rs:17-92 | binary(n) columns, likewise. |
| Refinement.TemporalBaseline | src/mssql/cell/from_arrow/temporal.rs:50-176 | Baseline and direct temporal conversion are the same computation behind the same timezone check, although the direct path has its own date conversions. |
| Refinement.DirectTemporalValid | src/write/direct/types/temporal/value.rs:293-364 | Conversion never produces a value that the cell writers' range checks would refuse. |
| Refinement.TemporalRefines | src/write/direct/types/temporal.rs:1143-1173 | Temporal columns: direct measuring and encoding refine the baseline cell. |
| Refinement.CellRefines | src/mssql/cell/from_arrow.rs:71-127 | For every supported mapping and value: measuring accepts exactly what the baseline converts and the framing can carry, reports the encoded length or the baseline's own diagnostic, and encoding then yields the wire form of the baseline cell. |
| Refinement.DirectCellReadsBack | src/write/direct/types/variable_width.rs:593-764 | The bytes of a measured cell read back as the baseline cell. |
| Refinement.PlannedIsReadable | src/schema/type_conversion.rs:121-144 | Planning never makes a mapping whose cells could be mistaken for null. |
| Refinement.FixedBinaryLimit | src/write/direct/types/fixed_size_binary.rs:130-224 | Hand-made binary(n): above 0xFFFF bytes a cell measures and then fails to encode; it reads back if and only if n <= 0xFFFE. |
| PlannedValues.PlanFailsExactly | src/schema/type_conversion.rs:11-304 | Planning fails exactly on the types, lengths, shapes and policy combinations listed, and on no other. |
| PlannedValues.PlanFailureCode | src/schema/type_conversion.rs:306-353 | The diagnostic code of each type that cannot be planned. |
| PlannedValues.ConversionNeedsSupport | src/mssql/cell/from_arrow.rs:71-127 | The baseline converts a value only between types that the direct path supports, for mappings made by hand too. |
| PlannedValues.Decimal38Scale38TakesOnlyNulls | src/conversion/arrow_to_mssql/decimal.rs:149-182 | A planned decimal(38,38) column refuses every value on the baseline path and takes nulls when nullable. |
| PlannedValues.PlannedNull | src/mssql/cell/from_arrow.rs:129-158 | A null of any other planned column is the column type's null, or refused when the column is not nullable. |
| PlannedValues.PlannedBitsAndFloats | src/mssql/cell/from_arrow/primitive.rs:9-71 | Bits are kept, and floats are kept bit for bit unless their IEEE exponent is all ones. |
| PlannedValues.PlannedIntegersAreLossless | src/schema/type_conversion.rs:16-24 | Planned integers convert to the same number and never fail, except UInt64 beyond `i64` under the checked bigint policy. |
| PlannedValues.PlannedTextCapacity | src/mssql/cell/from_arrow/variable_width.rs:14-48 | The string policy's limit is exactly the number of code units a planned column takes. |
| PlannedValues.PlannedBinaryCapacity | src/mssql/cell/from_arrow/variable_width.rs:50-86 | The binary policy's limit is exactly the number of bytes a planned column takes. |
| PlannedValues.PlannedFixedBinary | src/mssql/cell/from_arrow/variable_width.rs:88-115 | Every value of a planned fixed-size binary column converts, byte for byte. |
| PlannedValues.PlannedDecimalKeepsValue | src/mssql/cell/from_arrow/decimal.rs:14-88 | Every decimal of the declared precision converts under its plan to a cell of the same numeric value. |
| PlannedValues.PlannedDecimalExact | src/mssql/cell/from_arrow/decimal.rs:14-88 | A stored decimal converts if and only if, with the negative scale written out, it has at most p + max(0,-s) digits; the cell is then that integer at the planned scale, and otherwise the value is out of range. |
| PlannedTimes.PlannedTimestampType | src/schema/type_conversion.rs:264-304 | For every timezone and policy: a zoned timestamp is refused, planned as datetimeoffset(7) whatever the timestamp policy, or treated like one without a zone; that one plans to datetime, or to datetime2(p) exactly for p <= 7. |
| PlannedTimes.PlannedTimestampExact | src/mssql/cell/from_arrow/temporal.rs:50-176 | A planned timestamp converts to a cell if and only if the cell is the one that stands for its instant in the type the policies chose: a datetimeoffset holding the tick and the zone's offset at that instant, sign included, with local time in the years 1 to 9999; a datetime2 holding the nearest increment; a datetime holding the fragment of the profile's rounding. |
| PlannedTimes.PlannedTimestampError | src/mssql/cell/from_arrow/temporal/datetimeoffset.rs:67-207 | Why it fails otherwise, in the order of the checks: zone, offset, nanosecond policy, range. |
| PlannedTimes.PlannedNullTimestamp | src/mssql/cell/from_arrow/temporal.rs:101-288 | A null timestamp is refused in a non-nullable column, then for an unusable zone, and else is the null of its type. |
| PlannedTimes.PlannedDate32 | src/mssql/cell/from_arrow/temporal/date.rs:34-51 | A planned date32 is stored as that many days after 1970-01-01 in the proleptic Gregorian calendar, and converts exactly in the years 1 to 9999. |
| PlannedTimes.PlannedDate64 | src/mssql/cell/from_arrow/temporal.rs:134-176 | A planned date64 keeps its millisecond, and converts exactly in the years 1 to 9999. |
| PlannedTimes.PlannedTimeExact | src/mssql/cell/from_arrow/temporal/time.rs:21-200 | A planned time of day converts to a cell if and only if the cell is the valid time that holds it. |
| RowStream.RowsReadBack | src/write/direct.rs:4452-4462 | A concatenation of rows reads back as exactly those rows, with no row count and no lengths but those in the stream. |
| RowStream.RowStreamsAreUnambiguous | src/write/direct.rs:4452-4462 | One byte stream is the rows of at most one table. |
| RowStream.ReadRowsConcat | src/write/writer.rs:841-850 | Two streams sent one after the other read back as the rows of both. |
| PinnedRows.PinnedRow | src/write/direct.rs:4452-4576 | One whole row, token 0xD1 included: its bytes as encoded, and read back. |
| PinnedRows.PinnedTextRows | src/write/direct/types/variable_width.rs:1178-1198 | Three rows of a nullable nvarchar(max) column that the unit tests pin, read back as "a", the empty text and null. |
| PinnedRows.PinnedTemporal | src/write/direct/types/temporal.rs:1764-1832 | Date, time, datetime2 and datetime cells that the unit tests pin. |
| PinnedRows.PinnedOffsetCells | src/write/direct/types/temporal.rs:1834-1870 | datetimeoffset cells that the unit tests pin, with a positive and a negative offset. |
| Batches.ValidateEncodingShape | src/write/record_batch/validate.rs:92-186 | Accepts exactly batches with as many columns as mappings where mapping i has Arrow index i, the field its name, and field type and array type each are the planned type, or both are string types for nvarchar, or both byte-string types for varbinary; otherwise one schema mismatch points at the first missing or disagreeing field. |
| Batches.MssqlRow | src/write/record_batch.rs:116-125 | All cells in mapping order, or the diagnostic of the first failing cell; a row outside the batch is an error. |
| Batches.NewPlan | src/write/direct/plan.rs:212-235 | Every mapping gets its encoding, or all unsupported mappings are reported in order. |
| Batches.OneDiagnosticPerUnsupportedMapping | src/write/direct/plan.rs:212-257 | A refused plan has exactly one diagnostic per unsupported mapping, in mapping order, each pointing at its field. |
| Batches.ExtractionAndBindingAgree | src/arrow/cell.rs:83-308 | For a supported mapping and a compatible runtime array, extraction and binding both accept (their type-mismatch branches are unreachable) and read the same value at every row, across all string and binary representations. |
| Batches.BindDirectColumns | src/write/direct/binding.rs:124-446 | Binding a batch of the planned shape cannot fail and binds each column in plan order. |
| Batches.CellAgrees | src/write/record_batch.rs:109-113 | The cell that the direct path measures is the cell that the baseline converts. |
| Batches.BatchMeasuresExactly | src/write/direct/encoder.rs:110-122 | A batch measures if and only if the baseline converts every row and the framings can carry every cell. |
| Batches.DirectColumnsSound | src/write/direct/encoder.rs:110-146 | Measuring vouches for encoding: every measured cell encodes to exactly its measured bytes. |
| Batches.PayloadReadsBack | src/write/writer.rs:798-855 | Direct refines baseline: the payload of any row range reads back, from the target columns alone, as the baseline rows in order. |
| Failures.FailureExplained | src/write/direct/types/temporal.rs:1143-1173 | A cell that fails to measure fails with the baseline's code, except that a timestamp's zone is checked first; a payload failure means that the value converts but is too long; no cell fails with a schema mismatch. |
| Failures.FirstFailureReports | src/write/writer.rs:966-983 | The first failing cell in column order is the first one that cannot be sent, and its error carries the code, the field index and the row with the value conversion phase, or an invalid payload with the direct encoding phase. |
| Encoder.BindBatch | src/write/direct/binding.rs:52-58 | Binding turns an accepted batch into the payload engine's columns. |
| Encoder.MeasureBatch | src/write/direct/encoder.rs:110-122 | Succeeds exactly for accepted, convertible batches within `usize`; otherwise reports the shape, then the first cell in column order that cannot be sent, then the size, each with its own error and phase. |
| Encoder.EncodeWholeBatch | src/write/direct/rows/payload.rs:91-111 | The whole batch encodes exactly when it is accepted and encodable, to the row-major payload. |
| Writer.StatsStep | src/write/writer.rs:128-132 | Saturating at every step is saturating once at the end. |
| Writer.WriterState.constructor | src/write/writer.rs:94-101 | A new state is valid and has accepted nothing. |
| Writer.WriterState.RecordAcceptedBatch | src/write/writer.rs:128-132 | Adds one accepted batch and keeps the statistics equal to the saturated totals of all accepted batches. |
| Writer.NewWriterState | src/write/writer.rs:78-102 | A request for the baseline gets it, auto and raw get the raw backend, framed gets the framed one; it fails exactly when a request other than the baseline meets an unsupported mapping, and reports all of them. |
| Writer.RawRowsSink.Send | src/write/writer.rs:889-894 | A payload is logged whole, or the send fails and nothing is. |
| Writer.TokenRowSink.Send | src/write/writer.rs:744-757 | A row is logged, or the send fails and nothing is. |
| Writer.EncodeRange | src/write/writer.rs:880-924 | The payload route and the append route give the same bytes and offsets, and neither can fail for the measured batch. |
| Writer.SendMeasuredRawRows | src/write/writer.rs:872-948 | Nothing but the send itself can fail. |
| Writer.SendRanges | src/write/writer.rs:841-850 | The sink gets exactly the ranges before the first failing send. |
| Writer.MeasureAndSplit | src/write/writer.rs:815-838 | Measuring and splitting succeed exactly for measurable batches and leave the greedy ranges of at most 8,388,608 bytes; a failure carries the error and phase of the shape, the first cell that cannot be sent, or the size. |
| Writer.WriteDirectBatch | src/write/writer.rs:798-855 | All, none or a prefix: an unmeasurable batch leaves the sink untouched and names its cause and phase; otherwise the sink gets the ranges in order until a send fails with phase PacketWrite; statistics change only on success. |
| Writer.DeliveryReadsBack | src/write/writer.rs:798-855 | What the sink received reads back as the baseline rows up to the last delivered range, and as all rows on success. |
| Writer.ValidateBatchRows | src/write/writer.rs:326-332 | Succeeds exactly when every row converts; otherwise the first failing cell in row order. |
| Writer.SendTokenRows | src/write/writer.rs:715-723 | After a successful first pass the conversion branch is dead: only a send can stop it, after an exact row prefix. |
| Writer.WriteBaselineBatch | src/write/writer.rs:693-727 | Shape errors, then the first conversion error in row order, send nothing and have their own phases; otherwise an exact prefix of the semantic rows is sent, and statistics change only when all are. |
| Writer.WriteBatch | src/write/writer.rs:248-258 | The baseline writes rows and the direct backends raw ranges, with everything those two writes promise; either leaves the other's sink alone. |
| Writer.Finish | src/write/writer.rs:267-282 | A successful finish returns exactly the statistics of the accepted batches. |
| Writer.Session | src/write/writer.rs:248-282 | Over any sequence of writes with any failures the server gets, in order, all rows of each accepted batch and a proper prefix of each other one; what the direct backend sent reads back as exactly those rows; finish reports min(2^64-1, rows) and min(2^64-1, batches) of the accepted batches. |
| Ddl.CreateTableSql | src/mssql/ddl.rs:10-31 | The string grown in the loop is the statement of the recursive grammar. |
| Ddl.IdentifierExact | src/mssql/identifier.rs:89-116 | An identifier is accepted, unchanged, exactly with 1 to 128 characters and no C0 or C1 control or delete. |
| Ddl.PinnedTypes | src/mssql/ty.rs:130-211 | The renderings of types that the unit tests pin. |
| Ddl.PinnedStatement | src/mssql/ddl.rs:39-58 | A statement that the unit tests pin, line by line. |
| Ddl.PinnedQuoting | src/mssql/ddl.rs:60-75 | A name with a closing bracket that the unit tests pin. |
| DdlParser.QuotedInverts | src/mssql/identifier.rs:118-121 | Doubled-bracket quoting is uniquely decodable before any follower but a closing bracket. |
| DdlParser.TableNameInverts | src/mssql/identifier.rs:81-86 | A one-part or two-part quoted table name reads back, dots and brackets inside included. |
| DdlParser.TypeInverts | src/mssql/ty.rs:104-123 | Every rendered type reads back with all its parameters, negative scales included. |
| DdlParser.ColumnInverts | src/mssql/column.rs:34-41 | A rendered column reads back with name, type and nullability. |
| DdlParser.TableInverts | src/mssql/ddl.rs:10-31 | Reading undoes rendering for every table name and column list. |
| DdlParser.TableSqlIsInjective | src/mssql/ddl.rs:10-31 | Different tables never share a statement. |
| Schema.PlanFieldExact | src/schema/table_mapping.rs:153-174 | A field plans exactly when its name has 1 to 128 characters without controls and its type plans; index, name, type and nullability are kept; a failure has the code of the name or else of the type, and the field index. |
| Schema.PlanSchema | src/schema/table_mapping.rs:106-129 | All mappings in field order (with the types of `PlannedTimes.PlannedTimestampType` for timestamps), or the planning diagnostics. |
| Schema.OneDiagnosticPerFailingField | src/schema/table_mapping.rs:114-123 | A failed plan has exactly one diagnostic per failing field, in schema order. |
| Schema.CreateTableSqlFromMappings | src/schema/table_mapping.rs:132-151 | The rendered statement reads back as the mappings' columns. |
| Schema.ValidateBulkTargetColumns | src/write/writer.rs:334-402 | Accepts exactly the column lists equal in length, ordinals, names and nullability; reports schema mismatches otherwise. |
| Schema.PlanPrintReadValidate | src/schema/table_mapping.rs:106-174 | Plan, print, read back, validate: the columns read back from the statement are the planned ones and pass target validation. |
| Schema.PlannedSchemasAreWritable | src/write/writer.rs:78-102 | A planned schema is always writable; a direct writer refuses it exactly when some column is decimal(38,38). |

## Left out

- Network, TLS, async execution and `tiberius`: replaced by sinks that log what they accept and may fail at any call; `token_row.rs` is the identity on cells.
- Observability, benchmark counters and the switches in `src/write/profile.rs` that disable the fast path: they do not change results.
- Error texts and backtraces: a diagnostic keeps code, field index and row; row numbers of errors on a sliced batch are those of the whole batch.
- `MssqlProfile` construction: the `datetime` rounding it selects is a parameter.
- Timezone database: named zones are a given table of offsets; fixed offsets are parsed as in the code.
- UTF-8 text: strings in arrays are their UTF-16 code units; transcoding is not part of this model.
- IEEE arithmetic: a float is its little-endian image and a 16-bit float is already widened.
- Arrow array internals: an array is a type tag and a sequence of optional values.
- `expected_direct_bulk_column_type` and the target type check: a table from encodings to driver type tags with no further property.
- Encoder.EncodeWholeBatch: when several cells are bad, the fast path may report another one first (it finds nulls while measuring and bad values while filling); the model keeps one measured outcome per cell, so only success or failure is stated.
- Rows.EncodeMeasuredRangeInto: requires that the measured batch was measured from this batch; appending nvarchar cells with the lengths of some other batch of equal shape is not modelled.
- Writer.NewWriterState: requires mappings whose binary(n) has n <= 0xFFFE, which holds for every planned schema (`Schema.PlannedSchemasAreWritable`); what happens beyond is `Refinement.FixedBinaryLimit`.
- `encode_batch_range` without a measured batch: the writer does not use it.
- Plan compatibility checks of callers (`validate_arrow_schema_against_mappings`): the encoding check plus nullability equality.
- Write options, table lookups and target metadata queries of `BulkWriter::new`: only the state construction and column validation are modelled.
