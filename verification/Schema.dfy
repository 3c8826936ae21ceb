/** Planning whole schemas, rendering them, and validating bulk target columns
    against them (src/schema/table_mapping.rs, src/write/writer.rs). */
module Schema {
  import opened Basics
  import opened Errors
  import opened Types
  import Planner
  import opened Classifiers
  import opened Ddl
  import opened DdlParser
  import opened Refinement
  import opened Batches
  import opened Writer

  // ------------------------------------------------------------ planning

  function FieldDiagnostic(code: DiagnosticCode, index: nat): Diagnostic {
    Diagnostic(code, Some(index), None)
  }

  /** `plan_arrow_field_to_mssql_column_mapping`. */
  function PlanField(index: nat, field: Field, options: PlanOptions): Result<SchemaMapping, Diagnostic> {
    var name := NewIdentifier(field.name);
    if name.Err? then Err(FieldDiagnostic(name.error, index)) else
    var ty := Planner.PlanType(field.dataType, options);
    if ty.Err? then Err(FieldDiagnostic(ty.error, index)) else
    Ok(SchemaMapping(ArrowFieldRef(index, field.name, field.nullable, field.dataType), MssqlColumn(name.value, ty.value, field.nullable)))
  }

  /** A field plans exactly when its name is a valid identifier and its type plans; the
      mapping keeps index, name, type and nullability on both sides. */
  lemma PlanFieldExact(index: nat, field: Field, options: PlanOptions)
    ensures PlanField(index, field, options).Ok? <==>
      && 1 <= |field.name| <= 128
      && (forall i :: 0 <= i < |field.name| ==> field.name[i] as int >= 0x20 && !(0x7F <= field.name[i] as int <= 0x9F))
      && Planner.PlanType(field.dataType, options).Ok?
    ensures PlanField(index, field, options).Ok? ==>
      var mapping := PlanField(index, field, options).value;
      && mapping.arrow == ArrowFieldRef(index, field.name, field.nullable, field.dataType)
      && mapping.mssql.name == field.name && mapping.mssql.nullable == field.nullable
      && Planned(mapping, options)
    ensures PlanField(index, field, options).Err? ==>
      PlanField(index, field, options).error ==
        Diagnostic(if NewIdentifier(field.name).Err? then IdentifierInvalid else Planner.PlanType(field.dataType, options).error, Some(index), None)
  {
    IdentifierExact(field.name);
    hide Planner.PlanType, NewIdentifier;
  }

  /** The diagnostics of the failing fields among the first `n`, in schema order. */
  function PlanDiagnostics(fields: seq<Field>, options: PlanOptions, n: nat): seq<Diagnostic>
    requires n <= |fields|
  {
    if n == 0 then []
    else
      match PlanField(n - 1, fields[n - 1], options)
      case Ok(_) => PlanDiagnostics(fields, options, n - 1)
      case Err(diagnostic) => PlanDiagnostics(fields, options, n - 1) + [diagnostic]
  }

  ghost predicate PlansTo(fields: seq<Field>, options: PlanOptions, mappings: seq<SchemaMapping>) {
    |mappings| == |fields| && forall i :: 0 <= i < |fields| ==> PlanField(i, fields[i], options) == Ok(mappings[i])
  }

  /** `plan_arrow_schema_to_mssql_schema_inner`. */
  method PlanSchema(fields: seq<Field>, options: PlanOptions) returns (r: Result<seq<SchemaMapping>, Error>)
    ensures r.Ok? <==> forall i :: 0 <= i < |fields| ==> PlanField(i, fields[i], options).Ok?
    ensures r.Ok? ==> PlansTo(fields, options, r.value)
    ensures r.Err? ==> r.error == Planning(PlanDiagnostics(fields, options, |fields|))
  {
    hide PlanField;
    var mappings: seq<SchemaMapping> := [];
    var diagnostics: seq<Diagnostic> := [];
    for index := 0 to |fields|
      invariant diagnostics == PlanDiagnostics(fields, options, index)
      invariant |diagnostics| == 0 <==> forall i :: 0 <= i < index ==> PlanField(i, fields[i], options).Ok?
      invariant |diagnostics| == 0 ==>
        |mappings| == index && forall i :: 0 <= i < index ==> PlanField(i, fields[i], options) == Ok(mappings[i])
    {
      match PlanField(index, fields[index], options) {
        case Ok(mapping) => mappings := mappings + [mapping];
        case Err(diagnostic) => diagnostics := diagnostics + [diagnostic];
      }
    }
    if |diagnostics| != 0 {
      return Err(Planning(diagnostics));
    }
    return Ok(mappings);
  }

  /** The field a planning diagnostic points at. */
  function FieldOf(diagnostic: Diagnostic): int {
    if diagnostic.field.Some? then diagnostic.field.value else -1
  }

  /** A failed plan reports exactly one diagnostic per failing field, in schema order. */
  lemma {:induction false} OneDiagnosticPerFailingField(fields: seq<Field>, options: PlanOptions, n: nat)
    requires n <= |fields|
    ensures
      var diagnostics := PlanDiagnostics(fields, options, n);
      && (forall k :: 0 <= k < |diagnostics| ==>
            0 <= FieldOf(diagnostics[k]) < n && PlanField(FieldOf(diagnostics[k]), fields[FieldOf(diagnostics[k])], options) == Err(diagnostics[k]))
      && (forall j, k :: 0 <= j < k < |diagnostics| ==> FieldOf(diagnostics[j]) < FieldOf(diagnostics[k]))
      && (forall i :: 0 <= i < n && PlanField(i, fields[i], options).Err? ==> PlanField(i, fields[i], options).error in diagnostics)
  {
    if n != 0 {
      hide PlanField, NewIdentifier, Planner.PlanType, Planned;
      OneDiagnosticPerFailingField(fields, options, n - 1);
      PlanFieldExact(n - 1, fields[n - 1], options);
      var before, diagnostics := PlanDiagnostics(fields, options, n - 1), PlanDiagnostics(fields, options, n);
      forall i | 0 <= i < n && PlanField(i, fields[i], options).Err?
        ensures PlanField(i, fields[i], options).error in diagnostics
      {
        if i == n - 1 {
          assert diagnostics[|before|] == PlanField(i, fields[i], options).error;
        } else {
          assert PlanField(i, fields[i], options).error in before;
        }
      }
    }
  }

  // ----------------------------------------------------------- rendering

  /** `mssql_columns_from_mappings`, then `create_table_sql`. */
  method CreateTableSqlFromMappings(table: TableName, mappings: seq<SchemaMapping>) returns (sql: string)
    ensures sql == TableSql(table, TargetColumns(mappings))
    ensures ReadTable(sql) == Some((table, TargetColumns(mappings)))
  {
    hide TableSql, ReadTable;
    sql := CreateTableSql(table, TargetColumns(mappings));
    TableInverts(table, TargetColumns(mappings));
  }

  // ---------------------------------------------------- bulk target columns

  /** Metadata of one updateable target column. */
  datatype BulkColumn = BulkColumn(ordinal: nat, name: string, nullable: bool)

  predicate ColumnMatches(column: BulkColumn, position: nat, mapping: SchemaMapping) {
    column.ordinal == position && column.name == mapping.mssql.name && column.nullable == mapping.mssql.nullable
  }

  /** `validate_bulk_target_column`: one diagnostic per differing property. */
  function ColumnMismatches(column: BulkColumn, position: nat, mapping: SchemaMapping): seq<Diagnostic> {
    var mismatch := Diagnostic(SchemaMismatch, Some(mapping.arrow.index), None);
    (if column.ordinal != position then [mismatch] else [])
    + (if column.name != mapping.mssql.name then [mismatch] else [])
    + (if column.nullable != mapping.mssql.nullable then [mismatch] else [])
  }

  lemma MismatchReported(column: BulkColumn, position: nat, mapping: SchemaMapping)
    requires !ColumnMatches(column, position, mapping)
    ensures Diagnostic(SchemaMismatch, Some(mapping.arrow.index), None) in ColumnMismatches(column, position, mapping)
  {
  }

  /** `validate_bulk_target_columns` accepts exactly the column lists equal in length,
      ordinals, names and nullability, and reports schema mismatches otherwise. */
  method ValidateBulkTargetColumns(columns: seq<BulkColumn>, mappings: seq<SchemaMapping>) returns (r: Result<(), Error>)
    ensures r.Ok? <==>
      && |columns| == |mappings|
      && forall i :: 0 <= i < |columns| ==>
           && columns[i].ordinal == i
           && columns[i].name == mappings[i].mssql.name
           && columns[i].nullable == mappings[i].mssql.nullable
    ensures r.Err? ==> r.error.ValueConversion? && OnlySchemaMismatches(r.error.diagnostics)
    ensures r.Err? ==> forall i :: 0 <= i < |columns| && i < |mappings| && !ColumnMatches(columns[i], i, mappings[i]) ==>
      Diagnostic(SchemaMismatch, Some(mappings[i].arrow.index), None) in r.error.diagnostics
  {
    var diagnostics: seq<Diagnostic> := [];
    if |columns| != |mappings| {
      diagnostics := diagnostics + [Diagnostic(SchemaMismatch, None, None)];
    }
    var shared := Min(|columns|, |mappings|);
    for position := 0 to shared
      invariant OnlySchemaMismatches(diagnostics)
      invariant |diagnostics| == 0 <==> |columns| == |mappings| && forall i :: 0 <= i < position ==> ColumnMatches(columns[i], i, mappings[i])
      invariant forall i :: 0 <= i < position && !ColumnMatches(columns[i], i, mappings[i]) ==>
        Diagnostic(SchemaMismatch, Some(mappings[i].arrow.index), None) in diagnostics
    {
      if !ColumnMatches(columns[position], position, mappings[position]) {
        MismatchReported(columns[position], position, mappings[position]);
      }
      diagnostics := diagnostics + ColumnMismatches(columns[position], position, mappings[position]);
    }
    if |diagnostics| != 0 {
      return Err(ValueConversion(diagnostics));
    }
    return Ok(());
  }

  /** The target columns of a table created from a statement: ordinal is position. */
  function BulkColumns(columns: seq<MssqlColumn>): (r: seq<BulkColumn>)
    ensures |r| == |columns|
  {
    seq(|columns|, i requires 0 <= i < |columns| => BulkColumn(i, columns[i].name, columns[i].nullable))
  }

  /** Plan, print, read back, validate: the statement rendered for a planned schema reads
      back as its columns, and a table created from it passes target validation. */
  lemma PlanPrintReadValidate(fields: seq<Field>, options: PlanOptions, mappings: seq<SchemaMapping>, table: TableName)
    requires PlansTo(fields, options, mappings)
    ensures
      var read := ReadTable(TableSql(table, TargetColumns(mappings)));
      && read.Some? && read.value.0 == table && |read.value.1| == |fields|
      && forall i :: 0 <= i < |fields| ==>
           var column := read.value.1[i];
           && column.name == fields[i].name && column.nullable == fields[i].nullable
           && Planner.PlanType(fields[i].dataType, options) == Ok(column.ty)
           && mappings[i].arrow == ArrowFieldRef(i, fields[i].name, fields[i].nullable, fields[i].dataType)
           && ColumnMatches(BulkColumns(read.value.1)[i], i, mappings[i])
  {
    hide ReadTable, TableSql, Planner.PlanType, PlanField, Planned;
    TableInverts(table, TargetColumns(mappings));
    forall i | 0 <= i < |fields|
      ensures Planned(mappings[i], options)
      ensures mappings[i].arrow == ArrowFieldRef(i, fields[i].name, fields[i].nullable, fields[i].dataType)
      ensures mappings[i].mssql.name == fields[i].name && mappings[i].mssql.nullable == fields[i].nullable
      ensures Planner.PlanType(fields[i].dataType, options) == Ok(mappings[i].mssql.ty)
    {
      PlanFieldExact(i, fields[i], options);
      PlannedType(mappings[i], options);
    }
  }

  lemma PlannedType(mapping: SchemaMapping, options: PlanOptions)
    requires Planned(mapping, options)
    ensures Planner.PlanType(mapping.arrow.dataType, options) == Ok(mapping.mssql.ty)
  {
  }

  // ------------------------------------------------- planned schemas write

  /** Mappings that planning made, from fields inside their Rust types. */
  ghost predicate PlannedFrom(fields: seq<Field>, options: PlanOptions, mappings: seq<SchemaMapping>) {
    PlansTo(fields, options, mappings) && forall i :: 0 <= i < |fields| ==> InRange(fields[i].dataType)
  }

  /** Every planned schema can be written; a direct writer refuses it exactly when some
      column is decimal(38,38). */
  lemma PlannedSchemasAreWritable(fields: seq<Field>, options: PlanOptions, mappings: seq<SchemaMapping>)
    requires PlannedFrom(fields, options, mappings)
    ensures WritableMappings(mappings)
    ensures (forall i :: 0 <= i < |mappings| ==> SupportMapping(mappings[i]).Some?)
      <==> (forall i :: 0 <= i < |mappings| ==> mappings[i].mssql.ty != MssqlType.Decimal(38, 38))
  {
    forall i | 0 <= i < |mappings|
      ensures Readable(mappings[i].mssql.ty) && InRange(mappings[i].arrow.dataType)
      ensures SupportMapping(mappings[i]).Some? <==> mappings[i].mssql.ty != MssqlType.Decimal(38, 38)
    {
      PlanFieldExact(i, fields[i], options);
      PlannedIsReadable(mappings[i], options);
      PlannedMappingsClassify(mappings[i], options);
      hide SupportMapping, PlanField, Planned, AcceptingFamilies, Readable;
    }
  }
}
