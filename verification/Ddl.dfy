/** Rendering identifiers, types, columns and CREATE TABLE statements
    (src/mssql/identifier.rs, ty.rs, column.rs, ddl.rs). */
module Ddl {
  import opened Basics
  import opened Errors
  import opened Types

  const MAX_IDENTIFIER_CHARS: nat := 128

  datatype TableName = TableName(schema: Option<string>, table: string)

  // --------------------------------------------------------- identifiers

  /** `char::is_control`. */
  predicate IsControl(c: char) {
    c as int < 0x20 || 0x7F <= c as int < 0xA0
  }

  /** `validate_identifier`. */
  function NewIdentifier(value: string): Result<string, DiagnosticCode> {
    if |value| == 0 then Err(IdentifierInvalid)
    else if exists i :: 0 <= i < |value| && IsControl(value[i]) then Err(IdentifierInvalid)
    else if |value| > MAX_IDENTIFIER_CHARS then Err(IdentifierInvalid)
    else Ok(value)
  }

  /** An identifier is 1 to 128 characters, none of them a C0 or C1 control or delete, and
      is kept as it is. */
  lemma IdentifierExact(value: string)
    ensures NewIdentifier(value) ==
      if 1 <= |value| <= 128 && (forall i :: 0 <= i < |value| ==> value[i] as int >= 0x20 && !(0x7F <= value[i] as int <= 0x9F))
      then Ok(value) else Err(IdentifierInvalid)
  {
    forall i | 0 <= i < |value| ensures IsControl(value[i]) <==> value[i] as int < 0x20 || 0x7F <= value[i] as int <= 0x9F {
    }
    hide IsControl;
  }

  /** `value.replace(']', "]]")`. */
  function Escape(value: string): string {
    if |value| == 0 then ""
    else if value[0] == ']' then "]]" + Escape(value[1..])
    else [value[0]] + Escape(value[1..])
  }

  function BracketQuote(value: string): string {
    "[" + (Escape(value) + "]")
  }

  function QuotedTable(table: TableName): string {
    match table.schema
    case Some(schema) => BracketQuote(schema) + ("." + BracketQuote(table.table))
    case None => BracketQuote(table.table)
  }

  // --------------------------------------------------------------- types

  function DigitChar(d: nat): char
    requires d < 10
  {
    ('0' as int + d) as char
  }

  function NatToString(n: nat): string {
    if n < 10 then [DigitChar(n)] else NatToString(n / 10) + [DigitChar(n % 10)]
  }

  function IntToString(n: int): string {
    if n < 0 then "-" + NatToString(-n) else NatToString(n)
  }

  function LengthSql(length: TypeLength): string {
    match length
    case Bounded(limit) => NatToString(limit)
    case Max => "max"
  }

  /** The type's keyword. */
  function Keyword(ty: MssqlType): string {
    match ty
    case Bit => "bit"
    case TinyInt => "tinyint"
    case SmallInt => "smallint"
    case Int => "int"
    case BigInt => "bigint"
    case Real => "real"
    case Float(_) => "float"
    case NVarChar(_) => "nvarchar"
    case VarBinary(_) => "varbinary"
    case FixedBinary(_) => "binary"
    case Decimal(_, _) => "decimal"
    case Date => "date"
    case Time(_) => "time"
    case DateTime => "datetime"
    case DateTime2(_) => "datetime2"
    case DateTimeOffset(_) => "datetimeoffset"
  }

  /** What stands between the parentheses, if there are any. */
  function Arguments(ty: MssqlType): Option<string> {
    match ty
    case Float(p) => Some(NatToString(p))
    case NVarChar(length) => Some(LengthSql(length))
    case VarBinary(length) => Some(LengthSql(length))
    case FixedBinary(n) => Some(NatToString(n))
    case Decimal(p, s) => Some(NatToString(p) + ("," + IntToString(s)))
    case Time(p) => Some(NatToString(p))
    case DateTime2(p) => Some(NatToString(p))
    case DateTimeOffset(p) => Some(NatToString(p))
    case _ => None
  }

  /** `MssqlType::to_sql`. */
  function TypeSql(ty: MssqlType): string {
    match Arguments(ty)
    case None => Keyword(ty)
    case Some(arguments) => Keyword(ty) + ("(" + (arguments + ")"))
  }

  // ------------------------------------------------- columns and tables

  /** `MssqlColumn::to_sql`. */
  function ColumnSql(column: MssqlColumn): string {
    BracketQuote(column.name) + (" " + (TypeSql(column.ty) + if column.nullable then " NULL" else " NOT NULL"))
  }

  /** The column lines of a statement. */
  function ColumnLines(columns: seq<MssqlColumn>): string {
    if |columns| == 0 then ""
    else "\n    " + (ColumnSql(columns[0]) + ((if |columns| == 1 then "" else ",") + ColumnLines(columns[1..])))
  }

  function TableSql(table: TableName, columns: seq<MssqlColumn>): string {
    "CREATE TABLE " + (QuotedTable(table) + (" (" + (ColumnLines(columns) + "\n);")))
  }

  /** The text of the first `n` columns, while others follow when `n` is not the end. */
  function LinesUpTo(columns: seq<MssqlColumn>, n: nat): string
    requires n <= |columns|
  {
    if n == 0 then ""
    else LinesUpTo(columns, n - 1) + "\n    " + ColumnSql(columns[n - 1]) + if n == |columns| then "" else ","
  }

  lemma {:induction false} LinesUpToRest(columns: seq<MssqlColumn>, n: nat)
    requires n <= |columns|
    ensures LinesUpTo(columns, n) + ColumnLines(columns[n..]) == ColumnLines(columns)
  {
    if n == 0 {
      assert columns[0..] == columns;
    } else {
      LinesUpToRest(columns, n - 1);
      var rest := columns[n - 1..];
      assert rest[0] == columns[n - 1] && rest[1..] == columns[n..];
      var line := ColumnSql(columns[n - 1]);
      var suffix := if n == |columns| then "" else ",";
      var before, after := LinesUpTo(columns, n - 1), ColumnLines(columns[n..]);
      assert ColumnLines(rest) == "\n    " + (line + (suffix + after));
      hide ColumnSql, ColumnLines;
      Associates(before + "\n    " + line, suffix, after);
      Associates(before + "\n    ", line, suffix + after);
      Associates(before, "\n    ", line + (suffix + after));
    }
  }

  /** `create_table_sql`: grow the statement column by column. */
  method CreateTableSql(table: TableName, columns: seq<MssqlColumn>) returns (sql: string)
    ensures sql == TableSql(table, columns)
  {
    var header := "CREATE TABLE " + QuotedTable(table) + " (";
    Framed(table, columns);
    hide *;
    sql := header;
    if |columns| == 0 {
      sql := sql + "\n);";
      Framed(table, []);
      NoLines(header);
      assert columns == [];
      return;
    }
    NoLinesYet(columns, header);
    for index := 0 to |columns|
      invariant sql == header + LinesUpTo(columns, index)
    {
      var suffix := if index + 1 == |columns| then "" else ",";
      sql := sql + "\n    ";
      sql := sql + ColumnSql(columns[index]);
      sql := sql + suffix;
      NextLine(columns, index, header);
    }
    AllLines(columns);
    sql := sql + "\n);";
  }

  /** The statement is the header, the lines and the footer. */
  lemma Framed(table: TableName, columns: seq<MssqlColumn>)
    ensures TableSql(table, columns) == ("CREATE TABLE " + QuotedTable(table) + " (") + ColumnLines(columns) + "\n);"
  {
    hide QuotedTable, ColumnLines;
    var name, lines := QuotedTable(table), ColumnLines(columns);
    Associates("CREATE TABLE " + name + " (", lines, "\n);");
    Associates("CREATE TABLE " + name, " (", lines + "\n);");
    Associates("CREATE TABLE ", name, " (" + (lines + "\n);"));
  }

  lemma NoLines(header: string)
    ensures header + ColumnLines([]) + "\n);" == header + "\n);"
  {
    assert header + "" == header;
  }

  lemma NoLinesYet(columns: seq<MssqlColumn>, header: string)
    ensures header + LinesUpTo(columns, 0) == header
  {
  }

  lemma NextLine(columns: seq<MssqlColumn>, index: nat, header: string)
    requires index < |columns|
    ensures
      header + LinesUpTo(columns, index) + "\n    " + ColumnSql(columns[index]) + (if index + 1 == |columns| then "" else ",")
      == header + LinesUpTo(columns, index + 1)
  {
    var before, line := LinesUpTo(columns, index), ColumnSql(columns[index]);
    var suffix := if index + 1 == |columns| then "" else ",";
    assert LinesUpTo(columns, index + 1) == before + "\n    " + line + suffix;
    hide *;
    Associates(header, before, "\n    ");
    Associates(header, before + "\n    ", line);
    Associates(header, before + "\n    " + line, suffix);
  }

  lemma AllLines(columns: seq<MssqlColumn>)
    ensures LinesUpTo(columns, |columns|) == ColumnLines(columns)
  {
    LinesUpToRest(columns, |columns|);
    assert columns[|columns|..] == [];
    assert LinesUpTo(columns, |columns|) + "" == LinesUpTo(columns, |columns|);
  }

  // ------------------------------------------------------ pinned renderings

  lemma PinnedNumbers()
    ensures NatToString(7) == "7" && NatToString(9) == "9" && NatToString(38) == "38" && NatToString(53) == "53"
    ensures NatToString(128) == "128" && NatToString(8000) == "8000"
  {
    assert NatToString(12) == "12" && NatToString(3) == "3" && NatToString(5) == "5";
    assert NatToString(8) == "8" && NatToString(80) == "80" && NatToString(800) == "800";
  }

  lemma PinnedFloat()
    ensures TypeSql(MssqlType.Float(53)) == "float(53)"
  {
    PinnedNumbers();
    hide NatToString;
  }

  lemma PinnedTextMax()
    ensures TypeSql(NVarChar(Max)) == "nvarchar(max)"
  {
    PinnedNumbers();
    hide NatToString;
  }

  lemma PinnedText()
    ensures TypeSql(NVarChar(Bounded(128))) == "nvarchar(128)"
  {
    PinnedNumbers();
    hide NatToString;
  }

  lemma PinnedBytesMax()
    ensures TypeSql(VarBinary(Max)) == "varbinary(max)"
  {
    PinnedNumbers();
    hide NatToString;
  }

  lemma PinnedBytes()
    ensures TypeSql(VarBinary(Bounded(8000))) == "varbinary(8000)"
  {
    PinnedNumbers();
    hide NatToString;
  }

  lemma PinnedDecimal()
    ensures TypeSql(MssqlType.Decimal(38, 9)) == "decimal(38,9)"
  {
    PinnedNumbers();
    hide NatToString;
  }

  lemma PinnedTime()
    ensures TypeSql(Time(7)) == "time(7)"
  {
    PinnedNumbers();
    hide NatToString;
  }

  lemma PinnedDateTime2()
    ensures TypeSql(DateTime2(7)) == "datetime2(7)"
  {
    PinnedNumbers();
    hide NatToString;
  }

  lemma PinnedDateTimeOffset()
    ensures TypeSql(DateTimeOffset(7)) == "datetimeoffset(7)"
  {
    PinnedNumbers();
    hide NatToString;
  }

  /** Types that the repository's tests pin letter by letter. */
  lemma PinnedTypes()
    ensures TypeSql(Bit) == "bit" && TypeSql(TinyInt) == "tinyint" && TypeSql(SmallInt) == "smallint" && TypeSql(Int) == "int"
    ensures TypeSql(BigInt) == "bigint" && TypeSql(Real) == "real" && TypeSql(Date) == "date" && TypeSql(DateTime) == "datetime"
    ensures TypeSql(MssqlType.Float(53)) == "float(53)"
    ensures TypeSql(NVarChar(Max)) == "nvarchar(max)"
    ensures TypeSql(NVarChar(Bounded(128))) == "nvarchar(128)"
    ensures TypeSql(VarBinary(Max)) == "varbinary(max)"
    ensures TypeSql(VarBinary(Bounded(8000))) == "varbinary(8000)"
    ensures TypeSql(MssqlType.Decimal(38, 9)) == "decimal(38,9)"
    ensures TypeSql(Time(7)) == "time(7)"
    ensures TypeSql(DateTime2(7)) == "datetime2(7)"
    ensures TypeSql(DateTimeOffset(7)) == "datetimeoffset(7)"
  {
    assert TypeSql(Bit) == "bit" && TypeSql(TinyInt) == "tinyint" && TypeSql(SmallInt) == "smallint" && TypeSql(Int) == "int";
    assert TypeSql(BigInt) == "bigint" && TypeSql(Real) == "real" && TypeSql(Date) == "date" && TypeSql(DateTime) == "datetime";
    hide TypeSql;
    PinnedFloat();
    PinnedTextMax();
    PinnedText();
    PinnedBytesMax();
    PinnedBytes();
    PinnedDecimal();
    PinnedTime();
    PinnedDateTime2();
    PinnedDateTimeOffset();
  }

  lemma {:induction false} QuotedWord(word: string)
    requires forall i :: 0 <= i < |word| ==> word[i] != ']'
    ensures Escape(word) == word && BracketQuote(word) == "[" + word + "]"
  {
    if |word| != 0 {
      QuotedWord(word[1..]);
    }
  }

  lemma IdColumn()
    ensures ColumnSql(MssqlColumn("id", Int, false)) == "[id] int NOT NULL"
  {
    hide *;
    QuotedWord("id");
    PinnedTypes();
    ColumnParts(MssqlColumn("id", Int, false));
    assert "[" + "id" + "]" == "[id]";
    assert " " + ("int" + " NOT NULL") == " int NOT NULL";
  }

  lemma NameColumn()
    ensures ColumnSql(MssqlColumn("name", NVarChar(Max), true)) == "[name] nvarchar(max) NULL"
  {
    hide *;
    QuotedWord("name");
    PinnedTextMax();
    ColumnParts(MssqlColumn("name", NVarChar(Max), true));
    assert "[" + "name" + "]" == "[name]";
    assert " " + ("nvarchar(max)" + " NULL") == " nvarchar(max) NULL";
  }

  lemma ColumnParts(column: MssqlColumn)
    ensures ColumnSql(column) == BracketQuote(column.name) + (" " + (TypeSql(column.ty) + (if column.nullable then " NULL" else " NOT NULL")))
  {
  }

  lemma TwoLines(first: MssqlColumn, last: MssqlColumn)
    ensures ColumnLines([first, last]) == "\n    " + ColumnSql(first) + "," + "\n    " + ColumnSql(last)
  {
    hide ColumnSql;
    assert [first, last][1..] == [last] && [last][1..] == [];
    assert ColumnLines([last]) == "\n    " + (ColumnSql(last) + ("" + ColumnLines([])));
    assert ColumnLines([first, last]) == "\n    " + (ColumnSql(first) + ("," + ColumnLines([last])));
  }

  lemma DboTarget()
    ensures QuotedTable(TableName(Some("dbo"), "target")) == "[dbo].[target]"
  {
    hide *;
    QuotedWord("dbo");
    QuotedWord("target");
    TableParts("dbo", "target");
    assert "[" + "dbo" + "]" == "[dbo]" && "[" + "target" + "]" == "[target]";
    assert "[dbo]" + ("." + "[target]") == "[dbo].[target]";
  }

  lemma TableParts(schema: string, table: string)
    ensures QuotedTable(TableName(Some(schema), table)) == BracketQuote(schema) + ("." + BracketQuote(table))
  {
  }

  lemma TargetHeader()
    ensures "CREATE TABLE " + QuotedTable(TableName(Some("dbo"), "target")) + " (" == "CREATE TABLE [dbo].[target] ("
  {
    DboTarget();
    hide QuotedTable;
  }

  lemma IdLine()
    ensures "\n    " + ColumnSql(MssqlColumn("id", Int, false)) + "," == "\n    [id] int NOT NULL,"
  {
    IdColumn();
    hide ColumnSql;
  }

  lemma NameLine()
    ensures "\n    " + ColumnSql(MssqlColumn("name", NVarChar(Max), true)) == "\n    [name] nvarchar(max) NULL"
  {
    NameColumn();
    hide ColumnSql;
  }

  /** A table of two columns: a statement that the repository's tests pin, line by line. */
  lemma PinnedStatement()
    ensures
      TableSql(TableName(Some("dbo"), "target"), [MssqlColumn("id", Int, false), MssqlColumn("name", NVarChar(Max), true)])
      == "CREATE TABLE [dbo].[target] (" + ("\n    [id] int NOT NULL," + "\n    [name] nvarchar(max) NULL") + "\n);"
  {
    hide *;
    var id, name := MssqlColumn("id", Int, false), MssqlColumn("name", NVarChar(Max), true);
    IdLine();
    NameLine();
    TargetHeader();
    TwoLines(id, name);
    Associates("\n    " + ColumnSql(id) + ",", "\n    ", ColumnSql(name));
    Framed(TableName(Some("dbo"), "target"), [id, name]);
  }

  /** A closing bracket is doubled, and only inside its own name. */
  lemma PinnedQuoting()
    ensures BracketQuote("target]part") == "[target]]part]"
  {
    hide *;
    QuotedWord("part");
    BracketFirst("part");
    EscapePrefix("target", "]" + "part");
    assert "target" + ("]" + "part") == "target]part";
    Bracketed("target]part", "target" + ("]]" + "part"));
  }

  lemma Bracketed(value: string, escaped: string)
    requires Escape(value) == escaped
    ensures BracketQuote(value) == "[" + (escaped + "]")
  {
  }

  lemma BracketFirst(rest: string)
    ensures Escape("]" + rest) == "]]" + Escape(rest)
  {
    assert ("]" + rest)[1..] == rest;
  }

  lemma {:induction false} EscapePrefix(word: string, rest: string)
    requires forall i :: 0 <= i < |word| ==> word[i] != ']'
    ensures Escape(word + rest) == word + Escape(rest)
  {
    if |word| == 0 {
      assert word + rest == rest;
    } else {
      assert (word + rest)[1..] == word[1..] + rest && (word + rest)[0] == word[0];
      EscapePrefix(word[1..], rest);
      Associates([word[0]], word[1..], Escape(rest));
      assert [word[0]] + word[1..] == word;
    }
  }
}
