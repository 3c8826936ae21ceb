/** A reader for the rendered statements, and the proof that it undoes the printer. */
module DdlParser {
  import opened Basics
  import opened Types
  import opened Ddl

  type Parsed<T> = Option<(T, string)>

  function Expect(text: string, s: string): Option<string> {
    if text <= s then Some(s[|text|..]) else None
  }

  lemma ExpectSkips(text: string, rest: string)
    ensures Expect(text, text + rest) == Some(rest)
  {
    assert (text + rest)[|text|..] == rest;
  }

  /** A text that does not start with `c`. */
  predicate NotStarting(s: string, c: char) { |s| == 0 || s[0] != c }

  // --------------------------------------------------------- identifiers

  /** Reads up to the first bracket that is not doubled. */
  function ReadQuoted(s: string): Parsed<string> {
    if |s| == 0 then None
    else if s[0] != ']' then
      match ReadQuoted(s[1..])
      case None => None
      case Some((name, rest)) => Some(([s[0]] + name, rest))
    else if |s| > 1 && s[1] == ']' then
      match ReadQuoted(s[2..])
      case None => None
      case Some((name, rest)) => Some(("]" + name, rest))
    else Some(("", s[1..]))
  }

  function ReadName(s: string): Parsed<string> {
    match Expect("[", s)
    case None => None
    case Some(rest) => ReadQuoted(rest)
  }

  /** Doubled-bracket quoting is uniquely decodable before any follower but `]`. */
  lemma {:induction false} QuotedInverts(name: string, rest: string)
    requires NotStarting(rest, ']')
    ensures ReadQuoted((Escape(name) + "]") + rest) == Some((name, rest))
  {
    var s := (Escape(name) + "]") + rest;
    if |name| == 0 {
      assert s == "]" + rest && s[1..] == rest;
    } else {
      QuotedInverts(name[1..], rest);
      var tail := (Escape(name[1..]) + "]") + rest;
      assert name == [name[0]] + name[1..];
      if name[0] == ']' {
        assert s == "]]" + tail && s[2..] == tail;
      } else {
        assert s == [name[0]] + tail && s[1..] == tail;
      }
    }
  }

  lemma NameInverts(name: string, rest: string)
    requires NotStarting(rest, ']')
    ensures ReadName(BracketQuote(name) + rest) == Some((name, rest))
  {
    hide ReadQuoted, Escape;
    var tail := (Escape(name) + "]") + rest;
    assert BracketQuote(name) + rest == "[" + tail;
    ExpectSkips("[", tail);
    QuotedInverts(name, rest);
  }

  function ReadTableName(s: string): Parsed<TableName> {
    match ReadName(s)
    case None => None
    case Some((first, rest)) =>
      match Expect(".", rest)
      case None => Some((TableName(None, first), rest))
      case Some(tail) =>
        match ReadName(tail)
        case None => None
        case Some((second, end)) => Some((TableName(Some(first), second), end))
  }

  lemma TableNameInverts(table: TableName, rest: string)
    requires NotStarting(rest, ']') && NotStarting(rest, '.')
    ensures ReadTableName(QuotedTable(table) + rest) == Some((table, rest))
  {
    hide ReadName, BracketQuote;
    match table.schema
    case None =>
      NameInverts(table.table, rest);
    case Some(schema) =>
      var tail := BracketQuote(table.table) + rest;
      assert QuotedTable(table) + rest == BracketQuote(schema) + ("." + tail);
      NameInverts(schema, "." + tail);
      ExpectSkips(".", tail);
      NameInverts(table.table, rest);
  }

  // ------------------------------------------------------------- numbers

  /** The longest run of digits at the front, as its length. */
  function DigitRun(s: string): (n: nat)
    ensures n <= |s|
  {
    if |s| == 0 || !IsDigit(s[0]) then 0 else 1 + DigitRun(s[1..])
  }

  function NatOf(digits: string): nat {
    if |digits| == 0 then 0
    else
      var last := digits[|digits| - 1];
      10 * NatOf(digits[..|digits| - 1]) + if IsDigit(last) then last as int - '0' as int else 0
  }

  function ReadNat(s: string): Parsed<nat> {
    var n := DigitRun(s);
    if n == 0 then None else Some((NatOf(s[..n]), s[n..]))
  }

  predicate NoDigit(s: string) { |s| == 0 || !IsDigit(s[0]) }

  predicate AllDigits(s: string) { forall i :: 0 <= i < |s| ==> IsDigit(s[i]) }

  lemma {:induction false} DigitsOf(n: nat)
    ensures |NatToString(n)| > 0 && AllDigits(NatToString(n)) && NatOf(NatToString(n)) == n
  {
    if n >= 10 {
      DigitsOf(n / 10);
      var s := NatToString(n);
      assert s[..|s| - 1] == NatToString(n / 10);
    } else {
      assert NatToString(n)[..0] == "";
    }
  }

  lemma {:induction false} DigitRunStops(digits: string, rest: string)
    requires AllDigits(digits) && NoDigit(rest)
    ensures DigitRun(digits + rest) == |digits|
  {
    if |digits| == 0 {
      assert digits + rest == rest;
    } else {
      DigitRunStops(digits[1..], rest);
      assert (digits + rest)[1..] == digits[1..] + rest;
    }
  }

  lemma NatInverts(n: nat, rest: string)
    requires NoDigit(rest)
    ensures ReadNat(NatToString(n) + rest) == Some((n, rest))
  {
    DigitsOf(n);
    DigitRunStops(NatToString(n), rest);
    var s := NatToString(n) + rest;
    assert s[..|NatToString(n)|] == NatToString(n) && s[|NatToString(n)|..] == rest;
  }

  function ReadInt(s: string): Parsed<int> {
    match Expect("-", s)
    case None => (match ReadNat(s) case None => None case Some((n, rest)) => Some((n as int, rest)))
    case Some(tail) => (match ReadNat(tail) case None => None case Some((n, rest)) => Some((-(n as int), rest)))
  }

  lemma NegativeInverts(n: int, rest: string)
    requires NoDigit(rest) && n > 0
    ensures ReadInt(("-" + NatToString(n)) + rest) == Some((-n, rest))
  {
    NatInverts(n, rest);
    hide ReadNat, NatToString, NoDigit;
    Associates("-", NatToString(n), rest);
    ExpectSkips("-", NatToString(n) + rest);
  }

  /** A number never starts with a sign. */
  lemma NatHasNoSign(n: nat, rest: string)
    ensures Expect("-", NatToString(n) + rest) == None
  {
    DigitsOf(n);
    assert (NatToString(n) + rest)[0] == NatToString(n)[0];
  }

  lemma IntInverts(n: int, rest: string)
    requires NoDigit(rest)
    ensures ReadInt(IntToString(n) + rest) == Some((n, rest))
  {
    if n < 0 {
      hide ReadInt, NatToString, NoDigit;
      NegativeInverts(-n, rest);
    } else {
      hide ReadNat, NatToString, NoDigit, Expect;
      NatHasNoSign(n, rest);
      NatInverts(n, rest);
    }
  }

  // --------------------------------------------------------------- types

  predicate IsWordChar(c: char) { 'a' <= c <= 'z' || IsDigit(c) }

  function WordRun(s: string): (n: nat)
    ensures n <= |s|
  {
    if |s| == 0 || !IsWordChar(s[0]) then 0 else 1 + WordRun(s[1..])
  }

  predicate IsWord(s: string) { forall i :: 0 <= i < |s| ==> IsWordChar(s[i]) }

  predicate NoWord(s: string) { |s| == 0 || !IsWordChar(s[0]) }

  lemma {:induction false} WordRunStops(word: string, rest: string)
    requires IsWord(word) && NoWord(rest)
    ensures WordRun(word + rest) == |word|
    ensures (word + rest)[..|word|] == word && (word + rest)[|word|..] == rest
  {
    if |word| == 0 {
      assert word + rest == rest;
    } else {
      WordRunStops(word[1..], rest);
      assert (word + rest)[1..] == word[1..] + rest;
    }
  }

  function ReadLength(s: string): Parsed<TypeLength> {
    match Expect("max", s)
    case Some(rest) => Some((Max, rest))
    case None => (match ReadNat(s) case None => None case Some((n, rest)) => Some((Bounded(n), rest)))
  }

  lemma LengthInverts(length: TypeLength, rest: string)
    requires NoDigit(rest)
    ensures ReadLength(LengthSql(length) + rest) == Some((length, rest))
  {
    match length
    case Max => ExpectSkips("max", rest);
    case Bounded(limit) =>
      DigitsOf(limit);
      NatInverts(limit, rest);
      assert (LengthSql(length) + rest)[0] == NatToString(limit)[0];
  }

  function ReadShape(s: string): Parsed<(nat, int)> {
    match ReadNat(s)
    case None => None
    case Some((precision, rest)) =>
      match Expect(",", rest)
      case None => None
      case Some(tail) =>
        match ReadInt(tail)
        case None => None
        case Some((scale, end)) => Some(((precision, scale), end))
  }

  lemma ShapeInverts(precision: nat, scale: int, rest: string)
    requires NoDigit(rest)
    ensures ReadShape((NatToString(precision) + ("," + IntToString(scale))) + rest) == Some(((precision, scale), rest))
  {
    hide ReadNat, ReadInt, NatToString, IntToString;
    var tail := IntToString(scale) + rest;
    assert (NatToString(precision) + ("," + IntToString(scale))) + rest == NatToString(precision) + ("," + tail);
    NatInverts(precision, "," + tail);
    ExpectSkips(",", tail);
    IntInverts(scale, rest);
  }

  /** The arguments that a keyword takes, up to the closing parenthesis. */
  function ReadArguments(word: string, s: string): Parsed<MssqlType> {
    if word == "nvarchar" || word == "varbinary" then
      match ReadLength(s)
      case None => None
      case Some((length, rest)) => Some((if word == "nvarchar" then NVarChar(length) else VarBinary(length), rest))
    else if word == "decimal" then
      match ReadShape(s)
      case None => None
      case Some((shape, rest)) => Some((MssqlType.Decimal(shape.0, shape.1), rest))
    else
      match ReadNat(s)
      case None => None
      case Some((n, rest)) =>
        if word == "float" then Some((MssqlType.Float(n), rest))
        else if word == "binary" then Some((FixedBinary(n), rest))
        else if word == "time" then Some((Time(n), rest))
        else if word == "datetime2" then Some((DateTime2(n), rest))
        else if word == "datetimeoffset" then Some((DateTimeOffset(n), rest))
        else None
  }

  function PlainType(word: string): Option<MssqlType> {
    if word == "bit" then Some(Bit)
    else if word == "tinyint" then Some(TinyInt)
    else if word == "smallint" then Some(SmallInt)
    else if word == "int" then Some(Int)
    else if word == "bigint" then Some(BigInt)
    else if word == "real" then Some(Real)
    else if word == "date" then Some(Date)
    else if word == "datetime" then Some(DateTime)
    else None
  }

  function ReadType(s: string): Parsed<MssqlType> {
    var n := WordRun(s);
    var word, rest := s[..n], s[n..];
    match Expect("(", rest)
    case None => (match PlainType(word) case None => None case Some(ty) => Some((ty, rest)))
    case Some(inner) =>
      match ReadArguments(word, inner)
      case None => None
      case Some((ty, tail)) =>
        match Expect(")", tail)
        case None => None
        case Some(end) => Some((ty, end))
  }

  lemma KeywordIsWord(ty: MssqlType)
    ensures IsWord(Keyword(ty)) && |Keyword(ty)| > 0
  {
  }

  lemma PlainInverts(ty: MssqlType)
    requires Arguments(ty).None?
    ensures PlainType(Keyword(ty)) == Some(ty)
  {
  }

  lemma ArgumentsInvert(ty: MssqlType, rest: string)
    requires Arguments(ty).Some? && NoDigit(rest)
    ensures ReadArguments(Keyword(ty), Arguments(ty).value + rest) == Some((ty, rest))
  {
    hide ReadNat, ReadLength, ReadShape, NatToString, IntToString;
    match ty {
      case NVarChar(length) => LengthInverts(length, rest);
      case VarBinary(length) => LengthInverts(length, rest);
      case Decimal(p, s) => ShapeInverts(p, s, rest);
      case Float(p) => NatInverts(p, rest);
      case FixedBinary(n) => NatInverts(n, rest);
      case Time(p) => NatInverts(p, rest);
      case DateTime2(p) => NatInverts(p, rest);
      case DateTimeOffset(p) => NatInverts(p, rest);
    }
  }

  lemma TypeInverts(ty: MssqlType, rest: string)
    requires NoWord(rest) && NotStarting(rest, '(')
    ensures ReadType(TypeSql(ty) + rest) == Some((ty, rest))
  {
    hide Keyword, Arguments, PlainType, ReadArguments, WordRun;
    KeywordIsWord(ty);
    match Arguments(ty)
    case None =>
      WordRunStops(Keyword(ty), rest);
      PlainInverts(ty);
    case Some(arguments) =>
      var inner := arguments + (")" + rest);
      assert TypeSql(ty) + rest == Keyword(ty) + ("(" + inner);
      WordRunStops(Keyword(ty), "(" + inner);
      ExpectSkips("(", inner);
      ArgumentsInvert(ty, ")" + rest);
      ExpectSkips(")", rest);
  }

  // ------------------------------------------------- columns and tables

  function ReadNullability(s: string): Parsed<bool> {
    match Expect(" NULL", s)
    case Some(rest) => Some((true, rest))
    case None =>
      match Expect(" NOT NULL", s)
      case Some(rest) => Some((false, rest))
      case None => None
  }

  function ReadColumn(s: string): Parsed<MssqlColumn> {
    match ReadName(s)
    case None => None
    case Some((name, afterName)) =>
      match Expect(" ", afterName)
      case None => None
      case Some(typeText) =>
        match ReadType(typeText)
        case None => None
        case Some((ty, afterType)) =>
          match ReadNullability(afterType)
          case None => None
          case Some((nullable, rest)) => Some((MssqlColumn(name, ty, nullable), rest))
  }

  lemma NullabilityInverts(nullable: bool, rest: string)
    ensures ReadNullability((if nullable then " NULL" else " NOT NULL") + rest) == Some((nullable, rest))
  {
    var text := if nullable then " NULL" else " NOT NULL";
    ExpectSkips(text, rest);
    if !nullable {
      assert (text + rest)[2] == 'O';
      assert " NULL"[2] == 'U';
    }
  }

  lemma ColumnInverts(column: MssqlColumn, rest: string)
    ensures ReadColumn(ColumnSql(column) + rest) == Some((column, rest))
  {
    hide ReadName, ReadType, BracketQuote, TypeSql, ReadNullability;
    var mark := if column.nullable then " NULL" else " NOT NULL";
    var afterType := mark + rest;
    var typeText := TypeSql(column.ty) + afterType;
    assert ColumnSql(column) + rest == BracketQuote(column.name) + (" " + typeText);
    NameInverts(column.name, " " + typeText);
    ExpectSkips(" ", typeText);
    assert afterType[0] == ' ';
    TypeInverts(column.ty, afterType);
    NullabilityInverts(column.nullable, rest);
  }

  /** Reads columns up to the closing line. */
  function ReadColumns(s: string): Option<seq<MssqlColumn>>
    decreases |s|
  {
    if s == "\n);" then Some([])
    else match Expect("\n    ", s)
      case None => None
      case Some(line) =>
        match ReadColumn(line)
        case None => None
        case Some((column, rest)) =>
          var tail := Expect(",", rest);
          var next := if tail.Some? then tail.value else rest;
          if |next| >= |s| then None
          else match ReadColumns(next)
            case None => None
            case Some(columns) => Some([column] + columns)
  }

  function ReadTable(s: string): Option<(TableName, seq<MssqlColumn>)> {
    match Expect("CREATE TABLE ", s)
    case None => None
    case Some(named) =>
      match ReadTableName(named)
      case None => None
      case Some((table, afterName)) =>
        match Expect(" (", afterName)
        case None => None
        case Some(body) =>
          match ReadColumns(body)
          case None => None
          case Some(columns) => Some((table, columns))
  }

  lemma OneMoreColumn(column: MssqlColumn, suffix: string, next: string, columns: seq<MssqlColumn>)
    requires suffix == "," || (suffix == "" && NotStarting(next, ','))
    requires ReadColumns(next) == Some(columns)
    ensures ReadColumns("\n    " + (ColumnSql(column) + (suffix + next))) == Some([column] + columns)
  {
    hide ReadColumn, ColumnSql;
    var line := ColumnSql(column) + (suffix + next);
    var s := "\n    " + line;
    ExpectSkips("\n    ", line);
    ColumnInverts(column, suffix + next);
    if suffix == "," {
      ExpectSkips(",", next);
    } else {
      assert suffix + next == next;
    }
    assert s[1] == ' ';
    assert "\n);"[1] == ')';
  }

  lemma {:induction false} ColumnsInvert(columns: seq<MssqlColumn>)
    ensures ReadColumns(ColumnLines(columns) + "\n);") == Some(columns)
  {
    hide ReadColumn, ColumnSql;
    if |columns| == 0 {
      assert ColumnLines(columns) + "\n);" == "\n);";
    } else {
      ColumnsInvert(columns[1..]);
      var lines := ColumnLines(columns[1..]);
      var suffix := if |columns| == 1 then "" else ",";
      assert ColumnLines(columns) == "\n    " + (ColumnSql(columns[0]) + (suffix + lines));
      if |columns| == 1 {
        assert lines + "\n);" == "\n);";
      }
      hide ReadColumns, ColumnLines;
      Associates("\n    ", ColumnSql(columns[0]) + (suffix + lines), "\n);");
      Associates(ColumnSql(columns[0]), suffix + lines, "\n);");
      Associates(suffix, lines, "\n);");
      OneMoreColumn(columns[0], suffix, lines + "\n);", columns[1..]);
      assert columns == [columns[0]] + columns[1..];
    }
  }

  /** Reading undoes rendering, for every table name and column list: whatever the names
      contain, brackets, dots, commas, parentheses or keywords included. */
  lemma TableInverts(table: TableName, columns: seq<MssqlColumn>)
    ensures ReadTable(TableSql(table, columns)) == Some((table, columns))
  {
    hide ReadTableName, QuotedTable, ReadColumns, ColumnLines;
    var body := ColumnLines(columns) + "\n);";
    var named := QuotedTable(table) + (" (" + body);
    ExpectSkips("CREATE TABLE ", named);
    TableNameInverts(table, " (" + body);
    ExpectSkips(" (", body);
    ColumnsInvert(columns);
  }

  /** Rendering is injective: different tables never share a statement. */
  lemma TableSqlIsInjective(table: TableName, columns: seq<MssqlColumn>, table': TableName, columns': seq<MssqlColumn>)
    requires TableSql(table, columns) == TableSql(table', columns')
    ensures table == table' && columns == columns'
  {
    hide TableSql, ReadTable;
    TableInverts(table, columns);
    TableInverts(table', columns');
  }
}
