/** Reading a row stream back: row token, then each column's cell in plan order,
    with no row count and no lengths but those in the stream. */
module RowStream {
  import opened Basics
  import opened Types
  import opened Bytes
  import opened Cells
  import opened Wire

  function ReadCells(columns: seq<MssqlColumn>, b: seq<byte>): Option<(seq<MssqlCell>, seq<byte>)> {
    if |columns| == 0 then Some(([], b))
    else match ReadCell(columns[0].ty, columns[0].nullable, b)
      case None => None
      case Some((cell, rest)) =>
        match ReadCells(columns[1..], rest)
        case None => None
        case Some((cells, tail)) => Some(([cell] + cells, tail))
  }

  function ReadRow(columns: seq<MssqlColumn>, b: seq<byte>): Option<(seq<MssqlCell>, seq<byte>)> {
    if |b| == 0 || b[0] != 0xD1 then None else ReadCells(columns, b[1..])
  }

  /** Reads rows until the stream ends; fails on anything that is not a row. */
  function ReadRows(columns: seq<MssqlColumn>, b: seq<byte>): Option<seq<seq<MssqlCell>>>
    decreases |b|
  {
    if |b| == 0 then Some([])
    else match ReadRow(columns, b)
      case None => None
      case Some((row, rest)) =>
        if |rest| >= |b| then None
        else match ReadRows(columns, rest)
          case None => None
          case Some(rows) => Some([row] + rows)
  }

  /** Bytes that read as this cell of the column, whatever follows them. */
  ghost predicate SpellsCell(column: MssqlColumn, bytes: seq<byte>, cell: MssqlCell) {
    forall rest {:trigger bytes + rest} :: ReadCell(column.ty, column.nullable, bytes + rest) == Some((cell, rest))
  }

  ghost predicate SpellsRow(columns: seq<MssqlColumn>, encoded: seq<seq<byte>>, cells: seq<MssqlCell>) {
    && |encoded| == |columns| == |cells|
    && forall c :: 0 <= c < |columns| ==> SpellsCell(columns[c], encoded[c], cells[c])
  }

  lemma {:induction false} CellsReadBack(columns: seq<MssqlColumn>, encoded: seq<seq<byte>>, cells: seq<MssqlCell>, rest: seq<byte>)
    requires SpellsRow(columns, encoded, cells)
    ensures ReadCells(columns, Flatten(encoded) + rest) == Some((cells, rest))
  {
    hide ReadCell;
    if |columns| == 0 {
      assert Flatten(encoded) + rest == rest;
    } else {
      var tail := Flatten(encoded[1..]) + rest;
      assert SpellsCell(columns[0], encoded[0], cells[0]);
      assert Flatten(encoded) + rest == encoded[0] + tail;
      CellsReadBack(columns[1..], encoded[1..], cells[1..], rest);
      assert cells == [cells[0]] + cells[1..];
    }
  }

  lemma RowReadsBack(columns: seq<MssqlColumn>, encoded: seq<seq<byte>>, cells: seq<MssqlCell>, rest: seq<byte>)
    requires SpellsRow(columns, encoded, cells)
    ensures ReadRow(columns, ([0xD1] + Flatten(encoded)) + rest) == Some((cells, rest))
  {
    hide Flatten, ReadCells;
    CellsReadBack(columns, encoded, cells, rest);
    var b := ([0xD1] + Flatten(encoded)) + rest;
    assert b[1..] == Flatten(encoded) + rest;
  }

  /** A concatenation of spelled rows reads back as exactly those rows. */
  lemma {:induction false} RowsReadBack(columns: seq<MssqlColumn>, encoded: seq<seq<seq<byte>>>, bytes: seq<seq<byte>>, rows: seq<seq<MssqlCell>>)
    requires |encoded| == |bytes| == |rows|
    requires forall k :: 0 <= k < |rows| ==> SpellsRow(columns, encoded[k], rows[k]) && bytes[k] == [0xD1] + Flatten(encoded[k])
    ensures ReadRows(columns, Flatten(bytes)) == Some(rows)
  {
    hide ReadRow, SpellsRow;
    if |rows| != 0 {
      var tail := Flatten(bytes[1..]);
      RowReadsBack(columns, encoded[0], rows[0], tail);
      RowsReadBack(columns, encoded[1..], bytes[1..], rows[1..]);
      assert rows == [rows[0]] + rows[1..];
    }
  }

  /** One byte stream is the rows of at most one table. */
  lemma RowStreamsAreUnambiguous(columns: seq<MssqlColumn>, encoded: seq<seq<seq<byte>>>, encoded': seq<seq<seq<byte>>>,
                                 bytes: seq<seq<byte>>, bytes': seq<seq<byte>>, rows: seq<seq<MssqlCell>>, rows': seq<seq<MssqlCell>>)
    requires |encoded| == |bytes| == |rows| && |encoded'| == |bytes'| == |rows'|
    requires forall k :: 0 <= k < |rows| ==> SpellsRow(columns, encoded[k], rows[k]) && bytes[k] == [0xD1] + Flatten(encoded[k])
    requires forall k :: 0 <= k < |rows'| ==> SpellsRow(columns, encoded'[k], rows'[k]) && bytes'[k] == [0xD1] + Flatten(encoded'[k])
    requires Flatten(bytes) == Flatten(bytes')
    ensures rows == rows'
  {
    hide ReadRow, SpellsRow, ReadRows;
    RowsReadBack(columns, encoded, bytes, rows);
    RowsReadBack(columns, encoded', bytes', rows');
  }

  // ------------------------------------------------- streams in sequence

  /** Reading never looks past the cell: bytes that follow are left over. */
  lemma TakeBytesExtends(b: seq<byte>, n: nat, more: seq<byte>)
    requires TakeBytes(b, n).Some?
    ensures TakeBytes(b + more, n) == Some((TakeBytes(b, n).value.0, TakeBytes(b, n).value.1 + more))
  {
    assert (b + more)[..n] == b[..n] && (b + more)[n..] == b[n..] + more;
  }

  lemma TakeFixedExtends(b: seq<byte>, nullable: bool, width: nat, more: seq<byte>)
    requires TakeFixed(b, nullable, width).Some?
    ensures TakeFixed(b + more, nullable, width) == Some((TakeFixed(b, nullable, width).value.0, TakeFixed(b, nullable, width).value.1 + more))
  {
    if !nullable {
      TakeBytesExtends(b, width, more);
    } else {
      assert (b + more)[1..] == b[1..] + more;
      if b[0] != 0 {
        TakeBytesExtends(b[1..], width, more);
      }
    }
  }

  lemma TakePrefixedExtends(b: seq<byte>, more: seq<byte>)
    requires TakePrefixed(b).Some?
    ensures TakePrefixed(b + more) == Some((TakePrefixed(b).value.0, TakePrefixed(b).value.1 + more))
  {
    assert (b + more)[1..] == b[1..] + more;
    if b[0] != 0 {
      TakeBytesExtends(b[1..], b[0], more);
    }
  }

  lemma TakeBoundedExtends(b: seq<byte>, more: seq<byte>)
    requires TakeBounded(b).Some?
    ensures TakeBounded(b + more) == Some((TakeBounded(b).value.0, TakeBounded(b).value.1 + more))
  {
    hide FromLE;
    assert (b + more)[0..2] == b[0..2] && (b + more)[2..] == b[2..] + more;
    if FromLE(b[0..2]) != BOUNDED_NULL {
      TakeBytesExtends(b[2..], FromLE(b[0..2]), more);
    }
  }

  lemma TakeChunkExtends(b: seq<byte>, more: seq<byte>)
    requires TakeChunk(b).Some?
    ensures TakeChunk(b + more) == Some((TakeChunk(b).value.0, TakeChunk(b).value.1 + more))
  {
    hide FromLE;
    var n, tail := FromLE(b[..4]), b[4..];
    assert (b + more)[..4] == b[..4] && (b + more)[4..] == tail + more;
    if n != 0 {
      assert (tail + more)[..n] == tail[..n] && (tail + more)[n..] == tail[n..] + more;
      assert (tail[n..] + more)[..4] == tail[n..][..4] && (tail[n..] + more)[4..] == tail[n..][4..] + more;
    }
  }

  lemma TakeMaxExtends(b: seq<byte>, more: seq<byte>)
    requires TakeMax(b).Some?
    ensures TakeMax(b + more) == Some((TakeMax(b).value.0, TakeMax(b).value.1 + more))
  {
    hide FromLE, TakeChunk;
    assert (b + more)[..8] == b[..8] && (b + more)[8..] == b[8..] + more;
    if FromLE(b[..8]) != PLP_NULL {
      TakeChunkExtends(b[8..], more);
    }
  }

  lemma ReadCellExtends(ty: MssqlType, nullable: bool, b: seq<byte>, more: seq<byte>)
    requires ReadCell(ty, nullable, b).Some?
    ensures ReadCell(ty, nullable, b + more) == Some((ReadCell(ty, nullable, b).value.0, ReadCell(ty, nullable, b).value.1 + more))
  {
    hide FramingOf, ReadContent, Null, TakeFixed, TakePrefixed, TakeBounded, TakeMax;
    match FramingOf(ty)
    case Fixed(width) => TakeFixedExtends(b, nullable, width, more);
    case Prefixed => TakePrefixedExtends(b, more);
    case Variable(length) =>
      if length.Max? {
        TakeMaxExtends(b, more);
      } else {
        TakeBoundedExtends(b, more);
      }
  }

  lemma {:induction false} ReadCellsExtends(columns: seq<MssqlColumn>, b: seq<byte>, more: seq<byte>)
    requires ReadCells(columns, b).Some?
    ensures ReadCells(columns, b + more) == Some((ReadCells(columns, b).value.0, ReadCells(columns, b).value.1 + more))
  {
    hide ReadCell;
    if |columns| != 0 {
      ReadCellExtends(columns[0].ty, columns[0].nullable, b, more);
      ReadCellsExtends(columns[1..], ReadCell(columns[0].ty, columns[0].nullable, b).value.1, more);
    }
  }

  lemma ReadRowExtends(columns: seq<MssqlColumn>, b: seq<byte>, more: seq<byte>)
    requires ReadRow(columns, b).Some?
    ensures ReadRow(columns, b + more) == Some((ReadRow(columns, b).value.0, ReadRow(columns, b).value.1 + more))
  {
    hide ReadCells;
    assert (b + more)[1..] == b[1..] + more;
    ReadCellsExtends(columns, b[1..], more);
  }

  /** Two streams sent one after the other read back as the rows of both. */
  lemma {:induction false} ReadRowsConcat(columns: seq<MssqlColumn>, b: seq<byte>, more: seq<byte>)
    requires ReadRows(columns, b).Some? && ReadRows(columns, more).Some?
    ensures ReadRows(columns, b + more) == Some(ReadRows(columns, b).value + ReadRows(columns, more).value)
    decreases |b|
  {
    hide ReadRow;
    if |b| == 0 {
      assert b + more == more;
      assert ReadRows(columns, b).value + ReadRows(columns, more).value == ReadRows(columns, more).value;
    } else {
      var row := ReadRow(columns, b).value;
      ReadRowExtends(columns, b, more);
      ReadRowsConcat(columns, row.1, more);
      Associates([row.0], ReadRows(columns, row.1).value, ReadRows(columns, more).value);
    }
  }
}
