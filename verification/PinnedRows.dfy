/** Cells and rows that the repository's tests pin byte by byte
    (src/write/direct/types/temporal.rs, variable_width.rs, primitive.rs). */
module PinnedRows {
  import opened Basics
  import opened Types
  import opened Bytes
  import opened Decimals
  import opened DateTimes
  import opened Cells
  import opened Wire
  import opened RowStream

  lemma LittleEndian1(a: byte)
    ensures LE(a, 1) == [a]
  {
    LEStep(a, 1);
    assert LE(0, 0) == [];
  }

  lemma LittleEndian2(a: byte, b: byte)
    ensures LE(a + 0x100 * b, 2) == [a, b]
  {
    hide LE;
    LEStep(a + 0x100 * b, 2);
    LittleEndian1(b);
  }

  lemma LittleEndian3(a: byte, b: byte, c: byte)
    ensures LE(a + 0x100 * b + 0x1_0000 * c, 3) == [a, b, c]
  {
    hide LE;
    LEStep(a + 0x100 * (b + 0x100 * c), 3);
    LittleEndian2(b, c);
  }

  lemma LittleEndian4(a: byte, b: byte, c: byte, d: byte)
    ensures LE(a + 0x100 * b + 0x1_0000 * c + 0x100_0000 * d, 4) == [a, b, c, d]
  {
    hide LE;
    LEStep(a + 0x100 * (b + 0x100 * c + 0x1_0000 * d), 4);
    LittleEndian3(b, c, d);
  }

  lemma LittleEndian5(a: byte, b: byte, c: byte, d: byte, e: byte)
    ensures LE(a + 0x100 * b + 0x1_0000 * c + 0x100_0000 * d + 0x1_0000_0000 * e, 5) == [a, b, c, d, e]
  {
    hide LE;
    LEStep(a + 0x100 * (b + 0x100 * c + 0x1_0000 * d + 0x100_0000 * e), 5);
    LittleEndian4(b, c, d, e);
  }

  /** Day 719,162 is 1970-01-01, a time comes before its date, an offset last, and
      datetime days before fragments. */
  lemma PinnedTemporal()
    ensures LE(3_652_058, 3) == [0xDA, 0xB9, 0x37]
    ensures LE(863_999_999_999, TimeLen(7)) == [0xFF, 0xBF, 0x69, 0x2A, 0xC9]
    ensures PrefixedWire(Some(DateTime2Bytes(MssqlDateTime2(719_162, MssqlTime(12_345, 3))))) == [7, 0x39, 0x30, 0, 0, 0x3A, 0xF9, 0x0A]
    ensures FixedWire(true, Some(DateTimeBytes(MssqlDateTime(25_567, 300)))) == [8, 0xDF, 0x63, 0, 0, 0x2C, 1, 0, 0]
  {
    hide LE, Pow256;
    LittleEndian3(0xDA, 0xB9, 0x37);
    LittleEndian5(0xFF, 0xBF, 0x69, 0x2A, 0xC9);
    LittleEndian4(0x39, 0x30, 0, 0);
    LittleEndian3(0x3A, 0xF9, 0x0A);
    LittleEndian4(0xDF, 0x63, 0, 0);
    LittleEndian4(0x2C, 1, 0, 0);
  }

  /** The offset is signed: +02:30 and -14:00. */
  lemma PinnedOffsetCells()
    ensures PrefixedWire(Some(OffsetBytes(MssqlDateTimeOffset(MssqlDateTime2(719_162, MssqlTime(12_345, 7)), 150))))
            == [10, 0x39, 0x30, 0, 0, 0, 0x3A, 0xF9, 0x0A, 0x96, 0]
    ensures PrefixedWire(Some(OffsetBytes(MssqlDateTimeOffset(MssqlDateTime2(719_162, MssqlTime(12_345, 7)), -840))))
            == [10, 0x39, 0x30, 0, 0, 0, 0x3A, 0xF9, 0x0A, 0xB8, 0xFC]
  {
    hide LE, Pow256;
    PowersOf256();
    LittleEndian5(0x39, 0x30, 0, 0, 0);
    LittleEndian3(0x3A, 0xF9, 0x0A);
    LittleEndian2(0x96, 0);
    LittleEndian2(0xB8, 0xFC);
  }

  lemma IntSeven()
    ensures WireCell(Int, false, IntCell(Some(7))) == [7, 0, 0, 0]
    ensures CellOf(Int, false, IntCell(Some(7))) && Framed(Int, IntCell(Some(7)))
  {
    PowersOf256();
    LittleEndian4(7, 0, 0, 0);
    hide LE, Pow256;
  }

  lemma TextCells()
    ensures WireCell(NVarChar(Max), true, NVarCharCell(None)) == [0xFF, 0xFF, 0xFF, 0xFF, 0xFF, 0xFF, 0xFF, 0xFF]
    ensures WireCell(NVarChar(Max), true, NVarCharCell(Some([]))) == [0xFE, 0xFF, 0xFF, 0xFF, 0xFF, 0xFF, 0xFF, 0xFF, 0, 0, 0, 0]
    ensures CellOf(NVarChar(Max), true, NVarCharCell(None)) && Framed(NVarChar(Max), NVarCharCell(None))
    ensures CellOf(NVarChar(Max), true, NVarCharCell(Some([]))) && Framed(NVarChar(Max), NVarCharCell(Some([])))
  {
    PinnedFramings();
    hide LE, MaxWire;
  }

  lemma LetterA()
    ensures WireCell(NVarChar(Max), true, NVarCharCell(Some([97])))
            == [0xFE, 0xFF, 0xFF, 0xFF, 0xFF, 0xFF, 0xFF, 0xFF, 2, 0, 0, 0, 97, 0, 0, 0, 0, 0]
    ensures CellOf(NVarChar(Max), true, NVarCharCell(Some([97]))) && Framed(NVarChar(Max), NVarCharCell(Some([97])))
  {
    hide LE, UnitsToBytes;
    PowersOf256();
    ZeroBytes();
    LittleEndian4(2, 0, 0, 0);
    LetterUnits();
  }

  lemma LetterUnits()
    ensures UnitsToBytes([97]) == [97, 0] && CodeUnits([97])
  {
    LittleEndian2(97, 0);
    assert [97][1..] == [];
  }

  lemma BitOne()
    ensures WireCell(Bit, true, BitCell(Some(true))) == [1, 1]
    ensures CellOf(Bit, true, BitCell(Some(true))) && Framed(Bit, BitCell(Some(true)))
  {
    hide LE;
  }

  lemma Spells(name: string, ty: MssqlType, nullable: bool, cell: MssqlCell)
    requires CellOf(ty, nullable, cell) && Framed(ty, cell)
    ensures SpellsCell(MssqlColumn(name, ty, nullable), WireCell(ty, nullable, cell), cell)
  {
    hide WireCell, ReadCell, CellOf, Framed;
    forall rest {:trigger WireCell(ty, nullable, cell) + rest}
      ensures ReadCell(ty, nullable, WireCell(ty, nullable, cell) + rest) == Some((cell, rest))
    {
      CellRoundTrip(ty, nullable, cell, rest);
    }
  }

  lemma Flatten3<T>(a: seq<T>, b: seq<T>, c: seq<T>)
    ensures Flatten([a, b, c]) == a + b + c
  {
    assert [a, b, c][1..] == [b, c] && [b, c][1..] == [c] && [c][1..] == [];
    assert Flatten([c]) == c + Flatten([]);
    assert Flatten([b, c]) == b + Flatten([c]);
  }

  /** A row of three columns on the wire, and read back: a non-null int 7, a null
      nvarchar(max) and a nullable bit 1. */
  lemma PinnedRow()
    ensures
      var columns := [MssqlColumn("id", Int, false), MssqlColumn("text", NVarChar(Max), true), MssqlColumn("flag", Bit, true)];
      var cells := [IntCell(Some(7)), NVarCharCell(None), BitCell(Some(true))];
      var bytes := [0xD1, 7, 0, 0, 0, 0xFF, 0xFF, 0xFF, 0xFF, 0xFF, 0xFF, 0xFF, 0xFF, 1, 1];
      && [0xD1] + Flatten([WireCell(Int, false, cells[0]), WireCell(NVarChar(Max), true, cells[1]), WireCell(Bit, true, cells[2])]) == bytes
      && ReadRow(columns, bytes) == Some((cells, []))
  {
    hide *;
    var columns := [MssqlColumn("id", Int, false), MssqlColumn("text", NVarChar(Max), true), MssqlColumn("flag", Bit, true)];
    var cells := [IntCell(Some(7)), NVarCharCell(None), BitCell(Some(true))];
    IntSeven();
    TextCells();
    BitOne();
    var encoded := [WireCell(Int, false, cells[0]), WireCell(NVarChar(Max), true, cells[1]), WireCell(Bit, true, cells[2])];
    Flatten3(encoded[0], encoded[1], encoded[2]);
    Spells("id", Int, false, cells[0]);
    Spells("text", NVarChar(Max), true, cells[1]);
    Spells("flag", Bit, true, cells[2]);
    SpelledRow(columns, encoded, cells);
    RowReadsBack(columns, encoded, cells, []);
    assert [0xD1] + Flatten(encoded) + [] == [0xD1, 7, 0, 0, 0, 0xFF, 0xFF, 0xFF, 0xFF, 0xFF, 0xFF, 0xFF, 0xFF, 1, 1];
  }

  lemma SpelledRow(columns: seq<MssqlColumn>, encoded: seq<seq<byte>>, cells: seq<MssqlCell>)
    requires |encoded| == |columns| == |cells| == 3
    requires SpellsCell(columns[0], encoded[0], cells[0]) && SpellsCell(columns[1], encoded[1], cells[1]) && SpellsCell(columns[2], encoded[2], cells[2])
    ensures SpellsRow(columns, encoded, cells)
  {
    hide SpellsCell;
  }

  /** Three rows of one nullable nvarchar(max) column: "a", the empty text and null. */
  lemma PinnedTextRows()
    ensures
      var column := MssqlColumn("text", NVarChar(Max), true);
      var rows := [[NVarCharCell(Some([97]))], [NVarCharCell(Some([]))], [NVarCharCell(None)]];
      ReadRows([column],
               [0xD1, 0xFE, 0xFF, 0xFF, 0xFF, 0xFF, 0xFF, 0xFF, 0xFF, 2, 0, 0, 0, 97, 0, 0, 0, 0, 0]
               + [0xD1, 0xFE, 0xFF, 0xFF, 0xFF, 0xFF, 0xFF, 0xFF, 0xFF, 0, 0, 0, 0]
               + [0xD1, 0xFF, 0xFF, 0xFF, 0xFF, 0xFF, 0xFF, 0xFF, 0xFF]) == Some(rows)
  {
    hide *;
    var column := MssqlColumn("text", NVarChar(Max), true);
    var rows := [[NVarCharCell(Some([97]))], [NVarCharCell(Some([]))], [NVarCharCell(None)]];
    LetterA();
    TextCells();
    var a, b, c := WireCell(NVarChar(Max), true, rows[0][0]), WireCell(NVarChar(Max), true, rows[1][0]), WireCell(NVarChar(Max), true, rows[2][0]);
    Spells("text", NVarChar(Max), true, rows[0][0]);
    Spells("text", NVarChar(Max), true, rows[1][0]);
    Spells("text", NVarChar(Max), true, rows[2][0]);
    var encoded: seq<seq<seq<byte>>> := [[a], [b], [c]];
    var bytes: seq<seq<byte>> := [[0xD1] + a, [0xD1] + b, [0xD1] + c];
    SpelledAlone(column, a, rows[0][0]);
    SpelledAlone(column, b, rows[1][0]);
    SpelledAlone(column, c, rows[2][0]);
    RowsReadBack([column], encoded, bytes, rows);
    Flatten3(bytes[0], bytes[1], bytes[2]);
    assert bytes[0] == [0xD1, 0xFE, 0xFF, 0xFF, 0xFF, 0xFF, 0xFF, 0xFF, 0xFF, 2, 0, 0, 0, 97, 0, 0, 0, 0, 0];
    assert bytes[1] == [0xD1, 0xFE, 0xFF, 0xFF, 0xFF, 0xFF, 0xFF, 0xFF, 0xFF, 0, 0, 0, 0];
    assert bytes[2] == [0xD1, 0xFF, 0xFF, 0xFF, 0xFF, 0xFF, 0xFF, 0xFF, 0xFF];
  }

  lemma SpelledAlone(column: MssqlColumn, bytes: seq<byte>, cell: MssqlCell)
    requires SpellsCell(column, bytes, cell)
    ensures SpellsRow([column], [bytes], [cell]) && Flatten([bytes]) == bytes
  {
    hide SpellsCell;
    assert Flatten([bytes]) == bytes + Flatten([]);
  }
}
