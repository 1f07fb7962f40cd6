/**
 * The two key layouts of the storage layer:
 *   table row key:   't' tableID(8) '_' 'r' rowID(8)            exactly 19 bytes
 *   table index key: 't' tableID(8) '_' 'i' indexID(8) values   at least 19 bytes
 * Each id is an eight-byte comparable int (module Codec).
 */
module KeyLayout {
  import opened Wrappers
  import opened Bytes
  import opened Codec

  const TablePrefix: Byte := 0x74   // 't'
  const Separator: Byte := 0x5F     // '_'
  const RowMarker: Byte := 0x72     // 'r'
  const IndexMarker: Byte := 0x69   // 'i'

  /** Offsets of the layout: 't' at 0, table id at 1..9, '_' at 9, marker at 10, second id at 11..19. */
  const TableIDStart: nat := 1
  const SeparatorAt: nat := 9
  const MarkerAt: nat := 10
  const SecondIDStart: nat := 11
  const PrefixLength: nat := 19

  datatype LayoutError = IllegalCodeFormat

  /** What decodeTableRow reports. */
  datatype TableRow = TableRow(tableID: Int64, rowID: Int64)

  /** What decodeTableIndex reports; `indexValue` is handed on to the value decoder. */
  datatype TableIndex = TableIndex(tableID: Int64, indexID: Int64, indexValue: seq<Byte>)

  /** The 't', '_' and marker bytes at their offsets. */
  predicate HasMarkers(buf: seq<Byte>, marker: Byte)
    requires |buf| >= PrefixLength
  {
    buf[0] == TablePrefix && buf[SeparatorAt] == Separator && buf[MarkerAt] == marker
  }

  /** decodeTableRow: a 19-byte row key to its table id and row id. */
  function DecodeTableRow(buf: seq<Byte>): (r: Result<TableRow, LayoutError>)
    ensures r.Ok? <==>
      |buf| == PrefixLength && buf[0] == TablePrefix && buf[SeparatorAt] == Separator && buf[MarkerAt] == RowMarker
    ensures r.Err? ==> r.error == IllegalCodeFormat
    ensures r.Ok? ==> r.value.tableID == BigEndian(buf[TableIDStart..SeparatorAt]) - SignMask
    ensures r.Ok? ==> r.value.rowID == BigEndian(buf[SecondIDStart..]) - SignMask
  {
    if |buf| == PrefixLength && HasMarkers(buf, RowMarker) then
      assert buf[TableIDStart..SeparatorAt][..IntWidth] == buf[TableIDStart..SeparatorAt];
      assert buf[SecondIDStart..][..IntWidth] == buf[SecondIDStart..];
      var tableID := DecodeInt(buf[TableIDStart..SeparatorAt]).value.num;
      var rowID := DecodeInt(buf[SecondIDStart..]).value.num;
      Ok(TableRow(tableID, rowID))
    else
      Err(IllegalCodeFormat)
  }

  /** decodeTableIndex: an index key to its table id, index id and the bytes after offset 19. */
  function DecodeTableIndex(buf: seq<Byte>): (r: Result<TableIndex, LayoutError>)
    ensures r.Ok? <==>
      |buf| >= PrefixLength && buf[0] == TablePrefix && buf[SeparatorAt] == Separator && buf[MarkerAt] == IndexMarker
    ensures r.Err? ==> r.error == IllegalCodeFormat
    ensures r.Ok? ==> r.value.tableID == BigEndian(buf[TableIDStart..SeparatorAt]) - SignMask
    ensures r.Ok? ==> r.value.indexID == BigEndian(buf[SecondIDStart..PrefixLength]) - SignMask
    ensures r.Ok? ==> r.value.indexValue == buf[PrefixLength..]
  {
    if |buf| >= PrefixLength && HasMarkers(buf, IndexMarker) then
      assert buf[TableIDStart..SeparatorAt][..IntWidth] == buf[TableIDStart..SeparatorAt];
      assert buf[SecondIDStart..PrefixLength][..IntWidth] == buf[SecondIDStart..PrefixLength];
      var tableID := DecodeInt(buf[TableIDStart..SeparatorAt]).value.num;
      var indexID := DecodeInt(buf[SecondIDStart..PrefixLength]).value.num;
      Ok(TableIndex(tableID, indexID, buf[PrefixLength..]))
    else
      Err(IllegalCodeFormat)
  }

  /** The row key of a row: the inverse of DecodeTableRow. */
  function TableRowKey(row: TableRow): (key: seq<Byte>)
    ensures |key| == PrefixLength
  {
    [TablePrefix] + EncodeInt(row.tableID) + [Separator, RowMarker] + EncodeInt(row.rowID)
  }

  /** The 19-byte prefix of an index key. */
  function TableIndexPrefix(tableID: Int64, indexID: Int64): (key: seq<Byte>)
    ensures |key| == PrefixLength
  {
    [TablePrefix] + EncodeInt(tableID) + [Separator, IndexMarker] + EncodeInt(indexID)
  }

  /** Every row decodes back from its key. */
  lemma DecodeTableRowKey(row: TableRow)
    ensures DecodeTableRow(TableRowKey(row)) == Ok(row)
  {
    var key := TableRowKey(row);
    assert key[TableIDStart..SeparatorAt] == EncodeInt(row.tableID);
    assert key[SecondIDStart..] == EncodeInt(row.rowID);
    DecodeEncodeInt(row.tableID, []);
    DecodeEncodeInt(row.rowID, []);
    assert EncodeInt(row.tableID) + [] == EncodeInt(row.tableID);
    assert EncodeInt(row.rowID) + [] == EncodeInt(row.rowID);
  }

  /** A key that decodes as a row is exactly the key of that row: the layout has no slack. */
  lemma TableRowKeyOfDecoded(buf: seq<Byte>)
    requires DecodeTableRow(buf).Ok?
    ensures TableRowKey(DecodeTableRow(buf).value) == buf
  {
    var row := DecodeTableRow(buf).value;
    EncodeDecodeInt(buf[TableIDStart..SeparatorAt]);
    EncodeDecodeInt(buf[SecondIDStart..]);
    assert buf[TableIDStart..SeparatorAt][..IntWidth] == buf[TableIDStart..SeparatorAt];
    assert buf[SecondIDStart..][..IntWidth] == buf[SecondIDStart..];
    assert buf == [buf[0]] + buf[TableIDStart..SeparatorAt] + [buf[SeparatorAt], buf[MarkerAt]] + buf[SecondIDStart..];
  }

  /** Every index prefix followed by any value bytes decodes back to its parts. */
  lemma DecodeTableIndexKey(tableID: Int64, indexID: Int64, values: seq<Byte>)
    ensures DecodeTableIndex(TableIndexPrefix(tableID, indexID) + values) == Ok(TableIndex(tableID, indexID, values))
  {
    var key := TableIndexPrefix(tableID, indexID) + values;
    assert key[TableIDStart..SeparatorAt] == EncodeInt(tableID);
    assert key[SecondIDStart..PrefixLength] == EncodeInt(indexID);
    assert key[PrefixLength..] == values;
    DecodeEncodeInt(tableID, []);
    DecodeEncodeInt(indexID, []);
    assert EncodeInt(tableID) + [] == EncodeInt(tableID);
    assert EncodeInt(indexID) + [] == EncodeInt(indexID);
  }

  /** A key that decodes as an index key is its prefix followed by the reported value bytes. */
  lemma TableIndexKeyOfDecoded(buf: seq<Byte>)
    requires DecodeTableIndex(buf).Ok?
    ensures var ix := DecodeTableIndex(buf).value;
      TableIndexPrefix(ix.tableID, ix.indexID) + ix.indexValue == buf
  {
    EncodeDecodeInt(buf[TableIDStart..SeparatorAt]);
    EncodeDecodeInt(buf[SecondIDStart..PrefixLength]);
    assert buf[TableIDStart..SeparatorAt][..IntWidth] == buf[TableIDStart..SeparatorAt];
    assert buf[SecondIDStart..PrefixLength][..IntWidth] == buf[SecondIDStart..PrefixLength];
    assert buf == [buf[0]] + buf[TableIDStart..SeparatorAt] + [buf[SeparatorAt], buf[MarkerAt]]
      + buf[SecondIDStart..PrefixLength] + buf[PrefixLength..];
  }

  /** Row keys sort by table id first and row id second. */
  lemma TableRowKeysSortByIds(a: TableRow, b: TableRow)
    ensures LexLess(TableRowKey(a), TableRowKey(b)) <==>
      a.tableID < b.tableID || (a.tableID == b.tableID && a.rowID < b.rowID)
  {
    var ka, kb := TableRowKey(a), TableRowKey(b);
    var ta, tb := EncodeInt(a.tableID), EncodeInt(b.tableID);
    var ra, rb := EncodeInt(a.rowID), EncodeInt(b.rowID);
    EncodeIntPreservesOrder(a.tableID, b.tableID);
    EncodeIntPreservesOrder(a.rowID, b.rowID);
    RowKeyParts(a);
    RowKeyParts(b);
    LexLessConcat(ta, [Separator, RowMarker] + ra, tb, [Separator, RowMarker] + rb);
    assert ([Separator, RowMarker] + ra)[2..] == ra;
    assert ([Separator, RowMarker] + rb)[2..] == rb;
  }

  lemma RowKeyParts(row: TableRow)
    ensures TableRowKey(row)[0] == TablePrefix
    ensures TableRowKey(row)[1..] == EncodeInt(row.tableID) + ([Separator, RowMarker] + EncodeInt(row.rowID))
  {
  }

  /** Lexicographic order of same-length heads decides, and equal heads defer to the tails. */
  lemma {:induction false} LexLessConcat(a: seq<Byte>, x: seq<Byte>, b: seq<Byte>, y: seq<Byte>)
    requires |a| == |b|
    ensures LexLess(a + x, b + y) <==> LexLess(a, b) || (a == b && LexLess(x, y))
  {
    if a != [] {
      assert (a + x)[1..] == a[1..] + x;
      assert (b + y)[1..] == b[1..] + y;
      LexLessConcat(a[1..], x, b[1..], y);
      if a[0] == b[0] && a[1..] == b[1..] {
        assert a == b;
      }
    } else {
      assert a + x == x && b + y == y;
    }
  }
}
