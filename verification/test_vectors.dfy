/**
 * The keys of cmd/decoder_test.go, used as bytes and numbers. The test
 * writes them as Go string literals, so each key is raw bytes with no
 * backslash left, and decodeKey hands such a key on unchanged.
 */
module TestVectors {
  import opened Wrappers
  import opened Bytes
  import opened Codec
  import opened Escape
  import opened KeyLayout

  /** 't' 80 00 00 00 00 00 07 8f '_' 'r' 80 00 00 00 00 08 3b ba */
  const RowTestKey: seq<Byte> :=
    [0x74, 0x80, 0x00, 0x00, 0x00, 0x00, 0x00, 0x07, 0x8F, 0x5F,
     0x72, 0x80, 0x00, 0x00, 0x00, 0x00, 0x08, 0x3B, 0xBA]

  /** Two encoded bigint datums (flag 03, then a comparable int 2) after the index prefix. */
  const IndexTestValues: seq<Byte> :=
    [0x03, 0x80, 0x00, 0x00, 0x00, 0x00, 0x00, 0x00, 0x02,
     0x03, 0x80, 0x00, 0x00, 0x00, 0x00, 0x00, 0x00, 0x02]

  /** 't' 80 00 00 00 00 00 00 5f '_' 'i' 80 00 00 00 00 00 00 01, then the values. */
  const IndexTestKey: seq<Byte> :=
    [0x74, 0x80, 0x00, 0x00, 0x00, 0x00, 0x00, 0x00, 0x5F, 0x5F,
     0x69, 0x80, 0x00, 0x00, 0x00, 0x00, 0x00, 0x00, 0x01] + IndexTestValues

  /** The test keys hold no backslash. */
  lemma TestKeysArePlain()
    ensures Backslash !in RowTestKey && Backslash !in IndexTestKey
  {
  }

  /** decodeKey returns the row test key unchanged. */
  lemma RowTestKeyUnescapes()
    ensures Unescape(RowTestKey) == Ok(RowTestKey)
  {
    TestKeysArePlain();
    UnescapeIdentity(RowTestKey);
  }

  /** decodeKey returns the index test key unchanged. */
  lemma IndexTestKeyUnescapes()
    ensures Unescape(IndexTestKey) == Ok(IndexTestKey)
  {
    TestKeysArePlain();
    UnescapeIdentity(IndexTestKey);
  }

  /**
   * The second row test writes the same key with octal escapes; typed as
   * text, that escaped form decodes to the key.
   */
  lemma RowTestKeyOctalText()
    ensures Unescape(EscapeText(RowTestKey, OctalStyle)) == Ok(RowTestKey)
  {
    UnescapeRoundTrip(RowTestKey, OctalStyle);
  }

  /** The row test key: table 1935, row 539578. */
  lemma RowTestKeyDecodes()
    ensures DecodeTableRow(RowTestKey) == Ok(TableRow(1935, 539578))
  {
    var key := RowTestKey;
    var table, row := key[1..9], key[11..];
    assert table == [0x80, 0x00, 0x00, 0x00, 0x00, 0x00, 0x07, 0x8F];
    assert row == [0x80, 0x00, 0x00, 0x00, 0x00, 0x08, 0x3B, 0xBA];
    BigEndianOfEight(table);
    BigEndianOfEight(row);
    assert DecodeTableRow(key).Ok?;
  }

  /** The index test key: table 95, index 1, and the value bytes after the prefix. */
  lemma IndexTestKeyDecodes()
    ensures DecodeTableIndex(IndexTestKey) == Ok(TableIndex(95, 1, IndexTestValues))
  {
    var key := IndexTestKey;
    var table, index := key[1..9], key[11..19];
    assert table == [0x80, 0x00, 0x00, 0x00, 0x00, 0x00, 0x00, 0x5F];
    assert index == [0x80, 0x00, 0x00, 0x00, 0x00, 0x00, 0x00, 0x01];
    BigEndianOfEight(table);
    BigEndianOfEight(index);
    assert key[19..] == IndexTestValues;
    assert DecodeTableIndex(key).Ok?;
  }

  /** Eight big-endian bytes, read by Horner's rule. */
  lemma BigEndianOfEight(b: seq<Byte>)
    requires |b| == 8
    ensures BigEndian(b) ==
      ((((((b[0] as int * 256 + b[1]) * 256 + b[2]) * 256 + b[3]) * 256 + b[4]) * 256 + b[5]) * 256 + b[6]) * 256 + b[7]
  {
    assert BigEndian(b[..0]) == 0;
    BigEndianOfPrefix(b, 1);
    BigEndianOfPrefix(b, 2);
    BigEndianOfPrefix(b, 3);
    BigEndianOfPrefix(b, 4);
    BigEndianOfPrefix(b, 5);
    BigEndianOfPrefix(b, 6);
    BigEndianOfPrefix(b, 7);
    BigEndianOfPrefix(b, 8);
    assert b[..8] == b;
  }

  lemma BigEndianOfPrefix(b: seq<Byte>, k: nat)
    requires 0 < k <= |b|
    ensures BigEndian(b[..k]) == BigEndian(b[..k - 1]) * 256 + b[k - 1]
  {
    assert b[..k] == b[..k - 1] + [b[k - 1]];
    BigEndianSnoc(b[..k - 1], b[k - 1]);
  }
}
