/**
 * The values after an index key's 19-byte prefix: a run of self-delimiting
 * datum encodings read one after another by TiDB's `codec.DecodeOne`.
 * That decoder lives in a library this model does not contain, so it is a
 * parameter here, with the one guarantee the loop relies on: a successful
 * decode returns a strictly shorter suffix of its input.
 */
module IndexValue {
  import opened Wrappers
  import opened Bytes
  import opened KeyLayout

  /** One successful `DecodeOne`: the unread remainder and the datum. */
  datatype Decoded<D> = Decoded(remain: seq<Byte>, datum: D)

  /** On success the remainder is a strict suffix of the input. */
  ghost predicate ConsumesInput<D, E>(decodeOne: seq<Byte> -> Result<Decoded<D>, E>)
  {
    forall s {:trigger decodeOne(s)} :: decodeOne(s).Ok? ==>
      |decodeOne(s).value.remain| < |s| && decodeOne(s).value.remain == s[|s| - |decodeOne(s).value.remain|..]
  }

  /**
   * The data read from `s`: decode while input is left and stop, keeping
   * what was read, at the first failure. Each datum uses at least one byte.
   */
  function DecodeValues<D, E>(decodeOne: seq<Byte> -> Result<Decoded<D>, E>, s: seq<Byte>): (vs: seq<D>)
    requires ConsumesInput(decodeOne)
    ensures |vs| <= |s|
    ensures vs == [] <==> s == [] || decodeOne(s).Err?
    decreases |s|
  {
    if s == [] then []
    else
      match decodeOne(s)
      case Err(_) => []
      case Ok(d) => [d.datum] + DecodeValues(decodeOne, d.remain)
  }

  /** decodeIndexValue: the loop that reassigns `key = remain`, with printing replaced by collecting. */
  method DecodeIndexValue<D, E>(buf: seq<Byte>, decodeOne: seq<Byte> -> Result<Decoded<D>, E>) returns (values: seq<D>)
    requires ConsumesInput(decodeOne)
    ensures values == DecodeValues(decodeOne, buf)
  {
    var key := buf;
    values := [];
    while |key| > 0
      invariant DecodeValues(decodeOne, buf) == values + DecodeValues(decodeOne, key)
      decreases |key|
    {
      var step := decodeOne(key);
      if step.Err? {
        break;
      }
      values := values + [step.value.datum];
      key := step.value.remain;
    }
  }

  /** decodeTableIndex followed by decodeIndexValue on the value suffix. */
  method DecodeTableIndexValues<D, E>(buf: seq<Byte>, decodeOne: seq<Byte> -> Result<Decoded<D>, E>)
    returns (r: Result<(TableIndex, seq<D>), LayoutError>)
    requires ConsumesInput(decodeOne)
    ensures r.Ok? <==> DecodeTableIndex(buf).Ok?
    ensures r.Ok? ==> r.value.0 == DecodeTableIndex(buf).value
    ensures r.Ok? ==> r.value.1 == DecodeValues(decodeOne, buf[PrefixLength..])
    ensures r.Err? ==> r.error == IllegalCodeFormat
  {
    var key := DecodeTableIndex(buf);
    if key.Err? {
      return Err(key.error);
    }
    var values := DecodeIndexValue(key.value.indexValue, decodeOne);
    r := Ok((key.value, values));
  }

  /** The encodings of `vs` one after another. */
  function EncodeAll<D>(encode: D -> seq<Byte>, vs: seq<D>): (s: seq<Byte>)
    ensures vs == [] ==> s == []
  {
    if vs == [] then [] else encode(vs[0]) + EncodeAll(encode, vs[1..])
  }

  /** `decodeOne` reads back exactly one encoding and leaves what follows it. */
  ghost predicate Inverts<D(!new), E>(decodeOne: seq<Byte> -> Result<Decoded<D>, E>, encode: D -> seq<Byte>)
  {
    forall d, t {:trigger decodeOne(encode(d) + t)} :: decodeOne(encode(d) + t) == Ok(Decoded(t, d))
  }

  /** Decoding a run of encodings yields their data, then whatever the tail yields. */
  lemma {:induction false} DecodeValuesConcat<D(!new), E>(
    decodeOne: seq<Byte> -> Result<Decoded<D>, E>, encode: D -> seq<Byte>, vs: seq<D>, tail: seq<Byte>)
    requires ConsumesInput(decodeOne) && Inverts(decodeOne, encode)
    ensures DecodeValues(decodeOne, EncodeAll(encode, vs) + tail) == vs + DecodeValues(decodeOne, tail)
  {
    if vs == [] {
      assert EncodeAll(encode, vs) + tail == tail;
      assert vs + DecodeValues(decodeOne, tail) == DecodeValues(decodeOne, tail);
    } else {
      var t := EncodeAll(encode, vs[1..]) + tail;
      assert EncodeAll(encode, vs) + tail == encode(vs[0]) + t;
      DecodeValuesStep(decodeOne, encode, vs[0], t);
      DecodeValuesConcat(decodeOne, encode, vs[1..], tail);
      HeadThenRest(vs, DecodeValues(decodeOne, tail));
    }
  }

  lemma HeadThenRest<T>(vs: seq<T>, rest: seq<T>)
    requires vs != []
    ensures [vs[0]] + (vs[1..] + rest) == vs + rest
  {
    assert [vs[0]] + vs[1..] == vs;
  }

  /** One loop iteration over an encoding: its datum, then the rest. */
  lemma DecodeValuesStep<D(!new), E>(
    decodeOne: seq<Byte> -> Result<Decoded<D>, E>, encode: D -> seq<Byte>, d: D, t: seq<Byte>)
    requires ConsumesInput(decodeOne) && Inverts(decodeOne, encode)
    ensures DecodeValues(decodeOne, encode(d) + t) == [d] + DecodeValues(decodeOne, t)
  {
    var s := encode(d) + t;
    assert decodeOne(s) == Ok(Decoded(t, d));
    assert s != [] by {
      assert |decodeOne(s).value.remain| < |s|;
    }
  }

  /** Round trip: a value suffix made of encodings decodes to exactly those data. */
  lemma DecodeValuesRoundTrip<D(!new), E>(
    decodeOne: seq<Byte> -> Result<Decoded<D>, E>, encode: D -> seq<Byte>, vs: seq<D>)
    requires ConsumesInput(decodeOne) && Inverts(decodeOne, encode)
    ensures DecodeValues(decodeOne, EncodeAll(encode, vs)) == vs
  {
    DecodeValuesConcat(decodeOne, encode, vs, []);
    assert EncodeAll(encode, vs) + [] == EncodeAll(encode, vs);
  }

  /** A tail that does not decode ends the loop but keeps every datum read before it. */
  lemma DecodeValuesKeepsPrefix<D(!new), E>(
    decodeOne: seq<Byte> -> Result<Decoded<D>, E>, encode: D -> seq<Byte>, vs: seq<D>, bad: seq<Byte>)
    requires ConsumesInput(decodeOne) && Inverts(decodeOne, encode) && decodeOne(bad).Err?
    ensures DecodeValues(decodeOne, EncodeAll(encode, vs) + bad) == vs
  {
    DecodeValuesConcat(decodeOne, encode, vs, bad);
    assert vs + [] == vs;
  }
}
