/**
 * The payload codec of `_private/utils.py`: `serialize_object` turns a Python
 * value into text and `deserialize_object` turns it back.  The real pair is
 * pickle followed by base64; here it is an abstract pair of total functions,
 * and the round trip the source relies on is a precondition (`RoundTrips`)
 * of the lemmas that need it, never an axiom.
 */
module Codec {
  import opened Wrappers

  /** The Python values that travel through the codec. */
  datatype Value =
    | VNone
    | VInt(i: int)
    | VStr(s: string)
    | VList(items: seq<Value>)
    | VDict(entries: seq<(string, Value)>)

  /** A serializer/deserializer pair. */
  datatype Codec = Codec(encode: Value -> string, decode: string -> Value)

  /**
   * What the source relies on: decoding an encoding gives the value back, and
   * an encoding is never the empty text (base64 of a non-empty pickle stream).
   */
  ghost predicate RoundTrips(c: Codec) {
    forall v :: |c.encode(v)| > 0 && c.decode(c.encode(v)) == v
  }

  /**
   * The `params` / `returned` property of `models.py`: a null or empty raw
   * field reads as `None`, anything else is decoded.
   */
  function DecodeField(raw: Option<string>, c: Codec): (v: Value)
    ensures raw == None || raw == Some("") ==> v == VNone
    ensures raw.Some? && raw.value != "" ==> v == c.decode(raw.value)
  {
    if raw.None? || raw.value == "" then VNone else c.decode(raw.value)
  }

  /** Reading back a field that holds an encoding gives the encoded value. */
  lemma DecodeEncodedField(v: Value, c: Codec)
    requires RoundTrips(c)
    ensures DecodeField(Some(c.encode(v)), c) == v
  {
    assert |c.encode(v)| > 0 && c.decode(c.encode(v)) == v;
  }
}
