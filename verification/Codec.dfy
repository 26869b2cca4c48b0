/** Marshalling a value to bytes and reading it back. */
module Codec {
  import opened Bytes
  import opened Rlp
  import opened RlpReader
  import opened CodecValue
  import opened CodecTyped
  import Decoder
  import Encoder

  method MarshalToBytes(v: Value) returns (bs: Bytes)
    requires |Encode(ToItem(v))| < MAX_SIZE
    ensures bs == Encode(ToItem(v))
  {
    var e := new Encoder.Encoder();
    e.EncodeAt(0, v);
    EncodeAllOne(ToItem(v));
    assert [] + [ToItem(v)] == [ToItem(v)];
    bs := e.Finish();
  }

  /** Decodes one value from any input; from a well-formed item it also returns exactly what follows it. */
  method UnmarshalFromBytes(bs: Bytes, s: Schema) returns (r: Result<Value, ReadError>, remaining: Bytes)
    ensures bs == [] ==> r == Err(EndOfInput)
    ensures r.Ok? ==> HasType(r.value, s)
    ensures r.Ok? ==> remaining == Decoder.After(bs)
    ensures Parse(bs).Some? ==> r == FromItem(s, Parse(bs).value.0) && (r.Ok? ==> remaining == Parse(bs).value.1)
  {
    Decoder.ParseAfter(bs);
    var st := new Stream(bs);
    r := Decoder.DecodeValue(st, s);
    var n := Avail(|st.data|, st.limits);
    var left, _ := st.Take(n);
    remaining := left;
  }

  /**
   Through the streaming encoder and the streaming decoder, with anything behind the
   bytes: a value comes back if and only if it is faithful and not a null that the type
   reports as nil, which is the only error; otherwise what was behind it is left over.
   */
  method RoundTrip(v: Value, s: Schema, suffix: Bytes) returns (r: Result<Value, ReadError>, remaining: Bytes)
    requires HasType(v, s) && |Encode(ToItem(v))| < MAX_SIZE
    ensures r == Ok(Canon(v)) <==> Faithful(v, s) && !(ToItem(v) == Null && NilReported(s))
    ensures r.Err? <==> ToItem(v) == Null && NilReported(s)
    ensures r.Err? ==> r.error == NilValue
    ensures r.Ok? ==> remaining == suffix
  {
    var bs := MarshalToBytes(v);
    TypedRoundTrip(v, s);
    NilPointer(s);
    Rlp.RoundTrip(ToItem(v), suffix);
    r, remaining := UnmarshalFromBytes(bs + suffix, s);
  }

}
