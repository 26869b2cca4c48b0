/**
 Recursive Length Prefix encoding (Appendix B of the Ethereum Yellow Paper) with an
 extra null item `F8 00`: the plain recursive definition and its inverse.
 */
module Rlp {
  import opened Bytes
  import opened IntConv

  datatype Item = Null | Str(bytes: Bytes) | List(items: seq<Item>)

  /** Lengths of byte strings in memory are below this, and so are the integers of Go's `int`. */
  const MAX_SIZE := 0x8000_0000_0000_0000

  /** Go's conversion of an integer to a byte. */
  function ToByte(n: nat): byte {
    if n < 256 then n else n % 256
  }

  function Header(base: nat, n: nat): Bytes {
    if n <= 55 then [ToByte(base + n)]
    else [ToByte(base + 55 + |SizeBytes(n)|)] + SizeBytes(n)
  }

  function EncodeBytes(b: Bytes): (bs: Bytes)
    ensures |bs| >= 1
  {
    if |b| == 1 && b[0] < 0x80 then b else Header(0x80, |b|) + b
  }

  function EncodeList(payload: Bytes): (bs: Bytes)
    ensures |bs| > |payload|
  {
    Header(0xC0, |payload|) + payload
  }

  const NULL_SEQUENCE: Bytes := [0xF8, 0]

  function Encode(v: Item): (bs: Bytes)
    ensures |bs| >= 1
  {
    match v
    case Null => NULL_SEQUENCE
    case Str(b) => EncodeBytes(b)
    case List(items) => EncodeList(EncodeAll(items))
  }

  function EncodeAll(items: seq<Item>): Bytes {
    if items == [] then [] else EncodeAll(items[..|items| - 1]) + Encode(items[|items| - 1])
  }

  lemma {:induction false} Assoc(a: Bytes, b: Bytes, c: Bytes)
    ensures (a + b) + c == a + (b + c)
  {
  }

  lemma {:induction false} EncodeAllConcat(a: seq<Item>, b: seq<Item>)
    ensures EncodeAll(a + b) == EncodeAll(a) + EncodeAll(b)
    decreases |b|
  {
    if b == [] {
      assert a + b == a;
    } else {
      var init, last := b[..|b| - 1], b[|b| - 1];
      assert (a + b)[..|a + b| - 1] == a + init;
      calc {
        EncodeAll(a + b);
        EncodeAll(a + init) + Encode(last);
        { EncodeAllConcat(a, init); }
        (EncodeAll(a) + EncodeAll(init)) + Encode(last);
        { Assoc(EncodeAll(a), EncodeAll(init), Encode(last)); }
        EncodeAll(a) + EncodeAll(b);
      }
    }
  }

  lemma {:induction false} EncodeAllOne(v: Item)
    ensures EncodeAll([v]) == Encode(v)
  {
    assert [v][..0] == [];
    assert EncodeAll([v]) == EncodeAll([]) + Encode(v);
  }

  lemma {:induction false} EncodeAllFirst(items: seq<Item>)
    requires items != []
    ensures EncodeAll(items) == Encode(items[0]) + EncodeAll(items[1..])
  {
    assert items == [items[0]] + items[1..];
    EncodeAllConcat([items[0]], items[1..]);
    EncodeAllOne(items[0]);
  }

  // ---- reading one item header

  datatype Kind = KNull | KStr | KList

  /** `header` bytes of framing, then `size` bytes of content. */
  datatype Head = Head(kind: Kind, header: nat, size: nat)

  /** What a read ends with; `Panics` is a run-time panic and not an error value. */
  datatype ReadError = EndOfInput | Truncated | NilValue | WrongKind | BadFormat | Panics

  /** What the first bytes announce; a single byte below 0x80 is its own content. */
  function ReadHead(bs: Bytes): (r: Result<Head, ReadError>)
    ensures r.Ok? ==> bs != [] && r.value.header + r.value.size >= 1 && r.value.header <= |bs|
    ensures r.Ok? && r.value.kind != KStr ==> r.value.header >= 1
  {
    if bs == [] then Err(EndOfInput)
    else
      var tag := bs[0];
      if tag < 0x80 then Ok(Head(KStr, 0, 1))
      else if tag <= 0xB7 then Ok(Head(KStr, 1, tag - 0x80))
      else if tag < 0xC0 then LongHead(KStr, bs, tag - 0xB7)
      else if tag <= 0xF7 then Ok(Head(KList, 1, tag - 0xC0))
      else LongHead(KList, bs, tag - 0xF7)
  }

  function LongHead(kind: Kind, bs: Bytes, sz: nat): (r: Result<Head, ReadError>)
    requires sz >= 1
    ensures r.Ok? ==> r.value.header == 1 + sz <= |bs|
  {
    if |bs| < 1 + sz then Err(Truncated)
    else
      var size := Unsigned(bs[1..1 + sz]);
      Ok(Head(if kind == KList && sz == 1 && size == 0 then KNull else kind, 1 + sz, size))
  }

  lemma {:induction false} SizeFits(n: nat)
    requires 0 < n < MAX_SIZE
    ensures 1 <= |SizeBytes(n)| <= 8 && Unsigned(SizeBytes(n)) == n
  {
    Pow256Eight();
    UnsignedBytesRight(n);
    UnsignedBytesLen(n, 8);
  }

  /** A long header in front of `n` bytes of content. */
  lemma {:induction false} LongHeadOf(kind: Kind, tag: byte, sz: Bytes, body: Bytes, s: Bytes)
    requires kind != KNull && |sz| >= 1 && Unsigned(sz) == |body| > 0
    ensures var bs := ([tag] + sz + body) + s; var k := 1 + |sz|;
            && bs[0] == tag
            && LongHead(kind, bs, |sz|) == Ok(Head(kind, k, |body|))
            && bs[k..k + |body|] == body && bs[k + |body|..] == s
  {
    LongSlices(tag, sz, body, s);
  }

  lemma {:induction false} LongSlices(tag: byte, sz: Bytes, body: Bytes, s: Bytes)
    ensures var bs := ([tag] + sz + body) + s; var k := 1 + |sz|;
            bs[0] == tag && bs[1..k] == sz && bs[k..k + |body|] == body && bs[k + |body|..] == s
  {
  }

  lemma {:induction false} ShortHeadOf(tag: byte, body: Bytes, s: Bytes)
    ensures var bs := ([tag] + body) + s;
            bs[0] == tag && bs[1..1 + |body|] == body && bs[1 + |body|..] == s
  {
  }

  lemma {:induction false} HeadOfBytes(b: Bytes, s: Bytes)
    requires |b| < MAX_SIZE
    ensures var bs := EncodeBytes(b) + s; var k := |EncodeBytes(b)| - |b|;
            && ReadHead(bs) == Ok(Head(KStr, k, |b|))
            && bs[k..k + |b|] == b && bs[k + |b|..] == s
  {
    if |b| == 1 && b[0] < 0x80 {
    } else if |b| <= 55 {
      ShortHeadOf(0x80 + |b|, b, s);
    } else {
      SizeFits(|b|);
      LongHeadOf(KStr, 0xB7 + |SizeBytes(|b|)|, SizeBytes(|b|), b, s);
    }
  }

  lemma {:induction false} HeadOfList(p: Bytes, s: Bytes)
    requires |p| < MAX_SIZE
    ensures var bs := EncodeList(p) + s; var k := |EncodeList(p)| - |p|;
            && ReadHead(bs) == Ok(Head(KList, k, |p|))
            && bs[k..k + |p|] == p && bs[k + |p|..] == s
  {
    if |p| <= 55 {
      ShortHeadOf(0xC0 + |p|, p, s);
    } else {
      SizeFits(|p|);
      LongHeadOf(KList, 0xF7 + |SizeBytes(|p|)|, SizeBytes(|p|), p, s);
    }
  }

  lemma {:induction false} HeadOfNull(s: Bytes)
    ensures var bs := NULL_SEQUENCE + s; ReadHead(bs) == Ok(Head(KNull, 2, 0)) && bs[2..] == s
  {
    var bs := NULL_SEQUENCE + s;
    assert bs[1..2] == [0] && [0 as byte][..0] == [];
    assert Unsigned([0]) == 256 * Unsigned([]);
  }

  // ---- the inverse

  /** One item and what follows it; none if the input is not a well-formed item. */
  function Parse(bs: Bytes): (r: Option<(Item, Bytes)>)
    ensures r.Some? ==> |r.value.1| < |bs|
    decreases |bs|, 0
  {
    match ReadHead(bs)
    case Err(_) => None
    case Ok(Head(kind, header, size)) =>
      if size >= MAX_SIZE || header + size > |bs| then None
      else
        var body, rest := bs[header..header + size], bs[header + size..];
        match kind
        case KNull => Some((Null, rest))
        case KStr => Some((Str(body), rest))
        case KList =>
          match ParseAll(body)
          case None => None
          case Some(items) => Some((List(items), rest))
  }

  function ParseAll(bs: Bytes): Option<seq<Item>>
    decreases |bs|, 1
  {
    if bs == [] then Some([])
    else
      match Parse(bs)
      case None => None
      case Some((v, rest)) =>
        match ParseAll(rest)
        case None => None
        case Some(vs) => Some([v] + vs)
  }

  lemma {:induction false} StrRoundTrip(b: Bytes, s: Bytes)
    requires |b| < MAX_SIZE
    ensures Parse(EncodeBytes(b) + s) == Some((Str(b), s))
  {
    HeadOfBytes(b, s);
  }

  lemma {:induction false} ListRoundTrip(p: Bytes, items: seq<Item>, s: Bytes)
    requires |p| < MAX_SIZE && ParseAll(p) == Some(items)
    ensures Parse(EncodeList(p) + s) == Some((List(items), s))
  {
    HeadOfList(p, s);
  }

  /** Decoding an encoding followed by anything returns the item and exactly what followed. */
  lemma {:induction false} RoundTrip(v: Item, s: Bytes)
    requires |Encode(v)| < MAX_SIZE
    ensures Parse(Encode(v) + s) == Some((v, s))
    decreases v, 0
  {
    match v
    case Null => HeadOfNull(s);
    case Str(b) => StrRoundTrip(b, s);
    case List(items) =>
      RoundTripAll(items, v);
      ListRoundTrip(EncodeAll(items), items, s);
  }

  lemma {:induction false} RoundTripAll(items: seq<Item>, v: Item)
    requires |EncodeAll(items)| < MAX_SIZE
    requires v.List? && forall x <- items :: x in v.items
    ensures ParseAll(EncodeAll(items)) == Some(items)
    decreases v, 0, |items|
  {
    if items != [] {
      EncodeAllFirst(items);
      assert items[0] in v.items;
      RoundTrip(items[0], EncodeAll(items[1..]));
      RoundTripAll(items[1..], v);
      assert [items[0]] + items[1..] == items;
    }
  }

  /** Hence encodings are distinct, and none is a proper prefix of another. */
  lemma {:induction false} PrefixFree(a: Item, b: Item)
    requires |Encode(a)| < MAX_SIZE && |Encode(b)| < MAX_SIZE && Encode(a) <= Encode(b)
    ensures a == b
  {
    var s := Encode(b)[|Encode(a)|..];
    assert Encode(b) == Encode(a) + s && Encode(b) + [] == Encode(b);
    RoundTrip(a, s);
    RoundTrip(b, []);
  }

}
