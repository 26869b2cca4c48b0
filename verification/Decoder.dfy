/**
 The decoder: decode loops over the streaming reader, list by list. It is defined on any
 input; on a well-formed item it returns the typed reading of that item and stops behind it.
 */
module Decoder {
  import opened Bytes
  import opened IntConv
  import opened Rlp
  import opened RlpReader
  import opened CodecValue
  import opened CodecTyped

  /** What a reader sees, and what lies behind it in the lists around. */
  datatype Place = Place(view: Bytes, tails: seq<Bytes>)

  ghost function PlaceOf(st: Stream): Place
    reads st
  {
    Place(st.View(), st.Tails())
  }

  /** What follows the first item: behind all that its header announces, or nothing if that is not all there. */
  ghost function After(view: Bytes): (rest: Bytes)
    ensures view != [] ==> |rest| < |view|
  {
    match ReadHead(view)
    case Ok(Head(_, h, n)) => if h + Span(n) <= |view| then view[h + Span(n)..] else []
    case Err(_) => []
  }

  /**
   How far a typed read goes. Nowhere at the end of a list; right behind the item that its
   header announces, whatever is inside it; and after an error at most into that item, in
   lists that are still open.
   */
  ghost predicate Reads<T(!new)>(from: Place, to: Place, r: Result<T, ReadError>) {
    && (r == Err(EndOfInput) <==> from.view == [])
    && (r == Err(EndOfInput) ==> to == from)
    && (r.Ok? || r == Err(NilValue) ==> to == Place(After(from.view), from.tails))
    && (r.Err? ==> StuckIn(from, to))
  }

  /** No list that was open has been left, and behind the first one opened since is what follows the item. */
  ghost predicate StuckIn(from: Place, to: Place) {
    && from.tails <= to.tails
    && (from.tails < to.tails ==> to.tails[|from.tails|] == After(from.view))
  }

  lemma {:induction false} ParseAfter(view: Bytes)
    ensures Parse(view).Some? ==> After(view) == Parse(view).value.1
  {
    match ReadHead(view)
    case Ok(Head(_, h, n)) => Slices(view, h, n);
    case _ =>
  }

  method ReadContent(st: Stream) returns (r: Result<Bytes, ReadError>)
    modifies st
    ensures Reads(old(PlaceOf(st)), PlaceOf(st), r)
    ensures Parse(old(st.View())).Some? ==> r == Content(Parse(old(st.View())).value.0)
  {
    r := st.ReadBytes();
  }

  /** Opens a list; its content and the bytes behind it are those of the item, if it is well-formed. */
  method OpenList(st: Stream) returns (err: Option<ReadError>)
    modifies st
    ensures err == Some(EndOfInput) <==> old(st.View()) == []
    ensures err == Some(EndOfInput) ==> st.View() == []
    ensures err.Some? ==> st.Tails() == old(st.Tails())
    ensures err == Some(NilValue) ==> st.View() == After(old(st.View()))
    ensures err == None <==> OpensList(old(st.View()))
    ensures err == None ==> st.Tails() == old(st.Tails()) + [After(old(st.View()))]
    ensures match Parse(old(st.View()))
            case None => true
            case Some((Null, rest)) => err == Some(NilValue)
            case Some((Str(_), rest)) => err == Some(WrongKind)
            case Some((List(items), rest)) => err == None && ParseAll(st.View()) == Some(items)
  {
    ghost var view := st.View();
    err := st.ReadList();
    ListTail(view);
    ListContent(view);
  }

  /** What lies behind the content of a list, or behind a null, is what follows the item. */
  lemma {:induction false} ListTail(view: Bytes)
    ensures ReadHead(view).Ok? && ReadHead(view).value.kind != KStr ==>
              var h, n := ReadHead(view).value.header, Span(ReadHead(view).value.size);
              view[h..][|Upto(view[h..], n)|..] == After(view) && (ReadHead(view).value.kind == KNull ==> n == 0)
  {
    if ReadHead(view).Ok? { Slices(view, ReadHead(view).value.header, Span(ReadHead(view).value.size)); }
  }

  lemma {:induction false} ListContent(view: Bytes)
    ensures Parse(view).Some? && Parse(view).value.0.List? ==>
              var h, n := ReadHead(view).value.header, Span(ReadHead(view).value.size);
              ParseAll(Upto(view[h..], n)) == Some(Parse(view).value.0.items)
  {
    if ReadHead(view).Ok? { Slices(view, ReadHead(view).value.header, Span(ReadHead(view).value.size)); }
  }

  /** The input starts with the header of a list. */
  predicate OpensList(view: Bytes) {
    ReadHead(view).Ok? && ReadHead(view).value.kind == KList
  }

  function Prepend<T>(done: seq<T>, r: Result<seq<T>, ReadError>): Result<seq<T>, ReadError> {
    if r.Ok? then Ok(done + r.value) else r
  }

  lemma {:induction false} PrependNone<T>(done: seq<T>, r: Result<seq<T>, ReadError>)
    ensures Prepend([], r) == r && Prepend(done, Ok([])) == Ok(done)
  {
    assert done + [] == done;
    if r.Ok? { assert [] + r.value == r.value; }
  }

  lemma {:induction false} PrependOne<T>(done: seq<T>, x: T, r: Result<seq<T>, ReadError>)
    ensures Prepend(done + [x], r) == Prepend(done, Prepend([x], r))
  {
    if r.Ok? { assert done + [x] + r.value == done + ([x] + r.value); }
  }

  /** The place right behind the innermost list. */
  ghost function Outside(p: Place): Place
    requires p.tails != []
  {
    Place(p.tails[|p.tails| - 1], p.tails[..|p.tails| - 1])
  }

  /** Values of the type are read from a list. */
  predicate WantsList(s: Schema) {
    match s
    case SPtr(t) => WantsList(t)
    case _ => s.SList? || s.SStruct? || s.SMap?
  }

  /** Reads one value of type `s`. After an error a list that was opened for it is still open. */
  method DecodeValue(st: Stream, s: Schema) returns (r: Result<Value, ReadError>)
    modifies st
    ensures Reads(old(PlaceOf(st)), PlaceOf(st), r) && (r.Ok? ==> HasType(r.value, s))
    ensures Parse(old(st.View())).Some? ==> r == FromItem(s, Parse(old(st.View())).value.0)
    ensures r.Err? && WantsList(s) && OpensList(old(st.View())) ==> |old(st.Tails())| < |st.Tails()|
    decreases s, 0
  {
    match s
    case SBytes =>
      var b := ReadContent(st);
      r := match b
        case Ok(bs) => Ok(VBytes(bs))
        case Err(e) => if e == NilValue then Ok(VNilBytes) else Err(e);
    case SPtr(t) =>
      var v := DecodeValue(st, t);
      r := if v.Ok? then Ok(VPtr(v.value)) else v;
    case SList(e) =>
      r := DecodeSlice(st, e);
    case SStruct(fs) =>
      r := DecodeStruct(st, fs);
    case SMap(k, e) =>
      r := DecodeMap(st, k, e);
    case _ =>
      var b := ReadContent(st);
      if b.Err? { return Err(b.error); }
      r := DecodeScalar(s, b.value);
  }

  method DecodeScalar(s: Schema, b: Bytes) returns (r: Result<Value, ReadError>)
    ensures r == Ok(Scalar(s, b))
  {
    match s
    case SBool =>
      var u := BytesToUint64(b);
      r := Ok(VBool(u != 0));
    case SUint =>
      var u := BytesToUint64(b);
      r := Ok(VUint(u));
    case SInt =>
      var i := BytesToInt64(b);
      r := Ok(VInt(i));
    case _ =>
      r := Ok(VText(b));
  }

  method DecodeNullable(st: Stream, s: Schema) returns (r: Result<Value, ReadError>)
    modifies st
    ensures Reads(old(PlaceOf(st)), PlaceOf(st), r) && r != Err(NilValue) && (r.Ok? ==> HasType(r.value, s))
    ensures Parse(old(st.View())).Some? ==> r == FromNullable(s, Parse(old(st.View())).value.0)
    decreases s, 1
  {
    r := DecodeValue(st, s);
    if r == Err(NilValue) {
      ZeroTyped(s);
      r := Ok(Zero(s));
    }
  }

  /** Values for the first fields of a struct. */
  predicate TypedTo(vs: seq<Value>, fs: seq<Schema>, n: nat) {
    n == |vs| <= |fs| && forall i :: 0 <= i < n ==> HasType(vs[i], fs[i])
  }

  predicate EntriesTyped(es: seq<Entry>, k: KeyKind, e: Schema) {
    DistinctEntryKeys(es) && forall x <- es :: KeyOf(k, x.key) && HasType(x.value, e)
  }

  lemma {:induction false} ZeroTyped(s: Schema)
    ensures HasType(Zero(s), s)
    decreases s, 0
  {
    if s.SStruct? { ZeroFields(s.fields); }
  }

  lemma {:induction false} ZeroFields(fs: seq<Schema>)
    ensures TypedTo(Zeros(fs), fs, |fs|)
    decreases fs, 1
  {
    if fs != [] {
      ZeroTyped(fs[0]);
      ZeroFields(fs[1..]);
    }
  }

  lemma {:induction false} ZerosTyped(vs: seq<Value>, fs: seq<Schema>, i: nat)
    requires i <= |fs| && TypedTo(vs, fs, i)
    ensures TypedTo(vs + Zeros(fs[i..]), fs, |fs|)
  {
    ZeroFields(fs[i..]);
  }

  lemma {:induction false} PutIn(es: seq<Entry>, x: Entry)
    ensures forall y <- PutEntry(es, x) :: y == x || y in es
  {
    if es != [] {
      assert es == [es[0]] + es[1..];
      PutIn(es[1..], x);
    }
  }

  lemma {:induction false} PutDistinct(es: seq<Entry>, x: Entry)
    requires DistinctEntryKeys(es)
    ensures DistinctEntryKeys(PutEntry(es, x))
  {
    if es != [] && es[0].key != x.key {
      PutDistinct(es[1..], x);
      PutIn(es[1..], x);
      var rest := PutEntry(es[1..], x);
      forall j | 0 <= j < |rest| ensures rest[j].key != es[0].key {
        assert rest[j] in rest;
      }
    }
  }

  lemma {:induction false} PutTyped(es: seq<Entry>, x: Entry, k: KeyKind, e: Schema)
    requires EntriesTyped(es, k, e) && KeyOf(k, x.key) && HasType(x.value, e)
    ensures EntriesTyped(PutEntry(es, x), k, e)
  {
    PutDistinct(es, x);
    PutIn(es, x);
  }

  /** One step of reading the elements of a list. */
  lemma {:induction false} ElemsStep(e: Schema, view: Bytes, vs: seq<Value>)
    requires ParseAll(view).Some?
    ensures view == [] ==> Prepend(vs, FromItems(e, ParseAll(view).value)) == Ok(vs)
    ensures view != [] ==>
              && Parse(view).Some? && ParseAll(Parse(view).value.1).Some?
              && Prepend(vs, FromItems(e, ParseAll(view).value)) ==
                 match FromNullable(e, Parse(view).value.0)
                 case Err(x) => Err(x)
                 case Ok(v) => Prepend(vs + [v], FromItems(e, ParseAll(Parse(view).value.1).value))
  {
    if view == [] {
      PrependNone(vs, FromItems(e, []));
    } else {
      var (item, rest) := Parse(view).value;
      var items := ParseAll(view).value;
      assert items[0] == item && items[1..] == ParseAll(rest).value;
      if FromNullable(e, item).Ok? {
        PrependOne(vs, FromNullable(e, item).value, FromItems(e, items[1..]));
      }
    }
  }

  method DecodeElems(st: Stream, e: Schema) returns (r: Result<seq<Value>, ReadError>)
    modifies st
    ensures r != Err(NilValue) && r != Err(EndOfInput)
    ensures old(st.Tails()) <= st.Tails()
    ensures r.Ok? ==> st.Tails() == old(st.Tails()) && forall v <- r.value :: HasType(v, e)
    ensures ParseAll(old(st.View())).Some? ==> r == FromItems(e, ParseAll(old(st.View())).value)
    decreases e, 2
  {
    var vs := [];
    ghost var all := ParseAll(st.View());
    if all.Some? { PrependNone(vs, FromItems(e, all.value)); }
    while true
      invariant st.Tails() == old(st.Tails()) && forall v <- vs :: HasType(v, e)
      invariant all.Some? ==> ParseAll(st.View()).Some?
      invariant all.Some? ==> FromItems(e, all.value) == Prepend(vs, FromItems(e, ParseAll(st.View()).value))
      decreases |st.View()|
    {
      if all.Some? {
        ElemsStep(e, st.View(), vs);
        ParseAfter(st.View());
      }
      var v := DecodeNullable(st, e);
      if v.Err? {
        return if v.error == EndOfInput then Ok(vs) else Err(v.error);
      }
      vs := vs + [v.value];
    }
  }

  method DecodeSlice(st: Stream, e: Schema) returns (r: Result<Value, ReadError>)
    modifies st
    ensures Reads(old(PlaceOf(st)), PlaceOf(st), r) && (r.Ok? ==> HasType(r.value, SList(e)))
    ensures Parse(old(st.View())).Some? ==> r == FromItem(SList(e), Parse(old(st.View())).value.0)
    ensures r.Err? && OpensList(old(st.View())) ==> |old(st.Tails())| < |st.Tails()|
    decreases e, 4
  {
    var err := OpenList(st);
    SliceReadings(e, old(st.View()), st.View());
    if err.Some? {
      r := if err.value == NilValue then Ok(VNilList) else Err(err.value);
    } else {
      r := DecodeSliceBody(st, e);
    }
  }

  lemma {:induction false} SliceReadings(e: Schema, whole: Bytes, content: Bytes)
    ensures Parse(whole).Some? ==>
              match Parse(whole).value.0
              case Null => FromItem(SList(e), Null) == Ok(VNilList)
              case Str(b) => FromItem(SList(e), Str(b)) == Err(WrongKind)
              case List(items) =>
                ParseAll(content) == Some(items) ==> FromItem(SList(e), List(items)) == SliceReading(e, items)
  {
  }

  function SliceReading(e: Schema, items: seq<Item>): Result<Value, ReadError> {
    match FromItems(e, items)
    case Ok(vs) => Ok(VList(vs))
    case Err(x) => Err(x)
  }

  method DecodeSliceBody(st: Stream, e: Schema) returns (r: Result<Value, ReadError>)
    requires st.Tails() != []
    modifies st
    ensures r != Err(NilValue) && r != Err(EndOfInput) && (r.Ok? ==> HasType(r.value, SList(e)))
    ensures r.Ok? ==> PlaceOf(st) == Outside(old(PlaceOf(st)))
    ensures r.Err? ==> old(st.Tails()) <= st.Tails()
    ensures ParseAll(old(st.View())).Some? ==> r == SliceReading(e, ParseAll(old(st.View())).value)
    decreases e, 3
  {
    var vs := DecodeElems(st, e);
    if vs.Err? { return Err(vs.error); }
    st.CloseList();
    r := Ok(VList(vs.value));
  }

  lemma {:induction false} FieldsStep(fs: seq<Schema>, i: nat, view: Bytes, vs: seq<Value>)
    requires ParseAll(view).Some? && i < |fs|
    ensures view == [] ==> Prepend(vs, FromFields(fs[i..], ParseAll(view).value)) == Ok(vs + Zeros(fs[i..]))
    ensures view != [] ==>
              && Parse(view).Some? && After(view) == Parse(view).value.1 && ParseAll(Parse(view).value.1).Some?
              && Prepend(vs, FromFields(fs[i..], ParseAll(view).value)) ==
                 match FromNullable(fs[i], Parse(view).value.0)
                 case Err(x) => Err(x)
                 case Ok(v) => Prepend(vs + [v], FromFields(fs[i + 1..], ParseAll(Parse(view).value.1).value))
  {
    assert fs[i..][0] == fs[i] && fs[i..][1..] == fs[i + 1..];
    if view != [] {
      ParseAfter(view);
      var (item, rest) := Parse(view).value;
      var items := ParseAll(view).value;
      assert items[0] == item && items[1..] == ParseAll(rest).value;
      if FromNullable(fs[i], item).Ok? {
        PrependOne(vs, FromNullable(fs[i], item).value, FromFields(fs[i + 1..], items[1..]));
      }
    }
  }

  /** Reads one field, or nothing at the end; `vs` are the fields read before. */
  method DecodeField(st: Stream, fs: seq<Schema>, i: nat, ghost vs: seq<Value>)
    returns (r: Result<Option<Value>, ReadError>)
    requires i < |fs|
    modifies st
    ensures r != Err(NilValue) && r != Err(EndOfInput)
    ensures old(st.Tails()) <= st.Tails() && (r.Ok? ==> st.Tails() == old(st.Tails()))
    ensures r.Ok? && r.value.Some? ==> HasType(r.value.value, fs[i])
    ensures ParseAll(old(st.View())).Some? ==>
              FieldRead(fs, i, Prepend(vs, FromFields(fs[i..], ParseAll(old(st.View())).value)), vs, r, st.View())
    decreases fs, 0
  {
    if ParseAll(st.View()).Some? { FieldsStep(fs, i, st.View(), vs); }
    var v := DecodeNullable(st, fs[i]);
    if v.Err? {
      r := if v.error == EndOfInput then Ok(None) else Err(v.error);
    } else {
      r := Ok(Some(v.value));
    }
  }

  /** What reading one field leaves of the reading of all: an error, zero values, or one field more. */
  ghost predicate FieldRead(
    fs: seq<Schema>, i: nat, all: Result<seq<Value>, ReadError>, vs: seq<Value>,
    r: Result<Option<Value>, ReadError>, rest: Bytes)
    requires i < |fs|
  {
    match r
    case Err(x) => all == Err(x)
    case Ok(None) => all == Ok(vs + Zeros(fs[i..]))
    case Ok(Some(v)) => ParseAll(rest).Some? && all == Prepend(vs + [v], FromFields(fs[i + 1..], ParseAll(rest).value))
  }

  /** Fills the fields of a struct until either the fields or the items run out. */
  method DecodeFields(st: Stream, fs: seq<Schema>) returns (r: Result<seq<Value>, ReadError>)
    modifies st
    ensures r != Err(NilValue) && r != Err(EndOfInput)
    ensures old(st.Tails()) <= st.Tails()
    ensures r.Ok? ==> st.Tails() == old(st.Tails()) && TypedTo(r.value, fs, |fs|)
    ensures ParseAll(old(st.View())).Some? ==> r == FromFields(fs, ParseAll(old(st.View())).value)
    decreases fs, 1
  {
    var vs := [];
    ghost var all := ParseAll(st.View());
    assert fs[0..] == fs;
    if all.Some? { PrependNone(vs, FromFields(fs, all.value)); }
    for i := 0 to |fs|
      invariant st.Tails() == old(st.Tails()) && TypedTo(vs, fs, i)
      invariant all.Some? ==> ParseAll(st.View()).Some?
      invariant all.Some? ==> FromFields(fs, all.value) == Prepend(vs, FromFields(fs[i..], ParseAll(st.View()).value))
    {
      ZerosTyped(vs, fs, i);
      var v := DecodeField(st, fs, i, vs);
      if v.Err? { return Err(v.error); }
      if v.value.None? { return Ok(vs + Zeros(fs[i..])); }
      vs := vs + [v.value.value];
    }
    PrependNone(vs, Ok([]));
    r := Ok(vs);
  }

  method DecodeStruct(st: Stream, fs: seq<Schema>) returns (r: Result<Value, ReadError>)
    modifies st
    ensures Reads(old(PlaceOf(st)), PlaceOf(st), r) && (r.Ok? ==> HasType(r.value, SStruct(fs)))
    ensures Parse(old(st.View())).Some? ==> r == FromItem(SStruct(fs), Parse(old(st.View())).value.0)
    ensures r.Err? && OpensList(old(st.View())) ==> |old(st.Tails())| < |st.Tails()|
    decreases fs, 3
  {
    var err := OpenList(st);
    StructReadings(fs, old(st.View()), st.View());
    if err.Some? {
      r := Err(err.value);
    } else {
      r := DecodeStructBody(st, fs);
    }
  }

  lemma {:induction false} StructReadings(fs: seq<Schema>, whole: Bytes, content: Bytes)
    ensures Parse(whole).Some? ==>
              match Parse(whole).value.0
              case Null => FromItem(SStruct(fs), Null) == Err(NilValue)
              case Str(b) => FromItem(SStruct(fs), Str(b)) == Err(WrongKind)
              case List(items) =>
                ParseAll(content) == Some(items) ==> FromItem(SStruct(fs), List(items)) == StructReading(fs, items)
  {
  }

  function StructReading(fs: seq<Schema>, items: seq<Item>): Result<Value, ReadError> {
    match FromFields(fs, items)
    case Ok(vs) => Ok(VStruct(vs))
    case Err(x) => Err(x)
  }

  method DecodeStructBody(st: Stream, fs: seq<Schema>) returns (r: Result<Value, ReadError>)
    requires st.Tails() != []
    modifies st
    ensures r != Err(NilValue) && r != Err(EndOfInput) && (r.Ok? ==> HasType(r.value, SStruct(fs)))
    ensures r.Ok? ==> PlaceOf(st) == Outside(old(PlaceOf(st)))
    ensures r.Err? ==> old(st.Tails()) <= st.Tails()
    ensures ParseAll(old(st.View())).Some? ==> r == StructReading(fs, ParseAll(old(st.View())).value)
    decreases fs, 2
  {
    var vs := DecodeFields(st, fs);
    if vs.Err? { return Err(vs.error); }
    st.CloseList();
    r := Ok(VStruct(vs.value));
  }

  method DecodeKey(k: KeyKind, b: Bytes) returns (key: Key)
    ensures key == ReadKey(k, b)
  {
    match k
    case IntKey =>
      var i := BytesToInt64(b);
      key := KeyInt(i);
    case UintKey =>
      var u := BytesToUint64(b);
      key := KeyUint(u);
    case TextKey =>
      key := KeyText(b);
  }

  /** The items of a list that parses, one by one. */
  lemma {:induction false} ParseAllStep(view: Bytes)
    requires ParseAll(view).Some? && view != []
    ensures Parse(view).Some? && ParseAll(Parse(view).value.1).Some?
    ensures var items := ParseAll(view).value;
            items != [] && items[0] == Parse(view).value.0 && items[1..] == ParseAll(Parse(view).value.1).value
  {
  }

  /** What is left to read of a pair and all behind it, once the key's bytes `b` are read. */
  ghost function ValueReading(k: KeyKind, e: Schema, rest: Bytes, es: seq<Entry>, b: Bytes)
    : Result<seq<Entry>, ReadError>
    requires ParseAll(rest).Some?
  {
    if rest == [] then Err(BadFormat)
    else
      ParseAllStep(rest);
      match FromNullable(e, Parse(rest).value.0)
      case Err(x) => Err(x)
      case Ok(v) => FromPairs(k, e, ParseAll(Parse(rest).value.1).value, PutEntry(es, Entry(ReadKey(k, b), v)))
  }

  lemma {:induction false} KeyStep(k: KeyKind, e: Schema, view: Bytes, es: seq<Entry>)
    requires ParseAll(view).Some?
    ensures var all := FromPairs(k, e, ParseAll(view).value, es);
            if view == [] then all == Ok(es)
            else
              && Parse(view).Some? && After(view) == Parse(view).value.1 && ParseAll(Parse(view).value.1).Some?
              && all == match Content(Parse(view).value.0)
                        case Err(x) => Err(if x == NilValue then BadFormat else x)
                        case Ok(b) => ValueReading(k, e, Parse(view).value.1, es, b)
  {
    if view != [] {
      ParseAllStep(view);
      ParseAfter(view);
      var rest := Parse(view).value.1;
      if rest != [] { ParseAllStep(rest); }
    }
  }

  /** Reads a key and its value, or nothing at the end; `es` are the entries read before. */
  method DecodePair(st: Stream, k: KeyKind, e: Schema, ghost es: seq<Entry>)
    returns (r: Result<Option<Entry>, ReadError>)
    modifies st
    ensures r != Err(NilValue) && r != Err(EndOfInput) && (r == Ok(None) <==> old(st.View()) == [])
    ensures old(st.Tails()) <= st.Tails() && (r.Ok? ==> st.Tails() == old(st.Tails()))
    ensures r.Ok? && r.value.Some? ==>
              |st.View()| < |old(st.View())| && KeyOf(k, r.value.value.key) && HasType(r.value.value.value, e)
    ensures ParseAll(old(st.View())).Some? ==>
              PairRead(k, e, FromPairs(k, e, ParseAll(old(st.View())).value, es), es, r, st.View())
    decreases e, 3
  {
    if ParseAll(st.View()).Some? { KeyStep(k, e, st.View(), es); }
    var b := ReadContent(st);
    if b.Err? {
      r := if b.error == EndOfInput then Ok(None) else Err(if b.error == NilValue then BadFormat else b.error);
    } else {
      r := DecodeEntry(st, k, e, b.value, es);
    }
  }

  method DecodeEntry(st: Stream, k: KeyKind, e: Schema, b: Bytes, ghost es: seq<Entry>)
    returns (r: Result<Option<Entry>, ReadError>)
    modifies st
    ensures r != Err(NilValue) && r != Err(EndOfInput) && r != Ok(None)
    ensures old(st.Tails()) <= st.Tails() && (r.Ok? ==> st.Tails() == old(st.Tails()))
    ensures r.Ok? && r.value.Some? ==>
              |st.View()| < |old(st.View())| && KeyOf(k, r.value.value.key) && HasType(r.value.value.value, e)
    ensures ParseAll(old(st.View())).Some? ==>
              PairRead(k, e, ValueReading(k, e, old(st.View()), es, b), es, r, st.View())
    decreases e, 2
  {
    var key := DecodeKey(k, b);
    if ParseAll(st.View()).Some? && st.View() != [] {
      ParseAllStep(st.View());
      ParseAfter(st.View());
    }
    var v := DecodeNullable(st, e);
    if v.Err? {
      r := Err(if v.error == EndOfInput then BadFormat else v.error);
    } else {
      r := Ok(Some(Entry(key, v.value)));
    }
  }

  /** What reading one pair leaves of the reading of all: an error, the end, or one entry more. */
  ghost predicate PairRead(
    k: KeyKind, e: Schema, all: Result<seq<Entry>, ReadError>, es: seq<Entry>,
    r: Result<Option<Entry>, ReadError>, rest: Bytes)
  {
    match r
    case Err(x) => all == Err(x)
    case Ok(None) => all == Ok(es)
    case Ok(Some(x)) => ParseAll(rest).Some? && all == FromPairs(k, e, ParseAll(rest).value, PutEntry(es, x))
  }

  method DecodePairs(st: Stream, k: KeyKind, e: Schema) returns (r: Result<seq<Entry>, ReadError>)
    modifies st
    ensures r != Err(NilValue) && r != Err(EndOfInput)
    ensures old(st.Tails()) <= st.Tails()
    ensures r.Ok? ==> st.Tails() == old(st.Tails()) && EntriesTyped(r.value, k, e)
    ensures ParseAll(old(st.View())).Some? ==> r == FromPairs(k, e, ParseAll(old(st.View())).value, [])
    decreases e, 4
  {
    var es := [];
    ghost var all := ParseAll(st.View());
    while true
      invariant st.Tails() == old(st.Tails()) && EntriesTyped(es, k, e)
      invariant all.Some? ==> ParseAll(st.View()).Some?
      invariant all.Some? ==> FromPairs(k, e, all.value, []) == FromPairs(k, e, ParseAll(st.View()).value, es)
      decreases |st.View()|
    {
      var x := DecodePair(st, k, e, es);
      if x.Err? { return Err(x.error); }
      if x.value.None? { return Ok(es); }
      PutTyped(es, x.value.value, k, e);
      es := PutEntry(es, x.value.value);
    }
  }

  method DecodeMap(st: Stream, k: KeyKind, e: Schema) returns (r: Result<Value, ReadError>)
    modifies st
    ensures Reads(old(PlaceOf(st)), PlaceOf(st), r) && (r.Ok? ==> HasType(r.value, SMap(k, e)))
    ensures Parse(old(st.View())).Some? ==> r == FromItem(SMap(k, e), Parse(old(st.View())).value.0)
    ensures r.Err? && OpensList(old(st.View())) ==> |old(st.Tails())| < |st.Tails()|
    decreases e, 6
  {
    var err := OpenList(st);
    MapReadings(k, e, old(st.View()), st.View());
    if err.Some? {
      r := if err.value == NilValue then Ok(VNilMap) else Err(err.value);
    } else {
      r := DecodeMapBody(st, k, e);
    }
  }

  lemma {:induction false} MapReadings(k: KeyKind, e: Schema, whole: Bytes, content: Bytes)
    ensures Parse(whole).Some? ==>
              match Parse(whole).value.0
              case Null => FromItem(SMap(k, e), Null) == Ok(VNilMap)
              case Str(b) => FromItem(SMap(k, e), Str(b)) == Err(WrongKind)
              case List(items) =>
                ParseAll(content) == Some(items) ==> FromItem(SMap(k, e), List(items)) == MapReading(k, e, items)
  {
  }

  function MapReading(k: KeyKind, e: Schema, items: seq<Item>): Result<Value, ReadError> {
    match FromPairs(k, e, items, [])
    case Ok(es) => Ok(VMap(es))
    case Err(x) => Err(x)
  }

  method DecodeMapBody(st: Stream, k: KeyKind, e: Schema) returns (r: Result<Value, ReadError>)
    requires st.Tails() != []
    modifies st
    ensures r != Err(NilValue) && r != Err(EndOfInput) && (r.Ok? ==> HasType(r.value, SMap(k, e)))
    ensures r.Ok? ==> PlaceOf(st) == Outside(old(PlaceOf(st)))
    ensures r.Err? ==> old(st.Tails()) <= st.Tails()
    ensures ParseAll(old(st.View())).Some? ==> r == MapReading(k, e, ParseAll(old(st.View())).value)
    decreases e, 5
  {
    var es := DecodePairs(st, k, e);
    if es.Err? { return Err(es.error); }
    st.CloseList();
    r := Ok(VMap(es.value));
  }

}
