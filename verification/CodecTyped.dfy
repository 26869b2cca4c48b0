/**
 Typed reading of RLP items: what decoding into a Go value of a given type yields, and
 exactly which values survive the way through their bytes.
 */
module CodecTyped {
  import opened Bytes
  import opened IntConv
  import opened Rlp
  import opened CodecValue

  predicate KeyOf(k: KeyKind, key: Key) {
    match k
    case IntKey => key.KeyInt?
    case UintKey => key.KeyUint?
    case TextKey => key.KeyText?
  }

  predicate HasType(v: Value, s: Schema)
    decreases s
  {
    match s
    case SBool => v.VBool?
    case SUint => v.VUint?
    case SInt => v.VInt?
    case SText => v.VText?
    case SBytes => v.VNilBytes? || v.VBytes?
    case SList(e) => v.VNilList? || (v.VList? && forall x <- v.elems :: HasType(x, e))
    case SStruct(fs) =>
      v.VStruct? && |v.fields| == |fs| && forall i :: 0 <= i < |fs| ==> HasType(v.fields[i], fs[i])
    case SPtr(t) => v.VNilPtr? || (v.VPtr? && HasType(v.target, t))
    case SMap(k, e) =>
      v.VNilMap? || (v.VMap? && DistinctEntryKeys(v.entries) &&
                     forall x <- v.entries :: KeyOf(k, x.key) && HasType(x.value, e))
  }

  /** The zero value of a type. */
  function Zero(s: Schema): Value
    decreases s
  {
    match s
    case SBool => VBool(false)
    case SUint => VUint(0)
    case SInt => VInt(0)
    case SText => VText([])
    case SBytes => VNilBytes
    case SList(_) => VNilList
    case SStruct(fs) => VStruct(Zeros(fs))
    case SPtr(_) => VNilPtr
    case SMap(_, _) => VNilMap
  }

  function Zeros(fs: seq<Schema>): (vs: seq<Value>)
    ensures |vs| == |fs|
    decreases fs
  {
    if fs == [] then [] else [Zero(fs[0])] + Zeros(fs[1..])
  }

  /** The content of a byte-string item, as the reader returns it. */
  function Content(item: Item): Result<Bytes, ReadError> {
    match item
    case Null => Err(NilValue)
    case Str(b) => Ok(b)
    case List(_) => Err(WrongKind)
  }

  function Scalar(s: Schema, b: Bytes): Value {
    match s
    case SBool => VBool(Signed(b) % TWO64 != 0)
    case SUint => VUint(Signed(b) % TWO64)
    case SInt => VInt(Wrap64(Signed(b)))
    case _ => VText(b)
  }

  function ReadKey(k: KeyKind, b: Bytes): Key {
    match k
    case IntKey => KeyInt(Wrap64(Signed(b)))
    case UintKey => KeyUint(Signed(b) % TWO64)
    case TextKey => KeyText(b)
  }

  function PutEntry(es: seq<Entry>, e: Entry): seq<Entry> {
    if es == [] then [e]
    else if es[0].key == e.key then [e] + es[1..]
    else [es[0]] + PutEntry(es[1..], e)
  }

  function FromItem(s: Schema, item: Item): (r: Result<Value, ReadError>)
    ensures r == Err(NilValue) ==> item == Null
    ensures r != Err(EndOfInput)
    decreases s, 0
  {
    match s
    case SBytes =>
      (match item
       case Null => Ok(VNilBytes)
       case Str(b) => Ok(VBytes(b))
       case List(_) => Err(WrongKind))
    case SList(e) =>
      (match item
       case Null => Ok(VNilList)
       case Str(_) => Err(WrongKind)
       case List(items) =>
         match FromItems(e, items)
         case Ok(vs) => Ok(VList(vs))
         case Err(x) => Err(x))
    case SStruct(fs) =>
      (match item
       case Null => Err(NilValue)
       case Str(_) => Err(WrongKind)
       case List(items) =>
         match FromFields(fs, items)
         case Ok(vs) => Ok(VStruct(vs))
         case Err(x) => Err(x))
    case SPtr(t) =>
      (match FromItem(t, item)
       case Ok(v) => Ok(VPtr(v))
       case Err(x) => Err(x))
    case SMap(k, e) =>
      (match item
       case Null => Ok(VNilMap)
       case Str(_) => Err(WrongKind)
       case List(items) =>
         match FromPairs(k, e, items, [])
         case Ok(es) => Ok(VMap(es))
         case Err(x) => Err(x))
    case _ =>
      match Content(item)
      case Ok(b) => Ok(Scalar(s, b))
      case Err(x) => Err(x)
  }

  /** A null item leaves the zero value. */
  function FromNullable(s: Schema, item: Item): (r: Result<Value, ReadError>)
    ensures r.Err? ==> r.error != NilValue && r.error != EndOfInput
    decreases s, 1
  {
    var read := FromItem(s, item);
    if read == Err(NilValue) then Ok(Zero(s)) else read
  }

  function FromItems(e: Schema, items: seq<Item>): (r: Result<seq<Value>, ReadError>)
    ensures r.Ok? ==> |r.value| == |items|
    ensures r.Err? ==> r.error != NilValue && r.error != EndOfInput
    decreases e, 2, |items|
  {
    if items == [] then Ok([])
    else
      match FromNullable(e, items[0])
      case Err(x) => Err(x)
      case Ok(v) =>
        match FromItems(e, items[1..])
        case Err(x) => Err(x)
        case Ok(vs) => Ok([v] + vs)
  }

  /** Fields beyond the encoded ones keep their zero value; items beyond the fields are dropped. */
  function FromFields(fs: seq<Schema>, items: seq<Item>): (r: Result<seq<Value>, ReadError>)
    ensures r.Ok? ==> |r.value| == |fs|
    ensures r.Err? ==> r.error != NilValue && r.error != EndOfInput
    decreases fs
  {
    if fs == [] then Ok([])
    else if items == [] then Ok(Zeros(fs))
    else
      match FromNullable(fs[0], items[0])
      case Err(x) => Err(x)
      case Ok(v) =>
        match FromFields(fs[1..], items[1..])
        case Err(x) => Err(x)
        case Ok(vs) => Ok([v] + vs)
  }

  function FromPairs(k: KeyKind, e: Schema, items: seq<Item>, es: seq<Entry>): (r: Result<seq<Entry>, ReadError>)
    ensures r.Err? ==> r.error != NilValue && r.error != EndOfInput
    decreases e, 2, |items|
  {
    if items == [] then Ok(es)
    else
      match Content(items[0])
      case Err(NilValue) => Err(BadFormat)
      case Err(x) => Err(x)
      case Ok(b) =>
        if |items| == 1 then Err(BadFormat)
        else
          match FromNullable(e, items[1])
          case Err(x) => Err(x)
          case Ok(v) => FromPairs(k, e, items[2..], PutEntry(es, Entry(ReadKey(k, b), v)))
  }

  // ---- which values survive

  /** Reading a null item as this type reports nil instead of producing a nil value. */
  predicate NilReported(s: Schema)
    decreases s
  {
    match s
    case SBytes => false
    case SList(_) => false
    case SMap(_, _) => false
    case SPtr(t) => NilReported(t)
    case _ => true
  }

  /**
   No nil pointer to a type that has a nil of its own, and no pointer to a nil pointer:
   the null item cannot tell which of the two was nil.
   */
  predicate Faithful(v: Value, s: Schema)
    requires HasType(v, s)
    decreases s
  {
    match s
    case SList(e) => v.VList? ==> forall x <- v.elems :: Faithful(x, e)
    case SStruct(fs) => forall i :: 0 <= i < |fs| ==> Faithful(v.fields[i], fs[i])
    case SPtr(t) => if v.VNilPtr? then NilReported(t) else !v.target.VNilPtr? && Faithful(v.target, t)
    case SMap(_, e) => v.VMap? ==> forall x <- v.entries :: Faithful(x.value, e)
    case _ => true
  }

  function InsertEntry(e: Entry, sorted: seq<Entry>): (r: seq<Entry>)
    ensures |r| == |sorted| + 1
  {
    if sorted == [] then [e]
    else if KeyLess(e.key, sorted[0].key) then [e] + sorted
    else [sorted[0]] + InsertEntry(e, sorted[1..])
  }

  function SortEntries(es: seq<Entry>): (r: seq<Entry>)
    ensures |r| == |es|
  {
    if es == [] then [] else InsertEntry(es[0], SortEntries(es[1..]))
  }

  /** The value with the entries of its maps in key order: the same Go value. */
  function Canon(v: Value): Value {
    match v
    case VList(vs) => VList(CanonAll(vs))
    case VStruct(vs) => VStruct(CanonAll(vs))
    case VPtr(t) => VPtr(Canon(t))
    case VMap(es) => VMap(SortEntries(CanonEntries(es)))
    case _ => v
  }

  function CanonAll(vs: seq<Value>): (r: seq<Value>)
    ensures |r| == |vs|
  {
    if vs == [] then [] else [Canon(vs[0])] + CanonAll(vs[1..])
  }

  function CanonEntries(es: seq<Entry>): (r: seq<Entry>)
    ensures |r| == |es|
  {
    if es == [] then [] else [CanonEntry(es[0])] + CanonEntries(es[1..])
  }

  function CanonEntry(e: Entry): Entry {
    Entry(e.key, Canon(e.value))
  }

  lemma {:induction false} KeyRoundTrip(k: KeyKind, key: Key)
    requires KeyOf(k, key)
    ensures ReadKey(k, KeyBytes(key)) == key
  {
    match key
    case KeyInt(i) => Int64RoundTrip(i);
    case KeyUint(u) => Uint64RoundTrip(u);
    case KeyText(_) =>
  }

  lemma {:induction false} ScalarRoundTrip(v: Value, s: Schema)
    requires HasType(v, s) && (s.SBool? || s.SUint? || s.SInt? || s.SText?)
    ensures FromItem(s, ToItem(v)) == Ok(v)
  {
    match v
    case VBool(b) =>
      SignedOne(1);
      SignedOne(0);
    case VUint(u) => Uint64RoundTrip(u);
    case VInt(i) => Int64RoundTrip(i);
    case VText(_) =>
  }

  /** What reading a value's own item yields: always a value, and the same one exactly if `Faithful`. */
  predicate Survives(v: Value, s: Schema)
    requires HasType(v, s)
  {
    var r := FromNullable(s, ToItem(v));
    r.Ok? && (r.value == Canon(v) <==> Faithful(v, s))
  }

  lemma {:induction false} TypedRoundTrip(v: Value, s: Schema)
    requires HasType(v, s)
    ensures Survives(v, s)
    decreases s, 0
  {
    match s
    case SBytes =>
    case SList(e) =>
      if v.VList? {
        ListRoundTrip(v.elems, e);
        ListSurvives(v.elems, e);
      }
    case SStruct(fs) =>
      StructRoundTrip(v.fields, fs);
      StructSurvives(v.fields, fs);
    case SPtr(t) =>
      if v.VPtr? {
        TypedRoundTrip(v.target, t);
        PointerSurvives(v.target, t);
      } else {
        NilPointer(t);
      }
    case SMap(k, e) =>
      if v.VMap? {
        MapRoundTrip(v.entries, k, e);
        MapSurvives(v.entries, k, e);
      }
    case _ =>
      ScalarRoundTrip(v, s);
  }

  lemma {:induction false} ListSurvives(vs: seq<Value>, e: Schema)
    requires forall x <- vs :: HasType(x, e)
    requires var r := FromItems(e, ToItems(vs));
             r.Ok? && (r.value == CanonAll(vs) <==> forall x <- vs :: Faithful(x, e))
    ensures HasType(VList(vs), SList(e)) && Survives(VList(vs), SList(e))
  {
  }

  lemma {:induction false} StructSurvives(vs: seq<Value>, fs: seq<Schema>)
    requires |vs| == |fs| && forall i :: 0 <= i < |fs| ==> HasType(vs[i], fs[i])
    requires var r := FromFields(fs, ToItems(vs));
             r.Ok? && (r.value == CanonAll(vs) <==> forall i :: 0 <= i < |fs| ==> Faithful(vs[i], fs[i]))
    ensures HasType(VStruct(vs), SStruct(fs)) && Survives(VStruct(vs), SStruct(fs))
  {
  }

  lemma {:induction false} MapSurvives(es: seq<Entry>, k: KeyKind, s: Schema)
    requires DistinctEntryKeys(es) && forall x <- es :: KeyOf(k, x.key) && HasType(x.value, s)
    requires var r := FromPairs(k, s, Flatten(SortPairs(ToPairs(es))), []);
             r.Ok? && (r.value == SortEntries(CanonEntries(es)) <==> forall x <- es :: Faithful(x.value, s))
    ensures HasType(VMap(es), SMap(k, s)) && Survives(VMap(es), SMap(k, s))
  {
    var items := Flatten(SortPairs(ToPairs(es)));
    MapFromItems(k, s, items);
    assert ToItem(VMap(es)) == List(items) && Canon(VMap(es)) == VMap(SortEntries(CanonEntries(es)));
  }

  lemma {:induction false} MapFromItems(k: KeyKind, s: Schema, items: seq<Item>)
    ensures FromNullable(SMap(k, s), List(items)) ==
            match FromPairs(k, s, items, []) case Ok(es) => Ok(VMap(es)) case Err(x) => Err(x)
  {
  }

  lemma {:induction false} ListRoundTrip(vs: seq<Value>, e: Schema)
    requires forall x <- vs :: HasType(x, e)
    ensures var r := FromItems(e, ToItems(vs));
            r.Ok? && (r.value == CanonAll(vs) <==> forall x <- vs :: Faithful(x, e))
    decreases e, 1, |vs|
  {
    if vs != [] {
      TypedRoundTrip(vs[0], e);
      ListRoundTrip(vs[1..], e);
      assert vs == [vs[0]] + vs[1..];
      var r := FromItems(e, ToItems(vs));
      assert ToItems(vs)[1..] == ToItems(vs[1..]);
      assert r.value[0] == FromNullable(e, ToItem(vs[0])).value;
      assert r.value[1..] == FromItems(e, ToItems(vs[1..])).value;
      assert CanonAll(vs)[0] == Canon(vs[0]) && CanonAll(vs)[1..] == CanonAll(vs[1..]);
    }
  }

  lemma {:induction false} StructRoundTrip(vs: seq<Value>, fs: seq<Schema>)
    requires |vs| == |fs| && forall i :: 0 <= i < |fs| ==> HasType(vs[i], fs[i])
    ensures var r := FromFields(fs, ToItems(vs));
            r.Ok? && (r.value == CanonAll(vs) <==> forall i :: 0 <= i < |fs| ==> Faithful(vs[i], fs[i]))
    decreases fs
  {
    if fs != [] {
      TypedRoundTrip(vs[0], fs[0]);
      StructRoundTrip(vs[1..], fs[1..]);
      var r := FromFields(fs, ToItems(vs));
      assert ToItems(vs)[1..] == ToItems(vs[1..]);
      assert r.value[0] == FromNullable(fs[0], ToItem(vs[0])).value;
      assert r.value[1..] == FromFields(fs[1..], ToItems(vs[1..])).value;
      assert CanonAll(vs)[0] == Canon(vs[0]) && CanonAll(vs)[1..] == CanonAll(vs[1..]);
      assert (forall i :: 0 <= i < |fs| ==> Faithful(vs[i], fs[i])) <==>
             (Faithful(vs[0], fs[0]) && forall i :: 0 <= i < |fs[1..]| ==> Faithful(vs[1..][i], fs[1..][i])) by {
        AllFields(vs, fs);
      }
    }
  }

  lemma {:induction false} AllFields(vs: seq<Value>, fs: seq<Schema>)
    requires |vs| == |fs| > 0 && forall i :: 0 <= i < |fs| ==> HasType(vs[i], fs[i])
    ensures (forall i :: 0 <= i < |fs| ==> Faithful(vs[i], fs[i])) <==>
            (Faithful(vs[0], fs[0]) && forall i :: 0 <= i < |fs[1..]| ==> Faithful(vs[1..][i], fs[1..][i]))
  {
    if Faithful(vs[0], fs[0]) && forall i :: 0 <= i < |fs[1..]| ==> Faithful(vs[1..][i], fs[1..][i]) {
      forall i | 0 <= i < |fs| ensures Faithful(vs[i], fs[i]) {
        if i > 0 { assert vs[i] == vs[1..][i - 1] && fs[i] == fs[1..][i - 1]; }
      }
    }
    if forall i :: 0 <= i < |fs| ==> Faithful(vs[i], fs[i]) {
      forall i | 0 <= i < |fs[1..]| ensures Faithful(vs[1..][i], fs[1..][i]) {
        assert vs[1..][i] == vs[i + 1] && fs[1..][i] == fs[i + 1];
      }
    }
  }

  /** A nil pointer comes back as nil exactly when its target type reports nil. */
  lemma {:induction false} NilPointer(t: Schema)
    ensures NilReported(t) <==> FromItem(t, Null) == Err(NilValue)
    ensures !NilReported(t) ==> FromItem(t, Null).Ok?
    decreases t
  {
    if t.SPtr? { NilPointer(t.target); }
  }

  /** Nil is reported only where the target lowers to null, and then only a nil pointer equals the zero value. */
  lemma {:induction false} NilTarget(v: Value, t: Schema)
    requires HasType(v, t)
    ensures FromItem(t, ToItem(v)) == Err(NilValue) ==> (Zero(t) == Canon(v) <==> v.VNilPtr?)
    ensures v.VNilPtr? ==> FromItem(t, ToItem(v)) != Ok(Canon(v))
  {
    if t.SPtr? { NilPointer(t); }
  }

  lemma {:induction false} PointerSurvives(v: Value, t: Schema)
    requires HasType(v, t) && Survives(v, t)
    ensures HasType(VPtr(v), SPtr(t)) && Survives(VPtr(v), SPtr(t))
  {
    NilTarget(v, t);
  }

  // ---- maps

  lemma {:induction false} SortLowers(es: seq<Entry>)
    ensures SortPairs(ToPairs(es)) == ToPairs(SortEntries(es))
  {
    if es != [] {
      SortLowers(es[1..]);
      assert ToPairs(es)[1..] == ToPairs(es[1..]);
      InsertLowers(es[0], SortEntries(es[1..]));
    }
  }

  lemma {:induction false} InsertLowers(e: Entry, es: seq<Entry>)
    ensures InsertPair(ToPair(e), ToPairs(es)) == ToPairs(InsertEntry(e, es))
  {
    if es != [] {
      assert ToPairs(es)[0] == ToPair(es[0]) && ToPairs(es)[1..] == ToPairs(es[1..]);
      if KeyLess(e.key, es[0].key) {
        assert ([e] + es)[1..] == es;
      } else {
        InsertLowers(e, es[1..]);
        var r := [es[0]] + InsertEntry(e, es[1..]);
        assert r[1..] == InsertEntry(e, es[1..]);
      }
    }
  }

  lemma {:induction false} SortCanon(es: seq<Entry>)
    ensures SortEntries(CanonEntries(es)) == CanonEntries(SortEntries(es))
  {
    if es != [] {
      SortCanon(es[1..]);
      assert CanonEntries(es)[1..] == CanonEntries(es[1..]);
      InsertCanon(es[0], SortEntries(es[1..]));
    }
  }

  lemma {:induction false} InsertCanon(e: Entry, es: seq<Entry>)
    ensures InsertEntry(CanonEntry(e), CanonEntries(es)) == CanonEntries(InsertEntry(e, es))
  {
    if es != [] {
      assert CanonEntries(es)[0] == CanonEntry(es[0]) && CanonEntries(es)[1..] == CanonEntries(es[1..]);
      if KeyLess(e.key, es[0].key) {
        assert ([e] + es)[1..] == es;
      } else {
        InsertCanon(e, es[1..]);
        var r := [es[0]] + InsertEntry(e, es[1..]);
        assert r[1..] == InsertEntry(e, es[1..]);
      }
    }
  }

  lemma {:induction false} InsertElements(e: Entry, es: seq<Entry>)
    ensures SameElements(InsertEntry(e, es), [e] + es)
  {
    if es != [] {
      InsertElements(e, es[1..]);
      assert es == [es[0]] + es[1..];
    }
  }

  lemma {:induction false} SortElements(es: seq<Entry>)
    ensures SameElements(SortEntries(es), es)
  {
    if es != [] {
      SortElements(es[1..]);
      InsertElements(es[0], SortEntries(es[1..]));
      assert es == [es[0]] + es[1..];
    }
  }

  predicate NoKey(es: seq<Entry>, k: Key) {
    forall x <- es :: x.key != k
  }

  lemma {:induction false} InsertDistinct(e: Entry, es: seq<Entry>)
    requires DistinctEntryKeys(es) && NoKey(es, e.key)
    ensures DistinctEntryKeys(InsertEntry(e, es))
  {
    if es != [] {
      assert es[0] in es;
      InsertElements(e, es[1..]);
      InsertDistinct(e, es[1..]);
      var rest := InsertEntry(e, es[1..]);
      forall i | 0 <= i < |rest| ensures rest[i].key != es[0].key {
        assert rest[i] in [e] + es[1..];
      }
    }
  }

  lemma {:induction false} SortDistinct(es: seq<Entry>)
    requires DistinctEntryKeys(es)
    ensures DistinctEntryKeys(SortEntries(es))
  {
    if es != [] {
      SortDistinct(es[1..]);
      SortElements(es[1..]);
      forall x <- SortEntries(es[1..]) ensures x.key != es[0].key {
        assert x in es[1..];
      }
      InsertDistinct(es[0], SortEntries(es[1..]));
    }
  }

  lemma {:induction false} PutNew(es: seq<Entry>, e: Entry)
    requires NoKey(es, e.key)
    ensures PutEntry(es, e) == es + [e]
  {
    if es != [] {
      assert es[0] in es;
      PutNew(es[1..], e);
      assert es == [es[0]] + es[1..];
    }
  }

  predicate Readable(es: seq<Entry>, s: Schema) {
    forall x <- es :: HasType(x.value, s) && Survives(x.value, s)
  }

  /** What reading the pairs of a map in order yields. */
  function ReadBack(es: seq<Entry>, s: Schema): (r: seq<Entry>)
    requires Readable(es, s)
    ensures |r| == |es|
  {
    if es == [] then []
    else [Entry(es[0].key, FromNullable(s, ToItem(es[0].value)).value)] + ReadBack(es[1..], s)
  }

  lemma {:induction false} NoKeyNext(es: seq<Entry>, done: seq<Entry>, e: Entry)
    requires es != [] && DistinctEntryKeys(es) && e.key == es[0].key && forall x <- es :: NoKey(done, x.key)
    ensures DistinctEntryKeys(es[1..]) && forall x <- es[1..] :: x in es && NoKey(done + [e], x.key)
  {
    forall x <- es[1..] ensures x in es && NoKey(done + [e], x.key) { assert x in es; }
  }

  lemma {:induction false} PairsRoundTrip(es: seq<Entry>, k: KeyKind, s: Schema, done: seq<Entry>)
    requires Readable(es, s) && DistinctEntryKeys(es)
    requires forall x <- es :: KeyOf(k, x.key) && NoKey(done, x.key)
    ensures FromPairs(k, s, Flatten(ToPairs(es)), done) == Ok(done + ReadBack(es, s))
    decreases |es|
  {
    if es == [] {
      assert done + [] == done;
    } else {
      var e := Entry(es[0].key, FromNullable(s, ToItem(es[0].value)).value);
      FirstPair(es, k, s, done, e);
      var more := es[1..];
      NoKeyNext(es, done, e);
      PairsRoundTrip(more, k, s, done + [e]);
      assert done + [e] + ReadBack(more, s) == done + ([e] + ReadBack(more, s));
    }
  }

  lemma {:induction false} FirstPair(es: seq<Entry>, k: KeyKind, s: Schema, done: seq<Entry>, e: Entry)
    requires es != [] && Readable(es, s) && KeyOf(k, es[0].key) && NoKey(done, es[0].key)
    requires e == Entry(es[0].key, FromNullable(s, ToItem(es[0].value)).value)
    ensures FromPairs(k, s, Flatten(ToPairs(es)), done) == FromPairs(k, s, Flatten(ToPairs(es[1..])), done + [e])
  {
    var items := Flatten(ToPairs(es));
    var p := ToPair(es[0]);
    assert ToPairs(es)[0] == p && ToPairs(es)[1..] == ToPairs(es[1..]);
    assert items[0] == Str(KeyBytes(es[0].key)) && items[1] == p.item && items[2..] == Flatten(ToPairs(es[1..]));
    KeyRoundTrip(k, es[0].key);
    PutNew(done, e);
  }

  lemma {:induction false} ReadBackFaithful(es: seq<Entry>, s: Schema)
    requires Readable(es, s)
    ensures ReadBack(es, s) == CanonEntries(es) <==> forall x <- es :: Faithful(x.value, s)
  {
    if es != [] {
      ReadBackFaithful(es[1..], s);
      assert es == [es[0]] + es[1..];
      assert ReadBack(es, s)[0].value == FromNullable(s, ToItem(es[0].value)).value;
      assert ReadBack(es, s)[1..] == ReadBack(es[1..], s);
      assert CanonEntries(es)[0] == CanonEntry(es[0]) && CanonEntries(es)[1..] == CanonEntries(es[1..]);
    }
  }

  lemma {:induction false} MapRoundTrip(es: seq<Entry>, k: KeyKind, s: Schema)
    requires DistinctEntryKeys(es) && forall x <- es :: KeyOf(k, x.key) && HasType(x.value, s)
    ensures var r := FromPairs(k, s, Flatten(SortPairs(ToPairs(es))), []);
            r.Ok? && (r.value == SortEntries(CanonEntries(es)) <==> forall x <- es :: Faithful(x.value, s))
    decreases s, 1, |es|
  {
    var sorted := SortEntries(es);
    SortLowers(es);
    SortCanon(es);
    SortElements(es);
    SortDistinct(es);
    forall x <- sorted ensures Survives(x.value, s) { TypedRoundTrip(x.value, s); }
    PairsRoundTrip(sorted, k, s, []);
    assert [] + ReadBack(sorted, s) == ReadBack(sorted, s);
    ReadBackFaithful(sorted, s);
  }

  /** The pointer that does not come back: nil to a byte slice reads as a pointer to a nil slice. */
  lemma {:induction false} NilPointerLost()
    ensures FromNullable(SPtr(SBytes), ToItem(VNilPtr)) == Ok(VPtr(VNilBytes))
  {
  }

  /** A bool is encoded as the number 0 or 1, and so reads as that number and the other way round. */
  lemma {:induction false} BoolAsNumber(b: bool)
    ensures ToItem(VBool(b)) == ToItem(VUint(if b then 1 else 0)) == ToItem(VInt(if b then 1 else 0))
    ensures Encode(ToItem(VBool(b))) == [if b then 1 else 0]
  {
  }

}
