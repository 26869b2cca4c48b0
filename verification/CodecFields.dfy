/**
 Structs read from lists with fewer or more items than fields, and from null items: what
 the fields without an item of their own are left as.
 */
module CodecFields {
  import opened Bytes
  import opened Rlp
  import opened CodecValue
  import opened CodecTyped
  import Codec

  /** What Go sets a variable to before anything is assigned: false, 0, no text, nil, or a struct of such values. */
  predicate Blank(v: Value) {
    match v
    case VBool(b) => !b
    case VUint(u) => u == 0
    case VInt(i) => i == 0
    case VText(t) => t == []
    case VStruct(fs) => forall x <- fs :: Blank(x)
    case _ => v.VNilBytes? || v.VNilList? || v.VNilPtr? || v.VNilMap?
  }

  /** There is one such value of a type. */
  lemma {:induction false} BlankUnique(v: Value, w: Value, s: Schema)
    requires HasType(v, s) && HasType(w, s) && Blank(v) && Blank(w)
    ensures v == w
    decreases s
  {
    if s.SStruct? {
      forall i | 0 <= i < |s.fields| ensures v.fields[i] == w.fields[i] {
        BlankUnique(v.fields[i], w.fields[i], s.fields[i]);
      }
    }
  }

  lemma {:induction false} ZeroBlank(s: Schema)
    ensures HasType(Zero(s), s) && Blank(Zero(s))
    decreases s, 0
  {
    if s.SStruct? { ZerosBlank(s.fields); }
  }

  lemma {:induction false} ZerosBlank(fs: seq<Schema>)
    ensures forall i :: 0 <= i < |fs| ==> HasType(Zeros(fs)[i], fs[i]) && Blank(Zeros(fs)[i])
    decreases fs, 1
  {
    if fs != [] {
      ZeroBlank(fs[0]);
      ZerosBlank(fs[1..]);
    }
  }

  /** A null item leaves a field blank, except a pointer to something that has a nil of its own. */
  lemma {:induction false} NullField(s: Schema)
    ensures var r := FromNullable(s, Null);
            r.Ok? && HasType(r.value, s) && (Blank(r.value) <==> !s.SPtr? || NilReported(s))
    decreases s
  {
    ZeroBlank(s);
    NilPointer(s);
    if s.SPtr? {
      NilPointer(s.target);
      if !NilReported(s) { NullField(s.target); }
    }
  }

  /** The values of the first fields, in order, and blanks behind them. */
  predicate FilledUp(rs: seq<Value>, vs: seq<Value>, fs: seq<Schema>)
    requires |vs| <= |fs|
  {
    && |rs| == |fs| && rs[..|vs|] == vs
    && forall i :: |vs| <= i < |fs| ==> HasType(rs[i], fs[i]) && Blank(rs[i])
  }

  predicate FrontTyped(vs: seq<Value>, fs: seq<Schema>) {
    |vs| <= |fs| && forall i :: 0 <= i < |vs| ==> HasType(vs[i], fs[i]) && Faithful(vs[i], fs[i])
  }

  /** Fewer items than fields: each item goes to its field, and the fields behind them are blank. */
  lemma {:induction false} FewerItems(vs: seq<Value>, fs: seq<Schema>)
    requires FrontTyped(vs, fs)
    ensures FromFields(fs, ToItems(vs)).Ok? && FilledUp(FromFields(fs, ToItems(vs)).value, CanonAll(vs), fs)
    decreases |vs|
  {
    if vs == [] {
      ZerosBlank(fs);
    } else {
      TypedRoundTrip(vs[0], fs[0]);
      FewerItems(vs[1..], fs[1..]);
      assert ToItems(vs)[0] == ToItem(vs[0]) && ToItems(vs)[1..] == ToItems(vs[1..]);
      var rs, more := FromFields(fs, ToItems(vs)).value, FromFields(fs[1..], ToItems(vs[1..])).value;
      assert rs == [Canon(vs[0])] + more;
      FilledFirst(rs, more, Canon(vs[0]), CanonAll(vs[1..]), fs);
      assert CanonAll(vs) == [Canon(vs[0])] + CanonAll(vs[1..]);
    }
  }

  lemma {:induction false} FilledFirst(rs: seq<Value>, more: seq<Value>, v: Value, vs: seq<Value>, fs: seq<Schema>)
    requires fs != [] && |vs| <= |fs[1..]| && FilledUp(more, vs, fs[1..]) && rs == [v] + more
    ensures FilledUp(rs, [v] + vs, fs)
  {
    forall i | 1 + |vs| <= i < |fs| ensures HasType(rs[i], fs[i]) && Blank(rs[i]) {
      assert rs[i] == more[i - 1] && fs[i] == fs[1..][i - 1];
    }
    assert rs[..1 + |vs|] == [v] + more[..|vs|];
  }

  /** A struct is read field by field, so a null item leaves its own field blank and no other. */
  lemma {:induction false} FieldByField(fs: seq<Schema>, items: seq<Item>, i: nat)
    requires FromFields(fs, items).Ok? && i < |fs| && i < |items|
    ensures FromNullable(fs[i], items[i]) == Ok(FromFields(fs, items).value[i])
    ensures items[i] == Null ==> (Blank(FromFields(fs, items).value[i]) <==> !fs[i].SPtr? || NilReported(fs[i]))
    decreases i
  {
    if i > 0 { FieldByField(fs[1..], items[1..], i - 1); }
    NullField(fs[i]);
  }

  /** More items than fields: the fields get the first items, whatever the others are. */
  lemma {:induction false} MoreItems(vs: seq<Value>, fs: seq<Schema>, more: seq<Item>)
    requires FrontTyped(vs, fs) && |vs| == |fs|
    ensures FromFields(fs, ToItems(vs) + more) == Ok(CanonAll(vs))
    decreases |vs|
  {
    if vs != [] {
      TypedRoundTrip(vs[0], fs[0]);
      MoreItems(vs[1..], fs[1..], more);
      var items := ToItems(vs) + more;
      assert items[0] == ToItem(vs[0]) && items[1..] == ToItems(vs[1..]) + more;
    }
  }

  /**
   A struct written with one version of a type and read with a longer one: the fields that
   were written come back, and the new ones are blank.
   */
  method ReadLonger(vs: seq<Value>, fs: seq<Schema>, suffix: Bytes)
    returns (r: Result<Value, ReadError>, remaining: Bytes)
    requires FrontTyped(vs, fs) && |Encode(ToItem(VStruct(vs)))| < MAX_SIZE
    ensures r.Ok? && r.value.VStruct? && FilledUp(r.value.fields, CanonAll(vs), fs) && remaining == suffix
  {
    var bs := Codec.MarshalToBytes(VStruct(vs));
    FewerItems(vs, fs);
    RoundTrip(ToItem(VStruct(vs)), suffix);
    r, remaining := Codec.UnmarshalFromBytes(bs + suffix, SStruct(fs));
  }

  /** And with a shorter one: the fields that there are come back, and the others are passed over. */
  method ReadShorter(vs: seq<Value>, k: nat, fs: seq<Schema>, suffix: Bytes)
    returns (r: Result<Value, ReadError>, remaining: Bytes)
    requires k <= |vs| && |fs| == k && FrontTyped(vs[..k], fs) && |Encode(ToItem(VStruct(vs)))| < MAX_SIZE
    ensures r == Ok(VStruct(CanonAll(vs[..k]))) && remaining == suffix
  {
    var bs := Codec.MarshalToBytes(VStruct(vs));
    ItemsSplit(vs, k);
    MoreItems(vs[..k], fs, ToItems(vs[k..]));
    RoundTrip(ToItem(VStruct(vs)), suffix);
    r, remaining := Codec.UnmarshalFromBytes(bs + suffix, SStruct(fs));
  }

  lemma {:induction false} ItemsSplit(vs: seq<Value>, k: nat)
    requires k <= |vs|
    ensures ToItems(vs) == ToItems(vs[..k]) + ToItems(vs[k..])
  {
    if k > 0 {
      ItemsSplit(vs[1..], k - 1);
      assert vs[..k][1..] == vs[1..][..k - 1] && vs[k..] == vs[1..][k - 1..];
    }
  }

}
