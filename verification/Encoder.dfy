/**
 The streaming encoder. Nested encoders form a chain, each with the buffer of its own
 list; a list is only framed and copied into its parent when an outer encoder is used
 again or flushed. `frames[0]` is the output, deeper frames are the open lists.
 */
module Encoder {
  import opened Bytes
  import opened IntConv
  import opened Rlp
  import opened CodecValue
  import opened CodecTyped

  datatype Frame = Frame(buffer: Bytes, isMap: bool, count: nat)

  /** Closes all lists deeper than level `l`: each becomes an item of the list around it. */
  function Collapse(open: seq<seq<Item>>, l: nat): (r: seq<seq<Item>>)
    requires l < |open|
    ensures |r| == l + 1
    decreases |open|
  {
    var n := |open|;
    if n == l + 1 then open
    else Collapse(open[..n - 2] + [open[n - 2] + [List(open[n - 1])]], l)
  }

  /** All that has been written, with every open list taken as it stands. */
  function Whole(open: seq<seq<Item>>): seq<Item>
    requires open != []
  {
    Collapse(open, 0)[0]
  }

  /** Closing lists early or late makes no difference to what is written. */
  lemma {:induction false} CollapseTwice(open: seq<seq<Item>>, l: nat, m: nat)
    requires m <= l < |open|
    ensures Collapse(Collapse(open, l), m) == Collapse(open, m)
    decreases |open|
  {
    var n := |open|;
    if n > l + 1 {
      CollapseTwice(open[..n - 2] + [open[n - 2] + [List(open[n - 1])]], l, m);
    }
  }

  method FrameBytes(b: Bytes) returns (out: Bytes)
    requires |b| < MAX_SIZE
    ensures out == EncodeBytes(b)
  {
    var l := |b|;
    if l == 0 {
      out := [0x80];
    } else if l == 1 && b[0] < 0x80 {
      out := b;
    } else if l <= 55 {
      out := [0x80 + l] + b;
    } else {
      SizeFits(l);
      var sz := SizeToBytes(l);
      out := [0x80 + 55 + |sz|] + sz + b;
    }
  }

  method FrameList(payload: Bytes) returns (out: Bytes)
    requires |payload| < MAX_SIZE
    ensures out == EncodeList(payload)
  {
    var l := |payload|;
    if l == 0 {
      out := [0xC0];
    } else if l <= 55 {
      out := [0xC0 + l] + payload;
    } else {
      SizeFits(l);
      var sz := SizeToBytes(l);
      out := [0xC0 + 55 + |sz|] + sz + payload;
    }
  }

  /** The frames with one more item in the innermost. */
  function Pushed(frames: seq<Frame>, bs: Bytes): seq<Frame>
    requires frames != []
  {
    var f := frames[|frames| - 1];
    frames[|frames| - 1 := Frame(f.buffer + bs, f.isMap, f.count + 1)]
  }

  /** Frame `i` holds the encoding of the items written to its list; its count includes a list still open in it. */
  predicate FrameAt(frames: seq<Frame>, open: seq<seq<Item>>, i: nat)
    requires i < |frames| == |open|
  {
    && frames[i].buffer == EncodeAll(open[i])
    && (i > 0 ==> frames[i].count == |open[i]| + if i + 1 < |frames| then 1 else 0)
  }

  predicate FramesTo(frames: seq<Frame>, open: seq<seq<Item>>, n: nat)
    requires n <= |frames| == |open|
  {
    n > 0 ==> FrameAt(frames, open, n - 1) && FramesTo(frames, open, n - 1)
  }

  predicate FramesOk(frames: seq<Frame>, open: seq<seq<Item>>) {
    |frames| == |open| > 0 && FramesTo(frames, open, |frames|)
  }

  lemma {:induction false} FramesEach(frames: seq<Frame>, open: seq<seq<Item>>, n: nat)
    requires n <= |frames| == |open|
    ensures FramesTo(frames, open, n) <==> forall i :: 0 <= i < n ==> FrameAt(frames, open, i)
  {
    if n > 0 { FramesEach(frames, open, n - 1); }
  }

  class Encoder {
    var frames: seq<Frame>
    ghost var open: seq<seq<Item>>   // the items each frame holds

    ghost predicate Valid()
      reads this
    {
      FramesOk(frames, open)
    }

    constructor ()
      ensures Ready() && open == [[]]
    {
      frames := [Frame([], false, 0)];
      open := [[]];
    }

    /** Appends to the innermost list; `items` says which items the bytes are. */
    method Append(bs: Bytes, ghost item: Item)
      requires Valid() && FramesOk(Pushed(frames, bs), open[|open| - 1 := open[|open| - 1] + [item]])
      modifies this
      ensures Valid() && |frames| == |old(frames)|
      ensures open == old(open)[|open| - 1 := old(open)[|open| - 1] + [item]]
      ensures forall i :: 0 <= i < |frames| ==> frames[i].isMap == old(frames)[i].isMap
    {
      var n := |frames| - 1;
      var f := frames[n];
      frames := frames[n := Frame(f.buffer + bs, f.isMap, f.count + 1)];
      open := open[n := open[n] + [item]];
    }

    method WriteNull()
      requires Valid()
      modifies this
      ensures Valid() && |frames| == |old(frames)|
      ensures open == old(open)[|open| - 1 := old(open)[|open| - 1] + [Null]]
      ensures forall i :: 0 <= i < |frames| ==> frames[i].isMap == old(frames)[i].isMap
    {
      FramesPush(frames, open, NULL_SEQUENCE, Null);
      Append(NULL_SEQUENCE, Null);
    }

    method WriteBytes(b: Bytes)
      requires Valid() && |b| < MAX_SIZE
      modifies this
      ensures Valid() && |frames| == |old(frames)|
      ensures open == old(open)[|open| - 1 := old(open)[|open| - 1] + [Str(b)]]
      ensures forall i :: 0 <= i < |frames| ==> frames[i].isMap == old(frames)[i].isMap
    {
      var out := FrameBytes(b);
      FramesPush(frames, open, out, Str(b));
      Append(out, Str(b));
    }

    method WriteList(isMap: bool)
      requires Valid()
      modifies this
      ensures Valid() && |frames| == |old(frames)| + 1
      ensures open == old(open) + [[]]
      ensures frames[|frames| - 1].isMap == isMap
      ensures forall i :: 0 <= i < |old(frames)| ==> frames[i].isMap == old(frames)[i].isMap
    {
      FramesOpen(frames, open, isMap);
      var n := |frames| - 1;
      frames := frames[n := frames[n].(count := frames[n].count + 1)] + [Frame([], isMap, 0)];
      open := open + [[]];
    }

    /** Closes the innermost list into its parent; a map with a key and no value is refused. */
    method Close() returns (ok: bool)
      requires Valid() && |frames| > 1 && |frames[|frames| - 1].buffer| < MAX_SIZE
      modifies this
      ensures ok == !(old(frames[|frames| - 1].isMap) && |old(open[|open| - 1])| % 2 != 0)
      ensures ok ==> Valid() && |frames| == |old(frames)| - 1
      ensures ok ==> open == old(open)[..|old(open)| - 2]
                             + [old(open)[|old(open)| - 2] + [List(old(open)[|old(open)| - 1])]]
      ensures ok ==> forall i :: 0 <= i < |frames| ==> frames[i].isMap == old(frames)[i].isMap
      ensures !ok ==> frames == old(frames) && open == old(open)
    {
      var n := |frames| - 1;
      var top := frames[n];
      if top.isMap && top.count % 2 != 0 {
        return false;
      }
      var out := FrameList(top.buffer);
      var f := frames[n - 1];
      ghost var items := open[n - 1] + [List(open[n])];
      FramesClose(frames, open, out);
      frames := frames[..n - 1] + [f.(buffer := f.buffer + out)];
      open := open[..n - 1] + [items];
      ok := true;
    }

    /** Everything open at the encoder's interface is a list. */
    ghost predicate Ready()
      reads this
    {
      Valid() && forall i :: 0 <= i < |frames| ==> !frames[i].isMap
    }

    /** The innermost list has grown by `item`, and nothing else has changed. */
    twostate predicate Grown(item: Item)
      reads this
    {
      && Valid() && |frames| == |old(frames)| && |open| == |old(open)|
      && open == old(open)[|open| - 1 := old(open)[|open| - 1] + [item]]
      && forall i :: 0 <= i < |frames| ==> frames[i].isMap == old(frames)[i].isMap
    }

    /** Writes one value into the innermost list; lists it needs are opened, filled and closed again. */
    method EncodeValue(v: Value)
      requires Valid() && |Encode(ToItem(v))| < MAX_SIZE
      modifies this
      ensures Grown(ToItem(v))
      decreases v, 4
    {
      match v
      case VNilBytes => WriteNull();
      case VNilList => WriteNull();
      case VList(elems) => EncodeElems(elems, v);
      case VStruct(fields) => EncodeElems(fields, v);
      case VNilPtr => WriteNull();
      case VPtr(t) => EncodeValue(t);
      case VNilMap => WriteNull();
      case VMap(entries) => EncodeMap(entries, v);
      case _ => EncodeScalar(v);
    }

    method EncodeScalar(v: Value)
      requires Valid() && |Encode(ToItem(v))| < MAX_SIZE
      requires v.VBool? || v.VUint? || v.VInt? || v.VText? || v.VBytes?
      modifies this
      ensures Grown(ToItem(v))
    {
      var bs;
      match v {
        case VBool(b) => bs := [if b then 1 else 0];
        case VUint(u) => bs := Uint64ToBytes(u);
        case VInt(i) => bs := Int64ToBytes(i);
        case VText(t) => bs := t;
        case VBytes(b) => bs := b;
      }
      WriteBytes(bs);
    }

    method EncodeElems(vs: seq<Value>, ghost v: Value)
      requires Valid() && (v == VList(vs) || v == VStruct(vs))
      requires |Encode(List(ToItems(vs)))| < MAX_SIZE
      modifies this
      ensures Grown(List(ToItems(vs)))
      decreases v, 2
    {
      ClosedList(open, ToItems(vs));
      WriteList(false);
      EncodeEach(vs, v);
      var ok := Close();
    }

    method EncodeEach(vs: seq<Value>, ghost v: Value)
      requires Valid() && (v == VList(vs) || v == VStruct(vs)) && open[|open| - 1] == []
      requires |EncodeAll(ToItems(vs))| < MAX_SIZE
      modifies this
      ensures Valid() && |frames| == |old(frames)|
      ensures open == old(open)[|open| - 1 := ToItems(vs)]
      ensures forall i :: 0 <= i < |frames| ==> frames[i].isMap == old(frames)[i].isMap
      decreases v, 1
    {
      ghost var items := ToItems(vs);
      ghost var n := |frames| - 1;
      assert old(open) == old(open)[n := items[..0]];
      for i := 0 to |vs|
        invariant Valid() && |frames| == n + 1
        invariant open == old(open)[n := items[..i]]
        invariant forall j :: 0 <= j <= n ==> frames[j].isMap == old(frames)[j].isMap
      {
        EncodeNext(vs, i, v);
      }
      assert items[..|vs|] == items;
    }

    method EncodeNext(vs: seq<Value>, i: nat, ghost v: Value)
      requires Valid() && (v == VList(vs) || v == VStruct(vs)) && i < |vs| && open[|open| - 1] == ToItems(vs)[..i]
      requires |EncodeAll(ToItems(vs))| < MAX_SIZE
      modifies this
      ensures Valid() && |frames| == |old(frames)|
      ensures open == old(open)[|open| - 1 := ToItems(vs)[..i + 1]]
      ensures forall j :: 0 <= j < |frames| ==> frames[j].isMap == old(frames)[j].isMap
      decreases v, 0
    {
      ghost var items := ToItems(vs);
      ItemFits(items, i);
      ToItemsAt(vs, i);
      EncodeValue(vs[i]);
      assert items[..i + 1] == items[..i] + [items[i]];
    }

    /** Writes the entries of a map in key order, whatever order they come in. */
    method EncodeMap(entries: seq<Entry>, ghost v: Value)
      requires Valid() && v == VMap(entries) && |Encode(ToItem(v))| < MAX_SIZE
      modifies this
      ensures Grown(ToItem(v))
      decreases v, 3
    {
      var sorted := SortEntries(entries);
      ghost var items := AllPairs(entries);
      FillMap(sorted, items, v);
    }

    method FillMap(sorted: seq<Entry>, ghost items: seq<Item>, ghost v: Value)
      requires Valid() && v.VMap? && |items| == 2 * |sorted| && |EncodeAll(items)| < MAX_SIZE
      requires forall i :: 0 <= i < |sorted| ==> PairAt(items, i, sorted[i], v)
      modifies this
      ensures Grown(List(items))
      decreases v, 2
    {
      ClosedList(open, items);
      WriteList(true);
      EncodePairs(sorted, items, v);
      var ok := Close();
    }

    method EncodePairs(sorted: seq<Entry>, ghost items: seq<Item>, ghost v: Value)
      requires Valid() && |items| == 2 * |sorted| && open[|open| - 1] == []
      requires v.VMap? && |EncodeAll(items)| < MAX_SIZE
      requires forall i :: 0 <= i < |sorted| ==> PairAt(items, i, sorted[i], v)
      modifies this
      ensures Valid() && |frames| == |old(frames)|
      ensures open == old(open)[|open| - 1 := items]
      ensures forall i :: 0 <= i < |frames| ==> frames[i].isMap == old(frames)[i].isMap
      decreases v, 1
    {
      ghost var n := |frames| - 1;
      assert old(open) == old(open)[n := items[..0]];
      for i := 0 to |sorted|
        invariant Valid() && |frames| == n + 1
        invariant open == old(open)[n := items[..2 * i]]
        invariant forall j :: 0 <= j <= n ==> frames[j].isMap == old(frames)[j].isMap
      {
        assert PairAt(items, i, sorted[i], v);
        EncodePair(sorted[i], v);
        TwoMore(items, i);
      }
      assert items[..2 * |sorted|] == items;
    }

    method WriteKey(k: Key)
      requires Valid() && |KeyBytes(k)| < MAX_SIZE
      modifies this
      ensures Grown(Str(KeyBytes(k)))
    {
      var bs;
      match k {
        case KeyInt(i) => bs := Int64ToBytes(i);
        case KeyUint(u) => bs := Uint64ToBytes(u);
        case KeyText(t) => bs := t;
      }
      WriteBytes(bs);
    }

    method EncodePair(e: Entry, ghost v: Value)
      requires Valid() && v.VMap? && e in v.entries
      requires |KeyBytes(e.key)| < MAX_SIZE && |Encode(ToItem(e.value))| < MAX_SIZE
      modifies this
      ensures Valid() && |frames| == |old(frames)|
      ensures open == old(open)[|open| - 1 := old(open)[|open| - 1] + [Str(KeyBytes(e.key))] + [ToItem(e.value)]]
      ensures forall i :: 0 <= i < |frames| ==> frames[i].isMap == old(frames)[i].isMap
      decreases v, 0
    {
      WriteKey(e.key);
      ghost var j :| 0 <= j < |v.entries| && v.entries[j] == e;
      assert e.value < e && e < v;
      EncodeValue(e.value);
    }

    /** Closes every list deeper than level `l`, innermost first. */
    method Flush(l: nat)
      requires Ready() && l < |frames| && |EncodeAll(Whole(open))| < MAX_SIZE
      modifies this
      ensures Ready() && open == Collapse(old(open), l)
      ensures Whole(open) == Whole(old(open))
    {
      CollapseTwice(open, l, 0);
      while |frames| > l + 1
        invariant Ready() && l < |frames| && Collapse(open, l) == Collapse(old(open), l)
        invariant Whole(open) == Whole(old(open))
        decreases |frames|
      {
        WholeBounds(open, |open| - 1);
        CollapseTwice(open, l, 0);
        var ok := Close();
      }
    }

    /** Writes a value at level `l`; lists left open below it are closed first. */
    method EncodeAt(l: nat, v: Value)
      requires Ready() && l < |frames| && |EncodeAll(Whole(open))| < MAX_SIZE && |Encode(ToItem(v))| < MAX_SIZE
      modifies this
      ensures Ready() && |open| == l + 1
      ensures open == Collapse(old(open), l)[l := Collapse(old(open), l)[l] + [ToItem(v)]]
    {
      Flush(l);
      EncodeValue(v);
    }

    /** Opens a list inside level `l`; its level is returned. */
    method OpenList(l: nat) returns (child: nat)
      requires Ready() && l < |frames| && |EncodeAll(Whole(open))| < MAX_SIZE
      modifies this
      ensures Ready() && child == l + 1 == |frames| - 1
      ensures open == Collapse(old(open), l) + [[]]
    {
      Flush(l);
      WriteList(false);
      child := l + 1;
    }

    /** What comes out, however the lists were opened and closed, is the plain encoding of what was written. */
    method Finish() returns (output: Bytes)
      requires Ready() && |EncodeAll(Whole(open))| < MAX_SIZE
      modifies this
      ensures output == EncodeAll(Whole(old(open)))
    {
      Flush(0);
      output := frames[0].buffer;
    }
  }

  /** A map lowers to its keys and values, alternating, in key order. */
  lemma {:induction false} MapItems(entries: seq<Entry>)
    ensures ToItem(VMap(entries)) == List(Flatten(ToPairs(SortEntries(entries))))
    ensures |ToItem(VMap(entries)).items| == 2 * |entries|
  {
    SortLowers(entries);
    var ps := ToPairs(SortEntries(entries));
    if ps != [] { FlattenAt(ps, 0); }
  }

  /** The `i`-th key and value of the items are those of entry `e`. */
  ghost predicate PairAt(items: seq<Item>, i: nat, e: Entry, v: Value)
    requires v.VMap? && 2 * i + 1 < |items|
  {
    && e in v.entries
    && items[2 * i] == Str(KeyBytes(e.key)) && items[2 * i + 1] == ToItem(e.value)
    && |KeyBytes(e.key)| <= |EncodeAll(items)|
    && |Encode(ToItem(e.value))| <= |EncodeAll(items)|
  }

  lemma {:induction false} MapItemAt(entries: seq<Entry>, i: nat)
    requires i < |entries|
    ensures ToItem(VMap(entries)).List? && |ToItem(VMap(entries)).items| == 2 * |entries|
    ensures PairAt(ToItem(VMap(entries)).items, i, SortEntries(entries)[i], VMap(entries))
  {
    MapItems(entries);
    SortElements(entries);
    var sorted := SortEntries(entries);
    var items := ToItem(VMap(entries)).items;
    assert sorted[i] in sorted;
    FlattenAt(ToPairs(sorted), i);
    ToPairsAt(sorted, i);
    ItemFits(items, 2 * i);
    ItemFits(items, 2 * i + 1);
  }

  lemma {:induction false} AllPairs(entries: seq<Entry>) returns (items: seq<Item>)
    ensures ToItem(VMap(entries)) == List(items) && |items| == 2 * |entries|
    ensures forall i :: 0 <= i < |entries| ==> PairAt(items, i, SortEntries(entries)[i], VMap(entries))
  {
    MapItems(entries);
    items := ToItem(VMap(entries)).items;
    forall i | 0 <= i < |entries| ensures PairAt(items, i, SortEntries(entries)[i], VMap(entries)) {
      MapItemAt(entries, i);
    }
  }

  lemma {:induction false} EncodeAllPush(items: seq<Item>, v: Item)
    ensures EncodeAll(items + [v]) == EncodeAll(items) + Encode(v)
  {
    assert (items + [v])[..|items|] == items;
  }

  lemma {:induction false} TwoMore(items: seq<Item>, i: nat)
    requires 2 * i + 1 < |items|
    ensures items[..2 * (i + 1)] == items[..2 * i] + [items[2 * i]] + [items[2 * i + 1]]
  {
  }

  /** Opening a list, filling it and closing it adds it to the list around it. */
  lemma {:induction false} ClosedList(open: seq<seq<Item>>, items: seq<Item>)
    requires open != []
    ensures var filled := (open + [[]])[|open| := items];
            filled[..|filled| - 2] + [filled[|filled| - 2] + [List(filled[|filled| - 1])]] ==
            open[|open| - 1 := open[|open| - 1] + [List(items)]]
  {
  }

  lemma {:induction false} FramesPush(frames: seq<Frame>, open: seq<seq<Item>>, bs: Bytes, item: Item)
    requires FramesOk(frames, open) && bs == Encode(item)
    ensures FramesOk(Pushed(frames, bs), open[|open| - 1 := open[|open| - 1] + [item]])
  {
    var n := |frames|;
    var frames', open' := Pushed(frames, bs), open[n - 1 := open[n - 1] + [item]];
    FramesEach(frames, open, n);
    FramesEach(frames', open', n);
    forall i | 0 <= i < n ensures FrameAt(frames', open', i) {
      assert FrameAt(frames, open, i);
      if i == n - 1 { EncodeAllPush(open[n - 1], item); }
    }
  }

  lemma {:induction false} FramesOpen(frames: seq<Frame>, open: seq<seq<Item>>, isMap: bool)
    requires FramesOk(frames, open)
    ensures var n := |frames| - 1;
            FramesOk(frames[n := frames[n].(count := frames[n].count + 1)] + [Frame([], isMap, 0)], open + [[]])
  {
    var n := |frames|;
    var frames' := frames[n - 1 := frames[n - 1].(count := frames[n - 1].count + 1)] + [Frame([], isMap, 0)];
    var open' := open + [[]];
    FramesEach(frames, open, n);
    FramesEach(frames', open', n + 1);
    forall i | 0 <= i < n + 1 ensures FrameAt(frames', open', i) {
      if i < n {
        assert FrameAt(frames, open, i);
      } else {
        assert EncodeAll([]) == [];
      }
    }
  }

  lemma {:induction false} FramesClose(frames: seq<Frame>, open: seq<seq<Item>>, out: Bytes)
    requires FramesOk(frames, open) && |frames| > 1 && out == Encode(List(open[|open| - 1]))
    ensures var n := |frames| - 1; var f := frames[n - 1];
            FramesOk(frames[..n - 1] + [f.(buffer := f.buffer + out)], open[..n - 1] + [open[n - 1] + [List(open[n])]])
  {
    var n := |frames| - 1;
    var f := frames[n - 1];
    var frames' := frames[..n - 1] + [f.(buffer := f.buffer + out)];
    var open' := open[..n - 1] + [open[n - 1] + [List(open[n])]];
    FramesEach(frames, open, n + 1);
    FramesEach(frames', open', n);
    forall i | 0 <= i < n ensures FrameAt(frames', open', i) {
      assert FrameAt(frames, open, i);
      if i == n - 1 { EncodeAllPush(open[n - 1], List(open[n])); }
    }
  }

  lemma {:induction false} PushList(outer: seq<Item>, inner: seq<Item>)
    ensures |EncodeAll(outer)| < |EncodeAll(outer + [List(inner)])|
    ensures |EncodeAll(inner)| < |EncodeAll(outer + [List(inner)])|
  {
    EncodeAllPush(outer, List(inner));
  }

  /** A measure that a list contributes to the list around it. */
  ghost predicate Contributes(f: seq<Item> -> nat) {
    forall outer, inner :: f(outer) <= f(outer + [List(inner)]) && f(inner) <= f(outer + [List(inner)])
  }

  lemma {:induction false} WholeLargest(f: seq<Item> -> nat, open: seq<seq<Item>>, i: nat)
    requires i < |open| && Contributes(f)
    ensures f(open[i]) <= f(Whole(open))
    decreases |open|
  {
    var n := |open|;
    if n > 1 {
      var outer, inner := open[n - 2], open[n - 1];
      var next := open[..n - 2] + [outer + [List(inner)]];
      assert Whole(open) == Whole(next);
      assert f(outer) <= f(outer + [List(inner)]) && f(inner) <= f(outer + [List(inner)]);
      WholeLargest(f, next, if i < n - 2 then i else n - 2);
    }
  }

  /** No open list is longer than the whole will be. */
  lemma {:induction false} WholeBounds(open: seq<seq<Item>>, i: nat)
    requires i < |open|
    ensures |EncodeAll(open[i])| <= |EncodeAll(Whole(open))|
  {
    var f: seq<Item> -> nat := items => |EncodeAll(items)|;
    forall outer, inner ensures f(outer) <= f(outer + [List(inner)]) && f(inner) <= f(outer + [List(inner)]) {
      PushList(outer, inner);
    }
    WholeLargest(f, open, i);
  }

  /** A list's encoding is longer than that of each of its items. */
  lemma {:induction false} ItemFits(items: seq<Item>, i: nat)
    requires i < |items|
    ensures |Encode(items[i])| <= |EncodeAll(items)|
    decreases |items|
  {
    if i < |items| - 1 { ItemFits(items[..|items| - 1], i); }
  }

}
