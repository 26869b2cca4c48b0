/**
 The extended accumulator: block heights instead of indices, and a state that is stored
 as RLP under a key of the same bucket that holds the tree nodes.
 */
module ExtAccumulator {
  import opened Bytes
  import opened BitOps
  import opened IntConv
  import opened Merkle
  import opened MtaIndex
  import opened MtaNode
  import opened MtaSpec
  import opened MtaAccumulator
  import opened Rlp
  import opened CodecValue
  import opened CodecTyped
  import Codec

  // ---- heights and times

  /** The length at which a time is judged: a time to come is now. */
  function Clamped(leaves: seq<Hash>, offset: int, at: int): int {
    if at - offset > |leaves| then |leaves| else at - offset
  }

  /** The witness for block `height` as of block `at`, and the time it is really for. */
  function WitnessForAtSpec(leaves: seq<Hash>, accOffset: int, height: int, at: int, offset: int)
    : (int, Result<seq<Witness>, Verdict>)
  {
    if accOffset != offset then (-1, Err(NotFound))
    else
      var accLength := Clamped(leaves, accOffset, at);
      (accLength + accOffset, WitnessAt(leaves, height - 1 - accOffset, accLength))
  }

  function VerifyAtSpec(leaves: seq<Hash>, accOffset: int, ws: seq<Witness>, h: Hash, at: int, offset: int): Verdict {
    if accOffset != offset then NotFound
    else JudgeAt(leaves, ws, h, Clamped(leaves, accOffset, at))
  }

  /**
   A block's witness as of any earlier block is the one given at that time, and every
   accumulator from then on accepts it.
   */
  lemma {:induction false} WitnessAtEarlierHeight(older: seq<Hash>, newer: seq<Hash>, offset: int, height: int)
    requires older <= newer && offset < height <= offset + |older|
    ensures var idx := height - 1 - offset;
            && WitnessForAtSpec(newer, offset, height, offset + |older|, offset)
               == (offset + |older|, Ok(WitnessOf(older, idx)))
            && VerifyAtSpec(newer, offset, WitnessOf(older, idx), newer[idx], offset + |older|, offset) == Accepted
  {
    var idx := height - 1 - offset;
    assert offset + |older| - offset == |older| <= |newer|;
    WitnessAtHistory(older, newer, idx);
    OlderWitnessAccepted(older, newer, idx);
  }

  /** A time in the future reads as now. */
  lemma {:induction false} WitnessAtLaterHeight(leaves: seq<Hash>, offset: int, height: int, at: int)
    requires offset < height <= offset + |leaves| <= at
    ensures var idx := height - 1 - offset;
            && WitnessForAtSpec(leaves, offset, height, at, offset) == (offset + |leaves|, Ok(WitnessOf(leaves, idx)))
            && VerifyAtSpec(leaves, offset, WitnessOf(leaves, idx), leaves[idx], at, offset) == Accepted
  {
    WitnessAtEarlierHeight(leaves, leaves, offset, height);
  }

  /**
   So a witness from the future is judged as one of now, and not by its age: it is accepted
   if and only if the leaf is still in the same slot by then.
   */
  lemma {:induction false} VerifyAtClamps(older: seq<Hash>, newer: seq<Hash>, offset: int, height: int)
    requires older <= newer && offset < height <= offset + |older|
    ensures var idx := height - 1 - offset; var d := SlotOf(idx, |newer|);
            VerifyAtSpec(older, offset, WitnessOf(newer, idx), newer[idx], offset + |newer|, offset) ==
            if d == SlotOf(idx, |older|) then Accepted else if d >= Slots(|older|) then NewerWitness else NoRoot
  {
    NewerWitnessAsOwn(older, newer, height - 1 - offset);
  }

  /** One leaf, with the witness it has among two: refused here, though `VerifyWithAccLength` accepts it. */
  lemma {:induction false} VerifyAtRefuses(a: Hash, b: Hash)
    ensures VerifyAtSpec([a], 0, WitnessOf([a, b], 0), a, 2, 0) == NewerWitness
    ensures JudgeAt([a], WitnessOf([a, b], 0), a, 2) == Accepted
  {
    assert SlotOf(0, 2) == 1 && SlotOf(0, 1) == 0 && Slots(1) == 1;
    VerifyAtClamps([a], [a, b], 0, 1);
    NewerWitnessVerdict([a], [a, b], 0);
  }

  /**
   Soundness by heights: a witness is accepted only for the accumulator's own offset, and
   then the digest is the leaf it points at, or there is a collision.
   */
  lemma {:induction false} VerifyAtSound(
    leaves: seq<Hash>, accOffset: int, ws: seq<Witness>, h: Hash, at: int, offset: int)
    requires VerifyAtSpec(leaves, accOffset, ws, h, at, offset) == Accepted
    ensures accOffset == offset && JudgeAt(leaves, ws, h, Clamped(leaves, offset, at)) == Accepted
    ensures match ForgeryAt(leaves, ws, h, Clamped(leaves, offset, at))
            case Some(pair) => Collides(pair)
            case None =>
              var idx := IndexOf(ws, Clamped(leaves, offset, at));
              Vouches(leaves, ws, h, if idx >= 0 then idx else Position(ws), |ws|)
  {
    SoundAt(leaves, ws, h, Clamped(leaves, offset, at));
  }

  /** A witness is given only for the accumulator's own offset, and for no time to come. */
  lemma {:induction false} WitnessForAtOwn(leaves: seq<Hash>, accOffset: int, height: int, at: int, offset: int)
    ensures var r := WitnessForAtSpec(leaves, accOffset, height, at, offset);
            if accOffset != offset then r.0 == -1 && r.1.Err?
            else r.0 <= at && r.0 <= |leaves| + offset && (height - offset > |leaves| ==> r.1.Err?)
  {
  }

  // ---- the stored state

  const STATE_SCHEMA := SStruct([SInt, SList(SBytes), SInt, SInt])

  function RootValue(d: Option<Hash>): Value {
    if d.None? then VNilBytes else VBytes(d.value)
  }

  function RootValues(ds: seq<Option<Hash>>): (vs: seq<Value>)
    ensures |vs| == |ds| && forall i :: 0 <= i < |vs| ==> vs[i] == RootValue(ds[i])
  {
    if ds == [] then [] else RootValues(ds[..|ds| - 1]) + [RootValue(ds[|ds| - 1])]
  }

  /** The block height after `n` leaves is a 64-bit number. */
  predicate HeightFits(n: int, offset: int) {
    -0x8000_0000_0000_0000 <= n + offset < 0x8000_0000_0000_0000
  }

  function StateValue(n: int, ds: seq<Option<Hash>>, offset: int64, limitRoots: int64): Value
    requires HeightFits(n, offset)
  {
    VStruct([VInt(n + offset), VList(RootValues(ds)), VInt(offset), VInt(limitRoots)])
  }

  lemma {:induction false} CanonRoots(vs: seq<Value>)
    requires forall v <- vs :: v.VNilBytes? || v.VBytes?
    ensures CanonAll(vs) == vs
  {
    if vs != [] {
      CanonRoots(vs[1..]);
      assert vs == [vs[0]] + vs[1..];
    }
  }

  lemma {:induction false} StateTyped(n: int, ds: seq<Option<Hash>>, offset: int64, limitRoots: int64)
    requires HeightFits(n, offset)
    ensures var v := StateValue(n, ds, offset, limitRoots); HasType(v, STATE_SCHEMA) && Faithful(v, STATE_SCHEMA)
  {
    var v := StateValue(n, ds, offset, limitRoots);
    var fs := STATE_SCHEMA.fields;
    forall i | 0 <= i < |fs| ensures HasType(v.fields[i], fs[i]) && Faithful(v.fields[i], fs[i]) {}
  }

  lemma {:induction false} StateCanon(n: int, ds: seq<Option<Hash>>, offset: int64, limitRoots: int64)
    requires HeightFits(n, offset)
    ensures var v := StateValue(n, ds, offset, limitRoots); Canon(v) == v
  {
    var vs := StateValue(n, ds, offset, limitRoots).fields;
    CanonRoots(RootValues(ds));
    var cs := CanonAll(vs);
    CanonAllAt(vs, 0);
    CanonAllAt(vs, 1);
    CanonAllAt(vs, 2);
    CanonAllAt(vs, 3);
    assert cs == vs;
  }

  lemma {:induction false} CanonAllAt(vs: seq<Value>, i: nat)
    requires i < |vs|
    ensures CanonAll(vs)[i] == Canon(vs[i])
  {
    if i > 0 { CanonAllAt(vs[1..], i - 1); }
  }

  lemma {:induction false} StateRoundTrip(n: int, ds: seq<Option<Hash>>, offset: int64, limitRoots: int64)
    requires HeightFits(n, offset)
    ensures var v := StateValue(n, ds, offset, limitRoots);
            FromItem(STATE_SCHEMA, ToItem(v)) == Ok(v)
  {
    var v := StateValue(n, ds, offset, limitRoots);
    StateTyped(n, ds, offset, limitRoots);
    StateCanon(n, ds, offset, limitRoots);
    TypedRoundTrip(v, STATE_SCHEMA);
  }

  // ---- size of the stored state

  lemma {:induction false} RootsSize(ds: seq<Option<Hash>>)
    ensures |EncodeAll(ToItems(RootValues(ds)))| <= 33 * |ds|
  {
    if ds != [] {
      var n := |ds| - 1;
      RootsSize(ds[..n]);
      ToItemsPush(RootValues(ds[..n]), RootValue(ds[n]));
      RootSize(ds[n]);
      PushSize(ToItems(RootValues(ds[..n])), ToItem(RootValue(ds[n])));
    }
  }

  lemma {:induction false} RootSize(d: Option<Hash>)
    ensures |Encode(ToItem(RootValue(d)))| <= 33
  {
  }

  lemma {:induction false} PushSize(items: seq<Item>, v: Item)
    ensures |EncodeAll(items + [v])| == |EncodeAll(items)| + |Encode(v)|
  {
    assert (items + [v])[..|items|] == items;
  }

  lemma {:induction false} ToItemsPush(vs: seq<Value>, v: Value)
    ensures ToItems(vs + [v]) == ToItems(vs) + [ToItem(v)]
  {
    if vs != [] {
      assert (vs + [v])[1..] == vs[1..] + [v];
      ToItemsPush(vs[1..], v);
    }
  }

  lemma {:induction false} SlotsBound(n: nat, k: nat)
    requires n < Shl(1, k)
    ensures Slots(n) <= k
    decreases k
  {
    if n > 0 && k > 0 {
      ShlDouble(1, k);
      SlotsBound(n / 2, k - 1);
    }
  }

  lemma {:induction false} FrameSize(b: Bytes)
    requires |b| < MAX_SIZE
    ensures |EncodeBytes(b)| <= |b| + 9 && |EncodeList(b)| <= |b| + 9
  {
    if |b| > 55 { SizeFits(|b|); }
  }

  lemma {:induction false} IntSize(v: int64)
    ensures |Encode(ToItem(VInt(v)))| <= 17
  {
    Pow256Eight();
    SignedBytesLen(v, 8);
    FrameSize(SignedBytes(v));
  }

  lemma {:induction false} FourItems(a: Item, b: Item, c: Item, d: Item)
    ensures |EncodeAll([a, b, c, d])| == |Encode(a)| + |Encode(b)| + |Encode(c)| + |Encode(d)|
  {
    EncodeAllConcat([a, b], [c, d]);
    EncodeAllConcat([a], [b]);
    EncodeAllConcat([c], [d]);
    EncodeAllOne(a);
    EncodeAllOne(b);
    EncodeAllOne(c);
    EncodeAllOne(d);
    assert [a, b, c, d] == [a, b] + [c, d] && [a, b] == [a] + [b] && [c, d] == [c] + [d];
  }

  lemma {:induction false} StateItems(n: int, ds: seq<Option<Hash>>, offset: int64, limitRoots: int64)
    requires HeightFits(n, offset)
    ensures ToItem(StateValue(n, ds, offset, limitRoots)) ==
            List([ToItem(VInt(n + offset)), List(ToItems(RootValues(ds))),
                  ToItem(VInt(offset)), ToItem(VInt(limitRoots))])
  {
    var a, b, c, d := VInt(n + offset), VList(RootValues(ds)), VInt(offset), VInt(limitRoots);
    ToItemsPush([], a);
    ToItemsPush([a], b);
    ToItemsPush([a, b], c);
    ToItemsPush([a, b, c], d);
    assert [] + [a] == [a] && [a] + [b] == [a, b] && [a, b] + [c] == [a, b, c] && [a, b, c] + [d] == [a, b, c, d];
  }

  lemma {:induction false} FourSize(a: Item, items: seq<Item>, c: Item, d: Item)
    requires |Encode(a)| <= 17 && |EncodeAll(items)| <= 33 * 64 && |Encode(c)| <= 17 && |Encode(d)| <= 17
    ensures |Encode(List([a, List(items), c, d]))| < MAX_SIZE
  {
    FrameSize(EncodeAll(items));
    FourItems(a, List(items), c, d);
    FrameSize(EncodeAll([a, List(items), c, d]));
  }

  lemma {:induction false} StateSize(n: int, ds: seq<Option<Hash>>, offset: int64, limitRoots: int64)
    requires |ds| <= 64 && HeightFits(n, offset)
    ensures |Encode(ToItem(StateValue(n, ds, offset, limitRoots)))| < MAX_SIZE
  {
    RootsSize(ds);
    IntSize(n + offset);
    IntSize(offset);
    IntSize(limitRoots);
    FourSize(ToItem(VInt(n + offset)), ToItems(RootValues(ds)), ToItem(VInt(offset)), ToItem(VInt(limitRoots)));
    StateItems(n, ds, offset, limitRoots);
  }

  // ---- what the bucket must hold

  function Digests(leaves: seq<Hash>, n: nat): (ds: seq<Option<Hash>>)
    ensures |ds| == n && forall i :: 0 <= i < n ==> ds[i] == RootDigest(leaves, i)
  {
    if n == 0 then [] else Digests(leaves, n - 1) + [RootDigest(leaves, n - 1)]
  }

  lemma {:induction false} SlotsIn64(n: nat)
    requires n < TWO64
    ensures Slots(n) <= 64
  {
    Pow256Eight();
    ShlPow256(8);
    SlotsBound(n, 64);
  }

  /** The bytes stored for an accumulator over `leaves`. */
  function StoredState(leaves: seq<Hash>, offset: int64, limitRoots: int64): Bytes
    requires HeightFits(|leaves|, offset)
  {
    Encode(ToItem(StateValue(|leaves|, Digests(leaves, Slots(|leaves|)), offset, limitRoots)))
  }

  method StateBytes(length: int, rhs: seq<Option<Hash>>, offset: int64, limitRoots: int64, ghost leaves: seq<Hash>)
    returns (b: Bytes)
    requires length == |leaves| < TWO64 && HeightFits(|leaves|, offset)
    requires rhs == Digests(leaves, Slots(|leaves|))
    ensures b == StoredState(leaves, offset, limitRoots)
  {
    SlotsIn64(length);
    StateSize(length, rhs, offset, limitRoots);
    b := Codec.MarshalToBytes(StateValue(length, rhs, offset, limitRoots));
  }

  predicate StateAt(m: map<Bytes, Bytes>, key: Bytes, leaves: seq<Hash>, offset: int64, limitRoots: int64)
    requires HeightFits(|leaves|, offset)
  {
    key in m && m[key] == StoredState(leaves, offset, limitRoots)
  }

  /** The state of an accumulator over `leaves` is stored under `key`, and all its trees can be read back. */
  predicate Persisted(m: map<Bytes, Bytes>, key: Bytes, leaves: seq<Hash>, offset: int64, limitRoots: int64) {
    && HeightFits(|leaves|, offset)
    && StateAt(m, key, leaves, offset, limitRoots)
    && forall i :: 0 <= i < Slots(|leaves|) && Slot(leaves, i).Some? ==> Resolvable(m, Slot(leaves, i).value)
  }

  lemma {:induction false} PersistedBy(
    m: map<Bytes, Bytes>, key: Bytes, leaves: seq<Hash>, offset: int64, limitRoots: int64, b: Bytes)
    requires HeightFits(|leaves|, offset) && b == StoredState(leaves, offset, limitRoots) && key in m && m[key] == b
    requires forall i :: 0 <= i < Slots(|leaves|) && Slot(leaves, i).Some? ==> Resolvable(m, Slot(leaves, i).value)
    ensures Persisted(m, key, leaves, offset, limitRoots)
  {
  }

  lemma {:induction false} ResolvableBesides(m: map<Bytes, Bytes>, key: Bytes, b: Bytes, t: Tree)
    requires Avoids(t, key) && Resolvable(m, t)
    ensures Resolvable(m[key := b], t)
  {
    if t.Branch? {
      ResolvableBesides(m, key, b, t.left);
      ResolvableBesides(m, key, b, t.right);
    }
  }

  lemma {:induction false} BackedBesides(m: map<Bytes, Bytes>, key: Bytes, b: Bytes, s: Shape)
    requires Avoids(TreeOf(s), key) && Backed(m, s)
    ensures Backed(m[key := b], s)
  {
    match s
    case Stub(t) => ResolvableBesides(m, key, b, t);
    case Data(_, _) =>
    case Fork(stored, l, r) =>
      if stored { ResolvableBesides(m, key, b, TreeOf(s)); }
      BackedBesides(m, key, b, l);
      BackedBesides(m, key, b, r);
    case Alien(_, _, _) =>
  }

  lemma {:induction false} WritesAmong(ss: seq<Option<Shape>>, i: nat, v: Bytes)
    requires i < |ss| && v in WritesOpt(ss[i])
    ensures v in AllWrites(ss)
    decreases |ss|
  {
    if i < |ss| - 1 { WritesAmong(ss[..|ss| - 1], i, v); }
  }

  /** After a flush without a clash, every root's tree can be read back, also past the state key. */
  lemma {:induction false} RootStored(m: map<Bytes, Bytes>, ss: seq<Option<Shape>>, i: nat, key: Bytes, b: Bytes)
    requires i < |ss| && ss[i].Some? && Backed(m, ss[i].value) && Avoids(TreeOf(ss[i].value), key)
    requires NoClash(m, AllWrites(ss))
    ensures var m' := Puts(m, AllWrites(ss))[key := b];
            && Resolvable(m', TreeOf(ss[i].value)) && Backed(m', AfterFlush(ss[i].value))
  {
    var mid := Puts(m, AllWrites(ss));
    PutsExtend(m, AllWrites(ss));
    forall v <- Writes(ss[i].value) ensures Holds(mid, v) { WritesAmong(ss, i, v); }
    FlushResolves(m, mid, ss[i].value);
    AfterFlushTree(ss[i].value);
    ResolvableBesides(mid, key, b, TreeOf(ss[i].value));
    BackedBesides(mid, key, b, AfterFlush(ss[i].value));
  }

  lemma {:induction false} AllStored(m: map<Bytes, Bytes>, ss: seq<Option<Shape>>, key: Bytes, b: Bytes)
    requires forall i :: 0 <= i < |ss| && ss[i].Some? ==> Backed(m, ss[i].value) && Avoids(TreeOf(ss[i].value), key)
    requires NoClash(m, AllWrites(ss))
    ensures var m' := Puts(m, AllWrites(ss))[key := b];
            forall i :: 0 <= i < |ss| && ss[i].Some? ==>
              && Resolvable(m', TreeOf(ss[i].value)) && Backed(m', AfterFlush(ss[i].value))
    {
    var m' := Puts(m, AllWrites(ss))[key := b];
    forall i | 0 <= i < |ss| && ss[i].Some?
      ensures Resolvable(m', TreeOf(ss[i].value)) && Backed(m', AfterFlush(ss[i].value))
    {
      RootStored(m, ss, i, key, b);
    }
  }

  /** `ss` lists shapes of the trees that the slots must hold. */
  ghost predicate ShapesMatch(acc: Accumulator, ss: seq<Option<Shape>>)
    reads acc
  {
    && acc.length == |acc.leaves| && |acc.roots| == Slots(|acc.leaves|) == |ss|
    && forall i :: 0 <= i < |ss| ==> Slot(acc.leaves, i) == if ss[i].None? then None else Some(TreeOf(ss[i].value))
  }

  /** An accumulator whose roots are flushed and backed again is valid. */
  lemma {:induction false} Reopen(acc: Accumulator, ss: seq<Option<Shape>>)
    requires acc.Linked() && ShapesMatch(acc, ss)
    requires forall i :: 0 <= i < |ss| ==> RootShape(acc.roots[i]) == AfterFlushOpt(ss[i])
    requires forall i :: 0 <= i < |ss| && ss[i].Some? ==> Backed(acc.bucket.data, AfterFlush(ss[i].value))
    ensures acc.Valid()
  {
    forall i | 0 <= i < |ss| ensures RootTree(acc.roots[i]) == Slot(acc.leaves, i) {
      assert RootShape(acc.roots[i]) == AfterFlushOpt(ss[i]);
      if ss[i].Some? { AfterFlushTree(ss[i].value); }
    }
    forall i | 0 <= i < |acc.roots| && acc.roots[i] != null ensures Backed(acc.bucket.data, acc.roots[i].shape) {
      assert RootShape(acc.roots[i]) == AfterFlushOpt(ss[i]);
    }
  }

  lemma {:induction false} FlushKeeps(
    acc: Accumulator, m: map<Bytes, Bytes>, ss: seq<Option<Shape>>, key: Bytes, b: Bytes)
    requires acc.Linked() && ShapesMatch(acc, ss)
    requires forall i :: 0 <= i < |ss| ==> RootShape(acc.roots[i]) == AfterFlushOpt(ss[i])
    requires forall i :: 0 <= i < |ss| && ss[i].Some? ==> Backed(m, ss[i].value) && Avoids(TreeOf(ss[i].value), key)
    requires NoClash(m, AllWrites(ss))
    requires acc.bucket.data == Puts(m, AllWrites(ss))[key := b]
    ensures acc.Valid()
    ensures forall i :: 0 <= i < Slots(|acc.leaves|) && Slot(acc.leaves, i).Some? ==>
              Resolvable(acc.bucket.data, Slot(acc.leaves, i).value)
  {
    AllStored(m, ss, key, b);
    Reopen(acc, ss);
  }

  datatype RecoverError = Undecodable(error: ReadError) | LowerOffset | HigherOffset

  /** Stored state bytes read back as the state they were written for. */
  lemma {:induction false} StateDecodes(b: Bytes, leaves: seq<Hash>, offset: int64, limitRoots: int64)
    requires HeightFits(|leaves|, offset) && |leaves| < TWO64 && b == StoredState(leaves, offset, limitRoots)
    ensures Parse(b).Some?
    ensures FromItem(STATE_SCHEMA, Parse(b).value.0) ==
            Ok(StateValue(|leaves|, Digests(leaves, Slots(|leaves|)), offset, limitRoots))
  {
    var ds := Digests(leaves, Slots(|leaves|));
    SlotsIn64(|leaves|);
    StateSize(|leaves|, ds, offset, limitRoots);
    StateRoundTrip(|leaves|, ds, offset, limitRoots);
    var item := ToItem(StateValue(|leaves|, ds, offset, limitRoots));
    RoundTrip(item, []);
    assert Encode(item) + [] == b;
  }

  /** An empty root entry is an empty slot, one of 32 bytes a root; anything else is dropped. */
  function RootOf(v: Value): Option<Hash> {
    if v.VBytes? && |v.bytes| == HASH_SIZE then Some(v.bytes) else None
  }

  function RootsOf(vs: seq<Value>): (rhs: seq<Option<Hash>>)
    ensures |rhs| == |vs| && forall i :: 0 <= i < |vs| ==> rhs[i] == RootOf(vs[i])
  {
    if vs == [] then [] else RootsOf(vs[..|vs| - 1]) + [RootOf(vs[|vs| - 1])]
  }

  method RootHashes(vs: seq<Value>) returns (rhs: seq<Option<Hash>>)
    ensures rhs == RootsOf(vs)
  {
    rhs := [];
    for i := 0 to |vs|
      invariant |rhs| == i && forall k :: 0 <= k < i ==> rhs[k] == RootOf(vs[k])
    {
      rhs := rhs + [if vs[i].VBytes? && |vs[i].bytes| == HASH_SIZE then Some(vs[i].bytes) else None];
    }
  }

  /** The parts of a state: root digests, length and offset. */
  function StateRoots(v: Value): seq<Option<Hash>>
    requires HasType(v, STATE_SCHEMA)
  {
    StateFields(v);
    RootsOf(if v.fields[1].VList? then v.fields[1].elems else [])
  }

  function StateOffset(v: Value): int64
    requires HasType(v, STATE_SCHEMA)
  {
    StateFields(v);
    v.fields[2].i
  }

  function StateLength(v: Value): int
    requires HasType(v, STATE_SCHEMA)
  {
    StateFields(v);
    v.fields[0].i - v.fields[2].i
  }

  lemma {:induction false} StateFields(v: Value)
    requires HasType(v, STATE_SCHEMA)
    ensures v.VStruct? && |v.fields| == 4 && v.fields[0].VInt? && v.fields[2].VInt?
    ensures v.fields[1].VNilList? || v.fields[1].VList?
  {
    var fs := STATE_SCHEMA.fields;
    assert HasType(v.fields[0], fs[0]) && HasType(v.fields[1], fs[1]) && HasType(v.fields[2], fs[2]);
  }

  /** What decoding stored bytes as a state yields, where they begin with a well-formed item. */
  ghost predicate Decodes(b: Bytes, state: Result<Value, ReadError>) {
    && (state.Ok? ==> HasType(state.value, STATE_SCHEMA))
    && (Parse(b).Some? ==> state == FromItem(STATE_SCHEMA, Parse(b).value.0))
  }

  method ReadState(b: Bytes) returns (r: Result<Value, ReadError>)
    ensures Decodes(b, r)
  {
    var state, _ := Codec.UnmarshalFromBytes(b, STATE_SCHEMA);
    r := state;
  }

  /** What a flush stored reads back as the roots of its leaves. */
  lemma {:induction false} PersistedBelongs(
    m: map<Bytes, Bytes>, key: Bytes, leaves: seq<Hash>, off: int64, lim: int64, state: Result<Value, ReadError>)
    requires Persisted(m, key, leaves, off, lim) && |leaves| < TWO64
    ensures StoredBytes(m, key) != []
    ensures Decodes(m[key], state) ==>
              && state.Ok? && HasType(state.value, STATE_SCHEMA)
              && StateOffset(state.value) == off && StateLength(state.value) == |leaves|
              && Belong(m, StateRoots(state.value), |leaves|, leaves)
  {
    StateDecodes(m[key], leaves, off, lim);
    var ds := Digests(leaves, Slots(|leaves|));
    StateTyped(|leaves|, ds, off, lim);
    RootsRead(ds);
  }

  lemma {:induction false} RootsRead(ds: seq<Option<Hash>>)
    ensures RootsOf(RootValues(ds)) == ds
  {
    assert forall i :: 0 <= i < |ds| ==> RootsOf(RootValues(ds))[i] == ds[i];
  }

  /** No node of the tree has the digest `key`. */
  predicate Avoids(t: Tree, key: Bytes) {
    TreeHash(t) != key && (t.Branch? ==> Avoids(t.left, key) && Avoids(t.right, key))
  }

  /** The key is not the digest of any node of an accumulator over `leaves`, as no key of another length is. */
  predicate KeyFree(leaves: seq<Hash>, key: Bytes) {
    forall i: nat :: i < Slots(|leaves|) && Slot(leaves, i).Some? ==> Avoids(Slot(leaves, i).value, key)
  }

  lemma {:induction false} OtherLengthAvoids(t: Tree, key: Bytes)
    requires |key| != HASH_SIZE
    ensures Avoids(t, key)
  {
    if t.Branch? {
      OtherLengthAvoids(t.left, key);
      OtherLengthAvoids(t.right, key);
    }
  }

  /** A key of another length than a digest never meets a node. */
  lemma {:induction false} OtherLengthFree(leaves: seq<Hash>, key: Bytes)
    requires |key| != HASH_SIZE
    ensures KeyFree(leaves, key)
  {
    forall i: nat | i < Slots(|leaves|) && Slot(leaves, i).Some? ensures Avoids(Slot(leaves, i).value, key) {
      OtherLengthAvoids(Slot(leaves, i).value, key);
    }
  }

  lemma {:induction false} WritesAvoid(s: Shape, key: Bytes)
    requires Avoids(TreeOf(s), key)
    ensures forall v <- Writes(s) :: Sha3(v) != key
  {
    if s.Fork? {
      WritesAvoid(s.left, key);
      WritesAvoid(s.right, key);
    }
  }

  lemma {:induction false} AllWritesAvoid(ss: seq<Option<Shape>>, key: Bytes)
    requires forall i :: 0 <= i < |ss| && ss[i].Some? ==> Avoids(TreeOf(ss[i].value), key)
    ensures forall v <- AllWrites(ss) :: Sha3(v) != key
  {
    if ss != [] {
      var n := |ss| - 1;
      AllWritesAvoid(ss[..n], key);
      if ss[n].Some? { WritesAvoid(ss[n].value, key); }
    }
  }

  /** A bucket that stores by digest still does after a flush, and a clash the flush meets there is a collision. */
  lemma {:induction false} FlushedByDigest(m: map<Bytes, Bytes>, ss: seq<Option<Shape>>, leaves: seq<Hash>, key: Bytes)
    requires |ss| == Slots(|leaves|)
    requires forall i :: 0 <= i < |ss| ==> Slot(leaves, i) == if ss[i].None? then None else Some(TreeOf(ss[i].value))
    ensures Clash(m, AllWrites(ss)).None? <==> NoClash(m, AllWrites(ss))
    ensures StoresByDigest(m, key) ==>
              && StoresByDigest(Puts(m, AllWrites(ss)), key)
              && (Clash(m, AllWrites(ss)).Some? && KeyFree(leaves, key) ==> Collides(Clash(m, AllWrites(ss)).value))
  {
    var vs := AllWrites(ss);
    ClashNone(m, vs);
    if StoresByDigest(m, key) {
      PutsByDigest(m, vs, key);
      if KeyFree(leaves, key) {
        AllWritesAvoid(ss, key);
        ClashIsCollision(m, vs, key);
      }
    }
  }

  lemma {:induction false} LeafAvoids(t: Tree, key: Bytes, h: Hash)
    requires Avoids(t, key) && h in TreeLeaves(t)
    ensures h != key
  {
    if t.Branch? { LeafAvoids(if h in TreeLeaves(t.left) then t.left else t.right, key, h); }
  }

  lemma {:induction false} SlotsAvoid(leaves: seq<Hash>, key: Bytes, i: nat, h: Hash)
    requires KeyFree(leaves, key) && h in FromTop(leaves, i)
    ensures h != key
    decreases Slots(|leaves|) - i
  {
    if i < Slots(|leaves|) {
      if h in FromTop(leaves, i + 1) {
        SlotsAvoid(leaves, key, i + 1, h);
      } else {
        LeafAvoids(Slot(leaves, i).value, key, h);
      }
    }
  }

  /** What was added is among the leaves, and its data is not saved yet or in the bucket. */
  predicate Keeps(added: set<Bytes>, leaves: seq<Hash>, unsaved: set<Bytes>, m: map<Bytes, Bytes>) {
    forall d <- added :: Sha3(d) in leaves && (d in unsaved || Holds(m, d))
  }

  lemma {:induction false} KeepsMore(
    added: set<Bytes>, leaves: seq<Hash>, unsaved: set<Bytes>, m: map<Bytes, Bytes>, d: Bytes)
    requires Keeps(added, leaves, unsaved, m)
    ensures Keeps(added + {d}, leaves + [Sha3(d)], unsaved + {d}, m)
  {
  }

  /** Data that is held, or about to be written, can be read back after a flush without a clash. */
  lemma {:induction false} DataStored(
    m: map<Bytes, Bytes>, ss: seq<Option<Shape>>, leaves: seq<Hash>, added: set<Bytes>, unsaved: set<Bytes>,
    key: Bytes, b: Bytes)
    requires forall i :: 0 <= i < |ss| && ss[i].Some? ==> Backed(m, ss[i].value)
    requires NoClash(m, AllWrites(ss)) && KeyFree(leaves, key)
    requires Keeps(added, leaves, unsaved, m) && Covers(ss, unsaved)
    ensures forall d <- added :: Holds(Puts(m, AllWrites(ss))[key := b], d)
  {
    var mid := Puts(m, AllWrites(ss));
    PutsExtend(m, AllWrites(ss));
    forall d <- added ensures Holds(mid[key := b], d) {
      SlotsHoldLeaves(leaves);
      SlotsAvoid(leaves, key, 0, Sha3(d));
      if d in unsaved {
        assert Waits(ss, d);
        var i :| 0 <= i < |ss| && ss[i].Some? && d in Pending(ss[i].value);
        forall v <- Writes(ss[i].value) ensures Holds(mid, v) { WritesAmong(ss, i, v); }
        FlushResolves(m, mid, ss[i].value);
      }
    }
  }

  class ExtAccumulator {
    const acc: Accumulator
    const keyForState: Bytes
    const offset: int64
    var limitRoots: int64
    var serialized: Bytes

    ghost predicate Valid()
      reads this, acc, acc.Repr, acc.bucket, set i | 0 <= i < |acc.roots| :: acc.roots[i]
    {
      && acc.Valid() && acc.Tracked() && HeightFits(|acc.leaves|, offset) && |acc.leaves| < TWO64
      && Keeps(acc.added, acc.leaves, acc.unsaved, acc.bucket.data)
    }

    constructor (key: Bytes, bucket: Bucket, offset: int64)
      ensures Valid() && fresh(acc) && fresh(acc.Repr) && acc.leaves == [] && acc.bucket == bucket && acc.added == {}
      ensures keyForState == key && this.offset == offset && limitRoots == 0 && serialized == []
    {
      acc := new Accumulator(bucket);
      keyForState := key;
      this.offset := offset;
      limitRoots, serialized := 0, [];
    }

    method AddData(d: Bytes) returns (ws: seq<Witness>)
      requires Valid() && |acc.leaves| + 1 + offset < 0x8000_0000_0000_0000 && |acc.leaves| + 1 < TWO64
      modifies acc, acc.Repr
      ensures Valid() && acc.leaves == old(acc.leaves) + [Sha3(d)] && fresh(acc.Repr - old(acc.Repr))
      ensures ws == WitnessOf(acc.leaves, |acc.leaves| - 1) && acc.added == old(acc.added) + {d}
    {
      KeepsMore(acc.added, acc.leaves, acc.unsaved, acc.bucket.data, d);
      ws := acc.AddData(d);
    }

    method WitnessForAt(height: int, at: int, offset: int) returns (at': int, r: Result<seq<Witness>, Verdict>)
      requires Valid()
      modifies acc, acc.Repr
      ensures Valid() && acc.leaves == old(acc.leaves) && fresh(acc.Repr - old(acc.Repr)) && acc.added == old(acc.added)
      ensures (at', r) == WitnessForAtSpec(acc.leaves, this.offset, height, at, offset)
    {
      if this.offset > offset {
        at', r := -1, Err(NotFound);
      } else if this.offset < offset {
        at', r := -1, Err(NotFound);
      } else {
        at', r := WitnessOwn(height, at);
      }
    }

    method WitnessOwn(height: int, at: int) returns (at': int, r: Result<seq<Witness>, Verdict>)
      requires Valid()
      modifies acc, acc.Repr
      ensures Valid() && acc.leaves == old(acc.leaves) && fresh(acc.Repr - old(acc.Repr)) && acc.added == old(acc.added)
      ensures (at', r) == WitnessForAtSpec(acc.leaves, offset, height, at, offset)
    {
      var accLength := if at - offset > acc.length then acc.length else at - offset;
      assert accLength == Clamped(acc.leaves, offset, at);
      at' := if at - offset > acc.length then acc.length + offset else at;
      assert at' == accLength + offset;
      var idx := height - 1 - offset;
      r := acc.WitnessForWithAccLength(idx, accLength);
    }

    method VerifyAt(ws: seq<Witness>, h: Hash, at: int, offset: int) returns (v: Verdict)
      requires Valid()
      modifies acc, acc.Repr
      ensures Valid() && acc.leaves == old(acc.leaves) && fresh(acc.Repr - old(acc.Repr)) && acc.added == old(acc.added)
      ensures v == VerifyAtSpec(acc.leaves, this.offset, ws, h, at, offset)
    {
      if this.offset > offset {
        v := NotFound;
      } else if this.offset < offset {
        v := NotFound;
      } else {
        v := VerifyOwn(ws, h, at);
      }
    }

    method VerifyOwn(ws: seq<Witness>, h: Hash, at: int) returns (v: Verdict)
      requires Valid()
      modifies acc, acc.Repr
      ensures Valid() && acc.leaves == old(acc.leaves) && fresh(acc.Repr - old(acc.Repr)) && acc.added == old(acc.added)
      ensures v == VerifyAtSpec(acc.leaves, offset, ws, h, at, offset)
    {
      var accLength := if at - offset > acc.length then acc.length else at - offset;
      assert accLength == Clamped(acc.leaves, offset, at);
      v := acc.VerifyWithAccLength(ws, h, accLength);
    }

    /**
     Stores every node and then the state. Two different values under one digest are
     returned; in a bucket that stores by digest, as it still does afterwards, they collide.
     */
    method Flush() returns (ok: bool, ghost clash: Option<(Bytes, Bytes)>)
      requires Valid()
      modifies this, acc`unsaved, acc.Repr, acc.bucket
      ensures ok == (keyForState != []) && limitRoots == old(limitRoots)
      ensures acc.added == old(acc.added) && acc.leaves == old(acc.leaves)
      ensures if ok then keyForState in acc.bucket.data && acc.bucket.data[keyForState] == serialized
              else serialized == old(serialized)
      ensures ok && KeyFree(acc.leaves, keyForState) && clash.None? ==>
                && Valid() && Persisted(acc.bucket.data, keyForState, acc.leaves, offset, limitRoots)
                && forall d <- acc.added :: Holds(acc.bucket.data, d)
      ensures old(StoresByDigest(acc.bucket.data, keyForState)) ==>
                && StoresByDigest(acc.bucket.data, keyForState)
                && (clash.Some? && KeyFree(acc.leaves, keyForState) ==> Collides(clash.value))
    {
      var rhs, before, m, unsaved := FlushTrees();
      clash := Clash(m, AllWrites(before));
      FlushedByDigest(m, before, acc.leaves, keyForState);
      ok := StoreState(rhs, m, before, unsaved);
    }

    /** Encodes the state and puts it under its key, after all trees have been written. */
    method StoreState(
      rhs: seq<Option<Hash>>, ghost m: map<Bytes, Bytes>, ghost before: seq<Option<Shape>>, ghost unsaved: set<Bytes>)
      returns (ok: bool)
      requires acc.Linked() && ShapesMatch(acc, before) && HeightFits(|acc.leaves|, offset) && |acc.leaves| < TWO64
      requires forall i :: 0 <= i < |before| ==> RootShape(acc.roots[i]) == AfterFlushOpt(before[i])
      requires forall i :: 0 <= i < |before| && before[i].Some? ==> Backed(m, before[i].value)
      requires acc.bucket.data == Puts(m, AllWrites(before)) && rhs == Digests(acc.leaves, Slots(|acc.leaves|))
      requires acc.unsaved == {} && Covers(before, unsaved) && Keeps(acc.added, acc.leaves, unsaved, m)
      modifies this, acc.bucket
      ensures ok == (keyForState != []) && limitRoots == old(limitRoots)
      ensures acc.bucket.data == if ok then old(acc.bucket.data)[keyForState := serialized] else old(acc.bucket.data)
      ensures !ok ==> serialized == old(serialized)
      ensures ok && KeyFree(acc.leaves, keyForState) && NoClash(m, AllWrites(before)) ==>
                && Valid() && Persisted(acc.bucket.data, keyForState, acc.leaves, offset, limitRoots)
                && forall d <- acc.added :: Holds(acc.bucket.data, d)
    {
      var b := StateBytes(acc.length, rhs, offset, limitRoots, acc.leaves);
      ok := PutState(b, m, before);
      if ok && KeyFree(acc.leaves, keyForState) && NoClash(m, AllWrites(before)) {
        PersistedBy(acc.bucket.data, keyForState, acc.leaves, offset, limitRoots, b);
        DataStored(m, before, acc.leaves, acc.added, unsaved, keyForState, b);
      }
    }

    /** Puts the state bytes under their key, after all trees have been written. */
    method PutState(b: Bytes, ghost m: map<Bytes, Bytes>, ghost before: seq<Option<Shape>>) returns (ok: bool)
      requires acc.Linked() && ShapesMatch(acc, before)
      requires forall i :: 0 <= i < |before| ==> RootShape(acc.roots[i]) == AfterFlushOpt(before[i])
      requires forall i :: 0 <= i < |before| && before[i].Some? ==> Backed(m, before[i].value)
      requires acc.bucket.data == Puts(m, AllWrites(before))
      modifies this, acc.bucket
      ensures ok == (keyForState != []) && limitRoots == old(limitRoots)
      ensures acc.bucket.data == if ok then old(acc.bucket.data)[keyForState := b] else old(acc.bucket.data)
      ensures serialized == if ok then b else old(serialized)
      ensures ok && KeyFree(acc.leaves, keyForState) && NoClash(m, AllWrites(before)) ==>
                && acc.Valid()
                && forall i :: 0 <= i < Slots(|acc.leaves|) && Slot(acc.leaves, i).Some? ==>
                     Resolvable(acc.bucket.data, Slot(acc.leaves, i).value)
    {
      ok := acc.bucket.Set(keyForState, b);
      if ok {
        serialized := b;
        if KeyFree(acc.leaves, keyForState) && NoClash(m, AllWrites(before)) {
          FlushKeeps(acc, m, before, keyForState, b);
        }
      }
    }

    method FlushTrees()
      returns (
        rhs: seq<Option<Hash>>, ghost before: seq<Option<Shape>>, ghost m: map<Bytes, Bytes>, ghost unsaved: set<Bytes>)
      requires Valid()
      modifies acc`unsaved, acc.Repr, acc.bucket
      ensures m == old(acc.bucket.data) && before == old(acc.Shapes()) && acc.unsaved == {}
      ensures Covers(before, unsaved) && Keeps(acc.added, acc.leaves, unsaved, m)
      ensures acc.Linked() && ShapesMatch(acc, before)
      ensures forall i :: 0 <= i < |before| ==> RootShape(acc.roots[i]) == AfterFlushOpt(before[i])
      ensures forall i :: 0 <= i < |before| && before[i].Some? ==> Backed(m, before[i].value)
      ensures acc.bucket.data == Puts(m, AllWrites(before))
      ensures rhs == Digests(acc.leaves, Slots(|acc.leaves|))
    {
      before, m, unsaved := acc.Shapes(), acc.bucket.data, acc.unsaved;
      assert ShapesMatch(acc, before);
      rhs := acc.FlushRoots();
    }

    /**
     Reads the stored state back. Nothing stored is an empty accumulator; bytes that do not
     decode change nothing; any state that decodes is loaded, and one of another offset is
     reported after that.
     */
    method Recover(ghost leaves: seq<Hash>, ghost data: set<Bytes>)
      returns (err: Option<RecoverError>, ghost state: Result<Value, ReadError>)
      modifies this, acc
      ensures var b := StoredBytes(acc.bucket.data, keyForState);
              if b == [] then err == None && acc.Valid() && acc.leaves == [] && fresh(acc.Repr)
              else Decodes(b, state) && Recovered(state, err, leaves)
      ensures state.Err? && StoredBytes(acc.bucket.data, keyForState) != [] ==>
                acc.roots == old(acc.roots) && acc.length == old(acc.length)
      ensures serialized == (if state.Ok? then StoredBytes(acc.bucket.data, keyForState) else old(serialized))
      ensures limitRoots == old(limitRoots)
      ensures state.Ok? ==> fresh(acc.Repr) && acc.added == data && acc.unsaved == {}
    {
      var b := acc.bucket.Get(keyForState);
      if |b| == 0 {
        acc.Restore([], 0, [], data);
        err, state := None, Err(EndOfInput);
      } else {
        err, state := RecoverFrom(b, leaves, data);
      }
    }

    method RecoverFrom(b: Bytes, ghost leaves: seq<Hash>, ghost data: set<Bytes>)
      returns (err: Option<RecoverError>, ghost state: Result<Value, ReadError>)
      modifies this, acc
      ensures Decodes(b, state) && Recovered(state, err, leaves)
      ensures state.Err? ==> acc.roots == old(acc.roots) && acc.length == old(acc.length)
      ensures serialized == (if state.Ok? then b else old(serialized)) && limitRoots == old(limitRoots)
      ensures state.Ok? ==> fresh(acc.Repr) && acc.added == data && acc.unsaved == {}
    {
      var r := ReadState(b);
      state := r;
      if r.Err? {
        err := Some(Undecodable(r.error));
      } else {
        err := Load(r.value, leaves, data);
        serialized := b;
      }
    }

    /** An undecodable state is reported; any other is loaded, as the accumulator of `leaves` if it belongs to them. */
    ghost predicate Recovered(state: Result<Value, ReadError>, err: Option<RecoverError>, leaves: seq<Hash>)
      reads this, acc, acc.Repr, acc.bucket, acc.roots
    {
      match state
      case Err(e) => err == Some(Undecodable(e))
      case Ok(v) =>
        && Loaded(v) && err == OffsetError(StateOffset(v)) && acc.leaves == leaves
        && (Belong(acc.bucket.data, StateRoots(v), StateLength(v), leaves) ==> acc.Valid())
    }

    /** What a flush stored gives the accumulator of its leaves again, with all of its nodes still in the bucket. */
    method RecoverFlushed(ghost leaves: seq<Hash>, ghost off: int64, ghost lim: int64, ghost data: set<Bytes>)
      returns (err: Option<RecoverError>)
      modifies this, acc
      ensures Persisted(acc.bucket.data, keyForState, leaves, off, lim) && |leaves| < TWO64 ==>
                && acc.Valid() && acc.leaves == leaves && fresh(acc.Repr) && err == OffsetError(off)
                && acc.added == data && acc.unsaved == {}
                && (err == None <==> off == offset)
                && (off > offset ==> err == Some(LowerOffset)) && (off < offset ==> err == Some(HigherOffset))
    {
      ghost var state;
      err, state := Recover(leaves, data);
      if Persisted(acc.bucket.data, keyForState, leaves, off, lim) && |leaves| < TWO64 {
        PersistedBelongs(acc.bucket.data, keyForState, leaves, off, lim, state);
      }
    }

    ghost function OffsetError(stored: int): Option<RecoverError> {
      if offset < stored then Some(LowerOffset) else if offset > stored then Some(HigherOffset) else None
    }

    /** The accumulator has the root digests and the length of a state. */
    ghost predicate Loaded(v: Value)
      reads acc, acc.roots
    {
      && HasType(v, STATE_SCHEMA) && acc.length == StateLength(v) && |acc.roots| == |StateRoots(v)|
      && forall i :: 0 <= i < |acc.roots| ==> DigestOf(RootShape(acc.roots[i])) == StateRoots(v)[i]
    }

    method Load(v: Value, ghost leaves: seq<Hash>, ghost data: set<Bytes>) returns (err: Option<RecoverError>)
      requires HasType(v, STATE_SCHEMA)
      modifies acc
      ensures Loaded(v) && fresh(acc.Repr) && acc.leaves == leaves && err == OffsetError(StateOffset(v))
      ensures acc.added == data && acc.unsaved == {}
      ensures Belong(acc.bucket.data, StateRoots(v), StateLength(v), leaves) ==> acc.Valid()
    {
      StateFields(v);
      var rhs := RootHashes(if v.fields[1].VList? then v.fields[1].elems else []);
      var stored := v.fields[2].i;
      acc.Restore(rhs, v.fields[0].i - stored, leaves, data);
      err := if offset < stored then Some(LowerOffset) else if offset > stored then Some(HigherOffset) else None;
    }
  }

  function StoredBytes(m: map<Bytes, Bytes>, key: Bytes): Bytes {
    if key in m then m[key] else []
  }

  /**
   Persistence is transparent: an accumulator recovered from the bucket alone holds the
   leaves of the flushed one, and so gives the same witnesses and verdicts; or the flush
   found two values with one digest.
   */
  method FlushAndRecover(a: ExtAccumulator)
    returns (b: ExtAccumulator, err: Option<RecoverError>, ghost clash: Option<(Bytes, Bytes)>)
    requires a.Valid() && a.keyForState != []
    modifies a, a.acc`unsaved, a.acc.Repr, a.acc.bucket
    ensures fresh(b) && fresh(b.acc) && b.acc.bucket == a.acc.bucket
    ensures clash.None? && KeyFree(old(a.acc.leaves), a.keyForState) ==>
              && err == None && b.Valid() && b.acc.leaves == a.acc.leaves == old(a.acc.leaves) && fresh(b.acc.Repr)
              && b.acc.added == old(a.acc.added) && forall d <- b.acc.added :: Holds(b.acc.bucket.data, d)
    ensures old(StoresByDigest(a.acc.bucket.data, a.keyForState)) && KeyFree(old(a.acc.leaves), a.keyForState) ==>
              clash.Some? ==> Collides(clash.value)
  {
    var ok;
    ok, clash := a.Flush();
    b := new ExtAccumulator(a.keyForState, a.acc.bucket, a.offset);
    err := b.RecoverFlushed(a.acc.leaves, a.offset, a.limitRoots, a.acc.added);
  }

}
