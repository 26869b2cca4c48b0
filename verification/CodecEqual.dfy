/**
 Equality of Go values, and the bytes of equal values. Two maps are equal if they hold
 equal values under the same keys, however each of them lists its entries, at every level.
 */
module CodecEqual {
  import opened Bytes
  import opened Rlp
  import opened CodecValue
  import opened CodecTyped

  /** The value under a key. */
  function At(es: seq<Entry>, k: Key): (r: Option<Value>)
    ensures r.Some? ==> Entry(k, r.value) in es
  {
    if es == [] then None
    else if es[0].key == k then Some(es[0].value)
    else At(es[1..], k)
  }

  lemma {:induction false} AtOf(es: seq<Entry>, x: Entry)
    requires x in es && DistinctEntryKeys(es)
    ensures At(es, x.key) == Some(x.value)
  {
    if es[0] != x {
      assert x in es[1..];
      AtOf(es[1..], x);
    }
  }

  predicate Same(v: Value, w: Value, s: Schema)
    requires HasType(v, s) && HasType(w, s)
    decreases s
  {
    match s
    case SList(e) =>
      && v.VList? == w.VList?
      && (v.VList? ==> |v.elems| == |w.elems| && forall i :: 0 <= i < |v.elems| ==> Same(v.elems[i], w.elems[i], e))
    case SStruct(fs) => forall i :: 0 <= i < |fs| ==> Same(v.fields[i], w.fields[i], fs[i])
    case SPtr(t) => v.VPtr? == w.VPtr? && (v.VPtr? ==> Same(v.target, w.target, t))
    case SMap(_, e) =>
      && v.VMap? == w.VMap?
      && (v.VMap? ==>
            && (forall x <- v.entries :: At(w.entries, x.key).Some? && Same(x.value, At(w.entries, x.key).value, e))
            && (forall y <- w.entries :: At(v.entries, y.key).Some?))
    case _ => v == w
  }

  // ---- an equivalence

  lemma {:induction false} SameFlip(v: Value, w: Value, s: Schema)
    requires HasType(v, s) && HasType(w, s) && Same(v, w, s)
    ensures Same(w, v, s)
    decreases s, 0
  {
    match s
    case SList(e) =>
      if v.VList? { forall i | 0 <= i < |v.elems| { SameFlip(v.elems[i], w.elems[i], e); } }
    case SStruct(fs) =>
      forall i | 0 <= i < |fs| { SameFlip(v.fields[i], w.fields[i], fs[i]); }
    case SPtr(t) =>
      if v.VPtr? { SameFlip(v.target, w.target, t); }
    case SMap(_, e) =>
      if v.VMap? { MapFlip(v.entries, w.entries, e); }
    case _ =>
  }

  lemma {:induction false} SameChain(u: Value, v: Value, w: Value, s: Schema)
    requires HasType(u, s) && HasType(v, s) && HasType(w, s) && Same(u, v, s) && Same(v, w, s)
    ensures Same(u, w, s)
    decreases s, 0
  {
    if s.SList? && v.VList? {
      ListChain(u.elems, v.elems, w.elems, s.elem);
    } else if s.SStruct? {
      forall i | 0 <= i < |s.fields| ensures Same(u.fields[i], w.fields[i], s.fields[i]) {
        SameChain(u.fields[i], v.fields[i], w.fields[i], s.fields[i]);
      }
    } else if s.SPtr? && v.VPtr? {
      SameChain(u.target, v.target, w.target, s.target);
    } else if s.SMap? && v.VMap? {
      MapChain(u.entries, v.entries, w.entries, s.value);
      KeysChain(u.entries, v.entries, w.entries);
    }
  }

  lemma {:induction false} ListChain(us: seq<Value>, vs: seq<Value>, ws: seq<Value>, e: Schema)
    requires (forall x <- us :: HasType(x, e)) && (forall x <- vs :: HasType(x, e)) && (forall x <- ws :: HasType(x, e))
    requires |us| == |vs| == |ws|
    requires forall i :: 0 <= i < |us| ==> Same(us[i], vs[i], e) && Same(vs[i], ws[i], e)
    ensures forall i :: 0 <= i < |us| ==> Same(us[i], ws[i], e)
    decreases e, 1
  {
    forall i | 0 <= i < |us| ensures Same(us[i], ws[i], e) { SameChain(us[i], vs[i], ws[i], e); }
  }

  predicate Typed(es: seq<Entry>, e: Schema) {
    DistinctEntryKeys(es) && forall x <- es :: HasType(x.value, e)
  }

  /** Every key of `a` is in `b`, with an equal value. */
  predicate Within(a: seq<Entry>, b: seq<Entry>, e: Schema)
    requires Typed(a, e) && Typed(b, e)
  {
    forall x <- a :: At(b, x.key).Some? && Same(x.value, At(b, x.key).value, e)
  }

  lemma {:induction false} MapFlip(a: seq<Entry>, b: seq<Entry>, e: Schema)
    requires Typed(a, e) && Typed(b, e) && Within(a, b, e) && forall y <- b :: At(a, y.key).Some?
    ensures Within(b, a, e)
    decreases e, 1
  {
    forall y <- b ensures Same(y.value, At(a, y.key).value, e) {
      var x := Entry(y.key, At(a, y.key).value);
      AtOf(b, y);
      SameFlip(x.value, y.value, e);
    }
  }

  lemma {:induction false} MapChain(a: seq<Entry>, b: seq<Entry>, c: seq<Entry>, e: Schema)
    requires Typed(a, e) && Typed(b, e) && Typed(c, e) && Within(a, b, e) && Within(b, c, e)
    ensures Within(a, c, e)
    decreases e, 1
  {
    forall x <- a ensures At(c, x.key).Some? && Same(x.value, At(c, x.key).value, e) {
      var y := Entry(x.key, At(b, x.key).value);
      assert y in b;
      SameChain(x.value, y.value, At(c, y.key).value, e);
    }
  }

  lemma {:induction false} KeysChain(a: seq<Entry>, b: seq<Entry>, c: seq<Entry>)
    requires (forall y <- b :: At(a, y.key).Some?) && (forall z <- c :: At(b, z.key).Some?)
    ensures forall z <- c :: At(a, z.key).Some?
  {
    forall z <- c ensures At(a, z.key).Some? {
      assert Entry(z.key, At(b, z.key).value) in b;
    }
  }

  // ---- equal values have equal bytes

  lemma {:induction false} ItemsEqual(vs: seq<Value>, ws: seq<Value>)
    requires |vs| == |ws| && forall i :: 0 <= i < |vs| ==> ToItem(vs[i]) == ToItem(ws[i])
    ensures ToItems(vs) == ToItems(ws)
  {
    forall i | 0 <= i < |vs| ensures ToItems(vs)[i] == ToItems(ws)[i] {
      ToItemsAt(vs, i);
      ToItemsAt(ws, i);
    }
  }

  /** Every entry of `a` lowers to the pair of the entry of `b` under its key. */
  lemma {:induction false} PairsWithin(a: seq<Entry>, b: seq<Entry>)
    requires forall x <- a :: At(b, x.key).Some? && ToItem(x.value) == ToItem(At(b, x.key).value)
    ensures forall p <- ToPairs(a) :: p in ToPairs(b)
  {
    forall p <- ToPairs(a) ensures p in ToPairs(b) {
      var i :| 0 <= i < |a| && ToPairs(a)[i] == p;
      ToPairsAt(a, i);
      assert a[i] in a;
      var y := Entry(a[i].key, At(b, a[i].key).value);
      var j :| 0 <= j < |b| && b[j] == y;
      ToPairsAt(b, j);
    }
  }

  /** Equal values lower to the same item, and so to the same bytes, at every level of nested maps. */
  lemma {:induction false} SameItem(v: Value, w: Value, s: Schema)
    requires HasType(v, s) && HasType(w, s) && Same(v, w, s)
    ensures ToItem(v) == ToItem(w)
    decreases s, 0
  {
    match s
    case SList(e) =>
      if v.VList? {
        forall i | 0 <= i < |v.elems| { SameItem(v.elems[i], w.elems[i], e); }
        ItemsEqual(v.elems, w.elems);
      }
    case SStruct(fs) =>
      forall i | 0 <= i < |fs| { SameItem(v.fields[i], w.fields[i], fs[i]); }
      ItemsEqual(v.fields, w.fields);
    case SPtr(t) =>
      if v.VPtr? { SameItem(v.target, w.target, t); }
    case SMap(_, e) =>
      if v.VMap? {
        SamePairs(v.entries, w.entries, e);
        MapFlip(v.entries, w.entries, e);
        SamePairs(w.entries, v.entries, e);
        MapOrderIrrelevant(v.entries, w.entries);
      }
    case _ =>
  }

  lemma {:induction false} SamePairs(a: seq<Entry>, b: seq<Entry>, e: Schema)
    requires Typed(a, e) && Typed(b, e) && Within(a, b, e)
    ensures forall p <- ToPairs(a) :: p in ToPairs(b)
    decreases e, 1
  {
    forall x <- a ensures ToItem(x.value) == ToItem(At(b, x.key).value) {
      SameItem(x.value, At(b, x.key).value, e);
    }
    PairsWithin(a, b);
  }

  // ---- sorting the entries of its maps does not change a value

  lemma {:induction false} CanonAt(vs: seq<Value>, i: nat)
    requires i < |vs|
    ensures CanonAll(vs)[i] == Canon(vs[i])
  {
    if i > 0 { CanonAt(vs[1..], i - 1); }
  }

  lemma {:induction false} CanonEntriesAt(es: seq<Entry>, i: nat)
    requires i < |es|
    ensures CanonEntries(es)[i] == CanonEntry(es[i])
  {
    if i > 0 { CanonEntriesAt(es[1..], i - 1); }
  }

  lemma {:induction false} CanonSame(v: Value, s: Schema)
    requires HasType(v, s)
    ensures HasType(Canon(v), s) && Same(v, Canon(v), s)
    decreases s, 0
  {
    match s
    case SList(e) =>
      if v.VList? {
        forall i | 0 <= i < |v.elems|
          ensures HasType(CanonAll(v.elems)[i], e) && Same(v.elems[i], CanonAll(v.elems)[i], e)
        {
          CanonSame(v.elems[i], e);
          CanonAt(v.elems, i);
        }
      }
    case SStruct(fs) =>
      forall i | 0 <= i < |fs|
        ensures HasType(CanonAll(v.fields)[i], fs[i]) && Same(v.fields[i], CanonAll(v.fields)[i], fs[i])
      {
        CanonSame(v.fields[i], fs[i]);
        CanonAt(v.fields, i);
      }
    case SPtr(t) =>
      if v.VPtr? { CanonSame(v.target, t); }
    case SMap(k, e) =>
      if v.VMap? { CanonMapSame(v.entries, k, e); }
    case _ =>
  }

  lemma {:induction false} CanonMapSame(es: seq<Entry>, k: KeyKind, e: Schema)
    requires HasType(VMap(es), SMap(k, e))
    ensures HasType(Canon(VMap(es)), SMap(k, e)) && Same(VMap(es), Canon(VMap(es)), SMap(k, e))
    decreases e, 1
  {
    var cs := CanonEntries(es);
    forall i | 0 <= i < |es|
      ensures cs[i].key == es[i].key && HasType(cs[i].value, e) && Same(es[i].value, cs[i].value, e)
    {
      CanonEntriesAt(es, i);
      CanonSame(es[i].value, e);
    }
    SortedSame(es, cs, e);
    SortedKeys(es, SortEntries(cs), k);
  }

  lemma {:induction false} SortedKeys(es: seq<Entry>, sorted: seq<Entry>, k: KeyKind)
    requires (forall x <- es :: KeyOf(k, x.key)) && (forall y <- sorted :: At(es, y.key).Some?)
    ensures forall y <- sorted :: KeyOf(k, y.key)
  {
    forall y <- sorted ensures KeyOf(k, y.key) {
      assert Entry(y.key, At(es, y.key).value) in es;
    }
  }

  /** Entries with equal values under the same keys, in any other order. */
  lemma {:induction false} SortedSame(es: seq<Entry>, cs: seq<Entry>, e: Schema)
    requires Typed(es, e) && |cs| == |es|
    requires forall i :: 0 <= i < |es| ==> cs[i].key == es[i].key && HasType(cs[i].value, e)
    requires forall i :: 0 <= i < |es| ==> Same(es[i].value, cs[i].value, e)
    ensures Typed(SortEntries(cs), e) && Within(es, SortEntries(cs), e)
    ensures forall y <- SortEntries(cs) :: At(es, y.key).Some?
  {
    SortElements(cs);
    SortDistinct(cs);
    var sorted := SortEntries(cs);
    assert Typed(sorted, e);
    forall x <- es ensures At(sorted, x.key).Some? && Same(x.value, At(sorted, x.key).value, e) {
      var i :| 0 <= i < |es| && es[i] == x;
      assert cs[i] in cs;
      AtOf(sorted, cs[i]);
    }
    forall y <- sorted ensures At(es, y.key).Some? {
      var i :| 0 <= i < |cs| && cs[i] == y;
      AtOf(es, es[i]);
    }
  }

  lemma {:induction false} CanonItem(v: Value, s: Schema)
    requires HasType(v, s)
    ensures ToItem(Canon(v)) == ToItem(v)
  {
    CanonSame(v, s);
    SameItem(v, Canon(v), s);
  }

  lemma {:induction false} CanonEqual(v: Value, w: Value, s: Schema)
    requires HasType(v, s) && HasType(w, s) && Canon(v) == Canon(w)
    ensures Same(v, w, s)
  {
    CanonSame(v, s);
    CanonSame(w, s);
    SameFlip(w, Canon(w), s);
    SameChain(v, Canon(v), w, s);
  }

  /** Values that survive their own bytes have equal bytes if and only if they are equal. */
  lemma {:induction false} SameBytesIff(v: Value, w: Value, s: Schema)
    requires HasType(v, s) && HasType(w, s)
    ensures Same(v, w, s) ==> Encode(ToItem(v)) == Encode(ToItem(w))
    ensures Faithful(v, s) && Faithful(w, s) && |Encode(ToItem(v))| < MAX_SIZE ==>
              (Encode(ToItem(v)) == Encode(ToItem(w)) ==> Same(v, w, s))
  {
    if Same(v, w, s) { SameItem(v, w, s); }
    if Faithful(v, s) && Faithful(w, s) && |Encode(ToItem(v))| < MAX_SIZE && Encode(ToItem(v)) == Encode(ToItem(w)) {
      PrefixFree(ToItem(v), ToItem(w));
      ItemsTell(v, w, s);
    }
  }

  lemma {:induction false} ItemsTell(v: Value, w: Value, s: Schema)
    requires HasType(v, s) && HasType(w, s) && Faithful(v, s) && Faithful(w, s) && ToItem(v) == ToItem(w)
    ensures Same(v, w, s)
  {
    TypedRoundTrip(v, s);
    TypedRoundTrip(w, s);
    assert Canon(v) == FromNullable(s, ToItem(v)).value == Canon(w);
    CanonEqual(v, w, s);
  }

  // ---- the keys of an encoded map ascend

  /** `a` ends where `b` goes on, or has the smaller byte where they first differ. */
  ghost predicate BytesBelow(a: Bytes, b: Bytes) {
    exists n :: 0 <= n <= |a| && n < |b| && a[..n] == b[..n] && (n == |a| || a[n] < b[n])
  }

  /** Numbers by their value, text by its bytes. */
  ghost predicate KeyBelow(a: Key, b: Key) {
    match a
    case KeyInt(x) => b.KeyInt? && x < b.i
    case KeyUint(x) => b.KeyUint? && x < b.u
    case KeyText(x) => b.KeyText? && BytesBelow(x, b.text)
  }

  lemma {:induction false} LexIsBytes(a: Bytes, b: Bytes)
    requires LexLess(a, b)
    ensures BytesBelow(a, b)
    decreases |a|
  {
    if a == [] || a[0] < b[0] {
      assert a[..0] == b[..0];
    } else {
      var x, y := a[1..], b[1..];
      LexIsBytes(x, y);
      var n :| 0 <= n <= |x| && n < |y| && x[..n] == y[..n] && (n == |x| || x[n] < y[n]);
      assert a[..n + 1] == [a[0]] + x[..n] && b[..n + 1] == [b[0]] + y[..n];
    }
  }

  /** Read off its item, the keys of a map ascend, whatever order its entries are listed in. */
  lemma {:induction false} KeysAscend(es: seq<Entry>, k: KeyKind, e: Schema, i: nat, j: nat)
    requires HasType(VMap(es), SMap(k, e)) && i < j < |es|
    ensures var items := ToItem(VMap(es)).items;
            && |items| == 2 * |es| && items[2 * i].Str? && items[2 * j].Str?
            && KeyBelow(ReadKey(k, items[2 * i].bytes), ReadKey(k, items[2 * j].bytes))
  {
    var ps := SortPairs(ToPairs(es));
    PairsDistinct(es);
    SortOrdered(ToPairs(es));
    SortSize(ToPairs(es));
    FlattenAt(ps, i);
    FlattenAt(ps, j);
    KeyOfPair(es, k, ps[i]);
    KeyOfPair(es, k, ps[j]);
    KeyRoundTrip(k, ps[i].key);
    KeyRoundTrip(k, ps[j].key);
    if k.TextKey? { LexIsBytes(ps[i].key.text, ps[j].key.text); }
  }

  lemma {:induction false} KeyOfPair(es: seq<Entry>, k: KeyKind, p: Pair)
    requires (forall x <- es :: KeyOf(k, x.key)) && p in ToPairs(es)
    ensures KeyOf(k, p.key)
  {
    var i :| 0 <= i < |es| && ToPairs(es)[i] == p;
    ToPairsAt(es, i);
    assert es[i] in es;
  }

  lemma {:induction false} SortSize(ps: seq<Pair>)
    ensures |SortPairs(ps)| == |ps|
  {
    if ps != [] {
      SortSize(ps[1..]);
      InsertSize(ps[0], SortPairs(ps[1..]));
    }
  }

  lemma {:induction false} InsertSize(p: Pair, sorted: seq<Pair>)
    ensures |InsertPair(p, sorted)| == |sorted| + 1
  {
    if sorted != [] { InsertSize(p, sorted[1..]); }
  }

}
