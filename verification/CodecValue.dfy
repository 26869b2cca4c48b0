/**
 Values of the types the codec handles, their lowering to RLP items and the typed
 reading back. A value of map type lists its entries in any order, as Go iterates them.
 */
module CodecValue {
  import opened Bytes
  import opened IntConv
  import opened Rlp

  datatype KeyKind = IntKey | UintKey | TextKey

  datatype Key = KeyInt(i: int64) | KeyUint(u: uint64) | KeyText(text: Bytes)

  datatype Entry = Entry(key: Key, value: Value)

  datatype Value =
    | VBool(b: bool)
    | VUint(u: uint64)
    | VInt(i: int64)
    | VText(text: Bytes)
    | VNilBytes | VBytes(bytes: Bytes)
    | VNilList | VList(elems: seq<Value>)
    | VStruct(fields: seq<Value>)
    | VNilPtr | VPtr(target: Value)
    | VNilMap | VMap(entries: seq<Entry>)

  datatype Schema =
    | SBool | SUint | SInt | SText | SBytes
    | SList(elem: Schema)
    | SStruct(fields: seq<Schema>)
    | SPtr(target: Schema)
    | SMap(key: KeyKind, value: Schema)

  // ---- key order

  function LexLess(a: Bytes, b: Bytes): bool {
    b != [] && (a == [] || a[0] < b[0] || (a[0] == b[0] && LexLess(a[1..], b[1..])))
  }

  function KindRank(k: Key): nat {
    match k
    case KeyInt(_) => 0
    case KeyUint(_) => 1
    case KeyText(_) => 2
  }

  predicate KeyLess(a: Key, b: Key) {
    match (a, b)
    case (KeyInt(x), KeyInt(y)) => x < y
    case (KeyUint(x), KeyUint(y)) => x < y
    case (KeyText(x), KeyText(y)) => LexLess(x, y)
    case _ => KindRank(a) < KindRank(b)
  }

  lemma {:induction false} LexTotal(a: Bytes, b: Bytes)
    ensures LexLess(a, b) || a == b || LexLess(b, a)
    ensures !(LexLess(a, b) && LexLess(b, a)) && !LexLess(a, a)
    decreases |a|
  {
    if a != [] {
      LexTotal(a[1..], a[1..]);
      if b != [] {
        LexTotal(a[1..], b[1..]);
        if a[0] == b[0] && a[1..] == b[1..] {
          assert a == [a[0]] + a[1..] && b == [b[0]] + b[1..];
        }
      }
    }
  }

  lemma {:induction false} LexTransitive(a: Bytes, b: Bytes, c: Bytes)
    requires LexLess(a, b) && LexLess(b, c)
    ensures LexLess(a, c)
    decreases |a|
  {
    if a != [] && a[0] == b[0] == c[0] { LexTransitive(a[1..], b[1..], c[1..]); }
  }

  lemma {:induction false} KeyTotal(a: Key, b: Key)
    ensures KeyLess(a, b) || a == b || KeyLess(b, a)
    ensures !(KeyLess(a, b) && KeyLess(b, a))
  {
    if a.KeyText? && b.KeyText? { LexTotal(a.text, b.text); }
  }

  lemma {:induction false} KeyTransitive(a: Key, b: Key, c: Key)
    requires KeyLess(a, b) && KeyLess(b, c)
    ensures KeyLess(a, c)
  {
    if a.KeyText? && b.KeyText? && c.KeyText? { LexTransitive(a.text, b.text, c.text); }
  }

  // ---- lowering

  datatype Pair = Pair(key: Key, item: Item)

  function KeyBytes(k: Key): Bytes {
    match k
    case KeyInt(i) => SignedBytes(i)
    case KeyUint(u) => SignedBytes(u)
    case KeyText(t) => t
  }

  function InsertPair(p: Pair, sorted: seq<Pair>): seq<Pair> {
    if sorted == [] then [p]
    else if KeyLess(p.key, sorted[0].key) then [p] + sorted
    else [sorted[0]] + InsertPair(p, sorted[1..])
  }

  function SortPairs(ps: seq<Pair>): seq<Pair> {
    if ps == [] then [] else InsertPair(ps[0], SortPairs(ps[1..]))
  }

  function Flatten(ps: seq<Pair>): seq<Item> {
    if ps == [] then [] else [Str(KeyBytes(ps[0].key)), ps[0].item] + Flatten(ps[1..])
  }

  function ToItem(v: Value): Item {
    match v
    case VBool(b) => Str([if b then 1 else 0])
    case VUint(u) => Str(SignedBytes(u))
    case VInt(i) => Str(SignedBytes(i))
    case VText(t) => Str(t)
    case VNilBytes => Null
    case VBytes(b) => Str(b)
    case VNilList => Null
    case VList(elems) => List(ToItems(elems))
    case VStruct(fields) => List(ToItems(fields))
    case VNilPtr => Null
    case VPtr(t) => ToItem(t)
    case VNilMap => Null
    case VMap(entries) => List(Flatten(SortPairs(ToPairs(entries))))
  }

  function ToItems(vs: seq<Value>): (items: seq<Item>)
    ensures |items| == |vs|
  {
    if vs == [] then [] else [ToItem(vs[0])] + ToItems(vs[1..])
  }

  function ToPairs(es: seq<Entry>): (ps: seq<Pair>)
    ensures |ps| == |es|
  {
    if es == [] then [] else [ToPair(es[0])] + ToPairs(es[1..])
  }

  function ToPair(e: Entry): Pair {
    Pair(e.key, ToItem(e.value))
  }

  lemma {:induction false} ToItemsAt(vs: seq<Value>, i: nat)
    requires i < |vs|
    ensures ToItems(vs)[i] == ToItem(vs[i])
  {
    if i > 0 { ToItemsAt(vs[1..], i - 1); }
  }

  lemma {:induction false} FlattenAt(ps: seq<Pair>, i: nat)
    requires i < |ps|
    ensures |Flatten(ps)| == 2 * |ps|
    ensures Flatten(ps)[2 * i] == Str(KeyBytes(ps[i].key)) && Flatten(ps)[2 * i + 1] == ps[i].item
  {
    if i > 0 {
      FlattenAt(ps[1..], i - 1);
    } else if |ps| > 1 {
      FlattenAt(ps[1..], 0);
    }
  }

  // ---- sorted keys make the bytes of a map independent of its iteration order

  predicate Ordered(ps: seq<Pair>) {
    forall i, j :: 0 <= i < j < |ps| ==> KeyLess(ps[i].key, ps[j].key)
  }

  predicate DistinctKeys(ps: seq<Pair>) {
    forall i, j :: 0 <= i < j < |ps| ==> ps[i].key != ps[j].key
  }

  predicate SameElements<T(==)>(a: seq<T>, b: seq<T>) {
    (forall x <- a :: x in b) && (forall x <- b :: x in a)
  }

  lemma {:induction false} InsertOrdered(p: Pair, sorted: seq<Pair>)
    requires Ordered(sorted) && forall q <- sorted :: q.key != p.key
    ensures Ordered(InsertPair(p, sorted))
    ensures SameElements(InsertPair(p, sorted), [p] + sorted)
    decreases |sorted|
  {
    if sorted != [] {
      var h := sorted[0];
      assert sorted == [h] + sorted[1..];
      if KeyLess(p.key, h.key) {
        forall i | 1 <= i < |sorted| ensures KeyLess(p.key, sorted[i].key) {
          KeyTransitive(p.key, h.key, sorted[i].key);
        }
      } else {
        KeyTotal(p.key, h.key);
        assert h in sorted;
        InsertOrdered(p, sorted[1..]);
        var rest := InsertPair(p, sorted[1..]);
        forall i | 0 <= i < |rest| ensures KeyLess(h.key, rest[i].key) {
          assert rest[i] in [p] + sorted[1..];
        }
      }
    }
  }

  lemma {:induction false} SortOrdered(ps: seq<Pair>)
    requires DistinctKeys(ps)
    ensures Ordered(SortPairs(ps)) && SameElements(SortPairs(ps), ps)
  {
    if ps != [] {
      SortOrdered(ps[1..]);
      assert ps == [ps[0]] + ps[1..];
      forall q <- SortPairs(ps[1..]) ensures q.key != ps[0].key {
        assert q in ps[1..];
      }
      InsertOrdered(ps[0], SortPairs(ps[1..]));
    }
  }

  lemma {:induction false} TailWithin(a: seq<Pair>, b: seq<Pair>)
    requires Ordered(a) && a != [] && b != [] && a[0] == b[0] && forall x <- a :: x in b
    ensures forall x <- a[1..] :: x in b[1..]
  {
    forall x <- a[1..] ensures x in b[1..] {
      var i :| 1 <= i < |a| && a[i] == x;
      KeyTotal(a[0].key, a[i].key);
      assert a[i] in b && a[i] != b[0];
    }
  }

  /** Any two orderings of the same pairs by key are equal, whatever the sorting algorithm. */
  lemma {:induction false} OrderedUnique(a: seq<Pair>, b: seq<Pair>)
    requires Ordered(a) && Ordered(b) && SameElements(a, b)
    ensures a == b
    decreases |a|
  {
    assert (a != [] ==> a[0] in b) && (b != [] ==> b[0] in a);
    if a != [] {
      KeyTotal(a[0].key, b[0].key);
      assert a[0] == b[0];
      TailWithin(a, b);
      TailWithin(b, a);
      OrderedUnique(a[1..], b[1..]);
      assert a == [a[0]] + a[1..] && b == [b[0]] + b[1..];
    }
  }

  predicate DistinctEntryKeys(es: seq<Entry>) {
    forall i, j :: 0 <= i < j < |es| ==> es[i].key != es[j].key
  }

  lemma {:induction false} ToPairsAt(es: seq<Entry>, i: nat)
    requires i < |es|
    ensures ToPairs(es)[i] == ToPair(es[i])
  {
    if i > 0 { ToPairsAt(es[1..], i - 1); }
  }

  /** Maps that lower to the same pairs lower to the same item, however they are iterated. */
  lemma {:induction false} MapOrderIrrelevant(a: seq<Entry>, b: seq<Entry>)
    requires DistinctEntryKeys(a) && DistinctEntryKeys(b) && SameElements(ToPairs(a), ToPairs(b))
    ensures ToItem(VMap(a)) == ToItem(VMap(b))
  {
    PairsDistinct(a);
    PairsDistinct(b);
    SortOrdered(ToPairs(a));
    SortOrdered(ToPairs(b));
    OrderedUnique(SortPairs(ToPairs(a)), SortPairs(ToPairs(b)));
  }

  lemma {:induction false} PairsDistinct(es: seq<Entry>)
    requires DistinctEntryKeys(es)
    ensures DistinctKeys(ToPairs(es))
  {
    forall i, j | 0 <= i < j < |es| ensures ToPairs(es)[i].key != ToPairs(es)[j].key {
      ToPairsAt(es, i);
      ToPairsAt(es, j);
    }
  }

}
