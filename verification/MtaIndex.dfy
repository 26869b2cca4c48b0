/**
 Index arithmetic of the accumulator: which slot (root) holds a leaf, and how a
 witness, an index and a length determine one another.
 */
module MtaIndex {
  import opened Bytes
  import opened BitOps
  import opened Merkle

  /** The slot whose tree holds leaf `idx` when there are `n` leaves. */
  function SlotOf(idx: int, n: int): nat
    requires 0 <= idx < n
    decreases n
  {
    if n % 2 == 1 && idx == n - 1 then 0 else 1 + SlotOf(idx / 2, n / 2)
  }

  /** Leaf `idx` lies in the tree of slot `d`: the slot is occupied and `idx` is in its block. */
  predicate InSlot(idx: int, n: int, d: nat) {
    Bit(n, d) && Shr(idx, d) == Shr(n, d) - 1
  }

  lemma {:induction false} InSlotHalf(idx: int, n: int, d: nat)
    requires d > 0
    ensures InSlot(idx, n, d) <==> InSlot(idx / 2, n / 2, d - 1)
  {
    ShrHalf(idx, d - 1);
    ShrHalf(n, d - 1);
  }

  /** `SlotOf` is the one slot whose tree holds the leaf. */
  lemma {:induction false} SlotChar(idx: int, n: int, d: nat)
    requires 0 <= idx < n
    ensures InSlot(idx, n, d) <==> d == SlotOf(idx, n)
    decreases n
  {
    if d > 0 {
      InSlotHalf(idx, n, d);
      if n % 2 == 1 && idx == n - 1 {
        assert idx / 2 == n / 2;
      } else {
        SlotChar(idx / 2, n / 2, d - 1);
      }
    }
  }

  /** A leaf's slot never moves down as leaves are appended. */
  lemma {:induction false} SlotMono(idx: int, m: int, n: int)
    requires 0 <= idx < m <= n
    ensures SlotOf(idx, m) <= SlotOf(idx, n)
    decreases m
  {
    if !(m % 2 == 1 && idx == m - 1) && !(n % 2 == 1 && idx == n - 1) {
      SlotMono(idx / 2, m / 2, n / 2);
    }
  }

  lemma {:induction false} SlotCovered(leaves: seq<Hash>, idx: int)
    requires 0 <= idx < |leaves|
    ensures Covered(leaves, idx, SlotOf(idx, |leaves|))
    ensures Shr(idx, SlotOf(idx, |leaves|)) == Shr(|leaves|, SlotOf(idx, |leaves|)) - 1
  {
    var d := SlotOf(idx, |leaves|);
    SlotChar(idx, |leaves|, d);
    ShiftSplit(|leaves|, d);
    ShrMono(0, idx, d);
    ShrZero(d);
  }

  /** The witness that an accumulator holding `leaves` gives for leaf `idx`. */
  function WitnessOf(leaves: seq<Hash>, idx: int): (ws: seq<Witness>)
    requires 0 <= idx < |leaves|
  {
    SlotCovered(leaves, idx);
    Path(leaves, idx, SlotOf(idx, |leaves|))
  }

  /** History: the older witness is the newer one cut at the older slot. */
  lemma {:induction false} WitnessHistory(older: seq<Hash>, newer: seq<Hash>, idx: int)
    requires older <= newer && 0 <= idx < |older|
    ensures SlotOf(idx, |older|) <= SlotOf(idx, |newer|) == |WitnessOf(newer, idx)|
    ensures WitnessOf(newer, idx)[..SlotOf(idx, |older|)] == WitnessOf(older, idx)
  {
    var d := SlotOf(idx, |older|);
    SlotMono(idx, |older|, |newer|);
    SlotCovered(older, idx);
    SlotCovered(newer, idx);
    PathStable(older, newer, idx, d);
    PathPrefix(newer, idx, SlotOf(idx, |newer|), d);
  }

  lemma {:induction false} PathPosition(leaves: seq<Hash>, idx: int, d: nat)
    requires Covered(leaves, idx, d)
    ensures Position(Path(leaves, idx, d)) == Low(idx, d)
    decreases d
  {
    if d > 0 {
      CoveredStep(leaves, idx, d);
      PathPosition(leaves, idx, d - 1);
      var ws := Path(leaves, idx, d);
      assert ws[..d - 1] == Path(leaves, idx, d - 1);
    }
  }

  /** The index that a witness of this length and these directions has among `accLength` leaves. */
  function IndexOf(ws: seq<Witness>, accLength: int): int {
    Shl(Shr(accLength, |ws|) - 1, |ws|) + Position(ws)
  }

  /** `1 << i` or-ed into a number. */
  function SetBit(n: int, i: nat): int {
    if Bit(n, i) then n else n + Shl(1, i)
  }

  function Rights(ws: seq<Witness>): int {
    if ws == [] then 0
    else Rights(ws[..|ws| - 1]) + if ws[|ws| - 1].direction == Right then Shl(1, |ws| - 1) else 0
  }

  lemma {:induction false} RightsAndLefts(ws: seq<Witness>)
    ensures Rights(ws) + Position(ws) == Shl(1, |ws|) - 1
    ensures 0 <= Rights(ws) < Shl(1, |ws|)
  {
    PositionBound(ws);
    if ws != [] {
      RightsAndLefts(ws[..|ws| - 1]);
      ShlDouble(1, |ws|);
    }
  }

  method GetHeightFromWitness(ws: seq<Witness>, accLength: int) returns (height: int)
    ensures height == IndexOf(ws, accLength)
  {
    var idx := 0;
    var offset := 0;
    var depth := |ws|;
    assert ws[..0] == [];
    for i := 0 to depth
      invariant idx == Rights(ws[..i])
      invariant offset == Low(accLength, i)
    {
      assert ws[..i + 1][..i] == ws[..i];
      RightsAndLefts(ws[..i]);
      if ws[i].direction == Right {
        ShlPositive(i);
        ShiftUnique(0, idx, i);
        idx := SetBit(idx, i);
      }
      if Bit(accLength, i) {
        offset := offset + Shl(1, i);
      }
    }
    assert ws[..depth] == ws;
    RightsAndLefts(ws);
    ShiftSplit(accLength, depth);
    ShlAdd(Shr(accLength, depth) - 1, 1, depth);
    idx := idx + offset;
    height := accLength - 1 - idx;
  }

  /** A genuine witness knows its own index. */
  lemma {:induction false} IndexOfWitness(leaves: seq<Hash>, idx: int)
    requires 0 <= idx < |leaves|
    ensures IndexOf(WitnessOf(leaves, idx), |leaves|) == idx
  {
    var d := SlotOf(idx, |leaves|);
    SlotCovered(leaves, idx);
    PathPosition(leaves, idx, d);
    ShiftSplit(idx, d);
  }

  /** The depth of leaf `height` among `accLength` leaves: its slot; below the range that of leaf 0, above it 0. */
  function DepthAt(height: int, accLength: int): nat {
    if accLength <= 0 || accLength <= height then 0
    else SlotOf(if height < 0 then 0 else height, accLength)
  }

  method GetDepthByHeightAndAccLength(height: int, accLength: int) returns (depth: nat)
    ensures depth == DepthAt(height, accLength)
  {
    depth := 0;
    var v := accLength;
    while 0 < v
      invariant v == Shr(accLength, depth)
      invariant accLength <= 0 ==> depth == 0
      decreases v
    {
      v := v / 2;
      depth := depth + 1;
    }
    var rest := height;
    ShiftSplit(accLength, depth);
    if accLength > 0 { ShrMono(0, accLength, depth); ShrZero(depth); ShlPositive(depth); }
    while depth > 0
      invariant accLength <= 0 ==> depth == 0
      invariant accLength > 0 && height >= 0 ==> rest == height - Shl(Shr(accLength, depth), depth) >= 0
      invariant accLength > 0 && height < 0 ==> rest == height && Shr(accLength, depth) == 0
    {
      depth := depth - 1;
      ghost var s := Shr(accLength, depth);
      ShlPositive(depth);
      if Bit(accLength, depth) {
        ShlAdd(s - 1, 1, depth);
        if rest < Shl(1, depth) {
          DepthFound(height, accLength, depth);
          return;
        }
        rest := rest - Shl(1, depth);
      }
    }
  }

  lemma {:induction false} DepthFound(height: int, accLength: int, depth: nat)
    requires accLength > 0 && Bit(accLength, depth)
    requires height >= 0 ==> 0 <= height - Shl(Shr(accLength, depth) - 1, depth) < Shl(1, depth)
    requires height < 0 ==> Shr(accLength, depth) == 1
    ensures height < accLength
    ensures depth == SlotOf(if height < 0 then 0 else height, accLength)
  {
    var s := Shr(accLength, depth);
    var start := if height < 0 then 0 else height;
    ShlAdd(s - 1, 1, depth);
    ShiftSplit(accLength, depth);
    ShlPositive(depth);
    ShiftUnique(s - 1, start - Shl(s - 1, depth), depth);
    SlotChar(start, accLength, depth);
  }

  method WitnessesToHashes(w: seq<Witness>) returns (hs: seq<Hash>)
    ensures |hs| == |w| && forall i :: 0 <= i < |w| ==> hs[i] == w[i].hashValue
  {
    var buf := new Hash[|w|](_ => seq(32, _ => 0));
    for i := 0 to |w|
      invariant forall k :: 0 <= k < i ==> buf[k] == w[k].hashValue
    {
      buf[i] := w[i].hashValue;
    }
    hs := buf[..];
  }

  /** Go's division by two, which truncates toward zero. */
  function HalfToZero(n: int): int {
    if n >= 0 then n / 2 else -((-n) / 2)
  }

  method HashesToWitness(hvs: seq<Hash>, idx: int) returns (w: seq<Witness>)
    ensures |w| == |hvs| && forall i :: 0 <= i < |w| ==> w[i].hashValue == hvs[i]
    ensures forall i :: 0 <= i < |w| ==> (w[i].direction == Left <==> Bit(if idx < 0 then -idx else idx, i))
  {
    ghost var size := if idx < 0 then -idx else idx;
    var buf := new Witness[|hvs|](_ => Witness(Left, seq(32, _ => 0)));
    var rest := idx;
    for i := 0 to |hvs|
      invariant rest == if idx < 0 then -Shr(size, i) else Shr(size, i)
      invariant Shr(size, i) >= 0
      invariant forall k :: 0 <= k < i ==> buf[k].hashValue == hvs[k]
      invariant forall k :: 0 <= k < i ==> (buf[k].direction == Left <==> Bit(size, k))
    {
      buf[i] := Witness(if rest % 2 == 0 then Right else Left, hvs[i]);
      rest := HalfToZero(rest);
    }
    w := buf[..];
  }

  lemma {:induction false} PathDirection(leaves: seq<Hash>, idx: int, d: nat, i: nat)
    requires Covered(leaves, idx, d) && i < d
    ensures Path(leaves, idx, d)[i].direction == Left <==> Bit(idx, i)
    decreases d
  {
    CoveredStep(leaves, idx, d);
    if i < d - 1 { PathDirection(leaves, idx, d - 1, i); }
  }

  /** Dropping the directions of a genuine witness loses nothing: the index restores them. */
  method HashesRoundTrip(leaves: seq<Hash>, idx: int) returns (w: seq<Witness>)
    requires 0 <= idx < |leaves|
    ensures w == WitnessOf(leaves, idx)
  {
    var ws := WitnessOf(leaves, idx);
    var hs := WitnessesToHashes(ws);
    w := HashesToWitness(hs, idx);
    SlotCovered(leaves, idx);
    forall i | 0 <= i < |w| ensures w[i] == ws[i] {
      PathDirection(leaves, idx, |ws|, i);
    }
  }

}
