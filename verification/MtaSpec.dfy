/**
 What an accumulator that holds a given sequence of leaves must answer: the tree in
 each slot, the verdict on a witness, and the theorems about them.
 */
module MtaSpec {
  import opened Bytes
  import opened BitOps
  import opened Merkle
  import opened MtaIndex

  lemma {:induction false} SlotBlock(leaves: seq<Hash>, i: nat)
    requires Bit(|leaves|, i)
    ensures HasBlock(leaves, i, Shr(|leaves|, i) - 1)
  {
    ShiftSplit(|leaves|, i);
    ShrMono(0, |leaves|, i);
    ShrZero(i);
  }

  /** The tree in slot `i`: there is one exactly when bit `i` of the length is set. */
  function Slot(leaves: seq<Hash>, i: nat): Option<Tree> {
    if Bit(|leaves|, i) then
      SlotBlock(leaves, i);
      Some(BlockTree(leaves, i, Shr(|leaves|, i) - 1))
    else None
  }

  /** The number of slots: the bit length of the number of leaves. */
  function Slots(n: nat): nat {
    if n == 0 then 0 else 1 + Slots(n / 2)
  }

  lemma {:induction false} SlotsTop(n: nat, i: nat)
    ensures i >= Slots(n) <==> Shr(n, i) == 0
    ensures n > 0 ==> Slots(n) > 0 && Bit(n, Slots(n) - 1) && Shr(n, Slots(n) - 1) == 1
    decreases n
  {
    if n > 0 {
      if i > 0 {
        ShrHalf(n, i - 1);
        SlotsTop(n / 2, i - 1);
      } else {
        SlotsTop(n / 2, 0);
      }
      if n / 2 > 0 { ShrHalf(n, Slots(n / 2) - 1); }
    } else {
      ShrZero(i);
    }
  }

  /** The slots, read from the highest to the lowest, cut the leaves into consecutive ranges. */
  lemma {:induction false} SlotRanges(n: nat, i: nat)
    requires Bit(n, i)
    ensures Shl(Shr(n, i) - 1, i) == Shl(Shr(n, i + 1), i + 1)
    ensures Shl(Shr(n, i), i) == Shl(Shr(n, i) - 1, i) + Shl(1, i) <= n
  {
    ShlAdd(Shr(n, i) - 1, 1, i);
    ShiftSplit(n, i);
  }

  function TreeLeaves(t: Tree): seq<Hash> {
    match t
    case Leaf(h) => [h]
    case Branch(l, r) => TreeLeaves(l) + TreeLeaves(r)
  }

  /** The leaves in the slots from the highest down to slot `i`, in this order. */
  function FromTop(leaves: seq<Hash>, i: nat): seq<Hash>
    decreases Slots(|leaves|) - i
  {
    if i >= Slots(|leaves|) then []
    else FromTop(leaves, i + 1) + match Slot(leaves, i) case None => [] case Some(t) => TreeLeaves(t)
  }

  lemma {:induction false} BlockLeaves(leaves: seq<Hash>, i: nat, b: int)
    requires HasBlock(leaves, i, b)
    ensures 0 <= Shl(b, i) <= Shl(b + 1, i) && TreeLeaves(BlockTree(leaves, i, b)) == leaves[Shl(b, i)..Shl(b + 1, i)]
    decreases i
  {
    if i > 0 {
      BlockHashStep(leaves, i, b);
      BlockLeaves(leaves, i - 1, 2 * b);
      BlockLeaves(leaves, i - 1, 2 * b + 1);
    }
  }

  /** How many leaves the slots from `i` on hold. */
  lemma {:induction false} FrontLength(n: nat, i: nat)
    ensures 0 <= Shl(Shr(n, i), i) <= n && (i >= Slots(n) ==> Shl(Shr(n, i), i) == 0)
  {
    ShiftSplit(n, i);
    ShlPositive(i);
    SlotsTop(n, i);
    ShrMono(0, n, i);
    ShrZero(i);
    ShlMono(0, Shr(n, i), i);
  }

  lemma {:induction false} FrontGrows(leaves: seq<Hash>, i: nat)
    requires Bit(|leaves|, i)
    ensures var n := |leaves|; var a, b := Shl(Shr(n, i + 1), i + 1), Shl(Shr(n, i), i);
            0 <= a <= b <= n && Slot(leaves, i).Some? && TreeLeaves(Slot(leaves, i).value) == leaves[a..b]
  {
    SlotBlock(leaves, i);
    SlotRanges(|leaves|, i);
    BlockLeaves(leaves, i, Shr(|leaves|, i) - 1);
  }

  lemma {:induction false} FromTopIsFront(leaves: seq<Hash>, i: nat)
    requires i <= Slots(|leaves|)
    ensures 0 <= Shl(Shr(|leaves|, i), i) <= |leaves| && FromTop(leaves, i) == leaves[..Shl(Shr(|leaves|, i), i)]
    decreases Slots(|leaves|) - i
  {
    FrontLength(|leaves|, i);
    if i < Slots(|leaves|) {
      FromTopIsFront(leaves, i + 1);
      if Bit(|leaves|, i) {
        FrontGrows(leaves, i);
      } else {
        assert Shr(|leaves|, i) == 2 * Shr(|leaves|, i + 1);
      }
    }
  }

  /** The trees of the slots, from the highest to the lowest, hold the appended leaves in order. */
  lemma {:induction false} SlotsHoldLeaves(leaves: seq<Hash>)
    ensures FromTop(leaves, 0) == leaves
  {
    FromTopIsFront(leaves, 0);
  }

  // ---- appending one leaf is adding one to a binary counter

  /** All slots below `h` are occupied. */
  predicate Carry(n: int, h: nat) {
    Shl(Shr(n, h) + 1, h) == n + 1
  }

  lemma {:induction false} CarryNext(n: int, h: nat)
    requires Carry(n, h) && Bit(n, h)
    ensures Carry(n, h + 1)
    ensures Shr(n, h + 1) == Shr(n, h) / 2 && Shr(n, h) == 2 * Shr(n, h + 1) + 1
  {
  }

  lemma {:induction false} LowZero(n: int, h: nat, i: nat)
    requires Low(n, h) == 0 && i < h
    ensures !Bit(n, i)
  {
    ShiftSplit(n, h - 1);
    ShlPositive(h - 1);
    if i < h - 1 { LowZero(n, h - 1, i); }
  }

  lemma {:induction false} ShrSame(n: int, m: int, h: nat, i: nat)
    requires Shr(n, h) == Shr(m, h) && h <= i
    ensures Shr(n, i) == Shr(m, i)
  {
    if h < i { ShrSame(n, m, h, i - 1); }
  }

  lemma {:induction false} CarryClears(leaves: seq<Hash>, x: Hash, h: nat, i: nat)
    requires Carry(|leaves|, h) && i < h
    ensures Slot(leaves + [x], i) == None
  {
    ShlPositive(h);
    ShiftUnique(Shr(|leaves|, h) + 1, 0, h);
    LowZero(|leaves| + 1, h, i);
  }

  lemma {:induction false} CarryLeaves(leaves: seq<Hash>, x: Hash, h: nat, i: nat)
    requires Carry(|leaves|, h) && !Bit(|leaves|, h) && h < i
    ensures Slot(leaves + [x], i) == Slot(leaves, i)
  {
    var n := |leaves|;
    ShlPositive(h);
    ShiftUnique(Shr(n, h) + 1, 0, h);
    assert Shr(n + 1, h + 1) == Shr(n, h + 1);
    ShrSame(n + 1, n, h + 1, i);
    if Bit(n, i) {
      SlotBlock(leaves, i);
      BlockStable(leaves, leaves + [x], i, Shr(n, i) - 1);
    }
  }

  /** Where the carry stops, the lower slots empty out and the higher ones stay. */
  lemma {:induction false} CarryStops(leaves: seq<Hash>, x: Hash, h: nat)
    requires Carry(|leaves|, h) && !Bit(|leaves|, h)
    ensures var newer := leaves + [x];
            && HasBlock(newer, h, Shr(|leaves|, h))
            && Slot(newer, h) == Some(BlockTree(newer, h, Shr(|leaves|, h)))
            && (forall i: nat :: i < h ==> Slot(newer, i) == None)
            && (forall i: nat :: h < i ==> Slot(newer, i) == Slot(leaves, i))
    ensures SlotOf(|leaves|, |leaves| + 1) == h
  {
    var n := |leaves|;
    var newer := leaves + [x];
    ShlPositive(h);
    ShiftUnique(Shr(n, h) + 1, 0, h);
    ShrMono(0, n, h);
    ShrZero(h);
    forall i: nat | i < h ensures Slot(newer, i) == None { CarryClears(leaves, x, h, i); }
    forall i: nat | h < i ensures Slot(newer, i) == Slot(leaves, i) { CarryLeaves(leaves, x, h, i); }
    SlotChar(n, n + 1, h);
  }

  /** Where the carry goes on, the old tree and the new one are the two halves of the next block. */
  lemma {:induction false} CarryMerges(leaves: seq<Hash>, x: Hash, h: nat)
    requires Carry(|leaves|, h) && Bit(|leaves|, h)
    ensures var newer := leaves + [x]; var b := Shr(|leaves|, h);
            && HasBlock(newer, h, b - 1) && HasBlock(newer, h, b) && HasBlock(newer, h + 1, Shr(|leaves|, h + 1))
            && Slot(leaves, h) == Some(BlockTree(newer, h, b - 1))
            && BlockTree(newer, h + 1, Shr(|leaves|, h + 1)) ==
               Branch(BlockTree(newer, h, b - 1), BlockTree(newer, h, b))
            && Covered(newer, |leaves|, h + 1) && Covered(newer, |leaves|, h)
            && Path(newer, |leaves|, h + 1) ==
               Path(newer, |leaves|, h) + [Witness(Left, BlockHash(newer, h, b - 1))]
  {
    var newer := leaves + [x];
    CarryNext(|leaves|, h);
    SlotBlock(leaves, h);
    ShrMono(0, |leaves|, h + 1);
    ShrZero(h + 1);
    BlockHashStep(newer, h + 1, Shr(|leaves|, h + 1));
    BlockStable(leaves, newer, h, Shr(|leaves|, h) - 1);
    CoveredStep(newer, |leaves|, h + 1);
  }

  // ---- verdicts

  datatype Verdict = Accepted | NewerWitness | NoRoot | NotMatched | NewerNode | NotFound | Panic

  /** The verdict on a witness of the accumulator's own age. */
  function Judge(leaves: seq<Hash>, ws: seq<Witness>, h: Hash): Verdict {
    if |ws| >= Slots(|leaves|) then NewerWitness
    else match Slot(leaves, |ws|)
      case None => NoRoot
      case Some(t) => if TreeHash(t) == Fold(ws, h) then Accepted else NotMatched
  }

  /** Completeness: the witness of every leaf is accepted with that leaf's digest. */
  lemma {:induction false} Complete(leaves: seq<Hash>, idx: int)
    requires 0 <= idx < |leaves|
    ensures Judge(leaves, WitnessOf(leaves, idx), leaves[idx]) == Accepted
  {
    var d := SlotOf(idx, |leaves|);
    SlotCovered(leaves, idx);
    SlotChar(idx, |leaves|, d);
    PathComplete(leaves, idx, d);
    SlotsTop(|leaves|, d);
  }

  /** The colliding pair a forged witness gives away, if it gives one away. */
  function Forgery(leaves: seq<Hash>, ws: seq<Witness>, h: Hash): Option<(Bytes, Bytes)> {
    if Bit(|leaves|, |ws|) then
      SlotBlock(leaves, |ws|);
      Divergence(leaves, Shr(|leaves|, |ws|) - 1, ws, h)
    else None
  }

  /**
   Soundness: whatever is accepted is the leaf digest at the index the witness spells
   out, with exactly the witness of that index, or `Forgery` returns a collision.
   */
  lemma {:induction false} Sound(leaves: seq<Hash>, ws: seq<Witness>, h: Hash)
    requires Judge(leaves, ws, h) == Accepted
    ensures match Forgery(leaves, ws, h)
            case Some(pair) => Collides(pair)
            case None =>
              var idx := IndexOf(ws, |leaves|);
              0 <= idx < |leaves| && h == leaves[idx] && ws == WitnessOf(leaves, idx)
  {
    var b := Shr(|leaves|, |ws|) - 1;
    SlotBlock(leaves, |ws|);
    assert BlockHash(leaves, |ws|, b) == Fold(ws, h);
    FoldSound(leaves, b, ws, h);
    if Divergence(leaves, b, ws, h).None? { GenuineIsOwn(leaves, ws, h); }
  }

  /** A witness genuine for the tree of its slot is the leaf's own. */
  lemma {:induction false} GenuineIsOwn(leaves: seq<Hash>, ws: seq<Witness>, h: Hash)
    requires Bit(|leaves|, |ws|) && HasBlock(leaves, |ws|, Shr(|leaves|, |ws|) - 1)
    requires Genuine(leaves, Shr(|leaves|, |ws|) - 1, ws, h)
    ensures var idx := IndexOf(ws, |leaves|);
            0 <= idx < |leaves| && h == leaves[idx] && ws == WitnessOf(leaves, idx)
  {
    var idx := IndexOf(ws, |leaves|);
    SlotChar(idx, |leaves|, |ws|);
  }

  /** Another digest with a leaf's own witness does not match, or there is a collision. */
  lemma {:induction false} WrongLeaf(leaves: seq<Hash>, idx: int, h: Hash)
    requires 0 <= idx < |leaves| && h != leaves[idx]
    ensures var ws := WitnessOf(leaves, idx); var verdict := Judge(leaves, ws, h);
            verdict == NotMatched || (verdict == Accepted && CollidesWith(Forgery(leaves, ws, h)))
  {
    var ws := WitnessOf(leaves, idx);
    SlotOccupied(leaves, idx);
    if Judge(leaves, ws, h) == Accepted {
      Sound(leaves, ws, h);
      IndexOfWitness(leaves, idx);
    }
  }

  predicate CollidesWith(pair: Option<(Bytes, Bytes)>) {
    pair.Some? && Collides(pair.value)
  }

  lemma {:induction false} SlotOccupied(leaves: seq<Hash>, idx: int)
    requires 0 <= idx < |leaves|
    ensures |WitnessOf(leaves, idx)| < Slots(|leaves|) && Slot(leaves, |WitnessOf(leaves, idx)|).Some?
  {
    SlotCovered(leaves, idx);
    SlotChar(idx, |leaves|, SlotOf(idx, |leaves|));
    SlotsTop(|leaves|, SlotOf(idx, |leaves|));
  }

  // ---- witnesses of another age

  /** The witness given for leaf `idx` cut back to the time of `accLength` leaves. */
  function WitnessAt(leaves: seq<Hash>, idx: int, accLength: int): Result<seq<Witness>, Verdict> {
    if idx >= |leaves| || |leaves| == 0 then Err(NotFound)
    else
      var w := WitnessOf(leaves, if idx < 0 then 0 else idx);
      var depth := DepthAt(idx, accLength);
      if depth > |w| then Err(Panic) else Ok(w[..depth])
  }

  /** History: the newer accumulator still gives the witness that the older one gave. */
  lemma {:induction false} WitnessAtHistory(older: seq<Hash>, newer: seq<Hash>, idx: int)
    requires older <= newer && 0 <= idx < |older|
    ensures WitnessAt(newer, idx, |older|) == Ok(WitnessOf(older, idx))
  {
    WitnessHistory(older, newer, idx);
  }

  /** Asking for a leaf at a time when it was not there yet gives an empty witness, and no error. */
  lemma {:induction false} WitnessAtMissing(leaves: seq<Hash>, idx: int, accLength: int)
    requires 0 <= idx < |leaves| && accLength <= idx
    ensures WitnessAt(leaves, idx, accLength) == Ok([])
  {
  }

  /** Such a witness is taken for that of the last leaf of that time, and does not match any other. */
  lemma {:induction false} MissingRefused(leaves: seq<Hash>, idx: int, accLength: int)
    requires 0 <= idx < |leaves| && accLength <= idx
    ensures var last := if accLength <= 0 then 0 else accLength - 1;
            var verdict := JudgeAt(leaves, [], leaves[idx], accLength);
            leaves[idx] != leaves[last] ==>
              verdict == NotMatched || CollidesWith(Forgery(leaves, WitnessOf(leaves, last), leaves[idx]))
  {
    var last := if accLength <= 0 then 0 else accLength - 1;
    if leaves[idx] != leaves[last] {
      WrongLeaf(leaves, last, leaves[idx]);
      var nws := WitnessOf(leaves, last);
      assert [] + nws[0..] == nws;
    }
  }

  /** Asking for a time that has not come yet works exactly while the leaf would still be in the same slot. */
  lemma {:induction false} WitnessAtFuture(leaves: seq<Hash>, idx: int, accLength: int)
    requires 0 <= idx < |leaves| <= accLength
    ensures WitnessAt(leaves, idx, accLength) ==
            if SlotOf(idx, accLength) == SlotOf(idx, |leaves|) then Ok(WitnessOf(leaves, idx)) else Err(Panic)
  {
    SlotMono(idx, |leaves|, accLength);
    var w := WitnessOf(leaves, idx);
    assert w[..|w|] == w;
  }

  /** One leaf, asked for at length two: the cut runs past the end. */
  lemma {:induction false} WitnessAtFuturePanics(h: Hash)
    ensures WitnessAt([h], 0, 2) == Err(Panic)
  {
    assert SlotOf(0, 2) == 1 + SlotOf(0, 1) && SlotOf(0, 1) == 0;
    WitnessAtFuture([h], 0, 2);
  }

  /** The depth the search over an older accumulator's slots stops at: it does not skip empty slots. */
  function OlderDepth(height: int, i: int): nat
    decreases if i < 0 then 0 else i
  {
    if i <= 0 then 0
    else if height < Shl(1, i) then i
    else OlderDepth(height - Shl(1, i), i - 1)
  }

  /** The verdict on a witness taken when the accumulator had `accLength` leaves. */
  function JudgeAt(leaves: seq<Hash>, ws: seq<Witness>, h: Hash, accLength: int): Verdict {
    var n := |leaves|;
    if n == accLength then Judge(leaves, ws, h)
    else
      var height := IndexOf(ws, accLength);
      if height >= n then NewerNode
      else if n > accLength then
        if n == 0 then NotFound
        else
          var nws := WitnessOf(leaves, if height < 0 then 0 else height);
          if |ws| > |nws| then Panic else Judge(leaves, ws + nws[|ws|..], h)
      else
        var depth := OlderDepth(height, Slots(n) - 1);
        if depth > |ws| then Panic else Judge(leaves, ws[..depth], h)
  }

  /** A genuine older witness is accepted by every later accumulator. */
  lemma {:induction false} OlderWitnessAccepted(older: seq<Hash>, newer: seq<Hash>, idx: int)
    requires older <= newer && 0 <= idx < |older|
    ensures JudgeAt(newer, WitnessOf(older, idx), newer[idx], |older|) == Accepted
  {
    var ws := WitnessOf(older, idx);
    IndexOfWitness(older, idx);
    Complete(newer, idx);
    WitnessHistory(older, newer, idx);
    var nws := WitnessOf(newer, idx);
    if |older| < |newer| {
      assert ws + nws[|ws|..] == nws;
    } else {
      assert older == newer;
    }
  }

  /** Every slot above `d` is occupied. */
  predicate FullAbove(n: nat, d: nat) {
    forall i :: d < i < Slots(n) ==> Bit(n, i)
  }

  /** What is left of a leaf's index below slot `i`, at the leaf's own slot, a full one or an empty one. */
  lemma {:induction false} RestFound(idx: int, n: nat, i: nat)
    requires 0 <= idx < n && SlotOf(idx, n) == i
    ensures idx - Shl(Shr(n, i + 1), i + 1) < Shl(1, i)
  {
    SlotChar(idx, n, i);
    ShiftSplit(idx, i);
    SlotRanges(n, i);
  }

  lemma {:induction false} RestFull(idx: int, n: nat, i: nat)
    requires 0 <= idx < n && SlotOf(idx, n) < i && Bit(n, i)
    ensures idx - Shl(Shr(n, i + 1), i + 1) - Shl(1, i) == idx - Shl(Shr(n, i), i) >= 0
  {
    SlotRanges(n, i);
    NotYet(idx, n, i);
  }

  lemma {:induction false} RestEmpty(idx: int, n: nat, i: nat)
    requires 0 <= idx < n && SlotOf(idx, n) < i && !Bit(n, i)
    ensures idx - Shl(Shr(n, i + 1), i + 1) < Shl(1, i)
  {
    SlotBehind(idx, n, i);
    ShiftSplit(idx, i);
    assert Shr(n, i) == 2 * Shr(n, i + 1);
  }

  /**
   The search for a leaf's depth finds it exactly when no slot above it is empty;
   otherwise it stops at an empty slot.
   */
  lemma {:induction false} OlderDepthFinds(idx: int, n: nat, i: int, rest: int)
    requires 0 <= idx < n && SlotOf(idx, n) <= i < Slots(n)
    requires rest == idx - Shl(Shr(n, i + 1), i + 1) >= 0
    requires forall j :: i < j < Slots(n) ==> Bit(n, j)
    ensures FullAbove(n, SlotOf(idx, n)) ==> OlderDepth(rest, i) == SlotOf(idx, n)
    ensures !FullAbove(n, SlotOf(idx, n)) ==>
              SlotOf(idx, n) < OlderDepth(rest, i) < Slots(n) && !Bit(n, OlderDepth(rest, i))
    decreases i
  {
    if i == SlotOf(idx, n) {
      RestFound(idx, n, i);
    } else if Bit(n, i) {
      RestFull(idx, n, i);
      OlderDepthFinds(idx, n, i - 1, rest - Shl(1, i));
    } else {
      RestEmpty(idx, n, i);
    }
  }

  /** A leaf in a lower slot lies behind the tree of slot `i`. */
  lemma {:induction false} NotYet(idx: int, n: nat, i: nat)
    requires 0 <= idx < n && SlotOf(idx, n) < i && Bit(n, i)
    ensures idx >= Shl(Shr(n, i), i)
  {
    SlotBehind(idx, n, i);
    ShiftSplit(idx, i);
    ShlMono(Shr(n, i), Shr(idx, i), i);
  }

  lemma {:induction false} SlotBehind(idx: int, n: nat, i: nat)
    requires 0 <= idx < n && SlotOf(idx, n) < i
    ensures Shr(idx, i) == Shr(n, i)
    decreases i
  {
    var d := SlotOf(idx, n);
    SlotChar(idx, n, d);
    if i == d + 1 {
      assert Shr(idx, d) / 2 == Shr(n, d) / 2;
    } else {
      SlotBehind(idx, n, i - 1);
    }
  }

  lemma {:induction false} OlderDepthVerdict(idx: int, n: nat)
    requires 0 <= idx < n
    ensures var d := SlotOf(idx, n); var depth := OlderDepth(idx, Slots(n) - 1);
            if FullAbove(n, d) then depth == d else d < depth < Slots(n) && !Bit(n, depth)
  {
    var d := SlotOf(idx, n);
    SlotChar(idx, n, d);
    SlotsTop(n, d);
    SlotsTop(n, Slots(n));
    ShlPositive(Slots(n));
    OlderDepthFinds(idx, n, Slots(n) - 1, idx);
  }

  lemma {:induction false} CutAccepted(older: seq<Hash>, newer: seq<Hash>, idx: int)
    requires older < newer && 0 <= idx < |older|
    ensures var d := SlotOf(idx, |older|);
            d <= |WitnessOf(newer, idx)| && Judge(older, WitnessOf(newer, idx)[..d], newer[idx]) == Accepted
  {
    WitnessHistory(older, newer, idx);
    Complete(older, idx);
    assert WitnessOf(newer, idx)[..SlotOf(idx, |older|)] == WitnessOf(older, idx);
  }

  /** The search for the depth of a newer witness, and what is made of the witness cut there. */
  lemma {:induction false} NewerCut(older: seq<Hash>, newer: seq<Hash>, idx: int)
    requires older < newer && 0 <= idx < |newer|
    ensures var ws := WitnessOf(newer, idx); var depth := OlderDepth(idx, Slots(|older|) - 1);
            JudgeAt(older, ws, newer[idx], |newer|) ==
            if idx >= |older| then NewerNode
            else if depth > SlotOf(idx, |newer|) then Panic else Judge(older, ws[..depth], newer[idx])
  {
    IndexOfWitness(newer, idx);
    assert |WitnessOf(newer, idx)| == SlotOf(idx, |newer|);
  }

  /**
   A genuine newer witness is accepted by an older accumulator exactly when every slot
   above the leaf's own tree is occupied there. Otherwise it is refused, or the witness is
   cut beyond its end. A leaf the accumulator does not have yet is always refused.
   */
  lemma {:induction false} NewerWitnessVerdict(older: seq<Hash>, newer: seq<Hash>, idx: int)
    requires older < newer && 0 <= idx < |newer|
    ensures var verdict := JudgeAt(older, WitnessOf(newer, idx), newer[idx], |newer|);
            if idx >= |older| then verdict == NewerNode
            else if FullAbove(|older|, SlotOf(idx, |older|)) then verdict == Accepted
            else verdict == if OlderDepth(idx, Slots(|older|) - 1) <= SlotOf(idx, |newer|) then NoRoot else Panic
  {
    NewerCut(older, newer, idx);
    if idx < |older| {
      var depth := OlderDepth(idx, Slots(|older|) - 1);
      OlderDepthVerdict(idx, |older|);
      if FullAbove(|older|, SlotOf(idx, |older|)) {
        CutAccepted(older, newer, idx);
      } else if depth <= SlotOf(idx, |newer|) {
        assert Judge(older, WitnessOf(newer, idx)[..depth], newer[idx]) == NoRoot;
      }
    }
  }

  /** A leaf that an older accumulator has never sits in an occupied slot of it, unless in its own. */
  lemma {:induction false} SlotMoved(idx: int, m: nat, n: nat)
    requires 0 <= idx < m <= n
    ensures Bit(m, SlotOf(idx, n)) <==> SlotOf(idx, m) == SlotOf(idx, n)
  {
    SlotMono(idx, m, n);
    SlotChar(idx, n, SlotOf(idx, n));
    SlotChar(idx, m, SlotOf(idx, m));
    if SlotOf(idx, m) < SlotOf(idx, n) {
      SlotBehind(idx, m, SlotOf(idx, n));
      SlotEmpty(idx, m, n, SlotOf(idx, n));
    }
  }

  lemma {:induction false} SlotEmpty(idx: int, m: int, n: int, d: nat)
    requires InSlot(idx, n, d) && Shr(idx, d) == Shr(m, d)
    ensures !Bit(m, d)
  {
  }

  /**
   A genuine newer witness taken for one of the older accumulator's own age: accepted
   exactly if the leaf is still in the same slot, and otherwise refused.
   */
  lemma {:induction false} NewerWitnessAsOwn(older: seq<Hash>, newer: seq<Hash>, idx: int)
    requires older <= newer && 0 <= idx < |older|
    ensures var d := SlotOf(idx, |newer|);
            Judge(older, WitnessOf(newer, idx), newer[idx]) ==
            if d == SlotOf(idx, |older|) then Accepted else if d >= Slots(|older|) then NewerWitness else NoRoot
  {
    var d := SlotOf(idx, |newer|);
    WitnessHistory(older, newer, idx);
    SlotMoved(idx, |older|, |newer|);
    if d == SlotOf(idx, |older|) {
      assert WitnessOf(newer, idx)[..d] == WitnessOf(newer, idx);
      Complete(older, idx);
    }
  }

  /** Genuine witnesses are refused: leaf 4 of five, with the witness taken at six leaves. */
  lemma {:induction false} NewerWitnessRefused(leaves: seq<Hash>)
    requires |leaves| == 6
    ensures JudgeAt(leaves[..5], WitnessOf(leaves, 4), leaves[4], 6) == NoRoot
  {
    FiveOfSix();
    NewerWitnessVerdict(leaves[..5], leaves, 4);
  }

  lemma {:induction false} FiveOfSix()
    ensures SlotOf(4, 5) == 0 && Slots(5) == 3 && !Bit(5, 1) && OlderDepth(4, 2) == 1 && SlotOf(4, 6) == 1
  {
    assert Shr(5, 1) == Shr(5, 0) / 2 == 2;
    assert Shl(1, 2) == 4 && OlderDepth(4, 2) == OlderDepth(0, 1) == 1;
    assert SlotOf(4, 6) == 1 + SlotOf(2, 3) == 1;
  }

  /** And the cut can run past the end: leaf 8 of nine, with the witness taken at ten leaves. */
  lemma {:induction false} NewerWitnessPanics(leaves: seq<Hash>)
    requires |leaves| == 10
    ensures JudgeAt(leaves[..9], WitnessOf(leaves, 8), leaves[8], 10) == Panic
  {
    NineOfTen();
    NewerWitnessVerdict(leaves[..9], leaves, 8);
  }

  lemma {:induction false} NineOfTen()
    ensures SlotOf(8, 9) == 0 && Slots(9) == 4 && !Bit(9, 1) && OlderDepth(8, 3) == 2 && SlotOf(8, 10) == 1
  {
    assert Shr(9, 1) == Shr(9, 0) / 2 == 4;
    assert Shl(1, 3) == 8 && Shl(1, 2) == 4 && OlderDepth(8, 3) == OlderDepth(0, 2) == 2;
    assert SlotOf(8, 10) == 1 + SlotOf(4, 5) == 1;
  }

  /** Reading the index off a witness with its upper part filled in from the accumulator. */
  lemma {:induction false} FilledIndex(leaves: seq<Hash>, ws: seq<Witness>, height: int)
    requires 0 <= height < |leaves| && |ws| <= SlotOf(height, |leaves|)
    ensures IndexOf(ws + WitnessOf(leaves, height)[|ws|..], |leaves|) == height - Low(height, |ws|) + Position(ws)
  {
    var d := SlotOf(height, |leaves|);
    SlotCovered(leaves, height);
    FilledPosition(leaves, ws, height, d);
    ShiftSplit(height, d);
    var nws := WitnessOf(leaves, height);
    assert |ws + nws[|ws|..]| == d;
  }

  lemma {:induction false} FilledPosition(leaves: seq<Hash>, ws: seq<Witness>, height: int, d: nat)
    requires Covered(leaves, height, d) && |ws| <= d
    ensures Position(ws + Path(leaves, height, d)[|ws|..]) == Position(ws) + Low(height, d) - Low(height, |ws|)
    decreases d
  {
    var nws := Path(leaves, height, d);
    var all := ws + nws[|ws|..];
    if |ws| == d {
      assert all == ws;
    } else {
      CoveredStep(leaves, height, d);
      FilledPosition(leaves, ws, height, d - 1);
      assert all[..d - 1] == ws + Path(leaves, height, d - 1)[|ws|..];
      PathDirection(leaves, height, d, d - 1);
    }
  }

  /** The colliding pair behind a forged witness of another age. */
  function ForgeryAt(leaves: seq<Hash>, ws: seq<Witness>, h: Hash, accLength: int): Option<(Bytes, Bytes)>
    requires JudgeAt(leaves, ws, h, accLength) == Accepted
  {
    Forgery(leaves, Checked(leaves, ws, h, accLength), h)
  }

  /** The witness that is finally compared with a root. */
  function Checked(leaves: seq<Hash>, ws: seq<Witness>, h: Hash, accLength: int): (checked: seq<Witness>)
    requires JudgeAt(leaves, ws, h, accLength) == Accepted
    ensures Judge(leaves, checked, h) == Accepted
  {
    var height := IndexOf(ws, accLength);
    if |leaves| == accLength then ws
    else if |leaves| > accLength then ws + WitnessOf(leaves, if height < 0 then 0 else height)[|ws|..]
    else ws[..OlderDepth(height, Slots(|leaves|) - 1)]
  }

  /** `h` is leaf `idx`, and up to level `d` the witness is that leaf's own. */
  predicate Vouches(leaves: seq<Hash>, ws: seq<Witness>, h: Hash, idx: int, d: nat) {
    && 0 <= idx < |leaves| && h == leaves[idx]
    && d <= |ws| && d <= SlotOf(idx, |leaves|) && ws[..d] == WitnessOf(leaves, idx)[..d]
  }

  lemma {:induction false} IndexLow(ws: seq<Witness>, accLength: int)
    ensures Low(IndexOf(ws, accLength), |ws|) == Position(ws)
  {
    PositionBound(ws);
    ShiftUnique(Shr(accLength, |ws|) - 1, Position(ws), |ws|);
  }

  lemma {:induction false} LowOfZero(i: nat)
    ensures Low(0, i) == 0
  {
    ShiftSplit(0, i);
    ShrZero(i);
    ShlPositive(i);
  }

  /** The leaf at which an accepted older witness is filled up, and what is then compared. */
  lemma {:induction false} OlderChecked(leaves: seq<Hash>, ws: seq<Witness>, h: Hash, accLength: int)
    requires accLength < |leaves| && JudgeAt(leaves, ws, h, accLength) == Accepted
    ensures var idx := IndexOf(ws, accLength); var height := if idx < 0 then 0 else idx;
            && height < |leaves| && |ws| <= SlotOf(height, |leaves|)
            && Checked(leaves, ws, h, accLength) == ws + WitnessOf(leaves, height)[|ws|..]
  {
  }

  lemma {:induction false} FilledHeight(ws: seq<Witness>, accLength: int)
    ensures var idx := IndexOf(ws, accLength); var height := if idx < 0 then 0 else idx;
            height - Low(height, |ws|) + Position(ws) == if idx >= 0 then idx else Position(ws)
  {
    IndexLow(ws, accLength);
    LowOfZero(|ws|);
  }

  /** An older witness: the leaf it points at, or, if it reads as a negative index, the one its directions give. */
  lemma {:induction false} SoundOlder(leaves: seq<Hash>, ws: seq<Witness>, h: Hash, accLength: int)
    requires accLength < |leaves| && JudgeAt(leaves, ws, h, accLength) == Accepted
    requires ForgeryAt(leaves, ws, h, accLength).None?
    ensures var idx := IndexOf(ws, accLength);
            Vouches(leaves, ws, h, if idx >= 0 then idx else Position(ws), |ws|)
  {
    OlderChecked(leaves, ws, h, accLength);
    FilledHeight(ws, accLength);
    SoundFilled(leaves, ws, h, if IndexOf(ws, accLength) < 0 then 0 else IndexOf(ws, accLength));
  }

  lemma {:induction false} SoundFilled(leaves: seq<Hash>, ws: seq<Witness>, h: Hash, height: int)
    requires 0 <= height < |leaves| && |ws| <= SlotOf(height, |leaves|)
    requires var checked := ws + WitnessOf(leaves, height)[|ws|..];
             Judge(leaves, checked, h) == Accepted && Forgery(leaves, checked, h).None?
    ensures Vouches(leaves, ws, h, height - Low(height, |ws|) + Position(ws), |ws|)
  {
    var checked := ws + WitnessOf(leaves, height)[|ws|..];
    Sound(leaves, checked, h);
    FilledIndex(leaves, ws, height);
    assert checked[..|ws|] == ws && ws[..|ws|] == ws;
  }

  lemma {:induction false} LowCut(ws: seq<Witness>, idx: int, d: nat)
    requires d <= |ws| && Low(idx, |ws|) == Position(ws)
    ensures Low(idx, d) == Position(ws[..d])
    decreases |ws|
  {
    if d == |ws| {
      assert ws[..d] == ws;
    } else {
      var n := |ws| - 1;
      LastLow(ws, idx);
      LowCut(ws[..n], idx, d);
      assert ws[..n][..d] == ws[..d];
    }
  }

  lemma {:induction false} LastLow(ws: seq<Witness>, idx: int)
    requires ws != [] && Low(idx, |ws|) == Position(ws)
    ensures Low(idx, |ws| - 1) == Position(ws[..|ws| - 1])
  {
    ShiftSplit(idx, |ws| - 1);
    PositionBound(ws[..|ws| - 1]);
    ShlPositive(|ws| - 1);
  }

  /** Cut at the slot of the leaf it points at, a witness still points at it. */
  lemma {:induction false} CutIndex(ws: seq<Witness>, idx: int, n: nat)
    requires 0 <= idx < n && SlotOf(idx, n) <= |ws| && Low(idx, |ws|) == Position(ws)
    ensures IndexOf(ws[..SlotOf(idx, n)], n) == idx
  {
    var d := SlotOf(idx, n);
    LowCut(ws, idx, d);
    SlotChar(idx, n, d);
    ShiftSplit(idx, d);
  }

  lemma {:induction false} SoundCut(leaves: seq<Hash>, ws: seq<Witness>, h: Hash, d: nat)
    requires d <= |ws| && Judge(leaves, ws[..d], h) == Accepted && Forgery(leaves, ws[..d], h).None?
    ensures Vouches(leaves, ws, h, IndexOf(ws[..d], |leaves|), d)
  {
    Sound(leaves, ws[..d], h);
    var own := WitnessOf(leaves, IndexOf(ws[..d], |leaves|));
    assert own[..d] == own;
  }

  /** A newer witness: acceptance means that the search found the leaf's own slot. */
  lemma {:induction false} SoundNewer(leaves: seq<Hash>, ws: seq<Witness>, h: Hash, accLength: int)
    requires |leaves| < accLength && JudgeAt(leaves, ws, h, accLength) == Accepted
    requires ForgeryAt(leaves, ws, h, accLength).None? && 0 <= IndexOf(ws, accLength)
    ensures var idx := IndexOf(ws, accLength);
            && idx < |leaves| && FullAbove(|leaves|, SlotOf(idx, |leaves|))
            && Vouches(leaves, ws, h, idx, SlotOf(idx, |leaves|))
  {
    var idx, n := IndexOf(ws, accLength), |leaves|;
    OlderDepthVerdict(idx, n);
    var depth := OlderDepth(idx, Slots(n) - 1);
    assert Judge(leaves, ws[..depth], h) == Accepted;
    assert depth == SlotOf(idx, n);
    IndexLow(ws, accLength);
    CutIndex(ws, idx, n);
    SoundCut(leaves, ws, h, depth);
  }

  /** A newer witness that reads as a negative index is cut at the top slot. */
  lemma {:induction false} SoundBelow(leaves: seq<Hash>, ws: seq<Witness>, h: Hash, accLength: int)
    requires |leaves| < accLength && JudgeAt(leaves, ws, h, accLength) == Accepted
    requires ForgeryAt(leaves, ws, h, accLength).None? && IndexOf(ws, accLength) < 0
    ensures var top := Slots(|leaves|) - 1;
            0 <= top <= |ws| && Vouches(leaves, ws, h, Position(ws[..top]), top)
  {
    var top := Slots(|leaves|) - 1;
    SlotsTop(|leaves|, 0);
    BelowDepth(IndexOf(ws, accLength), top);
    assert top >= 0;
    TopIndex(ws[..top], |leaves|);
    SoundCut(leaves, ws, h, top);
  }

  lemma {:induction false} BelowDepth(height: int, i: int)
    requires height < 0
    ensures OlderDepth(height, i) == if i < 0 then 0 else i
  {
    if i > 0 { ShlPositive(i); }
  }

  lemma {:induction false} TopIndex(ws: seq<Witness>, n: nat)
    requires n > 0 && |ws| == Slots(n) - 1
    ensures IndexOf(ws, n) == Position(ws)
  {
    SlotsTop(n, 0);
    ShlPositive(|ws|);
  }

  /**
   Cross-age soundness: an accepted digest is the very leaf the witness points at, with
   that leaf's own siblings as far as the two trees agree, or `ForgeryAt` returns a
   collision. For a newer witness every slot above the leaf is then occupied.
   */
  lemma {:induction false} SoundAt(leaves: seq<Hash>, ws: seq<Witness>, h: Hash, accLength: int)
    requires JudgeAt(leaves, ws, h, accLength) == Accepted
    ensures match ForgeryAt(leaves, ws, h, accLength)
            case Some(pair) => Collides(pair)
            case None =>
              var idx, n := IndexOf(ws, accLength), |leaves|;
              if accLength <= n then Vouches(leaves, ws, h, if idx >= 0 then idx else Position(ws), |ws|)
              else if idx >= 0 then
                idx < n && FullAbove(n, SlotOf(idx, n)) && Vouches(leaves, ws, h, idx, SlotOf(idx, n))
              else
                0 < Slots(n) <= |ws| + 1 && Vouches(leaves, ws, h, Position(ws[..Slots(n) - 1]), Slots(n) - 1)
  {
    Sound(leaves, Checked(leaves, ws, h, accLength), h);
    if ForgeryAt(leaves, ws, h, accLength).None? {
      if accLength < |leaves| {
        SoundOlder(leaves, ws, h, accLength);
      } else if accLength == |leaves| {
        assert ws[..|ws|] == ws;
      } else if IndexOf(ws, accLength) >= 0 {
        SoundNewer(leaves, ws, h, accLength);
      } else {
        SoundBelow(leaves, ws, h, accLength);
      }
    }
  }

}
