/**
 The Merkle tree accumulator: a binary counter of perfect trees, one per set bit of
 the number of appended leaves.
 */
module MtaAccumulator {
  import opened Bytes
  import opened BitOps
  import opened Merkle
  import opened MtaIndex
  import opened MtaNode
  import opened MtaSpec

  class Accumulator {
    const bucket: Bucket
    var roots: seq<Node?>
    var length: int
    ghost var leaves: seq<Hash>   // everything appended so far, oldest first
    ghost var added: set<Bytes>     // the data of all leaves that came with it
    ghost var unsaved: set<Bytes>   // those of it that were never stored
    ghost var Repr: set<Node>

    /** Every root is a node of its own. */
    ghost predicate Linked()
      reads this, Repr, set i | 0 <= i < |roots| :: roots[i]
    {
      && (forall i :: 0 <= i < |roots| && roots[i] != null ==>
            && roots[i] in Repr && roots[i].Repr <= Repr && roots[i].Valid()
            && roots[i].bucket == bucket)
      && forall i, j :: 0 <= i < j < |roots| && roots[i] != null && roots[j] != null ==>
           roots[i].Repr !! roots[j].Repr
    }

    /** And what it has not in memory is in the bucket. */
    ghost predicate Owned()
      reads this, Repr, bucket, set i | 0 <= i < |roots| :: roots[i]
    {
      Linked() && forall i :: 0 <= i < |roots| && roots[i] != null ==> Backed(bucket.data, roots[i].shape)
    }

    ghost predicate Valid()
      reads this, Repr, bucket, set i | 0 <= i < |roots| :: roots[i]
    {
      && Owned()
      && length == |leaves|
      && |roots| == Slots(|leaves|)
      && forall i :: 0 <= i < |roots| ==> RootTree(roots[i]) == Slot(leaves, i)
    }

    /** Exactly the slots of the set bits of the length are occupied. */
    ghost predicate Counted()
      reads this
    {
      && length >= 0 && |roots| == Slots(length)
      && forall i :: 0 <= i < |roots| ==> (roots[i] != null <==> Bit(length, i))
    }

    constructor (bucket: Bucket)
      ensures Valid() && Tracked() && fresh(Repr) && this.bucket == bucket && leaves == [] && added == {} == unsaved
    {
      this.bucket := bucket;
      roots, length := [], 0;
      leaves, added, unsaved, Repr := [], {}, {}, {};
    }

    /** The state halfway through an append: slots below `h` are cleared, `n` carries their leaves and the new one. */
    ghost predicate Carrying(h: nat, n: Node, x: Hash)
      reads this, Repr, bucket, n, n.Repr, set i | 0 <= i < |roots| :: roots[i]
    {
      && Owned()
      && length == |leaves| && |roots| == Slots(|leaves|) && h <= |roots|
      && Carry(length, h)
      && (forall i :: 0 <= i < h ==> roots[i] == null)
      && (forall i :: h <= i < |roots| ==> RootTree(roots[i]) == Slot(leaves, i))
      && n.Valid() && n.bucket == bucket && n.Repr !! Repr && Backed(bucket.data, n.shape)
      && HasBlock(leaves + [x], h, Shr(length, h))
      && TreeOf(n.shape) == BlockTree(leaves + [x], h, Shr(length, h))
    }

    /** Puts the carried node where the carry stops. */
    method Place(h: nat, n: Node, ghost x: Hash, ghost more: set<Bytes>)
      requires Carrying(h, n, x) && !Bit(length, h)
      modifies this
      ensures Valid() && leaves == old(leaves) + [x]
      ensures Repr == old(Repr) + n.Repr && Shapes() == Carried(old(Shapes()), h, n.shape)
      ensures added == old(added) + more && unsaved == old(unsaved) + more
    {
      assert h < |roots| ==> roots[h] == null;
      Lands(leaves, x, h, TreeOf(n.shape));
      PutRoot(h, n, leaves + [x], more);
    }

    method PutRoot(h: nat, n: Node, ghost newer: seq<Hash>, ghost more: set<Bytes>)
      requires Owned() && h <= |roots| && (h < |roots| ==> roots[h] == null)
      requires n.Valid() && n.bucket == bucket && n.Repr !! Repr && Backed(bucket.data, n.shape)
      modifies this
      ensures Owned() && Repr == old(Repr) + n.Repr && leaves == newer && length == old(length) + 1
      ensures |roots| == if h < |old(roots)| then |old(roots)| else h + 1
      ensures roots[h] == n && forall i :: 0 <= i < |old(roots)| && i != h ==> roots[i] == old(roots[i])
      ensures added == old(added) + more && unsaved == old(unsaved) + more
    {
      roots := if h >= |roots| then roots + [n] else roots[h := n];
      length, leaves, Repr := length + 1, newer, Repr + n.Repr;
      added, unsaved := added + more, unsaved + more;
    }

    method AddNodeAt(h: nat, n: Node, w: seq<Witness>, ghost x: Hash, ghost more: set<Bytes>)
      returns (ws: seq<Witness>)
      requires Carrying(h, n, x)
      requires WitnessSoFar(leaves + [x], h, w)
      modifies this, Repr
      ensures Valid() && leaves == old(leaves) + [x]
      ensures fresh(Repr - old(Repr) - old(n.Repr))
      ensures ws == WitnessOf(leaves, |leaves| - 1)
      ensures Shapes() == Carried(old(Shapes()), h, old(n.shape))
      ensures added == old(added) + more && unsaved == old(unsaved) + more
      decreases |roots| - h, 1
    {
      if h >= |roots| || roots[h] == null {
        Land(h, n, w, x, more);
        ws := w;
      } else {
        ws := AddNodeAbove(h, n, w, x, more);
      }
    }

    /** The append through an occupied slot. */
    method AddNodeAbove(h: nat, n: Node, w: seq<Witness>, ghost x: Hash, ghost more: set<Bytes>)
      returns (ws: seq<Witness>)
      requires Carrying(h, n, x) && h < |roots| && roots[h] != null
      requires WitnessSoFar(leaves + [x], h, w)
      modifies this, Repr
      ensures Valid() && leaves == old(leaves) + [x]
      ensures fresh(Repr - old(Repr) - old(n.Repr))
      ensures ws == WitnessOf(leaves, |leaves| - 1)
      ensures Shapes() == Carried(old(Shapes()), h, old(n.shape))
      ensures added == old(added) + more && unsaved == old(unsaved) + more
      decreases |roots| - h, 0
    {
      CarriedUp(Shapes(), h, n.shape);
      var b, grown := Rise(h, n, w, x);
      ws := AddNodeAt(h + 1, b, grown, x, more);
    }

    /** Carries the node one slot up, with its witness. */
    method Rise(h: nat, n: Node, w: seq<Witness>, ghost x: Hash) returns (b: Node, grown: seq<Witness>)
      requires Carrying(h, n, x) && h < |roots| && roots[h] != null
      requires WitnessSoFar(leaves + [x], h, w)
      modifies this, Repr
      ensures Carrying(h + 1, b, x) && WitnessSoFar(leaves + [x], h + 1, grown)
      ensures leaves == old(leaves) && |roots| == |old(roots)| && added == old(added) && unsaved == old(unsaved)
      ensures Repr <= old(Repr) && fresh(b.Repr - old(Repr) - old(n.Repr))
      ensures Shapes() == old(Shapes())[h := None] && b.shape == Fork(false, old(Shapes())[h].value, old(n.shape))
    {
      WitnessGrows(leaves, x, h, w, TreeOf(roots[h].shape));
      var rh;
      b, rh := Lift(h, n, x);
      grown := w + [Witness(Left, rh)];
    }

    /** Joins the carried node with the tree in its way; `rh` is the digest of that tree. */
    method Lift(h: nat, n: Node, ghost x: Hash) returns (b: Node, rh: Hash)
      requires Carrying(h, n, x) && h < |roots| && roots[h] != null
      modifies this, Repr
      ensures Carrying(h + 1, b, x)
      ensures leaves == old(leaves) && |roots| == |old(roots)| && added == old(added) && unsaved == old(unsaved)
      ensures Repr <= old(Repr) && fresh(b.Repr - old(Repr) - old(n.Repr))
      ensures Shapes() == old(Shapes())[h := None] && b.shape == Fork(false, old(Shapes())[h].value, old(n.shape))
      ensures rh == old(TreeHash(TreeOf(roots[h].shape)))
    {
      assert Bit(length, h);
      CarryNext(length, h);
      Joins(leaves, x, h, TreeOf(roots[h].shape));
      b, rh := Merge(h, n);
    }

    method Land(h: nat, n: Node, ghost w: seq<Witness>, ghost x: Hash, ghost more: set<Bytes>)
      requires Carrying(h, n, x) && (h < |roots| ==> roots[h] == null)
      requires WitnessSoFar(leaves + [x], h, w)
      modifies this
      ensures Valid() && leaves == old(leaves) + [x]
      ensures fresh(Repr - old(Repr) - old(n.Repr))
      ensures w == WitnessOf(leaves, |leaves| - 1)
      ensures Shapes() == Carried(old(Shapes()), h, old(n.shape))
      ensures added == old(added) + more && unsaved == old(unsaved) + more
    {
      assert !Bit(length, h) by { SlotsTop(|leaves|, h); }
      WitnessDone(leaves, x, h, w);
      Place(h, n, x, more);
    }

    /** Takes the tree out of slot `h` and joins it, on the left, with the carried node. */
    method Merge(h: nat, n: Node) returns (b: Node, rh: Hash)
      requires Owned() && h < |roots| && roots[h] != null
      requires n.Valid() && n.bucket == bucket && n.Repr !! Repr && Backed(bucket.data, n.shape)
      modifies this`roots, this`Repr, Repr
      ensures Owned() && roots == old(roots)[h := null] && leaves == old(leaves) && length == old(length)
      ensures Repr <= old(Repr) && fresh(b.Repr - old(Repr) - old(n.Repr))
      ensures b.Valid() && b.bucket == bucket && b.Repr !! Repr && Backed(bucket.data, b.shape)
      ensures b.shape == Fork(false, old(roots[h].shape), old(n.shape))
      ensures rh == old(TreeHash(TreeOf(roots[h].shape)))
      ensures forall i :: 0 <= i < |roots| && i != h ==> RootShape(roots[i]) == old(RootShape(roots[i]))
    {
      var root;
      root, rh := TakeRoot(h);
      b := new Node.OfChildren(bucket, root, n);
    }

    method TakeRoot(h: nat) returns (root: Node, rh: Hash)
      requires Owned() && h < |roots| && roots[h] != null
      modifies this`roots, this`Repr, Repr
      ensures Owned() && roots == old(roots)[h := null] && Repr == old(Repr) - root.Repr
      ensures leaves == old(leaves) && length == old(length)
      ensures root == old(roots[h]) && root.Valid() && root.Repr <= old(Repr) && root.bucket == bucket
      ensures Backed(bucket.data, root.shape)
      ensures root.shape == old(roots[h].shape) && rh == TreeHash(TreeOf(root.shape))
      ensures forall i :: 0 <= i < |roots| && i != h ==> RootShape(roots[i]) == old(RootShape(roots[i]))
    {
      root := roots[h];
      rh := root.Hash();
      roots := roots[h := null];
      Repr := Repr - root.Repr;
    }

    /** Appends a leaf node; the result is the new leaf's witness. */
    method AddNode(n: Node) returns (ws: seq<Witness>)
      requires Valid() && n.Valid() && n.Repr !! Repr && n.bucket == bucket
      requires Backed(bucket.data, n.shape) && TreeOf(n.shape).Leaf? && Tracked()
      modifies this, Repr
      ensures Valid() && leaves == old(leaves) + [TreeOf(old(n.shape)).hash]
      ensures fresh(Repr - old(Repr) - old(n.Repr))
      ensures ws == WitnessOf(leaves, |leaves| - 1)
      ensures Tracked() && added == old(added) + old(Pending(n.shape))
      ensures unsaved == old(unsaved) + old(Pending(n.shape))
    {
      CarriedCovers(Shapes(), n.shape, unsaved);
      ws := AddNodeAt(0, n, [], TreeOf(n.shape).hash, Pending(n.shape));
    }

    method AddHash(h: Hash) returns (ws: seq<Witness>)
      requires Valid() && Tracked()
      modifies this, Repr
      ensures Valid() && leaves == old(leaves) + [h] && fresh(Repr - old(Repr))
      ensures ws == WitnessOf(leaves, |leaves| - 1)
      ensures Tracked() && added == old(added) && unsaved == old(unsaved)
    {
      var n := new Node.OfHash(bucket, h, Leaf(h));
      ws := AddNode(n);
    }

    method AddData(d: Bytes) returns (ws: seq<Witness>)
      requires Valid() && Tracked()
      modifies this, Repr
      ensures Valid() && leaves == old(leaves) + [Sha3(d)] && fresh(Repr - old(Repr))
      ensures ws == WitnessOf(leaves, |leaves| - 1)
      ensures Tracked() && added == old(added) + {d} && unsaved == old(unsaved) + {d}
    {
      var n := new Node.OfData(bucket, d);
      ws := AddNode(n);
    }

    /** The root that holds leaf `idx`, and the leaf's position below it. */
    method FindRoot(idx: int) returns (offset: nat, rest: int)
      requires Counted() && idx < length && length > 0
      ensures offset == SlotOf(if idx < 0 then 0 else idx, length) && offset < |roots| && roots[offset] != null
      ensures idx < 0 ==> rest < 0
      ensures idx >= 0 ==> rest == idx - Shl(Shr(length, offset) - 1, offset) && 0 <= rest < Shl(1, offset)
    {
      offset := |roots|;
      rest := idx;
      SlotsTop(length, |roots|);
      ShlPositive(|roots|);
      while offset > 0
        invariant offset <= |roots| && Remains(idx, length, offset, rest)
      {
        offset := offset - 1;
        RemainsNext(idx, length, offset, rest);
        if roots[offset] == null { continue; }
        var inbound := Shl(1, offset);
        if rest < inbound { return; }
        rest := rest - inbound;
      }
      assert false;
    }

    /** The witness of leaf `idx`; an index below 0 reads as 0. Loading nodes changes no leaf. */
    method WitnessFor(idx: int) returns (r: Result<seq<Witness>, Verdict>)
      requires Valid() && Tracked()
      modifies this, Repr
      ensures Valid() && leaves == old(leaves) && fresh(Repr - old(Repr))
      ensures Tracked() && added == old(added) && unsaved == old(unsaved)
      ensures r == if idx >= |leaves| || |leaves| == 0 then Err(NotFound)
                   else Ok(WitnessOf(leaves, if idx < 0 then 0 else idx))
    {
      if idx >= length || roots == [] {
        return Err(NotFound);
      }
      var offset, rest := FindRoot(idx);
      RootPath(leaves, idx, rest);
      var w := RootWitness(offset, rest);
      return Ok(w);
    }

    method RootWitness(offset: nat, rest: int) returns (w: seq<Witness>)
      requires Valid() && Tracked() && offset < |roots| && roots[offset] != null
      requires Slot(leaves, offset).Some? && Perfect(Slot(leaves, offset).value, offset)
      modifies this, Repr
      ensures Valid() && leaves == old(leaves) && fresh(Repr - old(Repr))
      ensures Tracked() && added == old(added) && unsaved == old(unsaved)
      ensures w == TreePath(Slot(leaves, offset).value, offset, rest)
    {
      ghost var ss := Shapes();
      var n;
      n, w := WalkRoot(offset, rest);
      SwapRoot(offset, n);
      WaitsStill(ss, Shapes(), unsaved);
    }

    /** Walks down the tree of a slot, which leaves the other slots alone. */
    method WalkRoot(offset: nat, rest: int) returns (n: Node, w: seq<Witness>)
      requires Valid() && offset < |roots| && roots[offset] != null
      requires Slot(leaves, offset).Some? && Perfect(Slot(leaves, offset).value, offset)
      modifies Repr
      ensures OwnedBut(offset, n) && n.Valid() && n.bucket == bucket && Backed(bucket.data, n.shape)
      ensures fresh(n.Repr - old(Repr)) && Slot(leaves, offset) == Some(TreeOf(n.shape))
      ensures forall i :: 0 <= i < |roots| && i != offset ==> RootShape(roots[i]) == old(RootShape(roots[i]))
      ensures Pending(n.shape) == old(Pending(roots[offset].shape))
      ensures w == TreePath(Slot(leaves, offset).value, offset, rest)
    {
      var root := roots[offset];
      WalkPerfect(bucket.data, root.shape, offset, rest);
      WalkKeepsPending(bucket.data, root.shape, offset, rest);
      var err;
      n, w, err := root.WitnessFor(offset, rest, []);
    }

    /** Slots other than `i` are in order and share nothing with `n`. */
    ghost predicate OwnedBut(i: nat, n: Node)
      reads this, Repr, bucket, n, set i | 0 <= i < |roots| :: roots[i]
    {
      && (forall j :: 0 <= j < |roots| && j != i && roots[j] != null ==>
            && roots[j] in Repr && roots[j].Repr <= Repr && roots[j].Valid() && roots[j].Repr !! n.Repr
            && roots[j].bucket == bucket && Backed(bucket.data, roots[j].shape))
      && forall j, k :: 0 <= j < k < |roots| && j != i && k != i && roots[j] != null && roots[k] != null ==>
           roots[j].Repr !! roots[k].Repr
    }

    /** Replaces the node in slot `i` by another one for the same tree. */
    method SwapRoot(i: nat, n: Node)
      requires i < |roots| == Slots(|leaves|) && length == |leaves| && OwnedBut(i, n)
      requires forall j :: 0 <= j < |roots| && j != i ==> RootTree(roots[j]) == Slot(leaves, j)
      requires n.Valid() && n.bucket == bucket && Backed(bucket.data, n.shape)
      requires Slot(leaves, i) == Some(TreeOf(n.shape))
      modifies this`roots, this`Repr
      ensures Valid() && leaves == old(leaves) && Repr == old(Repr) + n.Repr && roots == old(roots)[i := n]
    {
      roots := roots[i := n];
      Repr := Repr + n.Repr;
    }

    method WitnessForWithAccLength(idx: int, accLength: int) returns (r: Result<seq<Witness>, Verdict>)
      requires Valid() && Tracked()
      modifies this, Repr
      ensures Valid() && leaves == old(leaves) && fresh(Repr - old(Repr))
      ensures Tracked() && added == old(added) && unsaved == old(unsaved)
      ensures r == WitnessAt(leaves, idx, accLength)
    {
      r := WitnessFor(idx);
      if r.Err? { return; }
      var depth := GetDepthByHeightAndAccLength(idx, accLength);
      if depth > |r.value| { return Err(Panic); }
      r := Ok(r.value[..depth]);
    }

    method RootHash(i: nat) returns (h: Hash)
      requires Owned() && i < |roots| && roots[i] != null
      modifies Repr
      ensures Owned() && h == TreeHash(TreeOf(old(roots[i].shape)))
      ensures forall k :: 0 <= k < |roots| ==> RootShape(roots[k]) == old(RootShape(roots[k]))
    {
      var root := roots[i];
      h := root.Hash();
    }

    method Verify(ws: seq<Witness>, h: Hash) returns (v: Verdict)
      requires Valid() && Tracked()
      modifies Repr
      ensures Valid() && v == Judge(leaves, ws, h)
      ensures Tracked() && added == old(added) && unsaved == old(unsaved)
    {
      ghost var ss := Shapes();
      var height := 0;
      var folded := h;
      assert ws[..0] == [];
      while height < |ws|
        invariant 0 <= height <= |ws|
        invariant folded == Fold(ws[..height], h)
      {
        assert ws[..height + 1][..height] == ws[..height];
        folded := Sha3(Joined(ws[height], folded));
        height := height + 1;
      }
      assert ws[..height] == ws;
      if height >= |roots| {
        return NewerWitness;
      }
      if roots[height] == null {
        return NoRoot;
      }
      var root := RootHash(height);
      WaitsStill(ss, Shapes(), unsaved);
      v := if root == folded then Accepted else NotMatched;
    }

    method VerifyWithAccLength(ws: seq<Witness>, h: Hash, accLength: int) returns (v: Verdict)
      requires Valid() && Tracked()
      modifies this, Repr
      ensures Valid() && leaves == old(leaves) && fresh(Repr - old(Repr))
      ensures Tracked() && added == old(added) && unsaved == old(unsaved)
      ensures v == JudgeAt(leaves, ws, h, accLength)
    {
      if length == accLength {
        v := Verify(ws, h);
      } else {
        var height := GetHeightFromWitness(ws, accLength);
        if height >= length {
          v := NewerNode;
        } else if length > accLength {
          v := VerifyOlder(ws, h, height);
        } else {
          var depth := OlderDepthOf(height);
          if depth > |ws| {
            v := Panic;
          } else {
            v := Verify(ws[..depth], h);
          }
        }
      }
    }

    /** Fills an older witness up with the siblings it lacks. */
    method VerifyOlder(ws: seq<Witness>, h: Hash, height: int) returns (v: Verdict)
      requires Valid() && Tracked() && height < length
      modifies this, Repr
      ensures Valid() && leaves == old(leaves) && fresh(Repr - old(Repr))
      ensures Tracked() && added == old(added) && unsaved == old(unsaved)
      ensures v == if |leaves| == 0 then NotFound
                   else var nws := WitnessOf(leaves, if height < 0 then 0 else height);
                        if |ws| > |nws| then Panic else Judge(leaves, ws + nws[|ws|..], h)
    {
      var r := WitnessFor(height);
      if r.Err? {
        v := r.error;
      } else if |ws| > |r.value| {
        v := Panic;
      } else {
        v := Verify(ws + r.value[|ws|..], h);
      }
    }

    /** The search for the depth at which a newer witness is cut. */
    method OlderDepthOf(height: int) returns (depth: nat)
      ensures depth == OlderDepth(height, |roots| - 1)
    {
      depth := 0;
      var rest := height;
      var i := |roots| - 1;
      while i > 0
        invariant depth == 0 && i <= |roots| - 1
        invariant OlderDepth(rest, i) == OlderDepth(height, |roots| - 1)
      {
        var bitFlag := Shl(1, i);
        if rest < bitFlag {
          depth := i;
          break;
        }
        rest := rest - bitFlag;
        i := i - 1;
      }
    }

    /** The node of leaf `idx`: its digest is the leaf's. Nothing already in memory changes. */
    method GetNode(idx: int) returns (r: Result<Node, Verdict>)
      requires Valid()
      ensures Valid()
      ensures if idx >= |leaves| || |leaves| == 0 then r == Err(NotFound)
              else r.Ok? && r.value.Valid() && TreeOf(r.value.shape) == Leaf(leaves[if idx < 0 then 0 else idx])
    {
      if idx >= length || roots == [] {
        return Err(NotFound);
      }
      var offset, rest := FindRoot(idx);
      RootLeaf(leaves, idx, rest);
      FindPerfect(bucket.data, roots[offset].shape, offset, rest);
      var n, err := roots[offset].Descend(offset, rest);
      return Ok(n);
    }

    ghost function Shapes(): seq<Option<Shape>>
      reads this, roots
    {
      ShapesOf(roots)
    }

    ghost predicate Tracked()
      reads this, roots
    {
      Covers(Shapes(), unsaved)
    }

    /** Stores every tree and lists the root digests; no tree and no leaf changes. */
    method FlushRoots() returns (rhs: seq<Option<Hash>>)
      requires Linked()
      modifies this`unsaved, Repr, bucket
      ensures Linked() && unsaved == {}
      ensures forall i :: 0 <= i < |roots| ==> RootShape(roots[i]) == AfterFlushOpt(old(RootShape(roots[i])))
      ensures bucket.data == Puts(old(bucket.data), AllWrites(old(Shapes())))
      ensures |rhs| == |roots| && forall i :: 0 <= i < |rhs| ==> rhs[i] == DigestOf(old(RootShape(roots[i])))
    {
      ghost var before := Shapes();
      rhs := [];
      for i := 0 to |roots|
        invariant Linked() && Stored(i, before, old(bucket.data)) && |rhs| == i
        invariant forall k :: 0 <= k < i ==> rhs[k] == DigestOf(before[k])
      {
        var d := FlushNext(i, before, old(bucket.data));
        rhs := rhs + [d];
      }
      assert before[..|roots|] == before;
      unsaved := {};
    }

    /** The first `i` trees are stored over `m`; `before` are the shapes of all trees before that. */
    ghost predicate Stored(i: nat, before: seq<Option<Shape>>, m: map<Bytes, Bytes>)
      reads this, roots, bucket
    {
      && i <= |before| == |roots|
      && (forall k :: 0 <= k < i ==> RootShape(roots[k]) == AfterFlushOpt(before[k]))
      && (forall k :: i <= k < |roots| ==> RootShape(roots[k]) == before[k])
      && bucket.data == Puts(m, AllWrites(before[..i]))
    }

    method FlushNext(i: nat, ghost before: seq<Option<Shape>>, ghost m: map<Bytes, Bytes>) returns (d: Option<Hash>)
      requires Linked() && i < |roots| && Stored(i, before, m)
      modifies Repr, bucket
      ensures Linked() && Stored(i + 1, before, m) && d == DigestOf(before[i])
    {
      AllWritesNext(m, before, i);
      d := FlushRoot(i);
    }

    method FlushRoot(i: nat) returns (d: Option<Hash>)
      requires Linked() && i < |roots|
      modifies Repr, bucket
      ensures Linked()
      ensures d == DigestOf(old(RootShape(roots[i])))
      ensures RootShape(roots[i]) == AfterFlushOpt(old(RootShape(roots[i])))
      ensures bucket.data == Puts(old(bucket.data), WritesOpt(old(RootShape(roots[i]))))
      ensures forall k :: 0 <= k < |roots| && k != i ==> RootShape(roots[k]) == old(RootShape(roots[k]))
    {
      var root := roots[i];
      if root == null {
        d := None;
      } else {
        AfterFlushTree(root.shape);
        var ok := root.Flush();
        var h := root.Hash();
        d := Some(h);
      }
    }

    /**
     Loads an accumulator from root digests and a length, whatever they are: every root
     becomes a hash node. If they belong to `ls`, it is the accumulator of those leaves.
     */
    method Restore(rhs: seq<Option<Hash>>, n: int, ghost ls: seq<Hash>, ghost data: set<Bytes>)
      modifies this
      ensures Owned() && fresh(Repr) && leaves == ls && length == n && |roots| == |rhs|
      ensures added == data && unsaved == {}
      ensures forall i :: 0 <= i < |rhs| ==> DigestOf(RootShape(roots[i])) == rhs[i]
      ensures (Belong(bucket.data, rhs, n, ls) ==> Valid()) && Tracked()
    {
      roots, Repr, leaves, length, added, unsaved := [], {}, ls, n, data, {};
      for i := 0 to |rhs|
        invariant |roots| == i && leaves == ls && length == n && Owned() && fresh(Repr)
        invariant added == data && unsaved == {}
        invariant forall k :: 0 <= k < i ==> RootTree(roots[k]) == LoadedTree(bucket.data, rhs, n, ls, k)
      {
        LoadedFits(bucket.data, rhs, n, ls, i);
        if rhs[i].None? {
          roots := roots + [null];
        } else {
          var node := new Node.OfHash(bucket, rhs[i].value, LoadedTree(bucket.data, rhs, n, ls, i).value);
          roots := roots + [node];
          Repr := Repr + node.Repr;
        }
      }
      forall i | 0 <= i < |rhs| ensures DigestOf(RootShape(roots[i])) == rhs[i] {
        LoadedFits(bucket.data, rhs, n, ls, i);
      }
    }
  }

  /** The digests are the roots of an accumulator over `ls`, whose trees can be read back. */
  predicate Belong(m: map<Bytes, Bytes>, rhs: seq<Option<Hash>>, n: int, ls: seq<Hash>) {
    && n == |ls| && |rhs| == Slots(n)
    && forall i :: 0 <= i < |rhs| ==>
         rhs[i] == RootDigest(ls, i) && (Slot(ls, i).Some? ==> Resolvable(m, Slot(ls, i).value))
  }

  /** The tree that a loaded root stands for: the one it belongs to, or nothing but its digest. */
  function LoadedTree(m: map<Bytes, Bytes>, rhs: seq<Option<Hash>>, n: int, ls: seq<Hash>, i: nat): Option<Tree>
    requires i < |rhs|
  {
    if rhs[i].None? then None else if Belong(m, rhs, n, ls) then Slot(ls, i) else Some(Leaf(rhs[i].value))
  }

  lemma {:induction false} LoadedFits(m: map<Bytes, Bytes>, rhs: seq<Option<Hash>>, n: int, ls: seq<Hash>, i: nat)
    requires i < |rhs|
    ensures var t := LoadedTree(m, rhs, n, ls, i);
            && (t.Some? <==> rhs[i].Some?)
            && (t.Some? ==> TreeHash(t.value) == rhs[i].value && Resolvable(m, t.value))
            && (Belong(m, rhs, n, ls) ==> t == Slot(ls, i))
  {
  }

  /** What is left of an index below slot `offset`; a negative index is left as it is, and finds no slot above. */
  predicate Remains(idx: int, length: int, offset: nat, rest: int) {
    && (idx >= 0 ==> rest == idx - Shl(Shr(length, offset), offset) >= 0)
    && (idx < 0 ==> rest == idx && Shr(length, offset) == 0)
  }

  lemma {:induction false} RemainsNext(idx: int, length: nat, offset: nat, rest: int)
    requires Remains(idx, length, offset + 1, rest) && idx < length && length > 0
    ensures !Bit(length, offset) ==> Remains(idx, length, offset, rest)
    ensures Bit(length, offset) && rest >= Shl(1, offset) ==> Remains(idx, length, offset, rest - Shl(1, offset))
    ensures Bit(length, offset) && rest < Shl(1, offset) ==>
              && offset == SlotOf(if idx < 0 then 0 else idx, length)
              && (idx < 0 ==> rest < 0)
              && (idx >= 0 ==> rest == idx - Shl(Shr(length, offset) - 1, offset) && 0 <= rest)
  {
    ShlPositive(offset);
    if Bit(length, offset) {
      SlotRanges(length, offset);
      if rest < Shl(1, offset) { DepthFound(idx, length, offset); }
    }
  }

  ghost function RootShape(root: Node?): Option<Shape>
    reads root
  {
    if root == null then None else Some(root.shape)
  }

  ghost function ShapesOf(roots: seq<Node?>): (s: seq<Option<Shape>>)
    reads roots
    ensures |s| == |roots| && forall i :: 0 <= i < |s| ==> s[i] == RootShape(roots[i])
  {
    if roots == [] then [] else ShapesOf(roots[..|roots| - 1]) + [RootShape(roots[|roots| - 1])]
  }

  function AfterFlushOpt(s: Option<Shape>): Option<Shape> {
    if s.None? then None else Some(AfterFlush(s.value))
  }

  function WritesOpt(s: Option<Shape>): seq<Bytes> {
    if s.None? then [] else Writes(s.value)
  }

  function AllWrites(ss: seq<Option<Shape>>): seq<Bytes> {
    if ss == [] then [] else AllWrites(ss[..|ss| - 1]) + WritesOpt(ss[|ss| - 1])
  }

  lemma {:induction false} AllWritesNext(m: map<Bytes, Bytes>, ss: seq<Option<Shape>>, i: nat)
    requires i < |ss|
    ensures Puts(m, AllWrites(ss[..i + 1])) == Puts(Puts(m, AllWrites(ss[..i])), WritesOpt(ss[i]))
  {
    assert ss[..i + 1][..i] == ss[..i];
    PutsConcat(m, AllWrites(ss[..i]), WritesOpt(ss[i]));
  }

  /** All of `data` is in memory and waits to be stored. */
  predicate Covers(ss: seq<Option<Shape>>, data: set<Bytes>) {
    forall d <- data :: Waits(ss, d)
  }

  predicate Waits(ss: seq<Option<Shape>>, d: Bytes) {
    exists i :: 0 <= i < |ss| && ss[i].Some? && d in Pending(ss[i].value)
  }

  lemma {:induction false} WaitsStill(ss: seq<Option<Shape>>, ss': seq<Option<Shape>>, data: set<Bytes>)
    requires |ss| <= |ss'| && Covers(ss, data)
    requires forall i :: 0 <= i < |ss| && ss[i].Some? ==> ss'[i].Some? && Pending(ss[i].value) <= Pending(ss'[i].value)
    ensures Covers(ss', data)
  {
    forall d <- data ensures Waits(ss', d) {
      assert Waits(ss, d);
      var i :| 0 <= i < |ss| && ss[i].Some? && d in Pending(ss[i].value);
      assert ss'[i].Some?;
    }
  }

  /** The shapes in the slots after `s` is carried in at slot `h`. */
  function Carried(ss: seq<Option<Shape>>, h: nat, s: Shape): seq<Option<Shape>>
    decreases |ss| - h
  {
    if h >= |ss| then ss + [Some(s)]
    else if ss[h].None? then ss[h := Some(s)]
    else Carried(ss[h := None], h + 1, Fork(false, ss[h].value, s))
  }

  lemma {:induction false} CarriedUp(ss: seq<Option<Shape>>, h: nat, s: Shape)
    requires h < |ss| && ss[h].Some?
    ensures Carried(ss, h, s) == Carried(ss[h := None], h + 1, Fork(false, ss[h].value, s))
  {
  }

  /** An append keeps all data that waits to be stored, and adds that of the new node. */
  lemma {:induction false} CarriedWaits(ss: seq<Option<Shape>>, h: nat, s: Shape, d: Bytes)
    requires Waits(ss, d) || d in Pending(s)
    ensures Waits(Carried(ss, h, s), d)
    decreases |ss| - h
  {
    var i: nat :| d in Pending(s) || (i < |ss| && ss[i].Some? && d in Pending(ss[i].value));
    var ss' := Carried(ss, h, s);
    if h >= |ss| {
      var k := if d in Pending(s) then |ss| else i;
      assert ss'[k].Some? && d in Pending(ss'[k].value);
    } else if ss[h].None? {
      var k := if d in Pending(s) then h else i;
      assert ss'[k].Some? && d in Pending(ss'[k].value);
    } else {
      var up := Fork(false, ss[h].value, s);
      if d !in Pending(up) { assert ss[h := None][i].Some? && d in Pending(ss[h := None][i].value); }
      CarriedWaits(ss[h := None], h + 1, up, d);
    }
  }

  lemma {:induction false} CarriedCovers(ss: seq<Option<Shape>>, s: Shape, data: set<Bytes>)
    requires Covers(ss, data)
    ensures Covers(Carried(ss, 0, s), data + Pending(s))
  {
    forall d <- data + Pending(s) ensures Waits(Carried(ss, 0, s), d) { CarriedWaits(ss, 0, s, d); }
  }

  function DigestOf(s: Option<Shape>): Option<Hash> {
    if s.None? then None else Some(TreeHash(TreeOf(s.value)))
  }

  /** The digest of slot `i`'s root, if the slot is occupied. */
  function RootDigest(leaves: seq<Hash>, i: nat): Option<Hash> {
    if Slot(leaves, i).None? then None else Some(TreeHash(Slot(leaves, i).value))
  }

  lemma {:induction false} RootLeaf(leaves: seq<Hash>, idx: int, rest: int)
    requires idx < |leaves| && |leaves| > 0
    requires var start := if idx < 0 then 0 else idx; var d := SlotOf(start, |leaves|);
             && (idx < 0 ==> rest < 0)
             && (idx >= 0 ==> rest == idx - Shl(Shr(|leaves|, d) - 1, d) && 0 <= rest < Shl(1, d))
    ensures var start := if idx < 0 then 0 else idx; var d := SlotOf(start, |leaves|);
            && Slot(leaves, d).Some? && Perfect(Slot(leaves, d).value, d)
            && TreeLeaf(Slot(leaves, d).value, d, rest) == leaves[start]
  {
    var start := if idx < 0 then 0 else idx;
    var d := SlotOf(start, |leaves|);
    SlotChar(start, |leaves|, d);
    SlotBlock(leaves, d);
    BlockPerfect(leaves, d, Shr(|leaves|, d) - 1);
    ShlPositive(d);
    if idx < 0 { ShrZero(d); }
    TreeLeafIsLeaf(leaves, d, Shr(|leaves|, d) - 1, rest);
  }

  /** The descent from the root of a leaf's slot yields the leaf's witness. */
  lemma {:induction false} RootPath(leaves: seq<Hash>, idx: int, rest: int)
    requires idx < |leaves| && |leaves| > 0
    requires var start := if idx < 0 then 0 else idx; var d := SlotOf(start, |leaves|);
             && (idx < 0 ==> rest < 0)
             && (idx >= 0 ==> rest == idx - Shl(Shr(|leaves|, d) - 1, d) && 0 <= rest < Shl(1, d))
    ensures var start := if idx < 0 then 0 else idx; var d := SlotOf(start, |leaves|);
            && Slot(leaves, d).Some? && Perfect(Slot(leaves, d).value, d)
            && TreePath(Slot(leaves, d).value, d, rest) == WitnessOf(leaves, start)
  {
    var start := if idx < 0 then 0 else idx;
    var d := SlotOf(start, |leaves|);
    SlotChar(start, |leaves|, d);
    SlotBlock(leaves, d);
    var b := Shr(|leaves|, d) - 1;
    BlockPerfect(leaves, d, b);
    ShlPositive(d);
    if idx < 0 {
      TreePathNegative(BlockTree(leaves, d, b), d, rest);
      ShrZero(d);
      TreePathIsPath(leaves, d, b, 0);
    } else {
      TreePathIsPath(leaves, d, b, rest);
    }
  }

  /** `w` is the witness of the last leaf up to level `h`. */
  ghost predicate WitnessSoFar(leaves: seq<Hash>, h: nat, w: seq<Witness>) {
    Covered(leaves, |leaves| - 1, h) && w == Path(leaves, |leaves| - 1, h)
  }

  /** The slots once the carried tree is put in slot `h`. */
  lemma {:induction false} Lands(leaves: seq<Hash>, x: Hash, h: nat, t: Tree)
    requires Carry(|leaves|, h) && !Bit(|leaves|, h) && h <= Slots(|leaves|)
    requires HasBlock(leaves + [x], h, Shr(|leaves|, h)) && t == BlockTree(leaves + [x], h, Shr(|leaves|, h))
    ensures var newer := leaves + [x];
            && Slots(|newer|) == (if h == Slots(|leaves|) then h + 1 else Slots(|leaves|))
            && forall i :: 0 <= i < Slots(|newer|) ==>
                 Slot(newer, i) == if i < h then None else if i == h then Some(t) else Slot(leaves, i)
  {
    CarryStops(leaves, x, h);
    SlotsGrow(|leaves|, h);
  }

  /** The tree of an occupied slot and the carried one are the two halves of the next block. */
  lemma {:induction false} Joins(leaves: seq<Hash>, x: Hash, h: nat, t: Tree)
    requires Carry(|leaves|, h) && Bit(|leaves|, h) && Slot(leaves, h) == Some(t)
    ensures var newer := leaves + [x]; var b := Shr(|leaves|, h);
            && HasBlock(newer, h, b - 1) && TreeHash(t) == BlockHash(newer, h, b - 1)
            && HasBlock(newer, h, b) && HasBlock(newer, h + 1, Shr(|leaves|, h + 1))
            && BlockTree(newer, h + 1, Shr(|leaves|, h + 1)) == Branch(t, BlockTree(newer, h, b))
  {
    CarryMerges(leaves, x, h);
  }

  lemma {:induction false} WitnessGrows(leaves: seq<Hash>, x: Hash, h: nat, w: seq<Witness>, t: Tree)
    requires Carry(|leaves|, h) && Slot(leaves, h) == Some(t) && WitnessSoFar(leaves + [x], h, w)
    ensures WitnessSoFar(leaves + [x], h + 1, w + [Witness(Left, TreeHash(t))])
  {
    CarryMerges(leaves, x, h);
  }

  lemma {:induction false} WitnessDone(leaves: seq<Hash>, x: Hash, h: nat, w: seq<Witness>)
    requires Carry(|leaves|, h) && !Bit(|leaves|, h) && WitnessSoFar(leaves + [x], h, w)
    ensures w == WitnessOf(leaves + [x], |leaves|)
  {
    CarryStops(leaves, x, h);
  }

  ghost function RootTree(root: Node?): Option<Tree>
    reads root
  {
    if root == null then None else Some(TreeOf(root.shape))
  }

  lemma {:induction false} SlotsGrow(n: nat, h: nat)
    requires Carry(n, h) && !Bit(n, h) && h <= Slots(n)
    ensures Slots(n + 1) == if h == Slots(n) then h + 1 else Slots(n)
  {
    var s := Slots(n);
    ShlPositive(h);
    ShiftUnique(Shr(n, h) + 1, 0, h);
    assert Shr(n + 1, h) == Shr(n, h) + 1;
    assert Shr(n + 1, h + 1) == Shr(n, h + 1);
    SlotsTop(n, h); SlotsTop(n, h + 1);
    SlotsTop(n + 1, h); SlotsTop(n + 1, h + 1);
    if h < s {
      SlotsTop(n, s); SlotsTop(n + 1, s);
      ShrSame(n + 1, n, h + 1, s);
      if h + 1 < s {
        ShrSame(n + 1, n, h + 1, s - 1);
        SlotsTop(n + 1, s - 1);
        SlotsTop(n, s - 1);
      }
    }
  }

}
