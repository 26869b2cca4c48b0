/**
 Merkle trees over aligned blocks of leaves: the meaning that the accumulator's
 nodes, witnesses and roots are checked against.

 Block `b` at level `i` covers the leaves `[b * 2^i, (b + 1) * 2^i)`. A witness
 lists, from the leaf upwards, the digest of the sibling block at each level.
 */
module Merkle {
  import opened Bytes
  import opened BitOps

  const HASH_SIZE := 32

  type Hash = h: Bytes | |h| == 32 witness seq(32, _ => 0)

  /** The digest function: any function from byte strings to 32-byte strings. */
  const Sha3: Bytes -> Hash

  datatype Direction = Left | Right

  datatype Witness = Witness(direction: Direction, hashValue: Hash)

  datatype Tree = Leaf(hash: Hash) | Branch(left: Tree, right: Tree)

  function TreeHash(t: Tree): Hash {
    match t
    case Leaf(h) => h
    case Branch(l, r) => Sha3(TreeHash(l) + TreeHash(r))
  }

  predicate Perfect(t: Tree, depth: int) {
    match t
    case Leaf(_) => depth == 0
    case Branch(l, r) => depth > 0 && Perfect(l, depth - 1) && Perfect(r, depth - 1)
  }

  /** The leaves `leaves` contain block `b` of level `i`. */
  predicate HasBlock(leaves: seq<Hash>, i: nat, b: int) {
    0 <= b && Shl(b + 1, i) <= |leaves|
  }

  function BlockTree(leaves: seq<Hash>, i: nat, b: int): (t: Tree)
    requires HasBlock(leaves, i, b)
    decreases i
  {
    if i == 0 then Leaf(leaves[b])
    else
      ShlMono(2 * b + 1, 2 * b + 2, i - 1);
      Branch(BlockTree(leaves, i - 1, 2 * b), BlockTree(leaves, i - 1, 2 * b + 1))
  }

  function BlockHash(leaves: seq<Hash>, i: nat, b: int): Hash
    requires HasBlock(leaves, i, b)
  {
    TreeHash(BlockTree(leaves, i, b))
  }

  lemma {:induction false} BlockHashStep(leaves: seq<Hash>, i: nat, b: int)
    requires HasBlock(leaves, i, b) && i > 0
    ensures HasBlock(leaves, i - 1, 2 * b) && HasBlock(leaves, i - 1, 2 * b + 1)
    ensures BlockHash(leaves, i, b) == Sha3(BlockHash(leaves, i - 1, 2 * b) + BlockHash(leaves, i - 1, 2 * b + 1))
  {
    ShlMono(2 * b + 1, 2 * b + 2, i - 1);
  }

  lemma {:induction false} BlockPerfect(leaves: seq<Hash>, i: nat, b: int)
    requires HasBlock(leaves, i, b)
    ensures Perfect(BlockTree(leaves, i, b), i)
    decreases i
  {
    if i > 0 {
      BlockHashStep(leaves, i, b);
      BlockPerfect(leaves, i - 1, 2 * b);
      BlockPerfect(leaves, i - 1, 2 * b + 1);
    }
  }

  /** Appending leaves never changes a block that is already complete. */
  lemma {:induction false} BlockStable(older: seq<Hash>, newer: seq<Hash>, i: nat, b: int)
    requires older <= newer && HasBlock(older, i, b)
    ensures BlockTree(older, i, b) == BlockTree(newer, i, b)
    decreases i
  {
    if i > 0 {
      BlockHashStep(older, i, b);
      BlockStable(older, newer, i - 1, 2 * b);
      BlockStable(older, newer, i - 1, 2 * b + 1);
    }
  }

  /** The level-`d` block around leaf `idx` is complete. */
  predicate Covered(leaves: seq<Hash>, idx: int, d: nat) {
    0 <= idx && HasBlock(leaves, d, Shr(idx, d))
  }

  lemma {:induction false} CoveredStep(leaves: seq<Hash>, idx: int, d: nat)
    requires Covered(leaves, idx, d) && d > 0
    ensures Covered(leaves, idx, d - 1)
    ensures var b := Shr(idx, d - 1); HasBlock(leaves, d - 1, if b % 2 == 0 then b + 1 else b - 1)
  {
    BlockHashStep(leaves, d, Shr(idx, d));
  }

  lemma {:induction false} CoveredLeaf(leaves: seq<Hash>, idx: int, d: nat)
    requires Covered(leaves, idx, d)
    ensures idx < |leaves|
    decreases d
  {
    if d > 0 {
      CoveredStep(leaves, idx, d);
      CoveredLeaf(leaves, idx, d - 1);
    }
  }

  /** The sibling of leaf `idx`'s block at level `i`, with the side it is on. */
  function Sibling(leaves: seq<Hash>, idx: int, i: nat): Witness
    requires Covered(leaves, idx, i + 1)
  {
    CoveredStep(leaves, idx, i + 1);
    var b := Shr(idx, i);
    if b % 2 == 0 then Witness(Right, BlockHash(leaves, i, b + 1))
    else Witness(Left, BlockHash(leaves, i, b - 1))
  }

  /** The witness of leaf `idx` up to level `d`: one sibling per level. */
  function Path(leaves: seq<Hash>, idx: int, d: nat): (ws: seq<Witness>)
    requires Covered(leaves, idx, d)
    ensures |ws| == d
    decreases d
  {
    if d == 0 then []
    else
      CoveredStep(leaves, idx, d);
      Path(leaves, idx, d - 1) + [Sibling(leaves, idx, d - 1)]
  }

  lemma {:induction false} PathPrefix(leaves: seq<Hash>, idx: int, d: nat, e: nat)
    requires e <= d && Covered(leaves, idx, d)
    ensures Covered(leaves, idx, e) && Path(leaves, idx, e) == Path(leaves, idx, d)[..e]
    decreases d
  {
    if e < d {
      CoveredStep(leaves, idx, d);
      PathPrefix(leaves, idx, d - 1, e);
    }
  }

  /** A witness taken from fewer leaves is the same witness. */
  lemma {:induction false} PathStable(older: seq<Hash>, newer: seq<Hash>, idx: int, d: nat)
    requires older <= newer && Covered(older, idx, d)
    ensures Covered(newer, idx, d) && Path(older, idx, d) == Path(newer, idx, d)
    decreases d
  {
    if d > 0 {
      CoveredStep(older, idx, d);
      PathStable(older, newer, idx, d - 1);
      var b := Shr(idx, d - 1);
      BlockStable(older, newer, d - 1, if b % 2 == 0 then b + 1 else b - 1);
    }
  }

  /** The bytes hashed when witness `w` is applied to digest `h`. */
  function Joined(w: Witness, h: Hash): Bytes {
    if w.direction == Left then w.hashValue + h else h + w.hashValue
  }

  /** The root digest that witness `ws` claims for leaf digest `h`. */
  function Fold(ws: seq<Witness>, h: Hash): Hash {
    if ws == [] then h
    else Sha3(Joined(ws[|ws| - 1], Fold(ws[..|ws| - 1], h)))
  }

  lemma {:induction false} SiblingJoins(leaves: seq<Hash>, idx: int, d: nat)
    requires Covered(leaves, idx, d) && d > 0
    ensures Covered(leaves, idx, d - 1)
    ensures Sha3(Joined(Sibling(leaves, idx, d - 1), BlockHash(leaves, d - 1, Shr(idx, d - 1)))) ==
            BlockHash(leaves, d, Shr(idx, d))
  {
    CoveredStep(leaves, idx, d);
    BlockHashStep(leaves, d, Shr(idx, d));
  }

  /** Every genuine witness leads from its leaf to its block's digest. */
  lemma {:induction false} PathComplete(leaves: seq<Hash>, idx: int, d: nat)
    requires Covered(leaves, idx, d)
    ensures idx < |leaves| && Fold(Path(leaves, idx, d), leaves[idx]) == BlockHash(leaves, d, Shr(idx, d))
    decreases d
  {
    CoveredLeaf(leaves, idx, d);
    if d > 0 {
      SiblingJoins(leaves, idx, d);
      PathComplete(leaves, idx, d - 1);
      assert Path(leaves, idx, d)[..d - 1] == Path(leaves, idx, d - 1);
    }
  }

  /** The position inside its block that the directions of a witness spell out. */
  function Position(ws: seq<Witness>): int {
    if ws == [] then 0
    else Position(ws[..|ws| - 1]) + if ws[|ws| - 1].direction == Left then Shl(1, |ws| - 1) else 0
  }

  lemma {:induction false} PositionBound(ws: seq<Witness>)
    ensures 0 <= Position(ws) < Shl(1, |ws|)
  {
    if ws != [] {
      PositionBound(ws[..|ws| - 1]);
      ShlDouble(1, |ws|);
      ShlPositive(|ws| - 1);
    }
  }

  predicate Collides(pair: (Bytes, Bytes)) {
    pair.0 != pair.1 && Sha3(pair.0) == Sha3(pair.1)
  }

  /**
   Walks a claimed witness and the real tree down from the root of block `b` and
   returns the first place where they hash different byte strings.
   */
  function Divergence(leaves: seq<Hash>, b: int, ws: seq<Witness>, h: Hash): Option<(Bytes, Bytes)>
    requires HasBlock(leaves, |ws|, b)
    decreases |ws|
  {
    if ws == [] then None
    else
      var d := |ws| - 1;
      var claimed := Joined(ws[d], Fold(ws[..d], h));
      BlockHashStep(leaves, d + 1, b);
      var actual := BlockHash(leaves, d, 2 * b) + BlockHash(leaves, d, 2 * b + 1);
      if claimed != actual then Some((claimed, actual))
      else Divergence(leaves, if ws[d].direction == Left then 2 * b + 1 else 2 * b, ws[..d], h)
  }

  /** Witness `ws` and leaf digest `h` are those of the leaf of block `b` that `ws` points at. */
  predicate Genuine(leaves: seq<Hash>, b: int, ws: seq<Witness>, h: Hash)
    requires HasBlock(leaves, |ws|, b)
  {
    var idx := Shl(b, |ws|) + Position(ws);
    && Shr(idx, |ws|) == b && Covered(leaves, idx, |ws|) && idx < |leaves|
    && h == leaves[idx]
    && ws == Path(leaves, idx, |ws|)
  }

  /**
   Soundness of one tree: a witness that folds to the block's digest is the genuine
   witness of the leaf its directions point at, unless `Divergence` holds a collision.
   */
  lemma {:induction false} FoldSound(leaves: seq<Hash>, b: int, ws: seq<Witness>, h: Hash)
    requires HasBlock(leaves, |ws|, b)
    requires Fold(ws, h) == BlockHash(leaves, |ws|, b)
    ensures match Divergence(leaves, b, ws, h)
            case Some(pair) => Collides(pair)
            case None => Genuine(leaves, b, ws, h)
    decreases |ws|
  {
    if ws != [] {
      var d := |ws| - 1;
      BlockHashStep(leaves, d + 1, b);
      var claimed := Joined(ws[d], Fold(ws[..d], h));
      var actual := BlockHash(leaves, d, 2 * b) + BlockHash(leaves, d, 2 * b + 1);
      if claimed == actual {
        var c := if ws[d].direction == Left then 2 * b + 1 else 2 * b;
        JoinedParts(ws[d], Fold(ws[..d], h), BlockHash(leaves, d, 2 * b), BlockHash(leaves, d, 2 * b + 1));
        FoldSound(leaves, c, ws[..d], h);
        if Divergence(leaves, b, ws, h).None? {
          GenuineStep(leaves, b, ws, h, c, 4 * b + 1 - c);
        }
      }
    }
  }

  lemma {:induction false} JoinedParts(w: Witness, h: Hash, left: Hash, right: Hash)
    requires Joined(w, h) == left + right
    ensures if w.direction == Left then w.hashValue == left && h == right else h == left && w.hashValue == right
  {
    assert Joined(w, h)[..32] == left && Joined(w, h)[32..] == right;
  }

  /** The last direction picks the half of block `b` that the position lies in. */
  lemma {:induction false} PositionStep(b: int, ws: seq<Witness>)
    requires ws != []
    ensures var d := |ws| - 1;
            var idx := Shl(b, |ws|) + Position(ws);
            && Shr(idx, |ws|) == b
            && idx == Shl(if ws[d].direction == Left then 2 * b + 1 else 2 * b, d) + Position(ws[..d])
  {
    PositionBound(ws);
    ShiftUnique(b, Position(ws), |ws|);
    ShlAdd(2 * b, 1, |ws| - 1);
  }

  /** One more step of a path: the sibling of block `c` below block `b` is block `o`. */
  lemma {:induction false} PathStep(leaves: seq<Hash>, idx: int, ws: seq<Witness>, b: int, c: int, o: int)
    requires ws != [] && HasBlock(leaves, |ws|, b) && Shr(idx, |ws|) == b
    requires Covered(leaves, idx, |ws| - 1) && Shr(idx, |ws| - 1) == c && ws[..|ws| - 1] == Path(leaves, idx, |ws| - 1)
    requires if ws[|ws| - 1].direction == Left then c == 2 * b + 1 && o == 2 * b else c == 2 * b && o == 2 * b + 1
    requires HasBlock(leaves, |ws| - 1, o) && ws[|ws| - 1].hashValue == BlockHash(leaves, |ws| - 1, o)
    ensures Covered(leaves, idx, |ws|) && ws == Path(leaves, idx, |ws|)
  {
    var d := |ws| - 1;
    assert ws == ws[..d] + [ws[d]];
    assert ws[d] == Sibling(leaves, idx, d);
  }

  lemma {:induction false} GenuineStep(leaves: seq<Hash>, b: int, ws: seq<Witness>, h: Hash, c: int, o: int)
    requires ws != [] && HasBlock(leaves, |ws|, b)
    requires if ws[|ws| - 1].direction == Left then c == 2 * b + 1 && o == 2 * b else c == 2 * b && o == 2 * b + 1
    requires HasBlock(leaves, |ws| - 1, c) && Genuine(leaves, c, ws[..|ws| - 1], h)
    requires HasBlock(leaves, |ws| - 1, o) && ws[|ws| - 1].hashValue == BlockHash(leaves, |ws| - 1, o)
    ensures Genuine(leaves, b, ws, h)
  {
    PositionStep(b, ws);
    PathStep(leaves, Shl(b, |ws|) + Position(ws), ws, b, c, o);
  }

}
