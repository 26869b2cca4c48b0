/**
 The accumulator's tree nodes on the heap: hash nodes that are resolved lazily
 from a bucket, branch nodes that cache their digest, and data nodes.

 A node's ghost `shape` says which part of its tree is in memory. Everything about
 the bucket is stated on shapes, so it does not depend on the heap of nodes.
 */
module MtaNode {
  import opened Bytes
  import opened BitOps
  import opened Merkle

  class Bucket {
    var data: map<Bytes, Bytes>

    constructor ()
      ensures data == map[]
    {
      data := map[];
    }

    /** A missing key reads as no bytes. */
    method Get(key: Bytes) returns (value: Bytes)
      ensures value == if key in data then data[key] else []
    {
      value := if key in data then data[key] else [];
    }

    method Set(key: Bytes, value: Bytes) returns (ok: bool)
      modifies this
      ensures ok == (key != [])
      ensures data == if ok then old(data)[key := value] else old(data)
    {
      ok := key != [];
      if ok { data := data[key := value]; }
    }
  }

  datatype State = Dirty | Hashed | Flushed

  datatype Kind = HashNode | BranchNode | DataNode

  datatype NodeError = InvalidDepth | InvalidData

  /** `Alien` is a branch that was read in under a key that is not its digest; the key is what it goes by. */
  datatype Shape =
    | Stub(tree: Tree)
    | Data(stored: bool, data: Bytes)
    | Fork(stored: bool, left: Shape, right: Shape)
    | Alien(key: Hash, left: Shape, right: Shape)

  function TreeOf(s: Shape): Tree {
    match s
    case Stub(t) => t
    case Data(_, d) => Leaf(Sha3(d))
    case Fork(_, l, r) => Branch(TreeOf(l), TreeOf(r))
    case Alien(key, _, _) => Leaf(key)
  }

  // ---- what the bucket holds

  /** Every branch of `t` can be read back from `m` by its digest. */
  predicate Resolvable(m: map<Bytes, Bytes>, t: Tree) {
    match t
    case Leaf(_) => true
    case Branch(l, r) =>
      && TreeHash(t) in m && m[TreeHash(t)] == TreeHash(l) + TreeHash(r)
      && Resolvable(m, l) && Resolvable(m, r)
  }

  /** `d` can be read back from `m` by its digest. */
  predicate Holds(m: map<Bytes, Bytes>, d: Bytes) {
    Sha3(d) in m && m[Sha3(d)] == d
  }

  /** The data in memory that was never stored. */
  function Pending(s: Shape): set<Bytes> {
    match s
    case Stub(_) => {}
    case Data(stored, d) => if stored then {} else {d}
    case Fork(_, l, r) => Pending(l) + Pending(r)
    case Alien(_, l, r) => Pending(l) + Pending(r)
  }

  /** All that `s` has not in memory, or counts as stored, can be read back from `m`. */
  predicate Backed(m: map<Bytes, Bytes>, s: Shape) {
    match s
    case Stub(t) => Resolvable(m, t)
    case Data(stored, d) => stored ==> Holds(m, d)
    case Fork(stored, l, r) =>
      && (stored ==> Resolvable(m, TreeOf(s)) && Pending(s) == {})
      && Backed(m, l) && Backed(m, r)
    case Alien(_, _, _) => false
  }

  /** The values a flush of `s` writes, each under its digest, in order. */
  function Writes(s: Shape): seq<Bytes> {
    match s
    case Stub(_) => []
    case Data(stored, d) => if stored then [] else [d]
    case Fork(stored, l, r) =>
      if stored then [] else Writes(l) + Writes(r) + [TreeHash(TreeOf(l)) + TreeHash(TreeOf(r))]
    case Alien(_, _, _) => []
  }

  function AfterFlush(s: Shape): Shape {
    match s
    case Stub(_) => s
    case Data(_, d) => Data(true, d)
    case Fork(stored, l, r) => if stored then s else Fork(true, AfterFlush(l), AfterFlush(r))
    case Alien(_, _, _) => s
  }

  function Puts(m: map<Bytes, Bytes>, vs: seq<Bytes>): map<Bytes, Bytes> {
    if vs == [] then m else Puts(m, vs[..|vs| - 1])[Sha3(vs[|vs| - 1]) := vs[|vs| - 1]]
  }

  lemma {:induction false} PutsConcat(m: map<Bytes, Bytes>, a: seq<Bytes>, b: seq<Bytes>)
    ensures Puts(m, a + b) == Puts(Puts(m, a), b)
    decreases |b|
  {
    if b == [] {
      assert a + b == a;
    } else {
      assert (a + b)[..|a + b| - 1] == a + b[..|b| - 1];
      PutsConcat(m, a, b[..|b| - 1]);
    }
  }

  /** `v` can be put under its digest without replacing a different value. */
  predicate Fits(m: map<Bytes, Bytes>, v: Bytes) {
    Sha3(v) in m ==> m[Sha3(v)] == v
  }

  /** No two values that meet in the bucket, old or new, share a digest. */
  predicate NoClash(m: map<Bytes, Bytes>, vs: seq<Bytes>) {
    && (forall v <- vs :: Fits(m, v))
    && forall u <- vs, v <- vs :: Sha3(u) == Sha3(v) ==> u == v
  }

  predicate Extends(m: map<Bytes, Bytes>, m': map<Bytes, Bytes>) {
    forall k <- m :: k in m' && m'[k] == m[k]
  }

  lemma {:induction false} PutsExtend(m: map<Bytes, Bytes>, vs: seq<Bytes>)
    requires NoClash(m, vs)
    ensures Extends(m, Puts(m, vs))
    ensures forall v <- vs :: Holds(Puts(m, vs), v)
    ensures forall k <- Puts(m, vs) :: k in m || exists v <- vs :: k == Sha3(v)
    decreases |vs|
  {
    if vs != [] {
      var n := |vs| - 1;
      var v := vs[n];
      var before := Puts(m, vs[..n]);
      assert vs == vs[..n] + [v];
      PutsExtend(m, vs[..n]);
      assert Fits(before, v) by {
        if Sha3(v) in before && Sha3(v) !in m {
          var u :| u in vs[..n] && Sha3(v) == Sha3(u);
          assert u in vs;
        }
      }
      assert Extends(before, before[Sha3(v) := v]);
    }
  }

  /** All that is stored, but for the value under `key`, is stored under its own digest. */
  predicate StoresByDigest(m: map<Bytes, Bytes>, key: Bytes) {
    forall k <- m :: k == key || Sha3(m[k]) == k
  }

  lemma {:induction false} PutsByDigest(m: map<Bytes, Bytes>, vs: seq<Bytes>, key: Bytes)
    requires StoresByDigest(m, key)
    ensures StoresByDigest(Puts(m, vs), key)
  {
    if vs != [] { PutsByDigest(m, vs[..|vs| - 1], key); }
  }

  /** Two different values that writing `vs` to `m` puts under one digest. */
  ghost function Clash(m: map<Bytes, Bytes>, vs: seq<Bytes>): Option<(Bytes, Bytes)> {
    if v :| v in vs && !Fits(m, v) then Some((v, m[Sha3(v)]))
    else if u, v :| u in vs && v in vs && Sha3(u) == Sha3(v) && u != v then Some((u, v))
    else None
  }

  lemma {:induction false} ClashNone(m: map<Bytes, Bytes>, vs: seq<Bytes>)
    ensures Clash(m, vs).None? <==> NoClash(m, vs)
  {
  }

  /** In a bucket that stores by digest, a clash is a collision. */
  lemma {:induction false} ClashIsCollision(m: map<Bytes, Bytes>, vs: seq<Bytes>, key: Bytes)
    requires StoresByDigest(m, key) && forall v <- vs :: Sha3(v) != key
    ensures Clash(m, vs).Some? ==> Collides(Clash(m, vs).value)
  {
  }

  lemma {:induction false} ResolvableMono(m: map<Bytes, Bytes>, m': map<Bytes, Bytes>, t: Tree)
    requires Extends(m, m') && Resolvable(m, t)
    ensures Resolvable(m', t)
  {
    if t.Branch? {
      ResolvableMono(m, m', t.left);
      ResolvableMono(m, m', t.right);
    }
  }

  lemma {:induction false} BackedMono(m: map<Bytes, Bytes>, m': map<Bytes, Bytes>, s: Shape)
    requires Extends(m, m') && Backed(m, s)
    ensures Backed(m', s)
  {
    match s
    case Stub(t) => ResolvableMono(m, m', t);
    case Data(_, _) =>
    case Fork(stored, l, r) =>
      if stored { ResolvableMono(m, m', TreeOf(s)); }
      BackedMono(m, m', l);
      BackedMono(m, m', r);
    case Alien(_, _, _) =>
  }

  lemma {:induction false} AfterFlushTree(s: Shape)
    ensures TreeOf(AfterFlush(s)) == TreeOf(s)
    ensures Writes(AfterFlush(s)) == []
  {
    if s.Fork? {
      AfterFlushTree(s.left);
      AfterFlushTree(s.right);
    }
  }

  /** A bucket that holds all the writes of a backed shape can give back its whole tree and all of its data. */
  lemma {:induction false} FlushResolves(m: map<Bytes, Bytes>, m': map<Bytes, Bytes>, s: Shape)
    requires Extends(m, m') && Backed(m, s)
    requires forall v <- Writes(s) :: Holds(m', v)
    ensures Resolvable(m', TreeOf(s))
    ensures Backed(m', AfterFlush(s))
    ensures Pending(AfterFlush(s)) == {} && forall d <- Pending(s) :: Holds(m', d)
  {
    match s
    case Stub(t) => ResolvableMono(m, m', t);
    case Data(_, _) =>
    case Fork(stored, l, r) =>
      if stored {
        BackedMono(m, m', s);
      } else {
        assert Writes(s)[|Writes(s)| - 1] in Writes(s);
        FlushResolves(m, m', l);
        FlushResolves(m, m', r);
        AfterFlushTree(l);
        AfterFlushTree(r);
      }
    case Alien(_, _, _) =>
  }

  // ---- witnesses on one tree

  function TreePath(t: Tree, depth: nat, idx: int): seq<Witness>
    requires Perfect(t, depth)
  {
    if t.Leaf? then []
    else
      var bound := Shl(1, depth - 1);
      if idx < bound then TreePath(t.left, depth - 1, idx) + [Witness(Right, TreeHash(t.right))]
      else TreePath(t.right, depth - 1, idx - bound) + [Witness(Left, TreeHash(t.left))]
  }

  /** An index below 0 descends to the first leaf. */
  lemma {:induction false} TreePathNegative(t: Tree, depth: nat, idx: int)
    requires Perfect(t, depth) && idx < 0
    ensures TreePath(t, depth, idx) == TreePath(t, depth, 0)
  {
    if t.Branch? {
      ShlPositive(depth - 1);
      TreePathNegative(t.left, depth - 1, idx);
    }
  }

  /** The two halves of a block. */
  lemma {:induction false} Halves(leaves: seq<Hash>, d: nat, b: int)
    requires HasBlock(leaves, d, b) && d > 0
    ensures HasBlock(leaves, d - 1, 2 * b) && HasBlock(leaves, d - 1, 2 * b + 1)
    ensures BlockTree(leaves, d, b) == Branch(BlockTree(leaves, d - 1, 2 * b), BlockTree(leaves, d - 1, 2 * b + 1))
    ensures Shl(b, d) == Shl(2 * b, d - 1) && Shl(2 * b + 1, d - 1) == Shl(b, d) + Shl(1, d - 1)
    ensures Shl(1, d) == 2 * Shl(1, d - 1) && Shl(1, d - 1) >= 1
  {
    BlockHashStep(leaves, d, b);
    ShlDouble(1, d);
    ShlAdd(2 * b, 1, d - 1);
    ShlPositive(d - 1);
  }

  /** On the tree of a block, the recursive descent finds the siblings of the leaf. */
  lemma {:induction false} TreePathIsPath(leaves: seq<Hash>, d: nat, b: int, k: nat)
    requires HasBlock(leaves, d, b) && k < Shl(1, d)
    ensures Perfect(BlockTree(leaves, d, b), d)
    ensures InBlock(leaves, d, b, k)
    ensures TreePath(BlockTree(leaves, d, b), d, k) == Path(leaves, Shl(b, d) + k, d)
    decreases d
  {
    BlockPerfect(leaves, d, b);
    InBlockHolds(leaves, d, b, k);
    if d > 0 {
      Halves(leaves, d, b);
      var bound := Shl(1, d - 1);
      if k < bound {
        TreePathIsPath(leaves, d - 1, 2 * b, k);
      } else {
        TreePathIsPath(leaves, d - 1, 2 * b + 1, k - bound);
      }
      PathUnfold(leaves, Shl(b, d) + k, d);
    }
  }

  /** Leaf `k` of block `b` has that block around it. */
  predicate InBlock(leaves: seq<Hash>, d: nat, b: int, k: nat) {
    Shr(Shl(b, d) + k, d) == b && Covered(leaves, Shl(b, d) + k, d)
  }

  lemma {:induction false} InBlockHolds(leaves: seq<Hash>, d: nat, b: int, k: nat)
    requires HasBlock(leaves, d, b) && k < Shl(1, d)
    ensures InBlock(leaves, d, b, k)
  {
    ShlPositive(d);
    ShiftUnique(b, k, d);
    ShlMono(0, b, d);
  }

  lemma {:induction false} PathUnfold(leaves: seq<Hash>, idx: int, d: nat)
    requires Covered(leaves, idx, d) && d > 0
    ensures Covered(leaves, idx, d - 1)
    ensures Path(leaves, idx, d) == Path(leaves, idx, d - 1) + [Sibling(leaves, idx, d - 1)]
  {
    CoveredStep(leaves, idx, d);
  }

  /** The leaf that the same descent ends at. */
  function TreeLeaf(t: Tree, depth: nat, idx: int): Hash
    requires Perfect(t, depth)
  {
    if t.Leaf? then t.hash
    else
      var bound := Shl(1, depth - 1);
      if idx < bound then TreeLeaf(t.left, depth - 1, idx) else TreeLeaf(t.right, depth - 1, idx - bound)
  }

  lemma {:induction false} TreeLeafIsLeaf(leaves: seq<Hash>, d: nat, b: int, k: int)
    requires HasBlock(leaves, d, b) && k < Shl(1, d)
    ensures Perfect(BlockTree(leaves, d, b), d)
    ensures var idx := Shl(b, d) + if k < 0 then 0 else k;
            0 <= idx < |leaves| && TreeLeaf(BlockTree(leaves, d, b), d, k) == leaves[idx]
    decreases d
  {
    BlockPerfect(leaves, d, b);
    if d > 0 {
      Halves(leaves, d, b);
      var bound := Shl(1, d - 1);
      if k < bound {
        TreeLeafIsLeaf(leaves, d - 1, 2 * b, k);
      } else {
        TreeLeafIsLeaf(leaves, d - 1, 2 * b + 1, k - bound);
      }
    }
  }

  // ---- walking down, on shapes

  /** What a hash node for `t` reads as: a stored branch over two hash nodes, if 64 bytes are there. */
  function Fetch(m: map<Bytes, Bytes>, t: Tree): (s: Option<Shape>)
    ensures s.Some? ==> s.value.Fork? || s.value.Alien?
  {
    if TreeHash(t) !in m || |m[TreeHash(t)]| != 2 * HASH_SIZE then None
    else
      var bs := m[TreeHash(t)];
      var l, r := Stub(Leaf(bs[..HASH_SIZE])), Stub(Leaf(bs[HASH_SIZE..]));
      if t.Branch? && bs == TreeHash(t.left) + TreeHash(t.right) then Some(Fork(true, Stub(t.left), Stub(t.right)))
      else if Sha3(bs) == TreeHash(t) then Some(Fork(true, l, r))
      else Some(Alien(TreeHash(t), l, r))
  }

  /** The siblings collected from leaf `idx` up, or the error, and the shape with what was read on the way. */
  function Walk(m: map<Bytes, Bytes>, s: Shape, depth: int, idx: int): (Result<seq<Witness>, NodeError>, Shape)
    decreases if depth < 0 then 0 else depth, if s.Stub? then 1 else 0
  {
    match s
    case Data(_, _) => (if depth > 0 then Err(InvalidDepth) else Ok([]), s)
    case Stub(t) =>
      if depth < 1 then (Ok([]), s)
      else if Fetch(m, t).None? then (Err(InvalidData), s)
      else Walk(m, Fetch(m, t).value, depth, idx)
    case Fork(stored, l, r) =>
      if depth < 1 then (Err(InvalidDepth), s)
      else if idx < Shl(1, depth - 1) then
        var (ws, l') := Walk(m, l, depth - 1, idx);
        (Climb(ws, Witness(Right, TreeHash(TreeOf(r)))), Fork(stored, l', r))
      else
        var (ws, r') := Walk(m, r, depth - 1, idx - Shl(1, depth - 1));
        (Climb(ws, Witness(Left, TreeHash(TreeOf(l)))), Fork(stored, l, r'))
    case Alien(key, l, r) =>
      if depth < 1 then (Err(InvalidDepth), s)
      else if idx < Shl(1, depth - 1) then
        var (ws, l') := Walk(m, l, depth - 1, idx);
        (Climb(ws, Witness(Right, TreeHash(TreeOf(r)))), Alien(key, l', r))
      else
        var (ws, r') := Walk(m, r, depth - 1, idx - Shl(1, depth - 1));
        (Climb(ws, Witness(Left, TreeHash(TreeOf(l)))), Alien(key, l, r'))
  }

  function Climb(ws: Result<seq<Witness>, NodeError>, w: Witness): Result<seq<Witness>, NodeError> {
    if ws.Ok? then Ok(ws.value + [w]) else ws
  }

  /** Whatever is read, and whether the walk fails or not, no digest changes. */
  lemma {:induction false} WalkKeepsDigest(m: map<Bytes, Bytes>, s: Shape, depth: int, idx: int)
    ensures TreeHash(TreeOf(Walk(m, s, depth, idx).1)) == TreeHash(TreeOf(s))
    decreases if depth < 0 then 0 else depth, if s.Stub? then 1 else 0
  {
    if depth >= 1 {
      match s
      case Data(_, _) =>
      case Stub(t) =>
        if Fetch(m, t).Some? {
          FetchDigest(m, t);
          WalkKeepsDigest(m, Fetch(m, t).value, depth, idx);
        }
      case Fork(_, l, r) =>
        if idx < Shl(1, depth - 1) {
          WalkKeepsDigest(m, l, depth - 1, idx);
        } else {
          WalkKeepsDigest(m, r, depth - 1, idx - Shl(1, depth - 1));
        }
      case Alien(_, _, _) =>
    }
  }

  /** No walk loses data that was never stored. */
  lemma {:induction false} WalkKeepsPending(m: map<Bytes, Bytes>, s: Shape, depth: int, idx: int)
    ensures Pending(Walk(m, s, depth, idx).1) == Pending(s)
    decreases if depth < 0 then 0 else depth, if s.Stub? then 1 else 0
  {
    if depth >= 1 {
      match s
      case Data(_, _) =>
      case Stub(t) => if Fetch(m, t).Some? { WalkKeepsPending(m, Fetch(m, t).value, depth, idx); }
      case _ =>
        if idx < Shl(1, depth - 1) {
          WalkKeepsPending(m, s.left, depth - 1, idx);
        } else {
          WalkKeepsPending(m, s.right, depth - 1, idx - Shl(1, depth - 1));
        }
    }
  }

  lemma {:induction false} FetchDigest(m: map<Bytes, Bytes>, t: Tree)
    requires Fetch(m, t).Some?
    ensures TreeHash(TreeOf(Fetch(m, t).value)) == TreeHash(t)
  {
    var bs := m[TreeHash(t)];
    assert bs[..HASH_SIZE] + bs[HASH_SIZE..] == bs;
  }

  /** A branch whose parts can be read back is fetched as it was. */
  lemma {:induction false} FetchBranch(m: map<Bytes, Bytes>, t: Tree)
    requires t.Branch? && Resolvable(m, t)
    ensures Fetch(m, t) == Some(Fork(true, Stub(t.left), Stub(t.right)))
    ensures Sha3(m[TreeHash(t)]) == TreeHash(t) && TreeOf(Fetch(m, t).value) == t && Backed(m, Fetch(m, t).value)
  {
  }

  /** On a perfect tree backed by the bucket the walk finds the path, and changes no tree. */
  lemma {:induction false} WalkPerfect(m: map<Bytes, Bytes>, s: Shape, depth: nat, idx: int)
    requires Perfect(TreeOf(s), depth) && Backed(m, s)
    ensures var (ws, s') := Walk(m, s, depth, idx);
            ws == Ok(TreePath(TreeOf(s), depth, idx)) && TreeOf(s') == TreeOf(s) && Backed(m, s')
    decreases depth, if s.Stub? then 1 else 0
  {
    if depth >= 1 {
      match s
      case Stub(t) =>
        FetchBranch(m, t);
        WalkPerfect(m, Fetch(m, t).value, depth, idx);
      case Fork(_, l, r) =>
        WalkPerfect(m, l, depth - 1, idx);
        WalkPerfect(m, r, depth - 1, idx - Shl(1, depth - 1));
        WalkKeepsPending(m, s, depth, idx);
    }
  }

  /** Where the walk to leaf `idx` ends, or where it fails. */
  function Find(m: map<Bytes, Bytes>, s: Shape, depth: int, idx: int): (Shape, Option<NodeError>)
    decreases if depth < 0 then 0 else depth, if s.Stub? then 1 else 0
  {
    match s
    case Data(_, _) => (s, if depth > 0 then Some(InvalidDepth) else None)
    case Stub(t) =>
      if depth < 1 then (s, None)
      else if Fetch(m, t).None? then (s, Some(InvalidData))
      else Find(m, Fetch(m, t).value, depth, idx)
    case Fork(_, l, r) =>
      if depth < 1 then (s, Some(InvalidDepth))
      else if idx < Shl(1, depth - 1) then Find(m, l, depth - 1, idx)
      else Find(m, r, depth - 1, idx - Shl(1, depth - 1))
    case Alien(_, l, r) =>
      if depth < 1 then (s, Some(InvalidDepth))
      else if idx < Shl(1, depth - 1) then Find(m, l, depth - 1, idx)
      else Find(m, r, depth - 1, idx - Shl(1, depth - 1))
  }

  /**
   A leaf's witness cannot be had exactly when its node is not found, with the same error;
   so it is for a branch that was added as if it were a leaf.
   */
  lemma {:induction false} WalkFailsAsFind(m: map<Bytes, Bytes>, s: Shape, depth: int, idx: int)
    ensures match Walk(m, s, depth, idx).0
            case Ok(ws) => Find(m, s, depth, idx).1 == None && |ws| == if depth < 0 then 0 else depth
            case Err(e) => Find(m, s, depth, idx).1 == Some(e)
    ensures Find(m, s, depth, idx).0.Fork? ==> Walk(m, s, depth, idx).0 == Err(InvalidDepth)
    decreases if depth < 0 then 0 else depth, if s.Stub? then 1 else 0
  {
    if depth >= 1 {
      match s
      case Data(_, _) =>
      case Stub(t) => if Fetch(m, t).Some? { WalkFailsAsFind(m, Fetch(m, t).value, depth, idx); }
      case _ =>
        if idx < Shl(1, depth - 1) {
          WalkFailsAsFind(m, s.left, depth - 1, idx);
        } else {
          WalkFailsAsFind(m, s.right, depth - 1, idx - Shl(1, depth - 1));
        }
    }
  }

  lemma {:induction false} FindPerfect(m: map<Bytes, Bytes>, s: Shape, depth: nat, idx: int)
    requires Perfect(TreeOf(s), depth) && Backed(m, s)
    ensures var (s', err) := Find(m, s, depth, idx);
            err == None && TreeOf(s') == Leaf(TreeLeaf(TreeOf(s), depth, idx))
    decreases depth, if s.Stub? then 1 else 0
  {
    if depth >= 1 {
      match s
      case Stub(t) =>
        FetchBranch(m, t);
        FindPerfect(m, Fetch(m, t).value, depth, idx);
      case Fork(_, l, r) =>
        FindPerfect(m, l, depth - 1, idx);
        FindPerfect(m, r, depth - 1, idx - Shl(1, depth - 1));
    }
  }

  // ---- the nodes

  /** One step of a walk down a branch, to the left or to the right. */
  lemma {:induction false} WalkLeft(m: map<Bytes, Bytes>, s: Shape, depth: int, idx: int)
    requires depth > 0 && (s.Fork? || s.Alien?) && idx < Shl(1, depth - 1)
    ensures var down := Walk(m, s.left, depth - 1, idx);
            Walk(m, s, depth, idx) == (Climb(down.0, Witness(Right, TreeHash(TreeOf(s.right)))), s.(left := down.1))
  {
  }

  lemma {:induction false} WalkRight(m: map<Bytes, Bytes>, s: Shape, depth: int, idx: int, rest: int)
    requires depth > 0 && (s.Fork? || s.Alien?) && rest == idx - Shl(1, depth - 1) >= 0
    ensures var down := Walk(m, s.right, depth - 1, rest);
            Walk(m, s, depth, idx) == (Climb(down.0, Witness(Left, TreeHash(TreeOf(s.left)))), s.(right := down.1))
  {
  }

  /** The fields of a branch node agree with its shape. */
  ghost predicate Branching(state: State, hashValue: Bytes, serialized: Bytes, s: Shape) {
    && (s.Fork? || s.Alien?)
    && (state != Dirty ==> serialized == TreeHash(TreeOf(s.left)) + TreeHash(TreeOf(s.right)))
    && match s
       case Fork(stored, _, _) => stored == (state == Flushed) && (state != Dirty ==> hashValue == Sha3(serialized))
       case Alien(key, _, _) => state == Flushed && hashValue == key != Sha3(serialized)
       case _ => false
  }

  lemma {:induction false} BranchingKept(
    state: State, hashValue: Bytes, serialized: Bytes, s: Shape, l: Shape, r: Shape)
    requires Branching(state, hashValue, serialized, s)
    requires TreeHash(TreeOf(l)) == TreeHash(TreeOf(s.left)) && TreeHash(TreeOf(r)) == TreeHash(TreeOf(s.right))
    ensures Branching(state, hashValue, serialized, s.(left := l, right := r))
  {
  }

  class Node {
    const bucket: Bucket
    const kind: Kind
    var state: State
    var hashValue: Bytes
    var serialized: Bytes
    var data: Bytes
    var left: Node?
    var right: Node?
    ghost var shape: Shape
    ghost var Repr: set<Node>

    ghost predicate Valid()
      reads this, Repr
      decreases Repr
      ensures Valid() ==> this in Repr
    {
      && this in Repr
      && match kind
         case HashNode => shape.Stub? && hashValue == TreeHash(shape.tree)
         case DataNode =>
           && shape == Data(state == Flushed, data)
           && (state != Dirty ==> hashValue == Sha3(data))
         case BranchNode =>
           && left != null && left in Repr && left.Repr <= Repr && this !in left.Repr && left.Valid()
           && right != null && right in Repr && right.Repr <= Repr && this !in right.Repr && right.Valid()
           && left.Repr !! right.Repr && Repr == {this} + left.Repr + right.Repr
           && left.bucket == bucket && right.bucket == bucket
           && Branching(state, hashValue, serialized, shape)
           && shape.left == left.shape && shape.right == right.shape
    }

    constructor OfHash(bucket: Bucket, h: Hash, ghost tree: Tree)
      requires TreeHash(tree) == h
      ensures Valid() && fresh(Repr) && this.bucket == bucket && shape == Stub(tree)
    {
      this.bucket := bucket;
      kind, state, hashValue := HashNode, Dirty, h;
      serialized, data, left, right := [], [], null, null;
      shape := Stub(tree);
      Repr := {this};
    }

    constructor OfData(bucket: Bucket, d: Bytes)
      ensures Valid() && fresh(Repr) && this.bucket == bucket && shape == Data(false, d)
    {
      this.bucket := bucket;
      kind, state, hashValue := DataNode, Dirty, [];
      serialized, data, left, right := [], d, null, null;
      shape := Data(false, d);
      Repr := {this};
    }

    constructor OfChildren(bucket: Bucket, l: Node, r: Node)
      requires l.Valid() && r.Valid() && l.Repr !! r.Repr && l.bucket == bucket == r.bucket
      ensures Valid() && Repr == {this} + l.Repr + r.Repr && fresh(this) && this.bucket == bucket
      ensures shape == Fork(false, l.shape, r.shape)
    {
      this.bucket := bucket;
      kind, state, hashValue := BranchNode, Dirty, [];
      serialized, data, left, right := [], [], l, r;
      shape := Fork(false, l.shape, r.shape);
      Repr := {this} + l.Repr + r.Repr;
    }

    /** A branch read back from the bucket, whatever its digest: its children are hash nodes. */
    constructor OfStored(bucket: Bucket, h: Hash, bs: Bytes, l: Node, r: Node)
      requires l.Valid() && r.Valid() && l.Repr !! r.Repr && l.bucket == bucket == r.bucket
      requires bs == TreeHash(TreeOf(l.shape)) + TreeHash(TreeOf(r.shape))
      ensures Valid() && Repr == {this} + l.Repr + r.Repr && fresh(this) && this.bucket == bucket
      ensures kind == BranchNode
      ensures shape == if h == Sha3(bs) then Fork(true, l.shape, r.shape) else Alien(h, l.shape, r.shape)
    {
      this.bucket := bucket;
      kind, state, hashValue := BranchNode, Flushed, h;
      serialized, data, left, right := bs, [], l, r;
      shape := if h == Sha3(bs) then Fork(true, l.shape, r.shape) else Alien(h, l.shape, r.shape);
      Repr := {this} + l.Repr + r.Repr;
    }

    /** The digest of the node's tree; caching it changes nothing else. */
    method Hash() returns (h: Hash)
      requires Valid()
      modifies Repr
      ensures Valid() && Repr == old(Repr) && shape == old(shape)
      ensures h == TreeHash(TreeOf(shape))
      ensures kind != HashNode ==> state != Dirty && hashValue == h
      ensures kind == BranchNode ==> left == old(left) && right == old(right)
      decreases shape
    {
      match kind
      case HashNode =>
        h := hashValue;
      case DataNode =>
        if state == Dirty {
          hashValue := Sha3(data);
          state := Hashed;
        }
        h := hashValue;
      case BranchNode =>
        if state == Dirty { HashBranch(); }
        h := hashValue;
    }

    method HashBranch()
      requires Valid() && kind == BranchNode && state == Dirty
      modifies Repr
      ensures Valid() && Repr == old(Repr) && shape == old(shape) && state == Hashed
      ensures left == old(left) && right == old(right)
      decreases shape, 1
    {
      var lh, rh := ChildHashes();
      serialized := lh + rh;
      hashValue := Sha3(serialized);
      state := Hashed;
    }

    method ChildHashes() returns (lh: Bytes, rh: Bytes)
      requires Valid() && kind == BranchNode
      modifies left.Repr, right.Repr
      ensures Valid() && Repr == old(Repr) && shape == old(shape)
      ensures lh == TreeHash(TreeOf(left.shape)) && rh == TreeHash(TreeOf(right.shape))
      decreases shape, 0
    {
      lh := left.Hash();
      rh := right.Hash();
    }

    /** Writes exactly the unstored parts of the tree, children first, each under its digest. */
    method Flush() returns (ok: bool)
      requires Valid()
      modifies Repr, bucket
      ensures ok
      ensures Valid() && Repr == old(Repr) && shape == AfterFlush(old(shape))
      ensures bucket.data == Puts(old(bucket.data), Writes(old(shape)))
      decreases shape
    {
      ok := true;
      match kind
      case HashNode =>
      case DataNode =>
        if state != Flushed {
          var h := Hash();
          assert Writes(shape)[..0] == [];
          ok := bucket.Set(h, data);
          state := Flushed;
          shape := Data(true, data);
        }
      case BranchNode =>
        if state != Flushed { ok := FlushBranch(); }
    }

    method FlushBranch() returns (ok: bool)
      requires Valid() && kind == BranchNode && state != Flushed
      modifies Repr, bucket
      ensures ok
      ensures Valid() && Repr == old(Repr) && shape == AfterFlush(old(shape))
      ensures bucket.data == Puts(old(bucket.data), Writes(old(shape)))
      decreases shape, 0
    {
      ghost var l, r := left.shape, right.shape;
      AfterFlushTree(l);
      AfterFlushTree(r);
      ok := left.Flush();
      ok := right.Flush();
      SetChildren(left, right);
      ok := StoreBranch();
      FlushOrder(old(bucket.data), l, r);
    }

    /** Writes one branch node whose children are already stored. */
    method StoreBranch() returns (ok: bool)
      requires Valid() && kind == BranchNode && state != Flushed
      modifies Repr, bucket
      ensures ok
      ensures Valid() && Repr == old(Repr) && shape == Fork(true, old(shape).left, old(shape).right)
      ensures var v := TreeHash(TreeOf(shape.left)) + TreeHash(TreeOf(shape.right));
              bucket.data == old(bucket.data)[Sha3(v) := v]
    {
      var h := Hash();
      ok := bucket.Set(h, serialized);
      state := Flushed;
      shape := Fork(true, shape.left, shape.right);
    }

    /**
     Reads a hash node's branch back from the bucket; its children are hash nodes again. A
     missing value, or one of another length than a branch's, is invalid.
     */
    method Resolve() returns (n: Node, err: Option<NodeError>)
      requires Valid() && kind == HashNode
      ensures match Fetch(bucket.data, shape.tree)
              case None => n == this && err == Some(InvalidData)
              case Some(s) => err == None && n.Valid() && fresh(n.Repr) && n.bucket == bucket && n.shape == s
    {
      var bs := bucket.Get(hashValue);
      if |bs| != 2 * HASH_SIZE {
        n, err := this, Some(InvalidData);
      } else {
        ghost var s := Fetch(bucket.data, shape.tree).value;
        assert bs[..HASH_SIZE] + bs[HASH_SIZE..] == bs;
        var l := new Node.OfHash(bucket, bs[..HASH_SIZE], s.left.tree);
        var r := new Node.OfHash(bucket, bs[HASH_SIZE..], s.right.tree);
        n := new Node.OfStored(bucket, hashValue, bs, l, r);
        err := None;
      }
    }

    /**
     The node of leaf `idx`, or the one where the depth or the bucket fails; nodes read in on
     the way are not kept.
     */
    method Descend(depth: int, idx: int) returns (n: Node, err: Option<NodeError>)
      requires Valid()
      ensures n.Valid() && (n.shape, err) == Find(bucket.data, shape, depth, idx)
      decreases if depth < 0 then 0 else depth, if kind == HashNode then 1 else 0
    {
      match kind
      case BranchNode =>
        if depth < 1 {
          n, err := this, Some(InvalidDepth);
        } else if idx < Shl(1, depth - 1) {
          n, err := left.Descend(depth - 1, idx);
        } else {
          n, err := right.Descend(depth - 1, idx - Shl(1, depth - 1));
        }
      case HashNode =>
        if depth < 1 {
          n, err := this, None;
        } else {
          n, err := Resolve();
          if err == None {
            n, err := n.Descend(depth, idx);
          }
        }
      case DataNode =>
        n, err := this, if depth > 0 then Some(InvalidDepth) else None;
    }

    /**
     Appends the witness of leaf `idx` and returns the node that replaces this one; after an
     error there is no witness. Nodes may be read in from the bucket on the way.
     */
    method WitnessFor(depth: int, idx: int, w: seq<Witness>)
      returns (n: Node, ws: seq<Witness>, err: Option<NodeError>)
      requires Valid()
      modifies Repr
      ensures n.Valid() && n.bucket == bucket && fresh(n.Repr - old(Repr))
      ensures n.shape == Walk(bucket.data, old(shape), depth, idx).1
      ensures Collected(Walk(bucket.data, old(shape), depth, idx).0, w, ws, err)
      decreases if depth < 0 then 0 else depth, if kind == HashNode then 1 else 0
    {
      match kind
      case HashNode =>
        if depth < 1 {
          n, ws, err := this, w, None;
          assert w + [] == w;
        } else {
          var b, e := Resolve();
          if e.Some? {
            n, ws, err := this, [], e;
          } else {
            n, ws, err := b.WitnessFor(depth, idx, w);
          }
        }
      case DataNode =>
        n := this;
        if depth > 0 {
          ws, err := [], Some(InvalidDepth);
        } else {
          ws, err := w, None;
          assert w + [] == w;
        }
      case BranchNode =>
        n := this;
        if depth < 1 {
          ws, err := [], Some(InvalidDepth);
        } else if idx < Shl(1, depth - 1) {
          WalkLeft(bucket.data, shape, depth, idx);
          ws, err := LeftWitness(depth - 1, idx, w);
        } else {
          WalkRight(bucket.data, shape, depth, idx, idx - Shl(1, depth - 1));
          ws, err := RightWitness(depth - 1, idx - Shl(1, depth - 1), w);
        }
    }

    /** Replaces the children by nodes with the same digests. */
    method SetChildren(l: Node, r: Node)
      requires kind == BranchNode && (shape.Fork? || shape.Alien?)
      requires l.Valid() && r.Valid() && l.Repr !! r.Repr && this !in l.Repr && this !in r.Repr
      requires l.bucket == bucket == r.bucket
      requires Branching(state, hashValue, serialized, shape.(left := l.shape, right := r.shape))
      modifies this
      ensures Valid() && left == l && right == r && Repr == {this} + l.Repr + r.Repr
      ensures state == old(state) && serialized == old(serialized) && hashValue == old(hashValue)
      ensures shape == old(shape).(left := l.shape, right := r.shape)
    {
      left, right := l, r;
      shape := shape.(left := l.shape, right := r.shape);
      Repr := {this} + l.Repr + r.Repr;
    }

    /** The witness inside this node, and the digest of its sibling. */
    method WitnessBeside(sibling: Node, depth: nat, idx: int, w: seq<Witness>)
      returns (n: Node, ws: seq<Witness>, err: Option<NodeError>, h: Hash)
      requires Valid() && sibling.Valid() && Repr !! sibling.Repr
      modifies Repr, sibling.Repr
      ensures n.Valid() && n.bucket == bucket && fresh(n.Repr - old(Repr))
      ensures sibling.Valid() && sibling.Repr == old(sibling.Repr) && sibling.shape == old(sibling.shape)
      ensures n.shape == Walk(bucket.data, old(shape), depth, idx).1
      ensures TreeHash(TreeOf(n.shape)) == old(TreeHash(TreeOf(shape)))
      ensures Collected(Walk(bucket.data, old(shape), depth, idx).0, w, ws, err)
      ensures h == TreeHash(TreeOf(sibling.shape))
      decreases depth, 2
    {
      WalkKeepsDigest(bucket.data, shape, depth, idx);
      n, ws, err := WitnessFor(depth, idx, w);
      h := sibling.Hash();
    }

    /** The witness through the left child, which is `depth` deep. */
    method LeftWitness(depth: nat, idx: int, w: seq<Witness>) returns (ws: seq<Witness>, err: Option<NodeError>)
      requires Valid() && kind == BranchNode
      modifies Repr
      ensures Valid() && fresh(Repr - old(Repr))
      ensures var down := Walk(bucket.data, old(shape).left, depth, idx);
              && shape == old(shape).(left := down.1)
              && Collected(Climb(down.0, Witness(Right, TreeHash(TreeOf(old(shape).right)))), w, ws, err)
      decreases depth, 3
    {
      var c, h;
      c, ws, err, h := left.WitnessBeside(right, depth, idx, w);
      BranchingKept(state, hashValue, serialized, shape, c.shape, right.shape);
      SetChildren(c, right);
      ws := AddSibling(Walk(bucket.data, old(shape).left, depth, idx).0, w, ws, err, Witness(Right, h));
    }

    method RightWitness(depth: nat, idx: int, w: seq<Witness>) returns (ws: seq<Witness>, err: Option<NodeError>)
      requires Valid() && kind == BranchNode
      modifies Repr
      ensures Valid() && fresh(Repr - old(Repr))
      ensures var down := Walk(bucket.data, old(shape).right, depth, idx);
              && shape == old(shape).(right := down.1)
              && Collected(Climb(down.0, Witness(Left, TreeHash(TreeOf(old(shape).left)))), w, ws, err)
      decreases depth, 3
    {
      var c, h;
      c, ws, err, h := right.WitnessBeside(left, depth, idx, w);
      BranchingKept(state, hashValue, serialized, shape, left.shape, c.shape);
      SetChildren(left, c);
      ws := AddSibling(Walk(bucket.data, old(shape).right, depth, idx).0, w, ws, err, Witness(Left, h));
    }
  }

  /** What a walk collected is appended to `w`; after an error there is nothing. */
  predicate Collected(r: Result<seq<Witness>, NodeError>, w: seq<Witness>, ws: seq<Witness>, err: Option<NodeError>) {
    match r
    case Ok(more) => err == None && ws == w + more
    case Err(e) => err == Some(e) && ws == []
  }

  /** One sibling more, unless the walk failed. */
  method AddSibling(
    ghost r: Result<seq<Witness>, NodeError>, ghost w: seq<Witness>, ws: seq<Witness>, err: Option<NodeError>,
    x: Witness)
    returns (all: seq<Witness>)
    requires Collected(r, w, ws, err)
    ensures Collected(Climb(r, x), w, all, err)
  {
    all := if err == None then ws + [x] else ws;
    assert r.Ok? ==> w + r.value + [x] == w + (r.value + [x]);
  }

  lemma {:induction false} FlushOrder(m: map<Bytes, Bytes>, l: Shape, r: Shape)
    ensures var v := TreeHash(TreeOf(l)) + TreeHash(TreeOf(r));
            Puts(m, Writes(Fork(false, l, r))) == Puts(Puts(m, Writes(l)), Writes(r))[Sha3(v) := v]
  {
    var v := TreeHash(TreeOf(l)) + TreeHash(TreeOf(r));
    var vs := Writes(l) + Writes(r) + [v];
    assert vs[..|vs| - 1] == Writes(l) + Writes(r);
    PutsConcat(m, Writes(l), Writes(r));
  }

}
