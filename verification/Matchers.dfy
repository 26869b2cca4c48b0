/**
 Any number of matchers on one watch cache: lookups and removals are steps of their own,
 and what a lookup found is pending until its removal.
 */
module Matchers {
  import opened Bytes
  import opened Finder

  datatype Pending = Pending(slot: nat, found: Watch)

  datatype State = State(mem: Slots, pending: seq<Pending>, fired: seq<Watch>)

  datatype Move = Register(watch: Watch) | Look(info: Info) | Clear(j: nat)

  /** A removal fires the watch that its lookup found and clears the slot, whatever it holds by now. */
  ghost function Apply(c: State, move: Move): State {
    match move
    case Register(w) => c.(mem := AddTo(c.mem, w))
    case Look(info) =>
      if i: nat :| IsFirst(c.mem, info, i) then c.(pending := c.pending + [Pending(i, c.mem[i].value)]) else c
    case Clear(j) =>
      if j < |c.pending| && c.pending[j].slot < |c.mem| then
        var p := c.pending[j];
        State(c.mem[p.slot := None], c.pending[..j] + c.pending[j + 1..], c.fired + [p.found])
      else c
  }

  ghost function Run(moves: seq<Move>): State {
    if moves == [] then State([], [], []) else Apply(Run(moves[..|moves| - 1]), moves[|moves| - 1])
  }

  ghost function Asked(moves: seq<Move>, w: Watch): nat {
    if moves == [] then 0 else Asked(moves[..|moves| - 1], w) + Asks(moves[|moves| - 1], w)
  }

  ghost function Asks(move: Move, w: Watch): nat {
    if move == Move.Register(w) then 1 else 0
  }

  /** Every watch is pending or has fired, exactly as often as it was registered. */
  ghost predicate Balanced(moves: seq<Move>) {
    forall w :: Live(Run(moves).mem, w) + Occurs(Run(moves).fired, w) == Asked(moves, w)
  }

  /** No index is out of range: the slots never get fewer. */
  ghost predicate InRange(c: State) {
    forall p <- c.pending :: p.slot < |c.mem|
  }

  lemma {:induction false} RunInRange(moves: seq<Move>)
    ensures InRange(Run(moves))
  {
    if moves != [] {
      var n := |moves| - 1;
      RunInRange(moves[..n]);
      if moves[n].Register? { AddKeeps(Run(moves[..n]).mem, moves[n].watch, moves[n].watch); }
    }
  }

  /** The slot that a removal is about to clear still holds the watch that was found. */
  ghost predicate Hits(c: State, move: Move) {
    move.Clear? && move.j < |c.pending| ==>
      var p := c.pending[move.j]; p.slot < |c.mem| && c.mem[p.slot] == Some(p.found)
  }

  /** A removal keeps every watch accounted for if and only if it hits. */
  lemma {:induction false} ClearConserves(mem: Slots, i: nat, found: Watch)
    requires i < |mem|
    ensures (forall w :: Live(mem[i := None], w) + Holds(Some(found), w) == Live(mem, w)) <==> mem[i] == Some(found)
  {
    forall w { LiveUpdate(mem, i, None, w); }
    if mem[i] != Some(found) {
      assert Live(mem[i := None], found) + Holds(Some(found), found) == Live(mem, found) + 1;
    }
  }

  lemma {:induction false} OccursLast(ws: seq<Watch>, x: Watch, w: Watch)
    ensures Occurs(ws + [x], w) == Occurs(ws, w) + Holds(Some(x), w)
  {
    assert (ws + [x])[..|ws|] == ws;
  }

  lemma {:induction false} MoveBalances(moves: seq<Move>)
    requires moves != [] && Balanced(moves[..|moves| - 1])
    ensures Balanced(moves) <==> Hits(Run(moves[..|moves| - 1]), moves[|moves| - 1])
  {
    var n := |moves| - 1;
    var c, move := Run(moves[..n]), moves[n];
    RunInRange(moves[..n]);
    match move
    case Register(r) => forall w { AddKeeps(c.mem, r, w); }
    case Look(_) =>
    case Clear(j) =>
      if j < |c.pending| {
        var p := c.pending[j];
        forall w { OccursLast(c.fired, p.found, w); }
        ClearConserves(c.mem, p.slot, p.found);
        ClearBalances(moves[..n], moves, p);
      }
  }

  lemma {:induction false} ClearBalances(before: seq<Move>, after: seq<Move>, p: Pending)
    requires Balanced(before) && p.slot < |Run(before).mem|
    requires Run(after).mem == Run(before).mem[p.slot := None] && Run(after).fired == Run(before).fired + [p.found]
    requires forall w :: Asked(after, w) == Asked(before, w)
    ensures Balanced(after) <==>
            forall w :: Live(Run(before).mem[p.slot := None], w) + Holds(Some(p.found), w) == Live(Run(before).mem, w)
  {
    forall w { OccursLast(Run(before).fired, p.found, w); }
    forall w ensures Live(Run(before).mem, w) + Occurs(Run(before).fired, w) == Asked(before, w) {}
  }

  ghost predicate AlwaysBalanced(moves: seq<Move>) {
    forall n :: 0 <= n <= |moves| ==> Balanced(moves[..n])
  }

  ghost predicate AlwaysHits(moves: seq<Move>) {
    forall n :: 0 <= n < |moves| ==> Hits(Run(moves[..n]), moves[n])
  }

  lemma {:induction false} BalancedLast(moves: seq<Move>)
    requires moves != []
    ensures AlwaysBalanced(moves) <==> AlwaysBalanced(moves[..|moves| - 1]) && Balanced(moves)
  {
    var front := moves[..|moves| - 1];
    assert forall n :: 0 <= n < |moves| ==> front[..n] == moves[..n];
    assert moves[..|moves|] == moves;
  }

  lemma {:induction false} HitsLast(moves: seq<Move>)
    requires moves != []
    ensures AlwaysHits(moves) <==>
            AlwaysHits(moves[..|moves| - 1]) && Hits(Run(moves[..|moves| - 1]), moves[|moves| - 1])
  {
    var front := moves[..|moves| - 1];
    forall n | 0 <= n < |front| ensures Hits(Run(front[..n]), front[n]) <==> Hits(Run(moves[..n]), moves[n]) {
      assert front[..n] == moves[..n];
    }
  }

  /**
   Over any interleaving of registrations, lookups and removals by any number of matchers:
   no watch is lost and none fires too often, at every moment, if and only if every removal
   finds its watch still in its slot.
   */
  lemma {:induction false} BalancedIff(moves: seq<Move>)
    ensures AlwaysBalanced(moves) <==> AlwaysHits(moves)
  {
    if moves == [] {
      assert moves[..0] == [];
    } else {
      var front := moves[..|moves| - 1];
      BalancedIff(front);
      BalancedLast(moves);
      HitsLast(moves);
      if AlwaysBalanced(front) {
        assert front[..|front|] == front;
        MoveBalances(moves);
      }
    }
  }

  /** No two pending lookups share a slot. */
  ghost predicate Apart(c: State) {
    forall i, j :: 0 <= i < j < |c.pending| ==> c.pending[i].slot != c.pending[j].slot
  }

  /** What every pending lookup found is still in its slot. */
  ghost predicate Held(c: State) {
    forall p <- c.pending :: p.slot < |c.mem| && c.mem[p.slot] == Some(p.found)
  }

  lemma {:induction false} ApplyHeld(c: State, move: Move)
    requires Held(c) && Apart(c)
    ensures Held(Apply(c, move))
  {
    match move
    case Register(w) => AddKeeps(c.mem, w, w);
    case Look(_) =>
    case Clear(j) =>
      if j < |c.pending| {
        var rest := c.pending[..j] + c.pending[j + 1..];
        forall p <- rest ensures p in c.pending && p.slot != c.pending[j].slot {
          var k :| 0 <= k < |rest| && rest[k] == p;
          assert p == c.pending[if k < j then k else k + 1];
        }
      }
  }

  /** As long as no two pending lookups share a slot, every removal hits; so it is with a single matcher. */
  lemma {:induction false} ApartConserves(moves: seq<Move>)
    requires forall n :: 0 <= n <= |moves| ==> Apart(Run(moves[..n]))
    ensures Held(Run(moves)) && AlwaysBalanced(moves)
  {
    ApartHeld(moves, |moves|);
    assert moves[..|moves|] == moves;
    forall n | 0 <= n < |moves| ensures Hits(Run(moves[..n]), moves[n]) {
      ApartHeld(moves, n);
    }
    BalancedIff(moves);
  }

  lemma {:induction false} ApartHeld(moves: seq<Move>, n: nat)
    requires n <= |moves| && forall k :: 0 <= k <= |moves| ==> Apart(Run(moves[..k]))
    ensures Held(Run(moves[..n]))
  {
    if n > 0 {
      ApartHeld(moves, n - 1);
      assert moves[..n][..n - 1] == moves[..n - 1];
      assert Apart(Run(moves[..n - 1]));
      ApplyHeld(Run(moves[..n - 1]), moves[n - 1]);
    }
  }

  /** Once two pending lookups share a slot, carrying out both removals loses or repeats a watch. */
  lemma {:induction false} SharedSlotBreaks(moves: seq<Move>, i: nat, j: nat)
    requires Balanced(moves) && Held(Run(moves)) && i < j < |Run(moves).pending|
    requires Run(moves).pending[i].slot == Run(moves).pending[j].slot
    ensures !Balanced(moves + [Clear(j), Clear(i)])
  {
    var c := Run(moves);
    var one := moves + [Clear(j)];
    var two := moves + [Clear(j), Clear(i)];
    assert one[..|moves|] == moves && two[..|one|] == one;
    assert c.pending[i] in c.pending && c.pending[j] in c.pending;
    MoveBalances(one);
    var d := Run(one);
    assert d == Apply(c, Clear(j));
    assert d.pending[i] == c.pending[i] && d.mem[c.pending[i].slot] == None;
    MoveBalances(two);
  }
}
