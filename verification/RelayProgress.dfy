/**
 The relay is never stuck: whatever has happened, everything that the source has emitted can
 still get through to the destination.
 */
module RelayProgress {
  import opened Bytes
  import opened RelayFilter
  import opened RelayRun

  /** A continuation of a run from `s`. */
  ghost predicate Goes(s: State, states: seq<State>) {
    && states != [] && states[0] == s
    && forall i :: 0 <= i < |states| - 1 ==> Next(states[i], states[i + 1])
  }

  lemma {:induction false} GoOn(s: State, states: seq<State>, s': State)
    requires Goes(s, states) && Next(states[|states| - 1], s')
    ensures Goes(s, states + [s'])
  {
    var longer := states + [s'];
    forall i | 0 <= i < |longer| - 1 ensures Next(longer[i], longer[i + 1]) {
      assert i == |states| - 1 || Next(states[i], states[i + 1]);
    }
  }

  /** One receipt for each event of the source from position `lo` up to `hi`. */
  function Receipts(src: seq<SrcEvent>, lo: nat, hi: nat): seq<Receipt>
    requires hi <= |src|
  {
    if lo >= hi then [] else Receipts(src, lo, hi - 1) + [Receipt(src[hi - 1].height, [src[hi - 1].event])]
  }

  lemma {:induction false} ReceiptsFlat(src: seq<SrcEvent>, lo: nat, hi: nat)
    requires hi <= |src|
    ensures Flat(Receipts(src, lo, hi)) == Range(src, lo, hi)
    decreases hi
  {
    if lo < hi {
      ReceiptsFlat(src, lo, hi - 1);
      var rs := Receipts(src, lo, hi);
      assert rs[..|rs| - 1] == Receipts(src, lo, hi - 1);
    }
  }

  lemma {:induction false} ReceiptsKept(src: seq<SrcEvent>, lo: nat, hi: nat)
    requires hi <= |src|
    ensures NonEmpty(Receipts(src, lo, hi)) == Receipts(src, lo, hi)
    decreases hi
  {
    if lo < hi {
      ReceiptsKept(src, lo, hi - 1);
      var rs := Receipts(src, lo, hi);
      assert rs[..|rs| - 1] == Receipts(src, lo, hi - 1);
    }
  }

  lemma {:induction false} ReceiptsOk(src: seq<SrcEvent>, lo: nat, hi: nat)
    requires hi <= |src| && Numbered(src)
    ensures BatchOk(src, Receipts(src, lo, hi))
    decreases hi
  {
    if lo < hi {
      ReceiptsOk(src, lo, hi - 1);
      assert Genuine(src, src[hi - 1].event, src[hi - 1].height);
    }
  }

  /** What the destination's last block has taken. */
  function Taken(s: State): seq<Event>
    requires s.chain != []
  {
    s.chain[|s.chain| - 1].log
  }

  /** The relay ends, and starts over on the last block's status. */
  lemma {:induction false} StartsOver(s: State) returns (states: seq<State>)
    requires Inv(s)
    ensures Goes(s, states)
    ensures var now := states[|states| - 1];
            && Inv(now) && now.phase == Idle && now.buffer == [] && now.src == s.src && now.chain == s.chain
            && now.delivered == |Taken(s)| && now.txBlockHeight == |s.chain| - 1
  {
    var k := |s.chain| - 1;
    var stopped := s.(phase := Stopped);
    var now := stopped.(phase := Idle, buffer := [], delivered := |s.chain[k].log|, txBlockHeight := k, seen := k);
    assert Stop(s, stopped);
    assert Restart(stopped, now, k);
    NextKeeps(s, stopped);
    NextKeeps(stopped, now);
    states := [s, stopped, now];
  }

  /** All events that are missing arrive. */
  lemma {:induction false} AllArrive(s: State) returns (s': State)
    requires Inv(s) && s.phase == Idle && s.buffer == [] && s.delivered == |Taken(s)|
    ensures Next(s, s') && s'.chain == s.chain && s'.src == s.src && s'.phase == Idle
    ensures s'.buffer == Receipts(s.src, |Taken(s)|, |s.src|) && s'.delivered == |s.src|
    ensures s'.txBlockHeight == s.txBlockHeight
  {
    var n := |s.src|;
    assert DstOk(s.src, s.chain[|s.chain| - 1]);
    var msg := Receipts(s.src, s.delivered, n);
    ReceiptsKept(s.src, s.delivered, n);
    DeliversAll(s);
    s' := s.(buffer := msg, delivered := n);
    assert s.buffer + NonEmpty(msg) == msg;
    assert Arrive(s, s', msg);
  }

  lemma {:induction false} DeliversAll(s: State)
    requires s.delivered <= |s.src| && Numbered(s.src)
    ensures var msg := Receipts(s.src, s.delivered, |s.src|);
            Delivers(s, msg) && |Flat(msg)| == |s.src| - s.delivered
  {
    ReceiptsFlat(s.src, s.delivered, |s.src|);
    ReceiptsOk(s.src, s.delivered, |s.src|);
    RangeAt(s.src, s.delivered, |s.src|);
  }

  /** The last block's status lets all of them through, in one transaction. */
  lemma {:induction false} AllSegmented(s: State) returns (s': State)
    requires Inv(s) && s.phase == Idle && s.txBlockHeight < |s.chain| && |Taken(s)| < |s.src|
    requires s.buffer == Receipts(s.src, |Taken(s)|, |s.src|)
    ensures Next(s, s') && Inv(s') && s'.chain == s.chain && s'.src == s.src && s'.phase.Sending?
    ensures BatchOk(s.src, s'.phase.batch) && Flat(s'.phase.batch) == Range(s.src, |Taken(s)|, |s.src|)
  {
    var k, r, n := |s.chain| - 1, |Taken(s)|, |s.src|;
    ReceiptsFlat(s.src, r, n);
    ReceiptsOk(s.src, r, n);
    LinkHolds(s, k);
    FilterRange(s.src, s.buffer, r, n, s.chain[k].rxHeight, r);
    var out := FilterReceipts(s.buffer, s.chain[k].rxHeight, r);
    var cut := |out.items|;
    RangeAt(s.src, r, n);
    assert out.items != [];
    s' := s.(buffer := out.items, seen := Max(s.seen, k), phase := Sending(out.items[..cut], out.items[cut..]));
    assert Segment(s, s', k, cut, cut);
    NextKeeps(s, s');
    assert out.items[..cut] == out.items;
  }

  /** The transaction is sent, and a block executes it. */
  lemma {:induction false} AllExecuted(s: State) returns (sent: State, s': State)
    requires Inv(s) && s.phase.Sending? && |Taken(s)| <= |s.src|
    requires BatchOk(s.src, s.phase.batch) && Flat(s.phase.batch) == Range(s.src, |Taken(s)|, |s.src|)
    ensures Next(s, sent) && Next(sent, s') && s'.src == s.src && s'.chain != []
    ensures |Taken(s')| == |s.src|
  {
    var id, d := |s.txs|, s.chain[|s.chain| - 1];
    sent := s.(txs := s.txs + [Tx(s.phase.batch, None)], phase := Waiting(id, s.phase.rest, 0));
    assert SendSucceeds(s, sent);
    assert DstOk(s.src, d);
    HandleTakes(s.src, d, s.phase.batch, |d.log|, |s.src|);
    ExecuteOne(d, sent.txs, id);
    s' := MadeBlock(sent, [id]);
  }

  lemma {:induction false} ExecuteOne(d: Dst, txs: seq<Tx>, id: nat)
    requires id < |txs| && Handle(d, txs[id].receipts).Some?
    ensures Known(txs, [id]) && Execute(d, txs, [id]) == Handle(d, txs[id].receipts).value
  {
    assert [id][..0] == [];
    assert Execute(d, txs, [id][..0]) == d;
  }

  lemma {:induction false} MadeBlock(s: State, ids: seq<nat>) returns (s': State)
    requires s.chain != [] && Known(s.txs, ids)
    ensures Next(s, s') && s'.src == s.src
    ensures s'.chain == s.chain + [Execute(s.chain[|s.chain| - 1], s.txs, ids)]
  {
    var d := s.chain[|s.chain| - 1];
    s' := s.(chain := s.chain + [Execute(d, s.txs, ids)],
             txs := seq(|s.txs|, i requires 0 <= i < |s.txs| =>
               if s.txs[i].executedAt.None? && GoesThrough(d, s.txs, ids, i)
               then s.txs[i].(executedAt := Some(|s.chain|)) else s.txs[i]));
    assert Block(s, s', ids);
  }

  /**
   From every state of every run there is a way on after which the destination has taken
   every event that the source has emitted.
   */
  lemma {:induction false} NeverStuck(s: State) returns (states: seq<State>)
    requires Reachable(s)
    ensures Goes(s, states)
    ensures var now := states[|states| - 1];
            && now.src == s.src && now.chain != [] && |Taken(now)| == |s.src|
            && forall n :: 0 <= n < |s.src| ==> Taken(now)[n] == s.src[n].event
  {
    ReachableInv(s);
    assert DstOk(s.src, s.chain[|s.chain| - 1]);
    if |Taken(s)| == |s.src| {
      states := [s];
    } else {
      states := CatchUp(s);
    }
    GoesInv(s, states);
    PrefixOf(s.src, states[|states| - 1].chain[|states[|states| - 1].chain| - 1]);
  }

  lemma {:induction false} CatchUp(s: State) returns (states: seq<State>)
    requires Inv(s) && |Taken(s)| < |s.src|
    ensures Goes(s, states)
    ensures var now := states[|states| - 1]; now.src == s.src && now.chain != [] && |Taken(now)| == |s.src|
  {
    states := StartsOver(s);
    var arrived := AllArrive(states[|states| - 1]);
    NextKeeps(states[|states| - 1], arrived);
    GoOn(s, states, arrived);
    states := states + [arrived];
    var segmented := AllSegmented(arrived);
    GoOn(s, states, segmented);
    states := states + [segmented];
    var sent, executed := AllExecuted(segmented);
    GoOn(s, states, sent);
    states := states + [sent];
    GoOn(s, states, executed);
    states := states + [executed];
  }

  lemma {:induction false} GoesInv(s: State, states: seq<State>)
    requires Inv(s) && Goes(s, states)
    ensures Inv(states[|states| - 1])
    decreases |states|
  {
    if |states| > 1 {
      var n := |states| - 1;
      assert Goes(s, states[..n]) by {
        forall i | 0 <= i < n - 1 ensures Next(states[i], states[i + 1]) {}
      }
      GoesInv(s, states[..n]);
      NextKeeps(states[n - 1], states[n]);
    }
  }

}
