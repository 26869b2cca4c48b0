/**
 A relay that starts over: what its new subscription delivers, and which statuses it acts on.
 */
module RelayRestart {
  import opened Bytes
  import opened RelayFilter
  import opened RelayRun

  /** What a step delivers to the relay: a message, or nothing. */
  datatype Label = Silent | Message(msg: seq<Receipt>)

  /** A step that neither delivers a message nor starts the relay over. */
  ghost predicate NoDelivery(s: State, s': State) {
    ChainStep(s, s') || SendStep(s, s') || WaitStep(s, s') || ReceiptArrives(s, s') || Segments(s, s')
  }

  ghost predicate Segments(s: State, s': State) {
    exists k, cut, keep :: Segment(s, s', k, cut, keep)
  }

  /** Steps of a run without a restart, and what they deliver. */
  ghost predicate Labelled(states: seq<State>, labels: seq<Label>) {
    && |states| == |labels| + 1
    && forall t :: 0 <= t < |labels| ==>
         if labels[t].Silent? then NoDelivery(states[t], states[t + 1])
         else Arrive(states[t], states[t + 1], labels[t].msg)
  }

  function Received(labels: seq<Label>): seq<Event> {
    if labels == [] then []
    else
      var n := |labels| - 1;
      Received(labels[..n]) + if labels[n].Silent? then [] else Flat(labels[n].msg)
  }

  lemma {:induction false} SilentKeeps(s: State, s': State)
    requires NoDelivery(s, s')
    ensures s'.delivered == s.delivered && s.src <= s'.src
  {
    if ChainStep(s, s') {
      if e :| Emit(s, s', e) {
        assert s'.src == s.src + [e];
      }
    }
  }

  /** `es` are the events of the source behind number `from` that were delivered. */
  predicate Delivered(s: State, from: nat, es: seq<Event>) {
    from <= s.delivered <= |s.src| && es == Range(s.src, from, s.delivered)
  }

  lemma {:induction false} SilentDelivers(s: State, s': State, from: nat, es: seq<Event>)
    requires NoDelivery(s, s') && Delivered(s, from, es)
    ensures Delivered(s', from, es + [])
  {
    SilentKeeps(s, s');
    var more := s'.src[|s.src|..];
    assert s.src + more == s'.src && es + [] == es;
    RangeGrows(s.src, more, from, s.delivered);
  }

  lemma {:induction false} MessageDelivers(s: State, s': State, msg: seq<Receipt>, from: nat, es: seq<Event>)
    requires Arrive(s, s', msg) && Delivered(s, from, es)
    ensures Delivered(s', from, es + Flat(msg))
  {
    RangeSplit(s.src, from, s.delivered, s'.delivered);
  }

  lemma {:induction false} LabelledFront(states: seq<State>, labels: seq<Label>)
    requires Labelled(states, labels) && labels != []
    ensures Labelled(states[..|labels|], labels[..|labels| - 1])
  {
    var n := |labels| - 1;
    var front, before := states[..n + 1], labels[..n];
    forall t | 0 <= t < n
      ensures if before[t].Silent? then NoDelivery(front[t], front[t + 1])
              else Arrive(front[t], front[t + 1], before[t].msg)
    {
      assert front[t] == states[t] && front[t + 1] == states[t + 1] && before[t] == labels[t];
    }
  }

  lemma {:induction false} AllDelivered(states: seq<State>, labels: seq<Label>, from: nat)
    requires Labelled(states, labels) && states[0].delivered == from <= |states[0].src|
    ensures Delivered(states[|labels|], from, Received(labels))
    decreases |labels|
  {
    if labels != [] {
      var n := |labels| - 1;
      LabelledFront(states, labels);
      AllDelivered(states[..n + 1], labels[..n], from);
      if labels[n].Silent? {
        SilentDelivers(states[n], states[n + 1], from, Received(labels[..n]));
      } else {
        MessageDelivers(states[n], states[n + 1], labels[n].msg, from, Received(labels[..n]));
      }
    }
  }

  lemma {:induction false} DeliveredFollow(s: State, from: nat, es: seq<Event>)
    requires Delivered(s, from, es) && Numbered(s.src)
    ensures Follow(s.src, es, from)
  {
    RangeAt(s.src, from, s.delivered);
  }

  /**
   From a restart on the status of block `k` to the next restart, the relay is given exactly
   the events behind the sequence of that status, in order and each once.
   */
  lemma {:induction false} DeliversFromStatus(s: State, k: nat, states: seq<State>, labels: seq<Label>)
    requires Reachable(s) && Labelled(states, labels) && Restart(s, states[0], k)
    ensures Follow(states[|labels|].src, Received(labels), |s.chain[k].log|)
    ensures Received(labels) != [] ==> Received(labels)[0].sequence == |s.chain[k].log| + 1
  {
    var from := |s.chain[k].log|;
    RestartedInv(s, states[0], k);
    AllDelivered(states, labels, from);
    LabelledInv(states, labels);
    DeliveredFollow(states[|labels|], from, Received(labels));
  }

  lemma {:induction false} RestartedInv(s: State, s': State, k: nat)
    requires Reachable(s) && Restart(s, s', k)
    ensures Inv(s') && s'.delivered == |s.chain[k].log| <= |s'.src|
  {
    ReachableInv(s);
    assert DstOk(s.src, s.chain[k]);
    RestartKeeps(s, s', k);
  }

  lemma {:induction false} LabelledInv(states: seq<State>, labels: seq<Label>)
    requires Labelled(states, labels) && Inv(states[0])
    ensures Inv(states[|labels|])
    decreases |labels|
  {
    if labels != [] {
      var n := |labels| - 1;
      LabelledFront(states, labels);
      LabelledInv(states[..n + 1], labels[..n]);
      NextKeeps(states[n], states[n + 1]);
    }
  }

  // ---- old statuses

  /** No receipt arrives in any of the steps. */
  ghost predicate NoReceipt(states: seq<State>) {
    forall t :: 0 <= t < |states| - 1 ==> !ReceiptArrives(states[t], states[t + 1])
  }

  /** The relay acts on the status of block `k`: it filters and sends by it, or ends on a gap. */
  ghost predicate ActsOn(s: State, s': State, k: nat) {
    FindGap(s, s', k) || exists cut, keep :: Segment(s, s', k, cut, keep)
  }

  lemma {:induction false} GuardStays(states: seq<State>, labels: seq<Label>)
    requires Labelled(states, labels) && NoReceipt(states)
    ensures states[|labels|].txBlockHeight == states[0].txBlockHeight
    decreases |labels|
  {
    if labels != [] {
      var n := |labels| - 1;
      LabelledFront(states, labels);
      var front := states[..n + 1];
      forall t | 0 <= t < |front| - 1 ensures !ReceiptArrives(front[t], front[t + 1]) {
        assert !ReceiptArrives(states[t], states[t + 1]);
      }
      GuardStays(front, labels[..n]);
      assert !ReceiptArrives(states[n], states[n + 1]);
    }
  }

  /** From a restart on the status of block `k` to the first receipt, no older status is acted on. */
  lemma {:induction false} RestartGuards(
    s: State, k: nat, states: seq<State>, labels: seq<Label>, s': State, older: nat)
    requires Labelled(states, labels) && Restart(s, states[0], k) && NoReceipt(states)
    requires ActsOn(states[|labels|], s', older)
    ensures k <= older
  {
    GuardStays(states, labels);
  }

  /** And from a receipt that came with the first call to the next one, none older than the receipt's block is. */
  lemma {:induction false} ReceiptGuardStays(
    s: State, states: seq<State>, labels: seq<Label>, s': State, older: nat)
    requires Labelled(states, labels) && ReceiptArrives(s, states[0]) && s.phase.calls == 0 && NoReceipt(states)
    requires ActsOn(states[|labels|], s', older)
    ensures s.txs[s.phase.id].executedAt.value <= older
  {
    GuardStays(states, labels);
  }

  // ---- retries of the receipt call

  /** While it waits for a receipt, the relay only sees calls fail; the two chains go on. */
  ghost predicate Awaits(states: seq<State>, failed: seq<bool>) {
    && |states| == |failed| + 1
    && forall t :: 0 <= t < |failed| ==>
         if failed[t] then ReceiptFails(states[t], states[t + 1]) else ChainStep(states[t], states[t + 1])
  }

  function Failures(failed: seq<bool>): nat {
    if failed == [] then 0 else Failures(failed[..|failed| - 1]) + if failed[|failed| - 1] then 1 else 0
  }

  /** After a send, 30 failed calls and no fewer end the wait; the batch is then still in the buffer. */
  lemma {:induction false} RetriesExact(s: State, states: seq<State>, failed: seq<bool>)
    requires Awaits(states, failed) && SendSucceeds(s, states[0])
    ensures var now := states[|failed|];
            && Failures(failed) <= 30 && now.buffer == s.buffer
            && now.phase == if Failures(failed) == 30 then Idle
                            else Waiting(|s.txs|, s.phase.rest, Failures(failed))
    decreases |failed|
  {
    if failed != [] {
      var n := |failed| - 1;
      AwaitsFront(states, failed);
      RetriesExact(s, states[..n + 1], failed[..n]);
      assert states[..n + 1][n] == states[n];
      if failed[n] { OneFailure(states[n], states[n + 1]); } else { ChainApart(states[n], states[n + 1]); }
    }
  }

  lemma {:induction false} OneFailure(s: State, s': State)
    requires ReceiptFails(s, s')
    ensures s.phase.Waiting? && s'.buffer == s.buffer
    ensures s'.phase == if s.phase.calls < 29 then s.phase.(calls := s.phase.calls + 1) else Idle
  {
  }

  lemma {:induction false} ChainApart(s: State, s': State)
    requires ChainStep(s, s')
    ensures s'.phase == s.phase && s'.buffer == s.buffer
  {
    if e :| Emit(s, s', e) {
    } else {
      var ids :| Block(s, s', ids);
    }
  }

  lemma {:induction false} AwaitsFront(states: seq<State>, failed: seq<bool>)
    requires Awaits(states, failed) && failed != []
    ensures Awaits(states[..|failed|], failed[..|failed| - 1])
  {
    var n := |failed| - 1;
    var front, before := states[..n + 1], failed[..n];
    forall t | 0 <= t < n
      ensures if before[t] then ReceiptFails(front[t], front[t + 1]) else ChainStep(front[t], front[t + 1])
    {
      assert front[t] == states[t] && front[t + 1] == states[t + 1] && before[t] == failed[t];
    }
  }

}
