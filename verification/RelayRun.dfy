/**
 The relay loop as a step system: arrivals, status reads, batches, sends, receipts, errors
 and restarts, together with a source that emits numbered events and a destination chain
 whose message centre takes only the next sequence.
 */
module RelayRun {
  import opened Bytes
  import opened RelayFilter

  datatype SrcEvent = SrcEvent(event: Event, height: nat)

  /** The message centre of the destination: the events it has taken, and the last source height. */
  datatype Dst = Dst(log: seq<Event>, rxHeight: nat)

  /** A transaction that was broadcast, and the block that executed it. */
  datatype Tx = Tx(receipts: seq<Receipt>, executedAt: Option<nat>)

  datatype Phase =
    | Idle
    | Sending(batch: seq<Receipt>, rest: seq<Receipt>)
    | Waiting(id: nat, rest: seq<Receipt>, calls: nat)
    | Stopped

  /**
   `chain[k]` is the destination after block `k`. `delivered` counts the source events the
   receiver has delivered or skipped; `seen` is the latest destination block whose outcome
   the relay has acted on, by reading a status or by confirming a transaction.
   */
  datatype State = State(
    src: seq<SrcEvent>,
    chain: seq<Dst>,
    txs: seq<Tx>,
    phase: Phase,
    buffer: seq<Receipt>,
    delivered: nat,
    txBlockHeight: nat,
    seen: nat)

  const MAX_RECEIPT_RETRIES := 30

  // ---- the destination

  /** Takes the receipts of one transaction in order; `None` is a revert. */
  function Handle(d: Dst, rs: seq<Receipt>): Option<Dst> {
    if rs == [] then Some(d)
    else
      var n := |rs| - 1;
      match Handle(d, rs[..n])
      case None => None
      case Some(d') =>
        if rs[n].height < d'.rxHeight then Some(d')
        else
          match FilterEvents(rs[n].events, |d'.log|)
          case Missing(_) => None
          case Kept(es, _) => Some(Dst(d'.log + es, rs[n].height))
  }

  predicate Known(txs: seq<Tx>, ids: seq<nat>) {
    forall i :: 0 <= i < |ids| ==> ids[i] < |txs|
  }

  /** Executes transactions one after another; a reverted one changes nothing. */
  function Execute(d: Dst, txs: seq<Tx>, ids: seq<nat>): Dst
    requires Known(txs, ids)
  {
    if ids == [] then d
    else
      var n := |ids| - 1;
      var d' := Execute(d, txs, ids[..n]);
      match Handle(d', txs[ids[n]].receipts)
      case None => d'
      case Some(d'') => d''
  }

  /** Transaction `id` goes through when the block runs `ids`. */
  predicate GoesThrough(d: Dst, txs: seq<Tx>, ids: seq<nat>, id: nat)
    requires Known(txs, ids)
  {
    exists n :: 0 <= n < |ids| && ids[n] == id && Handle(Execute(d, txs, ids[..n]), txs[id].receipts).Some?
  }

  // ---- steps

  /** The receiver's message `msg` carries the next source events, each at its own height. */
  predicate Delivers(s: State, msg: seq<Receipt>) {
    && s.delivered + |Flat(msg)| <= |s.src|
    && Flat(msg) == Range(s.src, s.delivered, s.delivered + |Flat(msg)|)
    && forall r <- msg, e <- r.events :: Genuine(s.src, e, r.height)
  }

  predicate Genuine(src: seq<SrcEvent>, e: Event, height: nat) {
    1 <= e.sequence <= |src| && src[e.sequence - 1] == SrcEvent(e, height)
  }

  function NonEmpty(rs: seq<Receipt>): seq<Receipt> {
    if rs == [] then []
    else
      var n := |rs| - 1;
      NonEmpty(rs[..n]) + if rs[n].events == [] then [] else [rs[n]]
  }

  /** The events of the source from position `lo` up to `hi`. */
  function Range(src: seq<SrcEvent>, lo: nat, hi: nat): seq<Event>
    requires hi <= |src|
  {
    if lo >= hi then [] else Range(src, lo, hi - 1) + [src[hi - 1].event]
  }

  predicate Init(s: State) {
    s.src == [] && s.chain == [Dst([], 0)] && s.txs == [] && s.phase == Stopped
  }

  /** The source emits its next event. */
  predicate Emit(s: State, s': State, e: SrcEvent) {
    && e.event.sequence == |s.src| + 1
    && (s.src != [] ==> s.src[|s.src| - 1].height <= e.height)
    && s' == s.(src := s.src + [e])
  }

  /** The destination makes a block out of transactions that were broadcast. */
  predicate Block(s: State, s': State, ids: seq<nat>) {
    && s.chain != []
    && Known(s.txs, ids)
    && var d := s.chain[|s.chain| - 1];
       s' == s.(chain := s.chain + [Execute(d, s.txs, ids)],
                txs := seq(|s.txs|, i requires 0 <= i < |s.txs| =>
                  if s.txs[i].executedAt.None? && GoesThrough(d, s.txs, ids, i)
                  then s.txs[i].(executedAt := Some(|s.chain|)) else s.txs[i]))
  }

  /** A message from the source is buffered without its empty receipts. */
  predicate Arrive(s: State, s': State, msg: seq<Receipt>) {
    && s.phase == Idle && Delivers(s, msg)
    && s' == s.(buffer := s.buffer + NonEmpty(msg), delivered := s.delivered + |Flat(msg)|)
  }

  /** The status of block `k` shows a gap to the buffer: the loop ends with an error. */
  predicate FindGap(s: State, s': State, k: nat) {
    && s.phase == Idle && k < |s.chain| && s.txBlockHeight <= k
    && FilterReceipts(s.buffer, s.chain[k].rxHeight, |s.chain[k].log|).Missing?
    && s' == s.(phase := Stopped)
  }

  /** The status of block `k` lets a batch through; `cut` receipts go into the transaction, `keep` precede the rest. */
  predicate Segment(s: State, s': State, k: nat, cut: nat, keep: nat) {
    && s.phase == Idle && k < |s.chain| && s.txBlockHeight <= k
    && var out := FilterReceipts(s.buffer, s.chain[k].rxHeight, |s.chain[k].log|);
       && out.Kept? && keep <= cut <= |out.items|
       && s' == s.(buffer := out.items,
                   seen := Max(s.seen, k),
                   phase := if out.items == [] then Idle else Sending(out.items[..cut], out.items[keep..]))
  }

  /** Sending fails; the transaction may have been broadcast all the same. */
  predicate SendFails(s: State, s': State, leaked: bool) {
    && s.phase.Sending?
    && s' == if leaked then s.(txs := s.txs + [Tx(s.phase.batch, None)]) else s
  }

  predicate SendSucceeds(s: State, s': State) {
    && s.phase.Sending?
    && s' == s.(txs := s.txs + [Tx(s.phase.batch, None)], phase := Waiting(|s.txs|, s.phase.rest, 0))
  }

  /** A receipt call fails; after the last retry the batch stays in the buffer. */
  predicate ReceiptFails(s: State, s': State) {
    && s.phase.Waiting?
    && s' == s.(phase := if s.phase.calls + 1 < MAX_RECEIPT_RETRIES then s.phase.(calls := s.phase.calls + 1) else Idle)
  }

  /** The receipt arrives. Only a first call's block height is kept; after a failed call it is 0. */
  predicate ReceiptArrives(s: State, s': State) {
    && s.phase.Waiting? && s.phase.id < |s.txs| && s.txs[s.phase.id].executedAt.Some?
    && var b := s.txs[s.phase.id].executedAt.value;
       s' == s.(phase := Idle, buffer := s.phase.rest, seen := Max(s.seen, b),
                txBlockHeight := if s.phase.calls == 0 then b else 0)
  }

  /** Any error that ends the loop. */
  predicate Stop(s: State, s': State) {
    s' == s.(phase := Stopped)
  }

  /** The relay starts over from the status of some block, with a new subscription. */
  predicate Restart(s: State, s': State, k: nat) {
    && s.phase == Stopped && k < |s.chain|
    && s' == s.(phase := Idle, buffer := [], delivered := |s.chain[k].log|, txBlockHeight := k, seen := k)
  }

  function Max(a: nat, b: nat): nat {
    if a >= b then a else b
  }

  /** A step of the source or of the destination. */
  ghost predicate ChainStep(s: State, s': State) {
    (exists e :: Emit(s, s', e)) || (exists ids :: Block(s, s', ids))
  }

  /** A step of the relay that changes its buffer. */
  ghost predicate BufferStep(s: State, s': State) {
    || (exists msg :: Arrive(s, s', msg))
    || (exists k, cut, keep :: Segment(s, s', k, cut, keep))
    || ReceiptArrives(s, s')
    || (exists k :: Restart(s, s', k))
  }

  ghost predicate SendStep(s: State, s': State) {
    SendSucceeds(s, s') || exists leaked :: SendFails(s, s', leaked)
  }

  /** A step that only ends or repeats a wait, or nothing: a tick, a status that failed or is below `txBlockHeight`. */
  ghost predicate WaitStep(s: State, s': State) {
    (exists k :: FindGap(s, s', k)) || ReceiptFails(s, s') || Stop(s, s') || s' == s
  }

  ghost predicate Next(s: State, s': State) {
    ChainStep(s, s') || BufferStep(s, s') || SendStep(s, s') || WaitStep(s, s')
  }

  ghost predicate Run(states: seq<State>) {
    && states != [] && Init(states[0])
    && forall i :: 0 <= i < |states| - 1 ==> Next(states[i], states[i + 1])
  }

  // ---- what holds throughout

  /** Events are numbered without gaps and heights never fall. */
  predicate SourceOk(src: seq<SrcEvent>) {
    Numbered(src) && forall i, j :: 0 <= i <= j < |src| ==> src[i].height <= src[j].height
  }

  predicate Numbered(src: seq<SrcEvent>) {
    forall i :: 0 <= i < |src| ==> src[i].event.sequence == i + 1
  }

  /** The log is exactly the first events of the source, and its height is not beyond the last of them. */
  predicate DstOk(src: seq<SrcEvent>, d: Dst) {
    && |d.log| <= |src| && d.log == Range(src, 0, |d.log|)
    && (forall i :: |d.log| <= i < |src| ==> d.rxHeight <= src[i].height)
    && (d.log == [] ==> d.rxHeight == 0) && (d.log != [] ==> d.rxHeight <= src[|d.log| - 1].height)
  }

  predicate BatchOk(src: seq<SrcEvent>, rs: seq<Receipt>) {
    forall r <- rs :: r.events != [] && forall e <- r.events :: Genuine(src, e, r.height)
  }

  predicate ChainOk(s: State) {
    && s.chain != []
    && (forall k :: 0 <= k < |s.chain| ==> DstOk(s.src, s.chain[k]))
    && forall i, j :: 0 <= i <= j < |s.chain| ==> |s.chain[i].log| <= |s.chain[j].log|
  }

  /** An executed transaction is contained in the log from its block on. */
  predicate TxsOk(s: State) {
    forall id :: 0 <= id < |s.txs| ==>
      && BatchOk(s.src, s.txs[id].receipts)
      && (s.txs[id].executedAt.Some? ==>
            && s.txs[id].executedAt.value < |s.chain|
            && forall r <- s.txs[id].receipts, e <- r.events ::
                 e.sequence <= |s.chain[s.txs[id].executedAt.value].log|)
  }

  /** `rs` holds exactly the source events from position `from` up to the delivered ones. */
  predicate Holds(s: State, rs: seq<Receipt>, from: nat) {
    && from <= s.delivered <= |s.src|
    && BatchOk(s.src, rs) && Flat(rs) == Range(s.src, from, s.delivered)
  }

  /** Nothing delivered is lost: what the buffer no longer holds is in the log of a block the relay has seen. */
  predicate BufferOk(s: State) {
    s.phase != Stopped ==>
      && s.delivered <= |s.src| && |Flat(s.buffer)| <= s.delivered
      && Holds(s, s.buffer, s.delivered - |Flat(s.buffer)|)
      && s.seen < |s.chain| && s.delivered - |Flat(s.buffer)| <= |s.chain[s.seen].log|
  }

  /** The batch under way is a front part of the buffer, and the rest leaves out no more than the batch. */
  predicate PhaseOk(s: State) {
    match s.phase
    case Sending(batch, rest) => Splits(s.buffer, batch, rest)
    case Waiting(id, rest, _) => id < |s.txs| && Splits(s.buffer, s.txs[id].receipts, rest)
    case _ => true
  }

  predicate Splits(rs: seq<Receipt>, batch: seq<Receipt>, rest: seq<Receipt>) {
    && |rest| <= |rs| && |batch| <= |rs|
    && batch == rs[..|batch|] && rest == rs[|rs| - |rest|..] && |rs| - |rest| <= |batch|
  }

  predicate Inv(s: State) {
    SourceOk(s.src) && ChainOk(s) && TxsOk(s) && BufferOk(s) && PhaseOk(s)
  }

  // ---- ranges of source events

  lemma {:induction false} RangeAt(src: seq<SrcEvent>, lo: nat, hi: nat)
    requires hi <= |src|
    ensures |Range(src, lo, hi)| == if lo <= hi then hi - lo else 0
    ensures forall i :: 0 <= i < |Range(src, lo, hi)| ==> Range(src, lo, hi)[i] == src[lo + i].event
    decreases hi
  {
    if lo < hi { RangeAt(src, lo, hi - 1); }
  }

  lemma {:induction false} RangeSplit(src: seq<SrcEvent>, lo: nat, mid: nat, hi: nat)
    requires lo <= mid <= hi <= |src|
    ensures Range(src, lo, mid) + Range(src, mid, hi) == Range(src, lo, hi)
  {
    RangeAt(src, lo, mid);
    RangeAt(src, mid, hi);
    RangeAt(src, lo, hi);
  }

  lemma {:induction false} RangeGrows(src: seq<SrcEvent>, more: seq<SrcEvent>, lo: nat, hi: nat)
    requires hi <= |src|
    ensures Range(src + more, lo, hi) == Range(src, lo, hi)
  {
    RangeAt(src, lo, hi);
    RangeAt(src + more, lo, hi);
  }

  /** Cutting a range of events in two. */
  lemma {:induction false} RangeCut(src: seq<SrcEvent>, a: seq<Event>, b: seq<Event>, lo: nat, hi: nat)
    requires lo <= hi <= |src| && a + b == Range(src, lo, hi)
    ensures |a| <= hi - lo && a == Range(src, lo, lo + |a|) && b == Range(src, lo + |a|, hi)
  {
    RangeAt(src, lo, hi);
    assert |a| + |b| == hi - lo;
    RangeSplit(src, lo, lo + |a|, hi);
    RangeAt(src, lo, lo + |a|);
    assert (a + b)[..|a|] == a && (a + b)[|a|..] == b;
    var x, y := Range(src, lo, lo + |a|), Range(src, lo + |a|, hi);
    assert (x + y)[..|a|] == x && (x + y)[|a|..] == y;
  }

  // ---- the filter on ranges

  /** Events the link has already are dropped. */
  lemma {:induction false} FilterOld(src: seq<SrcEvent>, lo: nat, hi: nat, r: nat)
    requires Numbered(src) && hi <= |src| && hi <= r
    ensures FilterEvents(Range(src, lo, hi), r) == Kept([], r)
    decreases hi
  {
    if lo < hi {
      FilterOld(src, lo, hi - 1, r);
      FilterEventsAppend(Range(src, lo, hi - 1), src[hi - 1].event, r);
    }
  }

  /** Events that start no later than the next one are kept from the next one on. */
  lemma {:induction false} FilterTail(src: seq<SrcEvent>, lo: nat, r: nat, hi: nat)
    requires Numbered(src) && lo <= r < hi <= |src|
    ensures FilterEvents(Range(src, lo, hi), r) == Kept(Range(src, r, hi), hi)
    decreases hi
  {
    var es, e := Range(src, lo, hi - 1), src[hi - 1].event;
    if hi == r + 1 {
      FilterOld(src, lo, r, r);
      assert Range(src, r, r) == [];
    } else {
      FilterTail(src, lo, r, hi - 1);
    }
    FilterNext(es, e, r, Range(src, r, hi - 1));
  }

  lemma {:induction false} FilterNext(es: seq<Event>, e: Event, r: nat, kept: seq<Event>)
    requires e.sequence > 0 && FilterEvents(es, r) == Kept(kept, e.sequence - 1)
    ensures FilterEvents(es + [e], r) == Kept(kept + [e], e.sequence)
  {
    FilterEventsAppend(es, e, r);
  }

  /** Events that start behind the next one are a gap. */
  lemma {:induction false} FilterGap(src: seq<SrcEvent>, lo: nat, hi: nat, r: nat)
    requires Numbered(src) && r < lo < hi <= |src|
    ensures FilterEvents(Range(src, lo, hi), r) == Missing(r + 1)
    decreases hi
  {
    if hi > lo + 1 {
      FilterGap(src, lo, hi - 1, r);
    } else {
      assert FilterEvents([], r) == Kept([], r);
    }
    FilterEventsAppend(Range(src, lo, hi - 1), src[hi - 1].event, r);
  }

  /** Buffered events at a link: nothing the link needs is below its height. */
  predicate LinkOk(src: seq<SrcEvent>, rxHeight: nat, rxSeq: nat) {
    forall i :: rxSeq <= i < |src| ==> rxHeight <= src[i].height
  }

  /**
   On a buffer that holds the source events from `a` to `d`, the filter keeps exactly the
   events behind the link's sequence, and reports a gap exactly when the buffer starts
   behind the next one.
   */
  lemma {:induction false} FilterRange(src: seq<SrcEvent>, rs: seq<Receipt>, a: nat, d: nat, h: nat, r: nat)
    requires SourceOk(src) && BatchOk(src, rs) && a <= d <= |src| && Flat(rs) == Range(src, a, d) && LinkOk(src, h, r)
    ensures r < a < d ==> FilterReceipts(rs, h, r) == Missing(r + 1)
    ensures a <= r || a == d ==>
              var out := FilterReceipts(rs, h, r);
              && out.Kept? && BatchOk(src, out.items) && Flat(out.items) == Range(src, Max(a, r), d)
              && out.rxSeq == if a < d then Max(r, d) else r
    decreases |rs|
  {
    RangeAt(src, a, d);
    if rs != [] {
      var n := |rs| - 1;
      var es := rs[n].events;
      RangeCut(src, Flat(rs[..n]), es, a, d);
      var mid := a + |Flat(rs[..n])|;
      assert rs[n] in rs && es != [];
      RangeAt(src, mid, d);
      assert mid < d;
      FilterRange(src, rs[..n], a, mid, h, r);
      LastReceipt(src, rs, a, mid, d, h, r);
    }
  }

  lemma {:induction false} LastReceipt(src: seq<SrcEvent>, rs: seq<Receipt>, a: nat, mid: nat, d: nat, h: nat, r: nat)
    requires SourceOk(src) && BatchOk(src, rs) && rs != [] && a <= mid < d <= |src| && LinkOk(src, h, r)
    requires rs[|rs| - 1].events == Range(src, mid, d)
    requires var out := FilterReceipts(rs[..|rs| - 1], h, r);
             && (r < a < mid ==> out == Missing(r + 1))
             && (a <= r || a == mid ==>
                   && out.Kept? && BatchOk(src, out.items) && Flat(out.items) == Range(src, Max(a, r), mid)
                   && out.rxSeq == if a < mid then Max(r, mid) else r)
    ensures r < a ==> FilterReceipts(rs, h, r) == Missing(r + 1)
    ensures a <= r ==>
              var out := FilterReceipts(rs, h, r);
              && out.Kept? && BatchOk(src, out.items) && Flat(out.items) == Range(src, Max(a, r), d)
              && out.rxSeq == Max(r, d)
  {
    var last := rs[|rs| - 1];
    LastHeight(src, rs, mid, d);
    if a <= r {
      KeepsRange(src, FilterReceipts(rs[..|rs| - 1], h, r), last, a, mid, d, h, r);
    } else if a == mid {
      FilterGap(src, mid, d, r);
    }
  }

  lemma {:induction false} LastHeight(src: seq<SrcEvent>, rs: seq<Receipt>, mid: nat, d: nat)
    requires SourceOk(src) && BatchOk(src, rs) && rs != [] && mid < d <= |src|
    requires rs[|rs| - 1].events == Range(src, mid, d)
    ensures src[d - 1].height == rs[|rs| - 1].height
  {
    var last := rs[|rs| - 1];
    RangeAt(src, mid, d);
    assert last in rs && last.events[d - 1 - mid] in last.events;
  }

  /** Behind what the link has, the kept events of the last receipt continue those of the receipts before it. */
  lemma {:induction false} Continues(src: seq<SrcEvent>, a: nat, mid: nat, d: nat, r: nat)
    requires SourceOk(src) && a <= mid < d <= |src| && a <= r
    ensures Range(src, Max(a, r), mid) + Range(src, Max(r, mid), d) == Range(src, Max(a, r), d)
    ensures Range(src, Max(r, mid), d) == [] <==> d <= r
  {
    RangeAt(src, Max(r, mid), d);
    if r <= mid {
      RangeSplit(src, r, mid, d);
    } else {
      RangeAt(src, r, mid);
      assert [] + Range(src, r, d) == Range(src, r, d);
    }
  }

  lemma {:induction false} KeepsRange(
    src: seq<SrcEvent>, out: Filtered<Receipt>, last: Receipt, a: nat, mid: nat, d: nat, h: nat, r: nat)
    requires SourceOk(src) && a <= mid < d <= |src| && a <= r && LinkOk(src, h, r)
    requires last.events == Range(src, mid, d) && src[d - 1].height == last.height
    requires forall e <- last.events :: Genuine(src, e, last.height)
    requires out.Kept? && BatchOk(src, out.items) && Flat(out.items) == Range(src, Max(a, r), mid)
    requires out.rxSeq == if a < mid then Max(r, mid) else r
    ensures var next := NextReceipt(out, last, h);
            && next.Kept? && BatchOk(src, next.items) && Flat(next.items) == Range(src, Max(a, r), d)
            && next.rxSeq == Max(r, d)
  {
    Continues(src, a, mid, d, r);
    if d <= r {
      NothingNew(src, out, last, mid, d, h);
    } else {
      SomethingNew(src, out, last, mid, d, h);
    }
  }

  lemma {:induction false} NothingNew(
    src: seq<SrcEvent>, out: Filtered<Receipt>, last: Receipt, mid: nat, d: nat, h: nat)
    requires SourceOk(src) && mid < d <= |src| && last.events == Range(src, mid, d)
    requires out.Kept? && d <= out.rxSeq
    ensures NextReceipt(out, last, h) == out
  {
    FilterOld(src, mid, d, out.rxSeq);
  }

  lemma {:induction false} SomethingNew(
    src: seq<SrcEvent>, out: Filtered<Receipt>, last: Receipt, mid: nat, d: nat, h: nat)
    requires SourceOk(src) && mid < d <= |src| && last.events == Range(src, mid, d) && last.height >= h
    requires forall e <- last.events :: Genuine(src, e, last.height)
    requires out.Kept? && mid <= out.rxSeq < d && BatchOk(src, out.items)
    ensures var next := NextReceipt(out, last, h);
            && next.Kept? && next.rxSeq == d
            && BatchOk(src, next.items) && Flat(next.items) == Flat(out.items) + Range(src, out.rxSeq, d)
  {
    var es := Range(src, out.rxSeq, d);
    RangeTail(src, mid, out.rxSeq, d);
    AppendGenuine(src, out.items, last, es);
    FilterTail(src, mid, out.rxSeq, d);
    assert NextReceipt(out, last, h) == Kept(out.items + [Receipt(last.height, es)], d);
  }

  lemma {:induction false} RangeTail(src: seq<SrcEvent>, lo: nat, mid: nat, hi: nat)
    requires lo <= mid < hi <= |src|
    ensures Range(src, mid, hi) != [] && forall e <- Range(src, mid, hi) :: e in Range(src, lo, hi)
  {
    RangeSplit(src, lo, mid, hi);
    RangeAt(src, mid, hi);
  }

  lemma {:induction false} AppendGenuine(src: seq<SrcEvent>, items: seq<Receipt>, last: Receipt, es: seq<Event>)
    requires BatchOk(src, items) && es != [] && forall e <- es :: e in last.events
    requires forall e <- last.events :: Genuine(src, e, last.height)
    ensures BatchOk(src, items + [Receipt(last.height, es)])
    ensures Flat(items + [Receipt(last.height, es)]) == Flat(items) + es
  {
    assert (items + [Receipt(last.height, es)])[..|items|] == items;
  }

  // ---- the destination takes genuine batches in order

  lemma {:induction false} HandleOk(src: seq<SrcEvent>, d: Dst, rs: seq<Receipt>)
    requires SourceOk(src) && DstOk(src, d) && BatchOk(src, rs)
    ensures match Handle(d, rs)
            case None => true
            case Some(d') =>
              && DstOk(src, d') && |d.log| <= |d'.log|
              && forall r <- rs, e <- r.events :: e.sequence <= |d'.log|
    decreases |rs|
  {
    if rs != [] {
      var n := |rs| - 1;
      HandleOk(src, d, rs[..n]);
      if Handle(d, rs[..n]).Some? {
        assert rs == rs[..n] + [rs[n]];
        var d' := Handle(d, rs[..n]).value;
        HandleOne(src, d', rs[n]);
      }
    }
  }

  lemma {:induction false} HandleOne(src: seq<SrcEvent>, d: Dst, r: Receipt)
    requires SourceOk(src) && DstOk(src, d) && BatchOk(src, [r])
    ensures r.height < d.rxHeight ==> forall e <- r.events :: e.sequence <= |d.log|
    ensures r.height >= d.rxHeight ==>
              match FilterEvents(r.events, |d.log|)
              case Missing(_) => true
              case Kept(es, _) =>
                && DstOk(src, Dst(d.log + es, r.height))
                && forall e <- r.events :: e.sequence <= |d.log + es|
  {
    assert r in [r];
    if r.height >= d.rxHeight {
      EventsKept(r.events, |d.log|);
      if FilterEvents(r.events, |d.log|).Kept? {
        TakesNext(src, d, r, FilterEvents(r.events, |d.log|).items);
      }
    }
  }

  lemma {:induction false} TakesNext(src: seq<SrcEvent>, d: Dst, r: Receipt, es: seq<Event>)
    requires SourceOk(src) && DstOk(src, d)
    requires r.events != [] && forall e <- r.events :: Genuine(src, e, r.height) && e.sequence <= |d.log| + |es|
    requires forall i :: 0 <= i < |es| ==> es[i].sequence == |d.log| + 1 + i && es[i] in r.events
    ensures DstOk(src, Dst(d.log + es, r.height))
  {
    var n, t := |d.log|, |d.log| + |es|;
    var e := r.events[0];
    assert e in r.events;
    assert t <= |src| by { if es != [] { assert es[|es| - 1] in r.events; } }
    RangeAt(src, 0, n);
    RangeAt(src, 0, t);
    forall i | 0 <= i < t ensures (d.log + es)[i] == Range(src, 0, t)[i] {
      if i >= n { assert es[i - n] in r.events; }
    }
    assert d.log + es == Range(src, 0, t);
  }

  predicate AllBatchesOk(src: seq<SrcEvent>, txs: seq<Tx>) {
    forall id :: 0 <= id < |txs| ==> BatchOk(src, txs[id].receipts)
  }

  lemma {:induction false} ExecuteOk(src: seq<SrcEvent>, d: Dst, txs: seq<Tx>, ids: seq<nat>)
    requires SourceOk(src) && DstOk(src, d) && AllBatchesOk(src, txs) && Known(txs, ids)
    ensures DstOk(src, Execute(d, txs, ids)) && |d.log| <= |Execute(d, txs, ids).log|
    ensures forall id :: 0 <= id < |txs| && GoesThrough(d, txs, ids, id) ==>
              forall r <- txs[id].receipts, e <- r.events :: e.sequence <= |Execute(d, txs, ids).log|
    decreases |ids|
  {
    if ids != [] {
      var n := |ids| - 1;
      ExecuteOk(src, d, txs, ids[..n]);
      var d' := Execute(d, txs, ids[..n]);
      HandleOk(src, d', txs[ids[n]].receipts);
      forall id | 0 <= id < |txs| && GoesThrough(d, txs, ids, id)
        ensures forall r <- txs[id].receipts, e <- r.events :: e.sequence <= |Execute(d, txs, ids).log|
      {
        var m :| 0 <= m < |ids| && ids[m] == id && Handle(Execute(d, txs, ids[..m]), txs[id].receipts).Some?;
        if m < n {
          assert ids[..n][..m] == ids[..m] && ids[..n][m] == id;
          assert GoesThrough(d, txs, ids[..n], id);
        }
      }
    }
  }

  // ---- every step keeps the invariant

  lemma {:induction false} BatchGrows(src: seq<SrcEvent>, e: SrcEvent, rs: seq<Receipt>)
    requires BatchOk(src, rs)
    ensures BatchOk(src + [e], rs)
  {
    forall r <- rs, x <- r.events ensures Genuine(src + [e], x, r.height) {
      assert Genuine(src, x, r.height);
    }
  }

  lemma {:induction false} DstGrows(src: seq<SrcEvent>, e: SrcEvent, d: Dst)
    requires SourceOk(src) && DstOk(src, d) && (src != [] ==> src[|src| - 1].height <= e.height)
    ensures DstOk(src + [e], d)
  {
    RangeGrows(src, [e], 0, |d.log|);
  }

  lemma {:induction false} EmitKeeps(s: State, s': State, e: SrcEvent)
    requires Inv(s) && Emit(s, s', e)
    ensures Inv(s')
  {
    forall k | 0 <= k < |s.chain| ensures DstOk(s'.src, s'.chain[k]) { DstGrows(s.src, e, s.chain[k]); }
    forall id | 0 <= id < |s.txs| ensures BatchOk(s'.src, s'.txs[id].receipts) {
      BatchGrows(s.src, e, s.txs[id].receipts);
    }
    if s.phase != Stopped {
      BatchGrows(s.src, e, s.buffer);
      RangeGrows(s.src, [e], s.delivered - |Flat(s.buffer)|, s.delivered);
    }
  }

  /** Every block grows the log, and a transaction marked as executed is in it. */
  lemma {:induction false} BlockTxs(s: State, s': State, ids: seq<nat>, id: nat)
    requires Inv(s) && Block(s, s', ids) && id < |s.txs|
    ensures s'.txs[id].receipts == s.txs[id].receipts
    ensures var at := s'.txs[id].executedAt;
            at.Some? ==>
              && at.value < |s'.chain|
              && forall r <- s.txs[id].receipts, e <- r.events :: e.sequence <= |s'.chain[at.value].log|
  {
    var d := s.chain[|s.chain| - 1];
    assert AllBatchesOk(s.src, s.txs);
    ExecuteOk(s.src, d, s.txs, ids);
  }

  lemma {:induction false} BlockChain(s: State, s': State, ids: seq<nat>)
    requires Inv(s) && Block(s, s', ids)
    ensures ChainOk(s')
  {
    assert AllBatchesOk(s.src, s.txs);
    ExecuteOk(s.src, s.chain[|s.chain| - 1], s.txs, ids);
  }

  lemma {:induction false} BlockKeeps(s: State, s': State, ids: seq<nat>)
    requires Inv(s) && Block(s, s', ids)
    ensures Inv(s')
  {
    BlockChain(s, s', ids);
    forall id | 0 <= id < |s.txs|
      ensures s'.txs[id].receipts == s.txs[id].receipts
      ensures s'.txs[id].executedAt.Some? ==>
                && s'.txs[id].executedAt.value < |s'.chain|
                && forall r <- s.txs[id].receipts, e <- r.events ::
                     e.sequence <= |s'.chain[s'.txs[id].executedAt.value].log|
    {
      BlockTxs(s, s', ids, id);
    }
  }

  lemma {:induction false} NonEmptyFlat(rs: seq<Receipt>)
    ensures Flat(NonEmpty(rs)) == Flat(rs)
    ensures forall r <- NonEmpty(rs) :: r in rs && r.events != []
  {
    if rs != [] {
      var n := |rs| - 1;
      NonEmptyFlat(rs[..n]);
      assert rs == rs[..n] + [rs[n]];
      var front := NonEmpty(rs[..n]);
      if rs[n].events == [] {
        assert front + [] == front && Flat(rs[..n]) + [] == Flat(rs[..n]);
      } else {
        assert (front + [rs[n]])[..|front|] == front;
      }
    }
  }

  lemma {:induction false} FlatConcat(a: seq<Receipt>, b: seq<Receipt>)
    ensures Flat(a + b) == Flat(a) + Flat(b)
    decreases |b|
  {
    if b == [] {
      assert a + b == a;
    } else {
      var n := |b| - 1;
      assert (a + b)[..|a + b| - 1] == a + b[..n];
      FlatConcat(a, b[..n]);
    }
  }

  lemma {:induction false} AppendRange(src: seq<SrcEvent>, rs: seq<Receipt>, msg: seq<Receipt>, a: nat, d: nat)
    requires a <= d && d + |Flat(msg)| <= |src|
    requires Flat(rs) == Range(src, a, d) && Flat(msg) == Range(src, d, d + |Flat(msg)|)
    ensures Flat(rs + NonEmpty(msg)) == Range(src, a, d + |Flat(msg)|)
    ensures |Flat(rs + NonEmpty(msg))| == d + |Flat(msg)| - a
  {
    NonEmptyFlat(msg);
    FlatConcat(rs, NonEmpty(msg));
    RangeSplit(src, a, d, d + |Flat(msg)|);
    RangeAt(src, a, d + |Flat(msg)|);
  }

  lemma {:induction false} ArriveKeeps(s: State, s': State, msg: seq<Receipt>)
    requires Inv(s) && Arrive(s, s', msg)
    ensures Inv(s')
  {
    AppendRange(s.src, s.buffer, msg, s.delivered - |Flat(s.buffer)|, s.delivered);
    assert BatchOk(s.src, s'.buffer) by {
      NonEmptyFlat(msg);
    }
  }

  /** Where the buffer starts: everything before it has left the buffer. */
  function Start(s: State): int {
    s.delivered - |Flat(s.buffer)|
  }

  lemma {:induction false} LinkHolds(s: State, k: nat)
    requires Inv(s) && k < |s.chain|
    ensures LinkOk(s.src, s.chain[k].rxHeight, |s.chain[k].log|)
  {
    assert DstOk(s.src, s.chain[k]);
  }

  lemma {:induction false} SegmentKeeps(s: State, s': State, k: nat, cut: nat, keep: nat)
    requires Inv(s) && Segment(s, s', k, cut, keep)
    ensures Inv(s')
  {
    LinkHolds(s, k);
    FilteredHolds(s.src, s.buffer, Start(s), s.delivered, s.chain[k].rxHeight, |s.chain[k].log|);
    assert |s.chain[k].log| <= |s.chain[s'.seen].log| && |s.chain[s.seen].log| <= |s.chain[s'.seen].log|;
  }

  /** What the filter keeps are the last events of the buffer; those it drops are in the link's log. */
  lemma {:induction false} FilteredHolds(src: seq<SrcEvent>, rs: seq<Receipt>, a: nat, d: nat, h: nat, r: nat)
    requires SourceOk(src) && BatchOk(src, rs) && a <= d <= |src| && Flat(rs) == Range(src, a, d) && LinkOk(src, h, r)
    requires FilterReceipts(rs, h, r).Kept?
    ensures var items := FilterReceipts(rs, h, r).items;
            && BatchOk(src, items) && |Flat(items)| <= d && d - |Flat(items)| <= Max(a, r)
            && Flat(items) == Range(src, d - |Flat(items)|, d)
  {
    FilterRange(src, rs, a, d, h, r);
    RangeAt(src, Max(a, r), d);
    if Max(a, r) > d { assert Range(src, d, d) == []; }
  }

  lemma {:induction false} SplitRange(src: seq<SrcEvent>, front: seq<Receipt>, rest: seq<Receipt>, a: nat, d: nat)
    requires a <= d <= |src| && Flat(front + rest) == Range(src, a, d)
    ensures a + |Flat(front)| == d - |Flat(rest)|
    ensures Flat(front) == Range(src, a, a + |Flat(front)|)
    ensures Flat(rest) == Range(src, a + |Flat(front)|, d)
  {
    FlatConcat(front, rest);
    RangeAt(src, a, d);
    RangeCut(src, Flat(front), Flat(rest), a, d);
  }

  /** A front part of the batch ends no later than the batch's largest number. */
  lemma {:induction false} FrontEnds(src: seq<SrcEvent>, front: seq<Receipt>, a: nat, n: nat)
    requires SourceOk(src) && BatchOk(src, front) && a <= n
    requires a + |Flat(front)| <= |src| && Flat(front) == Range(src, a, a + |Flat(front)|)
    requires forall r <- front, e <- r.events :: e.sequence <= n
    ensures a + |Flat(front)| <= n
  {
    if front != [] {
      var last := front[|front| - 1];
      assert last in front;
      LastOf(src, front, a);
      assert last.events[|last.events| - 1] in last.events;
    }
  }

  /** Dropping what precedes `rest` from the buffer drops only events of the batch. */
  lemma {:induction false} RestHolds(
    src: seq<SrcEvent>, rs: seq<Receipt>, batch: seq<Receipt>, rest: seq<Receipt>, a: nat, d: nat, n: nat)
    requires SourceOk(src) && BatchOk(src, rs) && Splits(rs, batch, rest)
    requires a <= d <= |src| && a <= n && Flat(rs) == Range(src, a, d)
    requires forall r <- batch, e <- r.events :: e.sequence <= n
    ensures BatchOk(src, rest) && |Flat(rest)| <= d - a
    ensures Flat(rest) == Range(src, d - |Flat(rest)|, d) && d - |Flat(rest)| <= n
  {
    var front := rs[..|rs| - |rest|];
    assert rs == front + rest;
    SplitRange(src, front, rest, a, d);
    assert forall r <- front :: r in rs && r in batch by {
      forall i | 0 <= i < |front| ensures front[i] == rs[i] == batch[i] {}
    }
    assert BatchOk(src, front) && BatchOk(src, rest) by {
      assert forall r <- rest :: r in rs;
    }
    FrontEnds(src, front, a, n);
  }

  lemma {:induction false} ReceiptKeeps(s: State, s': State)
    requires Inv(s) && ReceiptArrives(s, s')
    ensures Inv(s')
  {
    var tx := s.txs[s.phase.id];
    var b := tx.executedAt.value;
    assert |s.chain[b].log| <= |s.chain[s'.seen].log| && |s.chain[s.seen].log| <= |s.chain[s'.seen].log|;
    RestHolds(s.src, s.buffer, tx.receipts, s.phase.rest, Start(s), s.delivered, |s.chain[s'.seen].log|);
  }

  /** The last event of a non-empty front has the number the front ends with. */
  lemma {:induction false} LastOf(src: seq<SrcEvent>, front: seq<Receipt>, a: nat)
    requires SourceOk(src) && front != [] && front[|front| - 1].events != []
    requires a + |Flat(front)| <= |src| && Flat(front) == Range(src, a, a + |Flat(front)|)
    ensures var es := front[|front| - 1].events; es[|es| - 1].sequence == a + |Flat(front)|
  {
    var es := front[|front| - 1].events;
    RangeAt(src, a, a + |Flat(front)|);
    assert Flat(front)[|Flat(front)| - 1] == es[|es| - 1];
  }

  lemma {:induction false} SendKeeps(s: State, s': State)
    requires Inv(s) && SendStep(s, s')
    ensures Inv(s')
  {
    assert BatchOk(s.src, s.phase.batch) by {
      assert forall r <- s.phase.batch :: r in s.buffer;
    }
  }

  lemma {:induction false} RestartKeeps(s: State, s': State, k: nat)
    requires Inv(s) && Restart(s, s', k)
    ensures Inv(s')
  {
    assert DstOk(s.src, s.chain[k]);
  }

  lemma {:induction false} WaitKeeps(s: State, s': State)
    requires Inv(s) && WaitStep(s, s')
    ensures Inv(s')
  {
  }

  lemma {:induction false} ChainKeeps(s: State, s': State)
    requires Inv(s) && ChainStep(s, s')
    ensures Inv(s')
  {
    if e :| Emit(s, s', e) {
      EmitKeeps(s, s', e);
    } else {
      var ids :| Block(s, s', ids);
      BlockKeeps(s, s', ids);
    }
  }

  lemma {:induction false} BufferKeeps(s: State, s': State)
    requires Inv(s) && BufferStep(s, s')
    ensures Inv(s')
  {
    if ReceiptArrives(s, s') {
      ReceiptKeeps(s, s');
    } else if msg :| Arrive(s, s', msg) {
      ArriveKeeps(s, s', msg);
    } else if k: nat :| Restart(s, s', k) {
      RestartKeeps(s, s', k);
    } else {
      var k: nat, cut: nat, keep: nat :| Segment(s, s', k, cut, keep);
      SegmentKeeps(s, s', k, cut, keep);
    }
  }

  lemma {:induction false} NextKeeps(s: State, s': State)
    requires Inv(s) && Next(s, s')
    ensures Inv(s')
  {
    if ChainStep(s, s') {
      ChainKeeps(s, s');
    } else if BufferStep(s, s') {
      BufferKeeps(s, s');
    } else if SendStep(s, s') {
      SendKeeps(s, s');
    } else {
      WaitKeeps(s, s');
    }
  }

  // ---- whole runs

  lemma {:induction false} RunKeeps(states: seq<State>, i: nat)
    requires Run(states) && i < |states|
    ensures Inv(states[i])
  {
    if i > 0 {
      RunKeeps(states, i - 1);
      NextKeeps(states[i - 1], states[i]);
    }
  }

  /** The last state of a run. */
  ghost predicate Reachable(s: State) {
    exists states :: EndsIn(states, s)
  }

  ghost predicate EndsIn(states: seq<State>, s: State) {
    Run(states) && states[|states| - 1] == s
  }

  /** So what holds of every reachable state holds in every state of every run. */
  lemma {:induction false} RunReaches(states: seq<State>, i: nat)
    requires Run(states) && i < |states|
    ensures Reachable(states[i])
  {
    assert EndsIn(states[..i + 1], states[i]);
  }

  lemma {:induction false} ReachableInv(s: State)
    requires Reachable(s)
    ensures Inv(s)
  {
    var states :| EndsIn(states, s);
    RunKeeps(states, |states| - 1);
  }

  /** On every run the log of every block is the first events of the source, numbered 1, 2, 3, ... */
  lemma {:induction false} LogIsPrefix(s: State, j: nat, k: nat)
    requires Reachable(s) && j <= k < |s.chain|
    ensures && |s.chain[k].log| <= |s.src|
            && (forall n :: 0 <= n < |s.chain[k].log| ==>
                  s.chain[k].log[n] == s.src[n].event && s.chain[k].log[n].sequence == n + 1)
            && s.chain[j].log <= s.chain[k].log
  {
    ReachableInv(s);
    PrefixOf(s.src, s.chain[j]);
    PrefixOf(s.src, s.chain[k]);
    assert |s.chain[j].log| <= |s.chain[k].log|;
  }

  lemma {:induction false} PrefixOf(src: seq<SrcEvent>, d: Dst)
    requires SourceOk(src) && DstOk(src, d)
    ensures forall n :: 0 <= n < |d.log| ==> d.log[n] == src[n].event && d.log[n].sequence == n + 1
  {
    RangeAt(src, 0, |d.log|);
  }

  /** While the relay runs, every event delivered to it is in its buffer or in a log it has seen. */
  lemma {:induction false} NothingLost(s: State, n: nat)
    requires Reachable(s) && s.phase != Stopped && n < s.delivered
    ensures && s.seen < |s.chain| && n < |s.src|
            && (s.src[n].event in s.chain[s.seen].log || s.src[n].event in Flat(s.buffer))
  {
    ReachableInv(s);
    var a, log := s.delivered - |Flat(s.buffer)|, s.chain[s.seen].log;
    assert DstOk(s.src, s.chain[s.seen]);
    RangeAt(s.src, a, s.delivered);
    RangeAt(s.src, 0, |log|);
    if n < a { assert log[n] == s.src[n].event; } else { assert Flat(s.buffer)[n - a] == s.src[n].event; }
  }

  /** The events are the source's events `rxSeq + 1`, `rxSeq + 2`, ... in order. */
  predicate Follow(src: seq<SrcEvent>, es: seq<Event>, rxSeq: nat) {
    && (es != [] ==> rxSeq + |es| <= |src|)
    && forall n :: 0 <= n < |es| ==> es[n] == src[rxSeq + n].event && es[n].sequence == rxSeq + 1 + n
  }

  /** Every batch is exactly what follows the sequence of the link just read, up to the last delivered event. */
  lemma {:induction false} BatchIsNext(s: State, s': State, k: nat, cut: nat, keep: nat)
    requires Reachable(s) && Segment(s, s', k, cut, keep)
    ensures var rxSeq := |s.chain[k].log|;
            && Follow(s.src, Flat(s'.buffer), rxSeq)
            && (s.buffer != [] && rxSeq <= s.delivered ==> |Flat(s'.buffer)| == s.delivered - rxSeq)
            && (s'.phase.Sending? ==> Flat(s'.phase.batch) <= Flat(s'.buffer))
  {
    ReachableInv(s);
    LinkHolds(s, k);
    FilteredNext(s.src, s.buffer, Start(s), s.delivered, s.chain[k].rxHeight, |s.chain[k].log|);
    assert s'.buffer == FilterReceipts(s.buffer, s.chain[k].rxHeight, |s.chain[k].log|).items;
    if s'.phase.Sending? {
      assert s'.buffer == s'.phase.batch + s'.buffer[cut..];
      FlatConcat(s'.phase.batch, s'.buffer[cut..]);
    }
  }

  /** What the filter keeps of a buffer, event by event. */
  lemma {:induction false} FilteredNext(src: seq<SrcEvent>, rs: seq<Receipt>, a: nat, d: nat, h: nat, r: nat)
    requires SourceOk(src) && BatchOk(src, rs) && a <= d <= |src| && Flat(rs) == Range(src, a, d) && LinkOk(src, h, r)
    requires FilterReceipts(rs, h, r).Kept?
    ensures var es := Flat(FilterReceipts(rs, h, r).items);
            && Follow(src, es, r)
            && (rs != [] && r <= d ==> |es| == d - r)
  {
    FilterRange(src, rs, a, d, h, r);
    RangeAt(src, a, d);
    RangeAt(src, Max(a, r), d);
    if rs != [] { FlatNonEmpty(rs); }
  }

  lemma {:induction false} FlatNonEmpty(rs: seq<Receipt>)
    requires rs != [] && forall r <- rs :: r.events != []
    ensures Flat(rs) != []
  {
    assert rs[|rs| - 1] in rs;
  }

  /**
   A status stops the loop exactly when it is older than the events that have left the
   buffer, and then it is older than what the relay has already acted on: it is never the
   reason to skip an event.
   */
  lemma {:induction false} StaleStatusStops(s: State, k: nat)
    requires Reachable(s) && s.phase == Idle && k < |s.chain|
    ensures var out := FilterReceipts(s.buffer, s.chain[k].rxHeight, |s.chain[k].log|);
            && (out.Missing? <==> Flat(s.buffer) != [] && |s.chain[k].log| < Flat(s.buffer)[0].sequence - 1)
            && (out.Missing? ==> k < s.seen && out.expected == |s.chain[k].log| + 1)
  {
    ReachableInv(s);
    var r := |s.chain[k].log|;
    LinkHolds(s, k);
    FilterRange(s.src, s.buffer, Start(s), s.delivered, s.chain[k].rxHeight, r);
    RangeAt(s.src, Start(s), s.delivered);
    if Flat(s.buffer) != [] {
      assert Flat(s.buffer)[0].sequence == Start(s) + 1;
    }
  }

  // ---- transactions of the relay go through

  /** A batch the destination can take: source events in a row that start no later than its next one. */
  predicate Takeable(src: seq<SrcEvent>, rs: seq<Receipt>, n: nat) {
    Flat(rs) != [] ==>
      var a := Flat(rs)[0].sequence - 1;
      0 <= a <= n && a + |Flat(rs)| <= |src| && Flat(rs) == Range(src, a, a + |Flat(rs)|)
  }

  predicate TxsTakeable(s: State) {
    && s.chain != []
    && forall id :: 0 <= id < |s.txs| ==> Takeable(s.src, s.txs[id].receipts, |s.chain[|s.chain| - 1].log|)
  }

  /** Takes receipts that start no later than the log ends, and ends no earlier than they do. */
  lemma {:induction false} HandleTakes(src: seq<SrcEvent>, d: Dst, rs: seq<Receipt>, a: nat, e: nat)
    requires SourceOk(src) && DstOk(src, d) && BatchOk(src, rs)
    requires a <= e <= |src| && a <= |d.log| && Flat(rs) == Range(src, a, e)
    ensures Handle(d, rs).Some? && DstOk(src, Handle(d, rs).value)
    ensures |Handle(d, rs).value.log| == Max(|d.log|, e)
    decreases |rs|
  {
    RangeAt(src, a, e);
    if rs != [] {
      var n := |rs| - 1;
      RangeCut(src, Flat(rs[..n]), rs[n].events, a, e);
      var mid := a + |Flat(rs[..n])|;
      HandleTakes(src, d, rs[..n], a, mid);
      HandleOk(src, d, rs);
      TakesRange(src, Handle(d, rs[..n]).value, rs[n], mid, e);
    }
  }

  lemma {:induction false} TakesRange(src: seq<SrcEvent>, d: Dst, r: Receipt, mid: nat, e: nat)
    requires SourceOk(src) && DstOk(src, d) && BatchOk(src, [r])
    requires mid <= e <= |src| && mid <= |d.log| && r.events == Range(src, mid, e)
    ensures r.height < d.rxHeight ==> e <= |d.log|
    ensures r.height >= d.rxHeight ==>
              && FilterEvents(r.events, |d.log|).Kept?
              && |FilterEvents(r.events, |d.log|).items| == Max(|d.log|, e) - |d.log|
  {
    assert r in [r];
    RangeAt(src, mid, e);
    if e <= |d.log| { FilterOld(src, mid, e, |d.log|); } else { FilterTail(src, mid, |d.log|, e); }
    RangeAt(src, |d.log|, e);
    assert r.events[e - mid - 1] in r.events;
    assert Genuine(src, r.events[e - mid - 1], r.height);
  }

  lemma {:induction false} ExecuteTakes(src: seq<SrcEvent>, d: Dst, txs: seq<Tx>, ids: seq<nat>, n: nat)
    requires SourceOk(src) && DstOk(src, d) && AllBatchesOk(src, txs) && Known(txs, ids) && n < |ids|
    requires Takeable(src, txs[ids[n]].receipts, |d.log|)
    ensures GoesThrough(d, txs, ids, ids[n])
  {
    var rs := txs[ids[n]].receipts;
    var d' := Execute(d, txs, ids[..n]);
    ExecuteOk(src, d, txs, ids[..n]);
    if Flat(rs) == [] {
      RangeAt(src, 0, 0);
      HandleTakes(src, d', rs, 0, 0);
    } else {
      var a := Flat(rs)[0].sequence - 1;
      HandleTakes(src, d', rs, a, a + |Flat(rs)|);
    }
  }

  lemma {:induction false} TakeableGrows(src: seq<SrcEvent>, more: seq<SrcEvent>, rs: seq<Receipt>, n: nat, m: nat)
    requires Takeable(src, rs, n) && n <= m
    ensures Takeable(src + more, rs, m)
  {
    if Flat(rs) != [] {
      var a := Flat(rs)[0].sequence - 1;
      RangeGrows(src, more, a, a + |Flat(rs)|);
    }
  }

  lemma {:induction false} FrontTakeable(
    src: seq<SrcEvent>, front: seq<Receipt>, rest: seq<Receipt>, a: nat, d: nat, n: nat)
    requires SourceOk(src) && a <= d <= |src| && a <= n && Flat(front + rest) == Range(src, a, d)
    ensures Takeable(src, front, n)
  {
    SplitRange(src, front, rest, a, d);
    RangeAt(src, a, a + |Flat(front)|);
    var es := Flat(front);
    if es != [] { assert es[0] == src[a].event; }
  }

  lemma {:induction false} BatchTakeable(s: State)
    requires Inv(s) && s.phase.Sending?
    ensures Takeable(s.src, s.phase.batch, |s.chain[|s.chain| - 1].log|)
  {
    var batch := s.phase.batch;
    assert s.buffer == batch + s.buffer[|batch|..];
    assert |s.chain[s.seen].log| <= |s.chain[|s.chain| - 1].log|;
    FrontTakeable(s.src, batch, s.buffer[|batch|..], Start(s), s.delivered, |s.chain[|s.chain| - 1].log|);
  }

  lemma {:induction false} EmitTakeable(s: State, s': State, e: SrcEvent)
    requires TxsTakeable(s) && Emit(s, s', e)
    ensures TxsTakeable(s')
  {
    var n := |s.chain[|s.chain| - 1].log|;
    forall id | 0 <= id < |s.txs| ensures Takeable(s'.src, s.txs[id].receipts, n) {
      TakeableGrows(s.src, [e], s.txs[id].receipts, n, n);
    }
  }

  lemma {:induction false} BlockTakeable(s: State, s': State, ids: seq<nat>)
    requires Inv(s) && TxsTakeable(s) && Block(s, s', ids)
    ensures TxsTakeable(s')
  {
    BlockChain(s, s', ids);
    var n := |s.chain[|s.chain| - 1].log|;
    assert s'.chain[|s.chain| - 1] == s.chain[|s.chain| - 1];
    var m := |s'.chain[|s'.chain| - 1].log|;
    assert n <= m;
    forall id | 0 <= id < |s.txs| ensures Takeable(s.src, s'.txs[id].receipts, m) {
      assert Takeable(s.src, s.txs[id].receipts, n);
      assert s'.txs[id].receipts == s.txs[id].receipts;
    }
  }

  lemma {:induction false} SendTakeable(s: State, s': State)
    requires Inv(s) && TxsTakeable(s) && s.phase.Sending?
    requires s'.src == s.src && s'.chain == s.chain && s'.txs == s.txs + [Tx(s.phase.batch, None)]
    ensures TxsTakeable(s')
  {
    BatchTakeable(s);
  }

  /** Steps other than a new event, a new block or a send leave source, chain and transactions alone. */
  predicate Quiet(s: State, s': State) {
    s'.src == s.src && s'.chain == s.chain && s'.txs == s.txs
  }

  lemma {:induction false} NextTakeable(s: State, s': State)
    requires Inv(s) && TxsTakeable(s) && Next(s, s')
    ensures TxsTakeable(s')
  {
    if e :| Emit(s, s', e) {
      EmitTakeable(s, s', e);
    } else if ids :| Block(s, s', ids) {
      BlockTakeable(s, s', ids);
    } else if SendSucceeds(s, s') || SendFails(s, s', true) {
      SendTakeable(s, s');
    } else {
      assert Quiet(s, s');
    }
  }

  lemma {:induction false} RunTakeable(states: seq<State>, i: nat)
    requires Run(states) && i < |states|
    ensures TxsTakeable(states[i])
  {
    if i > 0 {
      var s, s' := states[i - 1], states[i];
      assert Next(s, s');
      RunTakeable(states, i - 1);
      RunKeeps(states, i - 1);
      NextTakeable(s, s');
    } else {
      assert states[0].txs == [];
    }
  }

  lemma {:induction false} ReachableTakeable(s: State)
    requires Reachable(s)
    ensures TxsTakeable(s)
  {
    var states :| EndsIn(states, s);
    RunTakeable(states, |states| - 1);
  }

  /**
   However late and however often a transaction of the relay is executed, and whatever runs
   before it in its block, it goes through: the message centre never finds a gap in it.
   */
  lemma {:induction false} TransactionsGoThrough(s: State, ids: seq<nat>, n: nat)
    requires Reachable(s) && Known(s.txs, ids) && n < |ids|
    ensures s.chain != [] && GoesThrough(s.chain[|s.chain| - 1], s.txs, ids, ids[n])
  {
    ReachableInv(s);
    ReachableTakeable(s);
    assert AllBatchesOk(s.src, s.txs);
    ExecuteTakes(s.src, s.chain[|s.chain| - 1], s.txs, ids, n);
  }

  // ---- what the receipt's block height guards

  /**
   A status older than the block of the last confirmed transaction is passed over exactly
   when the first receipt call succeeded.
   */
  lemma {:induction false} ReceiptGuards(s: State, s': State)
    requires Reachable(s) && ReceiptArrives(s, s')
    ensures var b := s.txs[s.phase.id].executedAt.value;
            b <= s'.txBlockHeight <==> s.phase.calls == 0
  {
    var states :| EndsIn(states, s);
    RunExecuted(states, |states| - 1);
  }

  /** No transaction is executed in the first block. */
  lemma {:induction false} RunExecuted(states: seq<State>, i: nat)
    requires Run(states) && i < |states|
    ensures states[i].chain != []
    ensures forall id :: 0 <= id < |states[i].txs| && states[i].txs[id].executedAt.Some? ==>
                           states[i].txs[id].executedAt.value > 0
  {
    if i > 0 { RunExecuted(states, i - 1); }
  }

  /** While the relay runs, the guard is the height of a block. */
  lemma {:induction false} RunGuard(states: seq<State>, i: nat)
    requires Run(states) && i < |states|
    ensures states[i].phase != Stopped ==> states[i].txBlockHeight < |states[i].chain|
  {
    if i > 0 {
      RunGuard(states, i - 1);
      RunKeeps(states, i - 1);
      NextGuard(states[i - 1], states[i]);
    }
  }

  lemma {:induction false} NextGuard(s: State, s': State)
    requires Inv(s) && Next(s, s') && (s.phase != Stopped ==> s.txBlockHeight < |s.chain|)
    ensures s'.phase != Stopped ==> s'.txBlockHeight < |s'.chain|
  {
    if ChainStep(s, s') {
      assert |s.chain| <= |s'.chain| && s'.txBlockHeight == s.txBlockHeight && s'.phase == s.phase;
    }
  }

  lemma {:induction false} ReachableGuard(s: State)
    requires Reachable(s)
    ensures s.phase != Stopped ==> s.txBlockHeight < |s.chain|
  {
    var states :| EndsIn(states, s);
    RunGuard(states, |states| - 1);
  }

  /** Some status that the guard lets through ends the loop. */
  predicate CanStop(s: State) {
    exists k: nat :: k < |s.chain| && FindGap(s, s.(phase := Stopped), k)
  }

  /**
   On every run, some status that is not passed over ends the loop if and only if the log at
   the guard's block ends before the events that have left the buffer.
   */
  lemma {:induction false} StopsIff(s: State)
    requires Reachable(s) && s.phase == Idle
    ensures && s.txBlockHeight < |s.chain|
            && (CanStop(s) <==>
                  Flat(s.buffer) != [] && |s.chain[s.txBlockHeight].log| < Flat(s.buffer)[0].sequence - 1)
  {
    ReachableInv(s);
    ReachableGuard(s);
    var b := s.txBlockHeight;
    StaleStatusStops(s, b);
    if k: nat :| k < |s.chain| && FindGap(s, s.(phase := Stopped), k) {
      StaleStatusStops(s, k);
      assert |s.chain[b].log| <= |s.chain[k].log|;
    } else {
      assert !FindGap(s, s.(phase := Stopped), b);
    }
  }

  // Runs that end although nothing is missing.

  lemma {:induction false} Extend(states: seq<State>, s': State) returns (longer: seq<State>)
    requires Run(states) && Next(states[|states| - 1], s')
    ensures Run(longer) && |longer| == |states| + 1
    ensures longer == states + [s'] && longer[|states| - 1] == states[|states| - 1] && longer[|states|] == s'
  {
    longer := states + [s'];
    forall i | 0 <= i < |longer| - 1 ensures Next(longer[i], longer[i + 1]) {
      assert i == |states| - 1 || Next(states[i], states[i + 1]);
    }
  }

  /** `r` carries the last event of the source and nothing else. */
  predicate IsLast(src: seq<SrcEvent>, r: Receipt) {
    && |r.events| == 1 && src != [] && src[|src| - 1] == SrcEvent(r.events[0], r.height)
    && r.events[0].sequence == |src|
  }

  lemma {:induction false} SingleArrives(s: State, r: Receipt)
    requires IsLast(s.src, r) && s.phase == Idle && s.buffer == [] && s.delivered == |s.src| - 1
    ensures Flat([r]) == r.events
    ensures Next(s, s.(buffer := [r], delivered := |s.src|))
  {
    assert [r][..0] == [];
    assert Flat([r]) == r.events by { assert Flat([]) == []; }
    RangeAt(s.src, |s.src| - 1, |s.src|);
    assert NonEmpty([r]) == [r] by { assert NonEmpty([]) == []; }
    assert Arrive(s, s.(buffer := [r], delivered := |s.src|), [r]);
  }

  lemma {:induction false} SingleFilters(r: Receipt, h: nat, n: nat)
    requires |r.events| == 1 && n < r.events[0].sequence && h <= r.height
    ensures FilterEvents(r.events, n) ==
            if r.events[0].sequence == n + 1 then Kept(r.events, n + 1) else Missing(n + 1)
    ensures FilterReceipts([r], h, n) ==
            if r.events[0].sequence == n + 1 then Kept([r], n + 1) else Missing(n + 1)
  {
    assert [r][..0] == [] && r.events[..0] == [] && r.events == [r.events[0]];
    assert FilterEvents([], n) == Kept([], n) && FilterReceipts([], h, n) == Kept([], n);
  }

  lemma {:induction false} SingleSends(s: State, r: Receipt)
    requires s.phase == Idle && s.buffer == [r] && s.chain == [Dst([], 0)] && s.txBlockHeight == 0 && s.seen == 0
    requires |r.events| == 1 && r.events[0].sequence == 1
    ensures Next(s, s.(phase := Sending([r], [])))
  {
    SingleFilters(r, 0, 0);
    assert [r][..1] == [r] && [r][1..] == [];
    assert Segment(s, s.(phase := Sending([r], [])), 0, 1, 1);
  }

  lemma {:induction false} SingleExecutes(s: State, r: Receipt)
    requires s.chain == [Dst([], 0)] && s.txs == [Tx([r], None)] && |r.events| == 1 && r.events[0].sequence == 1
    ensures Next(s, s.(chain := [Dst([], 0), Dst(r.events, r.height)], txs := [Tx([r], Some(1))]))
  {
    var d0, d1 := Dst([], 0), Dst(r.events, r.height);
    SingleFilters(r, 0, 0);
    var ids: seq<nat> := [0];
    assert [r][..0] == [] && ids[..0] == [] && [] + r.events == r.events;
    assert Handle(d0, [r]) == Some(d1) by { assert Handle(d0, []) == Some(d0); }
    assert Execute(d0, s.txs, []) == d0 && Execute(d0, s.txs, ids) == d1;
    assert GoesThrough(d0, s.txs, ids, 0);
    var s' := s.(chain := [d0, d1], txs := [Tx([r], Some(1))]);
    assert s'.chain == s.chain + [d1];
    assert Block(s, s', ids);
  }

  lemma {:induction false} StartRelay(e: SrcEvent) returns (states: seq<State>)
    requires e.event.sequence == 1
    ensures Run(states) && NoRetry(states)
    ensures states[|states| - 1] == State([e], [Dst([], 0)], [], Idle, [], 0, 0, 0)
  {
    var s0 := State([], [Dst([], 0)], [], Stopped, [], 0, 0, 0);
    states := [s0];
    var s1 := s0.(src := [e]);
    assert s1.src == s0.src + [e] && Emit(s0, s1, e);
    states := Extend(states, s1);
    var s2 := s1.(phase := Idle);
    assert Restart(s1, s2, 0);
    states := Extend(states, s2);
  }

  /** No receipt call has failed in the run. */
  predicate NoRetry(states: seq<State>) {
    forall s <- states :: s.phase.Waiting? ==> s.phase.calls == 0
  }

  lemma {:induction false} SendFirst(e: SrcEvent) returns (states: seq<State>)
    requires e.event.sequence == 1
    ensures var r := Receipt(e.height, [e.event]);
            Run(states) && NoRetry(states) && states[|states| - 1] ==
              State([e], [Dst([], 0)], [Tx([r], None)], Waiting(0, [], 0), [r], 1, 0, 0)
  {
    states := StartRelay(e);
    var s0 := states[|states| - 1];
    var r := Receipt(e.height, [e.event]);
    SingleArrives(s0, r);
    var s1 := s0.(buffer := [r], delivered := 1);
    states := Extend(states, s1);
    SingleSends(s1, r);
    var s2 := s1.(phase := Sending([r], []));
    states := Extend(states, s2);
    var s3 := s2.(txs := [Tx([r], None)], phase := Waiting(0, [], 0));
    assert SendSucceeds(s2, s3);
    states := Extend(states, s3);
  }

  /** The first event is confirmed by the second receipt call. */
  lemma {:induction false} ConfirmFirst(e: SrcEvent) returns (states: seq<State>)
    requires e.event.sequence == 1
    ensures Run(states) && AfterFirst(states[|states| - 1], e)
  {
    states := SendFirst(e);
    var s0 := states[|states| - 1];
    var s1 := s0.(phase := Waiting(0, [], 1));
    assert ReceiptFails(s0, s1);
    states := Extend(states, s1);
    var r := Receipt(e.height, [e.event]);
    SingleExecutes(s1, r);
    var s2 := s1.(chain := [Dst([], 0), Dst([e.event], e.height)], txs := [Tx([r], Some(1))]);
    states := Extend(states, s2);
    var s3 := s2.(phase := Idle, buffer := [], seen := 1);
    assert ReceiptArrives(s2, s3);
    states := Extend(states, s3);
  }

  /** The first event is in the log of block 1 and has left the buffer, and the guard is block 0. */
  predicate AfterFirst(s: State, e: SrcEvent) {
    s == State([e], [Dst([], 0), Dst([e.event], e.height)], [Tx([Receipt(e.height, [e.event])], Some(1))],
               Idle, [], 1, 0, 1)
  }

  lemma {:induction false} SingleDrops(s: State, r: Receipt)
    requires s.phase == Idle && s.buffer == [r] && s.chain == [Dst([], 0), Dst(r.events, r.height)]
    requires s.txBlockHeight == 0 && s.seen == 0 && |r.events| == 1 && r.events[0].sequence == 1
    ensures Next(s, s.(buffer := [], seen := 1))
  {
    assert [r][..0] == [] && r.events[..0] == [] && r.events == [r.events[0]];
    assert FilterEvents([], 1) == Kept([], 1) && FilterReceipts([], r.height, 1) == Kept([], 1);
    assert FilterEvents(r.events, 1) == Kept([], 1);
    assert FilterReceipts([r], r.height, 1) == Kept([], 1);
    assert Segment(s, s.(buffer := [], seen := 1), 1, 0, 0);
  }

  /** The relay starts over, the old transaction is executed, and a status drops the event that arrived again. */
  lemma {:induction false} RestartFirst(e: SrcEvent) returns (states: seq<State>)
    requires e.event.sequence == 1
    ensures Run(states) && NoRetry(states) && AfterFirst(states[|states| - 1], e)
  {
    states := SendFirst(e);
    var s0 := states[|states| - 1];
    var r := Receipt(e.height, [e.event]);
    var s1 := s0.(phase := Stopped);
    assert Stop(s0, s1);
    states := Extend(states, s1);
    var s2 := s1.(phase := Idle, buffer := [], delivered := 0);
    assert Restart(s1, s2, 0);
    states := Extend(states, s2);
    SingleArrives(s2, r);
    var s3 := s2.(buffer := [r], delivered := 1);
    states := Extend(states, s3);
    SingleExecutes(s3, r);
    var s4 := s3.(chain := [Dst([], 0), Dst([e.event], e.height)], txs := [Tx([r], Some(1))]);
    states := Extend(states, s4);
    SingleDrops(s4, r);
    states := Extend(states, s4.(buffer := [], seen := 1));
  }

  /** From there the second event arrives, and a status of block 0 ends the loop although nothing is missing. */
  lemma {:induction false} OldStatusStops(run: seq<State>, e: SrcEvent, e': SrcEvent)
    returns (states: seq<State>, s': State)
    requires Run(run) && AfterFirst(run[|run| - 1], e)
    requires e.event.sequence == 1 && e'.event.sequence == 2 && e.height <= e'.height
    ensures Run(states) && (NoRetry(run) ==> NoRetry(states))
    ensures StoppedByOld(states[|states| - 1], s', e, e')
  {
    var s0 := run[|run| - 1];
    var r := Receipt(e'.height, [e'.event]);
    var s1 := s0.(src := [e, e']);
    assert s1.src == s0.src + [e'] && Emit(s0, s1, e');
    states := Extend(run, s1);
    SingleArrives(s1, r);
    var s2 := s1.(buffer := [r], delivered := 2);
    states := Extend(states, s2);
    SingleFilters(r, 0, 0);
    s' := s2.(phase := Stopped);
  }

  predicate StoppedByOld(s: State, s': State, e: SrcEvent, e': SrcEvent) {
    && FindGap(s, s', 0)
    && s.seen == 1 && |s.chain| == 2 && s.chain[1].log == [e.event] && Flat(s.buffer) == [e'.event]
  }

  /** Such a run with a transaction confirmed by its second receipt call. */
  lemma {:induction false} OldStatusAfterRetry(e: SrcEvent, e': SrcEvent) returns (states: seq<State>, s': State)
    requires e.event.sequence == 1 && e'.event.sequence == 2 && e.height <= e'.height
    ensures Run(states) && StoppedByOld(states[|states| - 1], s', e, e')
  {
    var run := ConfirmFirst(e);
    states, s' := OldStatusStops(run, e, e');
  }

  /** And one in which no receipt call fails: the relay started over and went by a status alone. */
  lemma {:induction false} OldStatusAfterRestart(e: SrcEvent, e': SrcEvent) returns (states: seq<State>, s': State)
    requires e.event.sequence == 1 && e'.event.sequence == 2 && e.height <= e'.height
    ensures Run(states) && NoRetry(states) && StoppedByOld(states[|states| - 1], s', e, e')
  {
    var run := RestartFirst(e);
    states, s' := OldStatusStops(run, e, e');
  }
}
