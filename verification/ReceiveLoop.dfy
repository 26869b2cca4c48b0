/**
 The block receive loop: each round requests a range of blocks, all of them in flight at
 once and answered in any order, retries what failed, and forwards the blocks that follow
 the last one without a gap; the callback runs one block behind.
 */
module ReceiveLoop {
  import opened Bytes

  const MAX_UINT64: nat := 0xFFFF_FFFF_FFFF_FFFF

  type Height = n: nat | n <= MAX_UINT64

  datatype Note = Note(height: Height, data: Bytes)

  /** Beyond: the node says that it does not have the block yet. */
  datatype Failure = Beyond | Other

  datatype Request = Request(v: Option<Note>, err: Option<Failure>, retry: nat)

  const RETRIES: nat := 3

  /** `latest` after a node reported block `h` as beyond its head. */
  function LatestAfter(latest: Height, h: Height): Height {
    if latest < h then latest else if h == 0 then MAX_UINT64 else h - 1
  }

  /** The report puts `latest` below the missing block, except for block 0, where it wraps around. */
  lemma {:induction false} LatestBelow(latest: Height, h: Height)
    ensures LatestAfter(latest, h) < h <==> h > 0
    ensures LatestAfter(latest, h) <= latest <==> h > 0 || latest == MAX_UINT64
  {
  }

  // ---- where the requests of a round are

  predicate NoDup(s: seq<nat>) {
    forall i, j :: 0 <= i < j < |s| ==> s[i] != s[j]
  }

  /** Every request below `n` is in exactly one place, and there only once. */
  ghost predicate Placed(n: nat, queue: seq<nat>, flying: set<nat>, done: seq<nat>) {
    && NoDup(queue) && NoDup(done)
    && (forall i <- queue :: i < n && i !in flying && i !in done)
    && (forall i <- done :: i < n && i !in flying)
    && (forall i <- flying :: i < n)
    && (forall i :: 0 <= i < n ==> i in queue || i in flying || i in done)
  }

  lemma {:induction false} AllQueued(n: nat, queue: seq<nat>)
    requires |queue| == n && forall i :: 0 <= i < n ==> queue[i] == i
    ensures Placed(n, queue, {}, [])
  {
    forall i | 0 <= i < n ensures i in queue { assert queue[i] == i; }
  }

  lemma {:induction false} MoveBack(n: nat, queue: seq<nat>, flying: set<nat>, done: seq<nat>, i: nat)
    requires Placed(n, queue, flying, done) && i in flying
    ensures Placed(n, queue + [i], flying - {i}, done)
  {
  }

  lemma {:induction false} HeadBack(n: nat, queue: seq<nat>, flying: set<nat>, done: seq<nat>)
    requires Placed(n, queue, flying, done) && queue != []
    ensures Placed(n, queue[1..] + [queue[0]], flying, done)
  {
    var i := queue[0];
    assert i in queue && queue == [i] + queue[1..];
    assert i !in queue[1..];
  }

  lemma {:induction false} HeadFlies(n: nat, queue: seq<nat>, flying: set<nat>, done: seq<nat>)
    requires Placed(n, queue, flying, done) && queue != []
    ensures Placed(n, queue[1..], flying + {queue[0]}, done)
  {
    var i := queue[0];
    assert i in queue && queue == [i] + queue[1..];
    assert i !in queue[1..];
  }

  lemma {:induction false} HeadDone(n: nat, queue: seq<nat>, flying: set<nat>, done: seq<nat>)
    requires Placed(n, queue, flying, done) && queue != []
    ensures Placed(n, queue[1..], flying, done + [queue[0]])
  {
    var i := queue[0];
    assert i in queue && queue == [i] + queue[1..];
    assert i !in queue[1..];
  }

  // ---- what the node answered

  /** One answer of the node to a fetch. */
  datatype Answer = Answer(data: Bytes, err: Option<Failure>)

  function Last(answers: seq<Answer>): Answer
    requires answers != []
  {
    answers[|answers| - 1]
  }

  /** Answers after which a request is tried again. */
  predicate AllOther(answers: seq<Answer>) {
    forall a <- answers :: a.err == Some(Other)
  }

  /** The last answer had no error. */
  predicate Succeeds(answers: seq<Answer>) {
    answers != [] && Last(answers).err == None
  }

  /** The last answer said that the node does not have the block yet, and it was not the last retry. */
  predicate SaysBeyond(answers: seq<Answer>) {
    0 < |answers| <= RETRIES && Last(answers).err == Some(Beyond)
  }

  /**
   All the answers to one request: tried again after other errors, until it succeeds, is
   beyond the head or has no retry left.
   */
  predicate Ended(answers: seq<Answer>) {
    && 0 < |answers| <= RETRIES + 1 && AllOther(answers[..|answers| - 1])
    && (Last(answers).err == Some(Other) ==> |answers| == RETRIES + 1)
  }

  /** A request for block `h` holds the last answer it got, and counts down its retries. */
  predicate Answered(r: Request, answers: seq<Answer>, h: nat) {
    && |answers| + r.retry == RETRIES + (if r.v.Some? then 1 else 0)
    && if r.v.None? then r.err == None && AllOther(answers)
       else
         && answers != [] && AllOther(answers[..|answers| - 1])
         && r.err == Last(answers).err && r.v.value.height == h && r.v.value.data == Last(answers).data
  }

  predicate AllAnswered(reqs: seq<Request>, answers: seq<seq<Answer>>, next: nat) {
    |answers| == |reqs| && forall i :: 0 <= i < |reqs| ==> Answered(reqs[i], answers[i], next + i)
  }

  /** The entry of a request for block `h`: the block of the last answer if that had no error. */
  predicate Concluded(entry: Option<Note>, answers: seq<Answer>, h: nat) {
    && Ended(answers) && (entry.Some? <==> Succeeds(answers))
    && (entry.Some? ==> entry.value.height == h && entry.value.data == Last(answers).data)
  }

  predicate AllConcluded(entries: seq<Option<Note>>, done: seq<nat>, answers: seq<seq<Answer>>, next: nat) {
    && |entries| == |done|
    && forall k :: 0 <= k < |done| ==> done[k] < |answers| && Concluded(entries[k], answers[done[k]], next + done[k])
  }

  /** Requests of the round that a node without the block ended. */
  predicate ToldBeyond(beyond: set<nat>, done: seq<nat>, answers: seq<seq<Answer>>) {
    && (forall i <- beyond :: i in done)
    && (forall i <- done :: i < |answers| && (i in beyond <==> SaysBeyond(answers[i])))
  }

  /** `latest` was lowered to right below the first block that is beyond the head, if there is one. */
  predicate Lowered(next: nat, was: Height, latest: Height, beyond: set<nat>) {
    next > 0 ==>
      && latest <= was && (forall i <- beyond :: latest < next + i)
      && (latest == was || exists i <- beyond :: latest == next + i - 1)
  }

  /** The entries, each for the request at the same place of `done`. */
  predicate AllEntered(entries: seq<Option<Note>>, done: seq<nat>, next: nat) {
    && |entries| == |done|
    && forall k :: 0 <= k < |done| && entries[k].Some? ==> entries[k].value.height == next + done[k]
  }

  function Below(n: nat): set<nat> {
    if n == 0 then {} else Below(n - 1) + {n - 1}
  }

  lemma {:induction false} BelowSize(n: nat)
    ensures |Below(n)| == n
    ensures forall i: nat :: i in Below(n) <==> i < n
  {
    if n > 0 { BelowSize(n - 1); }
  }

  function Elements(s: seq<nat>): set<nat> {
    set i | i in s
  }

  lemma {:induction false} NoDupSize(s: seq<nat>)
    requires NoDup(s)
    ensures |Elements(s)| == |s|
  {
    if s != [] {
      var n := |s| - 1;
      NoDupSize(s[..n]);
      assert s == s[..n] + [s[n]];
      assert Elements(s) == Elements(s[..n]) + {s[n]};
      assert s[n] !in s[..n];
    }
  }

  /** The places hold the `n` requests between them: no send can block, and none is left when `n` are done. */
  lemma {:induction false} PlacedSize(n: nat, queue: seq<nat>, flying: set<nat>, done: seq<nat>)
    requires Placed(n, queue, flying, done)
    ensures |queue| + |flying| + |done| == n
  {
    NoDupSize(queue);
    NoDupSize(done);
    BelowSize(n);
    var q, d := Elements(queue), Elements(done);
    assert q + flying + d == Below(n);
    assert q !! flying && (q + flying) !! d;
    assert |q + flying + d| == |q| + |flying| + |d|;
  }

  /** No request is under way that has an answer. */
  predicate Unanswered(reqs: seq<Request>, flying: set<nat>) {
    forall i <- flying :: i < |reqs| && reqs[i].v.None?
  }

  lemma {:induction false} EnterOne(
    entries: seq<Option<Note>>, done: seq<nat>, answers: seq<seq<Answer>>, next: nat, entry: Option<Note>, i: nat)
    requires AllConcluded(entries, done, answers, next) && i < |answers| && Concluded(entry, answers[i], next + i)
    ensures AllConcluded(entries + [entry], done + [i], answers, next)
  {
  }

  lemma {:induction false} ToldOne(beyond: set<nat>, done: seq<nat>, answers: seq<seq<Answer>>, i: nat, told: bool)
    requires ToldBeyond(beyond, done, answers) && i < |answers| && i !in done && (told <==> SaysBeyond(answers[i]))
    ensures ToldBeyond(if told then beyond + {i} else beyond, done + [i], answers)
  {
  }

  /** A request that is not done yet may get one more answer. */
  lemma {:induction false} MoreAnswers(
    entries: seq<Option<Note>>, done: seq<nat>, answers: seq<seq<Answer>>, next: nat, beyond: set<nat>, i: nat,
    more: seq<Answer>)
    requires AllConcluded(entries, done, answers, next) && ToldBeyond(beyond, done, answers)
    requires i < |answers| && i !in done
    ensures AllConcluded(entries, done, answers[i := more], next) && ToldBeyond(beyond, done, answers[i := more])
  {
  }

  lemma {:induction false} OneMoreAnswered(
    reqs: seq<Request>, answers: seq<seq<Answer>>, next: nat, i: nat, req: Request, a: Answer)
    requires AllAnswered(reqs, answers, next) && i < |reqs| && reqs[i].v.None?
    requires req.retry == reqs[i].retry && req.err == a.err
    requires req.v.Some? && req.v.value.height == next + i && req.v.value.data == a.data
    ensures AllAnswered(reqs[i := req], answers[i := answers[i] + [a]], next)
  {
    assert (answers[i] + [a])[..|answers[i]|] == answers[i];
  }

  lemma {:induction false} HeightsEntered(
    entries: seq<Option<Note>>, done: seq<nat>, answers: seq<seq<Answer>>, next: nat)
    requires AllConcluded(entries, done, answers, next)
    ensures AllEntered(entries, done, next)
  {
  }

  // ---- what is left to do in a round

  function Weight(i: nat, flying: set<nat>, r: Request, done: set<nat>): nat {
    if i in done then 0
    else if i in flying then 4 * r.retry + 2
    else if r.v.None? && r.err.None? then 4 * r.retry + 3
    else 4 * r.retry + 1
  }

  function Total(k: nat, flying: set<nat>, reqs: seq<Request>, done: set<nat>): nat
    requires k <= |reqs|
  {
    if k == 0 then 0 else Total(k - 1, flying, reqs, done) + Weight(k - 1, flying, reqs[k - 1], done)
  }

  lemma {:induction false} TotalDrops(
    k: nat, f: set<nat>, r: seq<Request>, d: set<nat>, f': set<nat>, r': seq<Request>, d': set<nat>, i: nat)
    requires k <= |r| == |r'|
    requires forall j :: 0 <= j < k && j != i ==> Weight(j, f', r'[j], d') == Weight(j, f, r[j], d)
    requires i < k ==> Weight(i, f', r'[i], d') < Weight(i, f, r[i], d)
    ensures i < k ==> Total(k, f', r', d') < Total(k, f, r, d)
    ensures i >= k ==> Total(k, f', r', d') == Total(k, f, r, d)
  {
    if k > 0 { TotalDrops(k - 1, f, r, d, f', r', d', i); }
  }

  lemma {:induction false} AnswerDrops(n: nat, f: set<nat>, r: seq<Request>, done: set<nat>, i: nat, req: Request)
    requires n == |r| && i < n && i in f && i !in done && req.v.Some? && req.retry == r[i].retry
    ensures Total(n, f - {i}, r[i := req], done) < Total(n, f, r, done)
  {
    TotalDrops(n, f, r, done, f - {i}, r[i := req], done, i);
  }

  lemma {:induction false} DoneDrops(n: nat, f: set<nat>, r: seq<Request>, done: seq<nat>, i: nat)
    requires n == |r| && i < n && i !in done
    ensures Total(n, f, r, Elements(done + [i])) < Total(n, f, r, Elements(done))
  {
    TotalDrops(n, f, r, Elements(done), f, r, Elements(done + [i]), i);
  }

  /** Each of the `n` requests is done, once. */
  ghost predicate AllDone(done: seq<nat>, n: nat) {
    |done| == n && NoDup(done) && (forall i <- done :: i < n) && forall i :: 0 <= i < n ==> i in done
  }

  /** What the main loop does with a request that it takes off the queue. */
  datatype Treatment = Fetching | Retrying | Entering | Failing

  function TurnOf(r: Request): Treatment {
    match r.err
    case None => if r.v.Some? then Entering else Fetching
    case Some(e) => if e == Other && r.retry > 0 then Retrying else Failing
  }

  predicate Flies(i: nat, queue: seq<nat>, queue': seq<nat>, flying: set<nat>, flying': set<nat>) {
    queue != [] && queue' == queue[1..] && flying' == flying + {i}
  }

  predicate Waits(i: nat, queue: seq<nat>, queue': seq<nat>, flying: set<nat>, flying': set<nat>) {
    queue != [] && queue' == queue[1..] + [i] && flying' == flying
  }

  /** One round of requests for the blocks from `next` on. */
  class Round {
    const next: Height
    const n: nat
    const capacity: nat
    var queue: seq<nat>
    var flying: set<nat>
    var reqs: seq<Request>
    var entries: seq<Option<Note>>
    var closed: bool
    var latest: Height
    ghost const was: Height                 // `latest` when the round began
    ghost var done: seq<nat>
    ghost var beyond: set<nat>
    ghost var answers: seq<seq<Answer>>     // what the node answered to each request

    ghost predicate Valid()
      reads this
    {
      Accounted() && ToldBeyond(beyond, done, answers) && Lowered(next, was, latest, beyond)
    }

    /** Every request is in its place, with its answers and its entry. */
    ghost predicate Accounted()
      reads this
    {
      && next + n <= MAX_UINT64 && 0 < n <= capacity && |reqs| == n
      && Placed(n, queue, flying, done) && AllAnswered(reqs, answers, next) && Unanswered(reqs, flying)
      && AllConcluded(entries, done, answers, next) && (closed <==> |done| == n)
    }

    ghost function Left(): nat
      reads this
    {
      Total(|reqs|, flying, reqs, Elements(done))
    }

    constructor (next: Height, latest: Height, capacity: nat)
      requires next < latest && capacity > 0
      ensures Valid() && this.next == next && this.latest == latest == was && this.capacity == capacity
      ensures n == if latest - next < capacity then latest - next else capacity
      ensures reqs == seq(n, i => Request(None, None, RETRIES)) && answers == seq(n, i => [])
      ensures queue == seq(n, i => i) && flying == {} && entries == []
    {
      var count: nat := if latest - next < capacity then latest - next else capacity;
      this.next, this.n, this.capacity, this.latest, this.was := next, count, capacity, latest, latest;
      queue := seq(count, i => i);
      reqs := seq(count, i => Request(None, None, RETRIES));
      flying, entries, closed, done, beyond, answers := {}, [], false, [], {}, seq(count, i => []);
      new;
      AllQueued(n, queue);
    }

    /** A fetch that was under way ends, with whatever answer, and goes back to the queue. */
    method Complete(i: nat, data: Bytes, err: Option<Failure>)
      requires Valid() && i in flying
      modifies this
      ensures Valid() && Left() < old(Left())
      ensures queue == old(queue) + [i] && flying == old(flying) - {i} && entries == old(entries)
      ensures answers == old(answers)[i := old(answers[i]) + [Answer(data, err)]]
    {
      PlacedSize(n, queue, flying, done);
      assert i < n && !closed && |queue| < capacity;
      var h: Height := next + i;
      MoveBack(n, queue, flying, done, i);
      var req := Request(Some(Note(h, data)), err, reqs[i].retry);
      AnswerDrops(n, flying, reqs, Elements(done), i, req);
      ghost var more := answers[i] + [Answer(data, err)];
      MoreAnswers(entries, done, answers, next, beyond, i, more);
      OneMoreAnswered(reqs, answers, next, i, req, Answer(data, err));
      queue, flying, reqs := queue + [i], flying - {i}, reqs[i := req];
      answers := answers[i := more];
    }

    /**
     The main loop takes the next request off the queue: it fetches a block that was not
     asked for yet, asks again after an error while there are retries left, and otherwise
     enters the block, or that there is none.
     */
    method Take()
      requires Valid() && queue != []
      modifies this
      ensures Valid() && Left() < old(Left()) && answers == old(answers)
      ensures old(queue[0]) < |old(reqs)| == |reqs|
      ensures var i := old(queue[0]); var r := old(reqs)[i];
              match TurnOf(r)
              case Fetching => Flies(i, old(queue), queue, old(flying), flying) && entries == old(entries)
              case Retrying =>
                && Waits(i, old(queue), queue, old(flying), flying) && entries == old(entries)
                && reqs[i] == Request(None, None, r.retry - 1)
              case Entering => entries == old(entries) + [r.v]
              case Failing => entries == old(entries) + [None]
    {
      var i := queue[0];
      assert i in queue && Answered(reqs[i], answers[i], next + i);
      var r := reqs[i];
      if r.err.Some? {
        if r.retry > 0 && r.err.value == Other {
          Again(i);
        } else {
          GiveUp(i);
        }
      } else if r.v.Some? {
        Accept(i);
      } else {
        Launch(i);
      }
    }

    method Again(i: nat)
      requires Valid() && queue != [] && queue[0] == i < |reqs| && reqs[i].retry > 0 && reqs[i].err == Some(Other)
      modifies this
      ensures Valid() && Left() < old(Left()) && answers == old(answers) && entries == old(entries)
      ensures Waits(i, old(queue), queue, old(flying), flying)
      ensures reqs == old(reqs)[i := Request(None, None, old(reqs[i].retry) - 1)]
    {
      PlacedSize(n, queue, flying, done);
      ghost var r := reqs;
      HeadBack(n, queue, flying, done);
      assert Answered(reqs[i], answers[i], next + i);
      assert answers[i] == answers[i][..|answers[i]| - 1] + [Last(answers[i])];
      queue := queue[1..];
      assert |queue| < capacity;
      reqs := reqs[i := Request(None, None, reqs[i].retry - 1)];
      queue := queue + [i];
      TotalDrops(n, flying, r, Elements(done), flying, reqs, Elements(done), i);
    }

    method Launch(i: nat)
      requires Valid() && queue != [] && queue[0] == i < |reqs| && reqs[i].v.None? && reqs[i].err.None?
      modifies this
      ensures Valid() && Left() < old(Left()) && answers == old(answers) && entries == old(entries)
      ensures Flies(i, old(queue), queue, old(flying), flying) && reqs == old(reqs)
    {
      ghost var f := flying;
      HeadFlies(n, queue, flying, done);
      queue := queue[1..];
      flying := flying + {i};
      TotalDrops(n, f, reqs, Elements(done), flying, reqs, Elements(done), i);
    }

    /** A request that failed for good; if the block is beyond the head, `latest` is lowered. */
    method GiveUp(i: nat)
      requires Valid() && queue != [] && queue[0] == i < |reqs| && TurnOf(reqs[i]) == Failing
      modifies this
      ensures Valid() && Left() < old(Left()) && answers == old(answers) && reqs == old(reqs)
      ensures entries == old(entries) + [None]
    {
      assert i in queue && i !in done && Answered(reqs[i], answers[i], next + i);
      ghost var told := reqs[i].retry > 0;
      ToldOne(beyond, done, answers, i, told);
      if reqs[i].retry > 0 {
        latest := LatestAfter(latest, next + i);
      }
      Finish(i, None);
      beyond := if told then beyond + {i} else beyond;
    }

    method Accept(i: nat)
      requires Valid() && queue != [] && queue[0] == i < |reqs| && TurnOf(reqs[i]) == Entering
      modifies this
      ensures Valid() && Left() < old(Left()) && answers == old(answers) && reqs == old(reqs)
      ensures entries == old(entries) + [old(reqs[i].v)]
    {
      assert i in queue && i !in done && Answered(reqs[i], answers[i], next + i);
      ToldOne(beyond, done, answers, i, false);
      Finish(i, reqs[i].v);
    }

    method Finish(i: nat, entry: Option<Note>)
      requires queue != [] && queue[0] == i && Accounted()
      requires i < |answers| && Concluded(entry, answers[i], next + i)
      modifies this`queue, this`entries, this`closed, this`done
      ensures Accounted() && Left() < old(Left()) && entries == old(entries) + [entry] && done == old(done) + [i]
    {
      PlacedSize(n, queue, flying, done);
      assert i in queue && !closed && |entries| == |done|;
      HeadDone(n, queue, flying, done);
      EnterOne(entries, done, answers, next, entry, i);
      DoneDrops(n, flying, reqs, done, i);
      queue, entries, done := queue[1..], entries + [entry], done + [i];
      closed := closed || |entries| == n;
    }

    /**
     Every schedule and every answer ends with one entry per request: the block of its last
     answer if that had no error, and nothing otherwise.
     */
    method Gather()
      requires Valid()
      modifies this
      ensures Valid() && closed && queue == [] && flying == {}
      ensures AllConcluded(entries, done, answers, next) && AllDone(done, n) && |answers| == n
      ensures ToldBeyond(beyond, done, answers) && Lowered(next, was, latest, beyond)
    {
      while !closed || queue != []
        invariant Valid()
        decreases Left()
      {
        PlacedSize(n, queue, flying, done);
        var later: bool := *;
        if flying != {} && (queue == [] || later) {
          var i :| i in flying;
          var data: Bytes := *;
          var err: Option<Failure> := *;
          Complete(i, data, err);
        } else {
          Take();
        }
      }
      PlacedSize(n, queue, flying, done);
    }
  }

  // ---- dropping, sorting and forwarding

  function Somes(entries: seq<Option<Note>>): seq<Note> {
    if entries == [] then []
    else
      var n := |entries| - 1;
      Somes(entries[..n]) + if entries[n].Some? then [entries[n].value] else []
  }

  /** Moves the notifications of a slice to its front, over the slice that is being read. */
  method FilterNil(a: array<Option<Note>>) returns (k: nat)
    modifies a
    ensures k == |Somes(old(a[..]))| <= a.Length
    ensures forall j :: 0 <= j < k ==> a[j] == Some(Somes(old(a[..]))[j])
  {
    k := 0;
    var i := 0;
    ghost var was := a[..];
    while i < a.Length
      invariant 0 <= i <= a.Length && k == |Somes(was[..i])| <= i
      invariant forall j :: 0 <= j < k ==> a[j] == Some(Somes(was[..i])[j])
      invariant forall j :: i <= j < a.Length ==> a[j] == was[j]
    {
      assert was[..i + 1][..i] == was[..i];
      if a[i].Some? {
        a[k] := a[i];
        k := k + 1;
      }
      i := i + 1;
    }
    assert was[..i] == was;
  }

  predicate Distinct(notes: seq<Note>) {
    forall i, j :: 0 <= i < j < |notes| ==> notes[i].height != notes[j].height
  }

  predicate Ascending(notes: seq<Note>) {
    forall i, j :: 0 <= i < j < |notes| ==> notes[i].height < notes[j].height
  }

  lemma {:induction false} SomesIn(entries: seq<Option<Note>>)
    ensures forall x :: x in Somes(entries) <==> Some(x) in entries
  {
    if entries != [] {
      var n := |entries| - 1;
      SomesIn(entries[..n]);
      assert entries == entries[..n] + [entries[n]];
    }
  }

  /** One entry per request: the notifications of a round have different heights, all asked for. */
  lemma {:induction false} SomesDistinct(entries: seq<Option<Note>>, done: seq<nat>, next: nat)
    requires AllEntered(entries, done, next) && NoDup(done)
    ensures Distinct(Somes(entries)) && forall x <- Somes(entries) :: x.height >= next
    decreases |entries|
  {
    if entries != [] {
      var n := |entries| - 1;
      var front := Somes(entries[..n]);
      SomesDistinct(entries[..n], done[..n], next);
      forall x <- front ensures x.height != next + done[n] {
        SomesIn(entries[..n]);
        var k :| 0 <= k < n && entries[..n][k] == Some(x);
        assert entries[k] == Some(x) && done[k] != done[n];
      }
    }
  }

  /** Sorts by height; a stable insertion. */
  function Insert(x: Note, notes: seq<Note>): seq<Note> {
    if notes == [] || notes[|notes| - 1].height <= x.height then notes + [x]
    else Insert(x, notes[..|notes| - 1]) + [notes[|notes| - 1]]
  }

  function SortNotes(notes: seq<Note>): seq<Note> {
    if notes == [] then [] else Insert(notes[|notes| - 1], SortNotes(notes[..|notes| - 1]))
  }

  lemma {:induction false} InsertKeeps(x: Note, notes: seq<Note>)
    requires Ascending(notes) && forall y <- notes :: y.height != x.height
    ensures Ascending(Insert(x, notes)) && |Insert(x, notes)| == |notes| + 1
    ensures forall y :: y in Insert(x, notes) <==> y == x || y in notes
    decreases |notes|
  {
    if notes != [] {
      var n := |notes| - 1;
      assert notes == notes[..n] + [notes[n]];
      if notes[n].height > x.height {
        InsertKeeps(x, notes[..n]);
        var front := Insert(x, notes[..n]);
        assert forall i :: 0 <= i < |front| ==> front[i] in front;
      } else {
        assert forall i :: 0 <= i < n ==> notes[i].height < notes[n].height;
      }
    }
  }

  lemma {:induction false} SortKeeps(notes: seq<Note>)
    requires Distinct(notes)
    ensures Ascending(SortNotes(notes)) && |SortNotes(notes)| == |notes|
    ensures forall y :: y in SortNotes(notes) <==> y in notes
  {
    if notes != [] {
      var n := |notes| - 1;
      SortKeeps(notes[..n]);
      assert notes == notes[..n] + [notes[n]];
      InsertKeeps(notes[n], SortNotes(notes[..n]));
    }
  }

  lemma {:induction false} AscendingGap(notes: seq<Note>, i: nat, j: nat)
    requires Ascending(notes) && i <= j < |notes|
    ensures notes[j].height >= notes[i].height + (j - i)
    decreases j - i
  {
    if i < j { AscendingGap(notes, i, j - 1); }
  }

  /**
   Sends the notifications whose height fits their place. Although the loop goes on after
   the first that does not, what it sends is the longest front without a gap.
   */
  method Forward(notes: seq<Note>, next: Height, capacity: nat) returns (bnch: seq<Note>)
    requires Ascending(notes) && |notes| <= capacity && next + |notes| <= MAX_UINT64
    requires notes != [] ==> next <= notes[0].height
    ensures bnch <= notes && forall i :: 0 <= i < |bnch| ==> bnch[i].height == next + i
    ensures |bnch| < |notes| ==> next + |bnch| < notes[|bnch|].height
  {
    bnch := [];
    var i := 0;
    while i < |notes|
      invariant 0 <= i <= |notes| && |bnch| <= i && bnch == notes[..|bnch|]
      invariant forall j :: 0 <= j < |bnch| ==> bnch[j].height == next + j
      invariant |bnch| < i ==> next + |bnch| < notes[|bnch|].height
    {
      AscendingGap(notes, |bnch|, i);
      AscendingGap(notes, 0, i);
      if notes[i].height == next + i {
        assert |bnch| < capacity;
        bnch := bnch + [notes[i]];
      }
      i := i + 1;
    }
  }

  lemma {:induction false} SomesOf(s: seq<Option<Note>>, notes: seq<Note>)
    requires |s| == |notes| && forall j :: 0 <= j < |s| ==> s[j] == Some(notes[j])
    ensures Somes(s) == notes
  {
    if s != [] {
      SomesOf(s[..|s| - 1], notes[..|s| - 1]);
      assert notes == notes[..|s| - 1] + [notes[|s| - 1]];
    }
  }

  /**
   Drops the failed entries, sorts the others and forwards them: exactly the fetched blocks
   from `next` on up to the first that is missing.
   */
  method Settle(entries: seq<Option<Note>>, ghost done: seq<nat>, next: Height, n: nat, capacity: nat)
    returns (bnch: seq<Note>)
    requires AllEntered(entries, done, next) && AllDone(done, n) && n <= capacity && next + n <= MAX_UINT64
    ensures |bnch| <= n && forall i :: 0 <= i < |bnch| ==> bnch[i].height == next + i && Some(bnch[i]) in entries
    ensures forall e <- entries :: e.Some? ==> e.value.height != next + |bnch|
    ensures |bnch| == n <==> forall e <- entries :: e.Some?
  {
    var a := new Option<Note>[|entries|](i requires 0 <= i < |entries| => entries[i]);
    assert a[..] == entries;
    var k := FilterNil(a);
    SomesOf(a[..k], Somes(entries));
    var notes := Somes(a[..k]);
    SomesDistinct(entries, done, next);
    SomesIn(entries);
    SortKeeps(notes);
    var sorted := SortNotes(notes);
    SomesSize(entries);
    assert sorted != [] ==> next <= sorted[0].height by { assert sorted != [] ==> sorted[0] in notes; }
    bnch := Forward(sorted, next, capacity);
    FrontForwarded(entries, done, next, n, sorted, bnch);
  }

  lemma {:induction false} SomesSize(entries: seq<Option<Note>>)
    ensures |Somes(entries)| <= |entries|
    ensures |Somes(entries)| == |entries| <==> forall e <- entries :: e.Some?
  {
    if entries != [] {
      var n := |entries| - 1;
      SomesSize(entries[..n]);
      assert entries == entries[..n] + [entries[n]];
    }
  }

  lemma {:induction false} FrontForwarded(
    entries: seq<Option<Note>>, done: seq<nat>, next: Height, n: nat, sorted: seq<Note>, bnch: seq<Note>)
    requires AllEntered(entries, done, next) && AllDone(done, n)
    requires Ascending(sorted) && |sorted| == |Somes(entries)| && forall x :: x in sorted <==> Some(x) in entries
    requires bnch <= sorted && forall i :: 0 <= i < |bnch| ==> bnch[i].height == next + i
    requires |bnch| < |sorted| ==> next + |bnch| < sorted[|bnch|].height
    ensures forall i :: 0 <= i < |bnch| ==> Some(bnch[i]) in entries
    ensures forall e <- entries :: e.Some? ==> e.value.height != next + |bnch|
    ensures |bnch| == n <==> forall e <- entries :: e.Some?
  {
    SomesSize(entries);
    forall i | 0 <= i < |bnch| ensures Some(bnch[i]) in entries { assert bnch[i] == sorted[i] && sorted[i] in sorted; }
    forall e <- entries | e.Some? ensures e.value.height != next + |bnch| {
      assert e.value in sorted;
      var j :| 0 <= j < |sorted| && sorted[j] == e.value;
      if j < |bnch| {
        assert bnch[j] == sorted[j];
      } else {
        AscendingGap(sorted, |bnch|, j);
      }
    }
    if |bnch| < n {
      var b: nat := |bnch|;
      assert b in done;
      var k :| 0 <= k < |done| && done[k] == b;
      assert entries[k] in entries;
    }
  }

  // ---- the loop

  /** What the select of the loop picks. */
  datatype Choice = Cancelled | Tick | Poll(height: Height) | Receive | Default

  predicate InOrder(notes: seq<Note>, from: nat) {
    forall i :: 0 <= i < |notes| ==> notes[i].height == from + i
  }

  lemma {:induction false} InOrderPrefix(a: seq<Note>, b: seq<Note>, from: nat)
    requires InOrder(a + b, from)
    ensures InOrder(a, from)
  {
    assert forall i :: 0 <= i < |a| ==> a[i] == (a + b)[i];
  }

  lemma {:induction false} InOrderConcat(a: seq<Note>, b: seq<Note>, from: nat)
    requires InOrder(a, from) && InOrder(b, from + |a|)
    ensures InOrder(a + b, from)
  {
  }

  /** The answers that decide the fate of one round, in order of height, and what is forwarded. */
  predicate Fetched(
    next: Height, was: Height, latest: Height, concurrency: nat, bnch: seq<Note>, answers: seq<seq<Answer>>)
  {
    if next >= was then bnch == [] && answers == [] && latest == was
    else
      && |answers| == (if was - next < concurrency then was - next else concurrency)
      && (forall i :: 0 <= i < |answers| ==> Ended(answers[i]))
      && Forwarded(next, bnch, answers) && LatestLowered(next, was, latest, answers)
  }

  /** The blocks up to the first that could not be fetched, each as in the last answer. */
  predicate Forwarded(next: nat, bnch: seq<Note>, answers: seq<seq<Answer>>) {
    && |bnch| <= |answers| && (|bnch| < |answers| ==> !Succeeds(answers[|bnch|]))
    && forall i :: 0 <= i < |bnch| ==> FetchedAs(bnch[i], next + i, answers[i])
  }

  predicate FetchedAs(note: Note, h: nat, answers: seq<Answer>) {
    Succeeds(answers) && note.height == h && note.data == Last(answers).data
  }

  predicate LatestLowered(next: nat, was: Height, latest: Height, answers: seq<seq<Answer>>) {
    next > 0 ==>
      && latest <= was && (forall i :: 0 <= i < |answers| && SaysBeyond(answers[i]) ==> latest < next + i)
      && (latest == was || exists i :: 0 <= i < |answers| && SaysBeyond(answers[i]) && latest == next + i - 1)
  }

  lemma {:induction false} RoundForwards(
    entries: seq<Option<Note>>, done: seq<nat>, answers: seq<seq<Answer>>, next: Height, n: nat, bnch: seq<Note>)
    requires AllConcluded(entries, done, answers, next) && AllDone(done, n) && |answers| == n
    requires |bnch| <= n && forall i :: 0 <= i < |bnch| ==> bnch[i].height == next + i && Some(bnch[i]) in entries
    requires forall e <- entries :: e.Some? ==> e.value.height != next + |bnch|
    ensures Forwarded(next, bnch, answers) && forall i :: 0 <= i < n ==> Ended(answers[i])
  {
    forall i | 0 <= i < n ensures Ended(answers[i]) {
      assert i in done;
      var k :| 0 <= k < |done| && done[k] == i;
    }
    forall i | 0 <= i < |bnch| ensures FetchedAs(bnch[i], next + i, answers[i]) {
      var k :| 0 <= k < |entries| && entries[k] == Some(bnch[i]);
      assert Concluded(entries[k], answers[done[k]], next + done[k]);
    }
    if |bnch| < n {
      var b: nat := |bnch|;
      assert b in done;
      var k :| 0 <= k < |done| && done[k] == b;
      assert Concluded(entries[k], answers[b], next + b) && entries[k] in entries;
    }
  }

  lemma {:induction false} RoundLowers(
    done: seq<nat>, answers: seq<seq<Answer>>, next: Height, n: nat, was: Height, latest: Height, beyond: set<nat>)
    requires ToldBeyond(beyond, done, answers) && AllDone(done, n) && |answers| == n
    requires Lowered(next, was, latest, beyond)
    ensures LatestLowered(next, was, latest, answers)
  {
    if next > 0 && latest != was {
      var i :| i in beyond && latest == next + i - 1;
      assert i in done && SaysBeyond(answers[i]);
    }
  }

  /** What the node answered to all requests for a block in one round. */
  datatype Asked = Asked(height: nat, answers: seq<Answer>)

  /** A notification is the block as some request for it ended without an error. */
  ghost predicate Genuine(note: Note, history: set<Asked>) {
    exists a <- history :: FetchedAs(note, a.height, a.answers) && Ended(a.answers)
  }

  ghost predicate AllGenuine(notes: seq<Note>, history: set<Asked>) {
    forall x <- notes :: Genuine(x, history)
  }

  ghost function AskedFrom(next: nat, answers: seq<seq<Answer>>): set<Asked> {
    set i | 0 <= i < |answers| :: Asked(next + i, answers[i])
  }

  lemma {:induction false} ForwardedGenuine(
    next: nat, bnch: seq<Note>, answers: seq<seq<Answer>>, notes: seq<Note>, history: set<Asked>)
    requires Forwarded(next, bnch, answers) && (forall i :: 0 <= i < |answers| ==> Ended(answers[i]))
    requires AllGenuine(notes, history)
    ensures AllGenuine(notes + bnch, history + AskedFrom(next, answers))
  {
    var all := history + AskedFrom(next, answers);
    forall x <- notes ensures Genuine(x, all) {
      assert Genuine(x, history);
      var a :| a in history && FetchedAs(x, a.height, a.answers) && Ended(a.answers);
      assert a in all;
    }
    forall i | 0 <= i < |bnch| ensures Genuine(bnch[i], all) {
      assert Asked(next + i, answers[i]) in all;
    }
  }

  /** The variables of the loop. */
  datatype Vars = Vars(
    next: Height, latest: Height, lbn: Option<Note>, bnch: seq<Note>, stopped: bool, calls: seq<Note>)
  {
    /** What came through the channel so far: the callback is one behind. */
    function Received(): seq<Note> {
      calls + if lbn.Some? then [lbn.value] else []
    }
  }

  /** How many fetches may be under way, and which calls of the callback fail. */
  datatype Options = Options(concurrency: nat, fails: nat -> bool)

  /** The calls of the callback from number `a` below `b`: the loop stops with the first that fails. */
  ghost predicate Called(fails: nat -> bool, a: nat, b: nat, stopped: bool) {
    if stopped then a < b && fails(b - 1) && forall k: nat :: a <= k < b - 1 ==> !fails(k)
    else forall k: nat :: a <= k < b ==> !fails(k)
  }

  /** One turn of the loop; `answers` are those of the round that it fetched. */
  ghost predicate Turned(v: Vars, v': Vars, choice: Choice, opts: Options, answers: seq<seq<Answer>>) {
    match choice
    case Cancelled => v' == v.(stopped := true)
    case Tick => v' == v.(latest := if v.latest == MAX_UINT64 then 0 else v.latest + 1)
    case Poll(height) => v' == v.(latest := if height > v.latest then height else v.latest)
    case Receive =>
      && v'.latest == v.latest && v.calls <= v'.calls <= v.Received() + v.bnch
      && Called(opts.fails, |v.calls|, |v'.calls|, v'.stopped)
      && (!v'.stopped ==>
            && v'.bnch == [] && v'.Received() == v.Received() + v.bnch && v'.next == v.next + |v.bnch|
            && (v.bnch == [] ==> v'.lbn == v.lbn) && (v.bnch != [] ==> v'.lbn == Some(v.bnch[|v.bnch| - 1])))
    case Default =>
      && v' == v.(latest := v'.latest, bnch := v'.bnch)
      && if v.bnch == [] then Fetched(v.next, v.latest, v'.latest, opts.concurrency, v'.bnch, answers)
         else v'.bnch == v.bnch && v'.latest == v.latest
  }

  /** The variables before each turn and after the last; the loop goes on until it is stopped. */
  ghost predicate Trace(vars: seq<Vars>, schedule: seq<Choice>, opts: Options, rounds: seq<seq<seq<Answer>>>) {
    && |vars| == |schedule| + 1 == |rounds| + 1
    && forall i :: 0 <= i < |schedule| ==>
         !vars[i].stopped && Turned(vars[i], vars[i + 1], schedule[i], opts, rounds[i])
  }

  lemma {:induction false} TraceOne(
    vars: seq<Vars>, schedule: seq<Choice>, i: nat, opts: Options, rounds: seq<seq<seq<Answer>>>, v: Vars,
    answers: seq<seq<Answer>>)
    requires i < |schedule| && Trace(vars, schedule[..i], opts, rounds)
    requires !vars[i].stopped && Turned(vars[i], v, schedule[i], opts, answers)
    ensures Trace(vars + [v], schedule[..i + 1], opts, rounds + [answers])
  {
    var vars', schedule', rounds' := vars + [v], schedule[..i + 1], rounds + [answers];
    forall j | 0 <= j < |schedule'|
      ensures !vars'[j].stopped && Turned(vars'[j], vars'[j + 1], schedule'[j], opts, rounds'[j])
    {
      if j < i { assert Turned(vars[j], vars[j + 1], schedule[..i][j], opts, rounds[j]); }
    }
  }

  class Receiver {
    const start: Height
    const concurrency: nat
    const fails: nat -> bool   // which calls of the callback fail
    var next: Height
    var latest: Height
    var lbn: Option<Note>
    var bnch: seq<Note>
    var stopped: bool
    /** The notifications passed to the callback, in order. */
    var calls: seq<Note>
    ghost var history: set<Asked>   // what was asked of the node, and answered

    ghost predicate Valid()
      reads this
    {
      && concurrency > 0 && InOrder(calls, start) && AllGenuine(calls, history)
      && (!stopped ==>
            && AllGenuine(Received() + bnch, history)
            && |Received()| == next - start && (lbn.None? ==> calls == [])
            && InOrder(Received() + bnch, start)
            && next + |bnch| <= MAX_UINT64 && |bnch| <= concurrency)
    }

    ghost function Now(): Vars
      reads this
    {
      Vars(next, latest, lbn, bnch, stopped, calls)
    }

    ghost function Received(): seq<Note>
      reads this
    {
      Now().Received()
    }

    constructor (start: Height, latest: Height, concurrency: nat, fails: nat -> bool)
      requires concurrency > 0
      ensures Valid() && this.start == start && Now() == Vars(start, latest, None, [], false, [])
      ensures this.concurrency == concurrency && this.fails == fails
    {
      this.start, this.concurrency, this.fails, this.next, this.latest := start, concurrency, fails, start, latest;
      lbn, bnch, stopped, calls, history := None, [], false, [], {};
    }

    /** Hands the notification before `bn` to the callback; an error ends the loop. */
    method Notify(bn: Note)
      requires !stopped && InOrder(Received() + [bn], start) && next < MAX_UINT64
      modifies this`calls, this`lbn, this`stopped, this`next
      ensures InOrder(calls, start) && old(calls) <= calls == old(Received())
      ensures stopped == (old(lbn.Some?) && fails(|old(calls)|))
      ensures !stopped ==> Received() == old(Received()) + [bn] && next == old(next) + 1 && lbn == Some(bn)
      ensures stopped ==> lbn == old(lbn) && next == old(next)
    {
      assert Received() + [bn] == calls + (Received()[|calls|..] + [bn]);
      InOrderPrefix(calls, Received()[|calls|..] + [bn], start);
      if lbn.Some? {
        assert forall i :: 0 <= i <= |calls| ==> (Received() + [bn])[i] == (calls + [lbn.value])[i];
        stopped := fails(|calls|);
        calls := calls + [lbn.value];
      }
      if !stopped {
        lbn := Some(bn);
        next := next + 1;
      }
    }

    /** Takes one notification off the channel. */
    method ProcessOne()
      requires Valid() && !stopped && bnch != []
      modifies this`calls, this`lbn, this`stopped, this`next, this`bnch
      ensures Valid() && bnch == old(bnch)[1..] && old(calls) <= calls == old(Received())
      ensures stopped == (old(lbn.Some?) && fails(|old(calls)|))
      ensures !stopped ==> lbn == Some(old(bnch[0])) && next == old(next) + 1
      ensures !stopped ==> Received() == old(Received()) + [old(bnch[0])]
      ensures stopped ==> lbn == old(lbn) && next == old(next)
    {
      var bn := bnch[0];
      ghost var received := Received();
      assert received + bnch == (received + [bn]) + bnch[1..];
      InOrderPrefix(received + [bn], bnch[1..], start);
      InOrderPrefix(received, [bn], start);
      assert forall x <- received :: x in received + bnch;
      bnch := bnch[1..];
      Notify(bn);
    }

    /** Processes all notifications in the channel, until the callback fails. */
    method Process()
      requires Valid() && !stopped && bnch != []
      modifies this`calls, this`lbn, this`stopped, this`next, this`bnch
      ensures Valid() && old(calls) <= calls <= old(Received() + bnch)
      ensures Called(fails, |old(calls)|, |calls|, stopped)
      ensures !stopped ==> bnch == [] && next == old(next) + |old(bnch)| && Received() == old(Received() + bnch)
      ensures !stopped ==> lbn == Some(old(bnch)[|old(bnch)| - 1])
    {
      ghost var all, n := Received() + bnch, |bnch|;
      while bnch != [] && !stopped
        invariant Valid() && old(calls) <= calls <= all && Called(fails, |old(calls)|, |calls|, stopped)
        invariant !stopped ==> Received() + bnch == all && next + |bnch| == old(next) + n
        invariant |bnch| <= n && bnch == old(bnch)[n - |bnch|..]
        invariant !stopped && |bnch| < n ==> lbn == Some(old(bnch)[n - |bnch| - 1])
        decreases |bnch|, !stopped
      {
        ghost var received, rest := Received(), bnch;
        assert received + rest == (received + [rest[0]]) + rest[1..];
        ProcessOne();
      }
    }

    /** Requests the blocks from `next` on, and forwards what came back without a gap. */
    method Fetch() returns (ghost answers: seq<seq<Answer>>)
      requires Valid() && !stopped && bnch == []
      modifies this`latest, this`bnch, this`history
      ensures Valid() && Fetched(next, old(latest), latest, concurrency, bnch, answers)
      ensures history == old(history) + AskedFrom(next, answers)
    {
      answers := [];
      if next < latest {
        var round := new Round(next, latest, concurrency);
        round.Gather();
        answers := round.answers;
        HeightsEntered(round.entries, round.done, answers, next);
        var forwarded := Settle(round.entries, round.done, next, round.n, concurrency);
        RoundForwards(round.entries, round.done, answers, next, round.n, forwarded);
        RoundLowers(round.done, answers, next, round.n, latest, round.latest, round.beyond);
        Accept(round.latest, forwarded, answers);
      }
    }

    method Accept(newLatest: Height, forwarded: seq<Note>, ghost answers: seq<seq<Answer>>)
      requires Valid() && !stopped && bnch == [] && |forwarded| <= concurrency && next + |forwarded| <= MAX_UINT64
      requires Forwarded(next, forwarded, answers) && forall i :: 0 <= i < |answers| ==> Ended(answers[i])
      modifies this`latest, this`bnch, this`history
      ensures Valid() && latest == newLatest && bnch == forwarded
      ensures history == old(history) + AskedFrom(next, answers)
    {
      InOrderPrefix(Received(), [], start);
      InOrderConcat(Received(), forwarded, start);
      assert Received() + [] == Received();
      ForwardedGenuine(next, forwarded, answers, Received(), history);
      latest, bnch, history := newLatest, forwarded, history + AskedFrom(next, answers);
    }

    /** One turn of the loop; the default case runs only when the channel is empty. */
    method Turn(choice: Choice) returns (ghost answers: seq<seq<Answer>>)
      requires Valid() && !stopped
      modifies this
      ensures Valid() && old(history) <= history
      ensures Turned(old(Now()), Now(), choice, Options(concurrency, fails), answers)
    {
      answers := [];
      match choice
      case Cancelled => stopped := true;
      case Tick => latest := if latest == MAX_UINT64 then 0 else latest + 1;
      case Poll(height) => if height > latest { latest := height; }
      case Receive => if bnch != [] { Process(); }
      case Default => if bnch == [] { answers := Fetch(); }
    }

    /**
     Whatever the schedule: the callback has been given `start`, `start + 1`, ... with no gap
     and no repeat, each as the node answered it without an error.
     */
    method Serve(schedule: seq<Choice>) returns (ghost vars: seq<Vars>, ghost rounds: seq<seq<seq<Answer>>>)
      requires Valid() && !stopped && calls == []
      modifies this
      ensures InOrder(calls, start) && AllGenuine(calls, history)
      ensures !stopped ==> |calls| == if next == start then 0 else next - start - 1
      ensures |rounds| <= |schedule| && (!stopped ==> |rounds| == |schedule|)
      ensures Trace(vars, schedule[..|rounds|], Options(concurrency, fails), rounds)
      ensures vars[0] == old(Now()) && vars[|rounds|] == Now()
    {
      var i := 0;
      vars, rounds := [Now()], [];
      while i < |schedule| && !stopped
        invariant Valid() && |rounds| == i <= |schedule|
        invariant Trace(vars, schedule[..i], Options(concurrency, fails), rounds)
        invariant vars[0] == old(Now()) && vars[i] == Now()
      {
        ghost var answers := Turn(schedule[i]);
        TraceOne(vars, schedule, i, Options(concurrency, fails), rounds, Now(), answers);
        vars, rounds := vars + [Now()], rounds + [answers];
        i := i + 1;
      }
    }
  }
}
