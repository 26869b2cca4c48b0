/**
 The layered database: buckets that hold back writes and deletions over the buckets of a
 real database until they are flushed or dropped.
 */
module LayerDb {
  import opened Bytes

  type Store = map<Bytes, Bytes>

  /** Pending changes; `None` is a deletion. */
  type Changes = map<Bytes, Option<Bytes>>

  function Lookup(s: Store, key: Bytes): Option<Bytes> {
    if key in s then Some(s[key]) else None
  }

  /** What is read through pending changes. */
  function Overlay(data: Changes, store: Store): Store {
    map k | k in store.Keys + data.Keys && (k in data ==> data[k].Some?) ::
      if k in data then data[k].value else store[k]
  }

  function Put(s: Store, key: Bytes, value: Option<Bytes>): Store {
    if value.Some? then s[key := value.value] else s - {key}
  }

  lemma {:induction false} OverlayPut(data: Changes, store: Store, key: Bytes, value: Option<Bytes>)
    ensures Overlay(data[key := value], store) == Put(Overlay(data, store), key, value)
  {
  }

  /** `now` is `store` with the changes of `keys` written. */
  ghost predicate Written(data: Changes, store: Store, now: Store, keys: set<Bytes>) {
    && keys <= data.Keys
    && forall k :: Lookup(now, k) == if k in keys then data[k] else Lookup(store, k)
  }

  lemma {:induction false} WriteOneMore(data: Changes, store: Store, now: Store, keys: set<Bytes>, key: Bytes)
    requires Written(data, store, now, keys) && key in data
    ensures Written(data, store, Put(now, key, data[key]), keys + {key})
  {
  }

  lemma {:induction false} SameStore(s: Store, t: Store)
    requires forall k :: Lookup(s, k) == Lookup(t, k)
    ensures s == t
  {
    assert forall k :: k in s <==> Lookup(s, k).Some?;
    assert forall k :: k in t <==> Lookup(t, k).Some?;
    forall k <- s ensures s[k] == t[k] { assert Lookup(s, k) == Lookup(t, k); }
  }

  /**
   Writing pending changes to the store behind them shows no difference; with all of them
   written the store is what is read.
   */
  lemma {:induction false} WrittenReads(data: Changes, store: Store, now: Store, keys: set<Bytes>)
    requires Written(data, store, now, keys)
    ensures Overlay(data, now) == Overlay(data, store) && Between(store, Overlay(data, store), now)
    ensures keys == data.Keys ==> now == Overlay(data, store)
  {
    SameStore(Overlay(data, now), Overlay(data, store));
    if keys == data.Keys { SameStore(now, Overlay(data, store)); }
  }

  /** A layer and the store behind it. */
  datatype Content = Content(data: Option<Changes>, store: Store)

  /** A layer, and whether all that it holds back can be written. */
  datatype Outlook = Outlook(content: Content, able: bool)

  function ViewOf(c: Content): Store {
    if c.data.Some? then Overlay(c.data.value, c.store) else c.store
  }

  /**
   What a flush does. Written, the store holds what was read through the layer; dropped, it
   is untouched. A failure part way changes no read and keeps the changes.
   */
  ghost predicate Flushes(was: Content, now: Content, write: bool, ok: bool) {
    && (ok ==> now.data.None?)
    && (!ok ==> write && was.data.Some? && now.data == was.data)
    && (write ==> ViewOf(now) == ViewOf(was))
    && (!write || was.data.None? ==> now.store == was.store)
    && (!ok ==> Between(was.store, ViewOf(was), now.store))
  }

  predicate HoldsEmptyKey(c: Content) {
    c.data.Some? && EmptyKeyIn(c.data.value)
  }

  /** Every key of `mid` reads as in one of the two stores. */
  ghost predicate Between(a: Store, b: Store, mid: Store) {
    forall k :: Lookup(mid, k) == Lookup(a, k) || Lookup(mid, k) == Lookup(b, k)
  }

  /** A bucket that a flush of the database has passed. */
  ghost predicate Settled(was: Content, now: Content, write: bool, ok: bool) {
    Flushes(was, now, write, true) || (!ok && Flushes(was, now, write, false))
  }

  /** None of the calls from `a` below `b` fails. */
  ghost predicate Smooth(fails: nat -> bool, a: nat, b: nat) {
    forall k: nat :: a <= k < b ==> !fails(k)
  }

  /**
   A bucket of the real database. Any of its calls may fail, as `fails` says, and then
   nothing changes. It refuses an empty key.
   */
  class RealBucket {
    var store: Store
    const fails: nat -> bool
    var calls: nat

    /** One of the calls since there were `from` failed. */
    ghost predicate Failed(from: nat)
      reads this
    {
      !Smooth(fails, from, calls)
    }

    constructor (fails: nat -> bool)
      ensures store == map[] && this.fails == fails && calls == 0
    {
      store, this.fails, calls := map[], fails, 0;
    }

    method Set(key: Bytes, value: Bytes) returns (ok: bool)
      modifies this
      ensures ok == (key != [] && !fails(old(calls))) && calls == old(calls) + 1
      ensures store == if ok then Put(old(store), key, Some(value)) else old(store)
    {
      ok := key != [] && !fails(calls);
      if ok { store := store[key := value]; }
      calls := calls + 1;
    }

    method Delete(key: Bytes) returns (ok: bool)
      modifies this
      ensures ok == !fails(old(calls)) && calls == old(calls) + 1
      ensures store == if ok then Put(old(store), key, None) else old(store)
    {
      ok := !fails(calls);
      if ok { store := store - {key}; }
      calls := calls + 1;
    }
  }

  class LayerBucket {
    /** `None` once flushed: from then on the bucket writes through. */
    var data: Option<Changes>
    const backing: RealBucket

    constructor (bucket: RealBucket)
      ensures data == Some(map[]) && backing == bucket && View() == bucket.store
    {
      data, backing := Some(map[]), bucket;
      new;
      assert Overlay(map[], bucket.store) == bucket.store;
    }

    ghost function Now(): Content
      reads this, backing
    {
      Content(data, backing.store)
    }

    ghost function View(): Store
      reads this, backing
    {
      ViewOf(Now())
    }

    method Get(key: Bytes) returns (value: Option<Bytes>)
      ensures value == Lookup(View(), key)
    {
      if data.Some? && key in data.value {
        value := data.value[key];
      } else {
        value := Lookup(backing.store, key);
      }
    }

    method Has(key: Bytes) returns (found: bool)
      ensures found == (key in View())
    {
      if data.Some? && key in data.value {
        found := data.value[key].Some?;
      } else {
        found := key in backing.store;
      }
    }

    /** A nil value is refused. Held back, a change cannot fail. */
    method Set(key: Bytes, value: Option<Bytes>) returns (ok: bool)
      modifies this, backing
      ensures View() == if ok then Put(old(View()), key, value) else old(View())
      ensures value.None? || old(data.Some?) ==> ok == value.Some? && backing.calls == old(backing.calls)
      ensures value.Some? && old(data.None?) ==>
                ok == (key != [] && !backing.fails(old(backing.calls))) && backing.calls == old(backing.calls) + 1
      ensures data.Some? == old(data.Some?) && (data.Some? ==> backing.store == old(backing.store))
    {
      if value.None? {
        ok := false;
      } else if data.Some? {
        OverlayPut(data.value, backing.store, key, value);
        data := Some(data.value[key := value]);
        ok := true;
      } else {
        ok := backing.Set(key, value.value);
      }
    }

    method Delete(key: Bytes) returns (ok: bool)
      modifies this, backing
      ensures View() == if ok then Put(old(View()), key, None) else old(View())
      ensures old(data.Some?) ==> ok && backing.calls == old(backing.calls)
      ensures old(data.None?) ==> ok == !backing.fails(old(backing.calls)) && backing.calls == old(backing.calls) + 1
      ensures data.Some? == old(data.Some?) && (data.Some? ==> backing.store == old(backing.store))
    {
      if data.Some? {
        OverlayPut(data.value, backing.store, key, None);
        data := Some(data.value[key := None]);
        ok := true;
      } else {
        ok := backing.Delete(key);
      }
    }

    /** What a flush that is to write needs: no empty key with a value, and a call that succeeds for every change. */
    ghost predicate CanWrite()
      reads this, backing
    {
      data.Some? ==> !EmptyKeyIn(data.value) && Smooth(backing.fails, backing.calls, backing.calls + |data.value|)
    }

    ghost function Prospect(): Outlook
      reads this, backing
    {
      Outlook(Now(), CanWrite())
    }

    /**
     Visits the changes in whatever order. It fails exactly if one of them is refused; it can
     then be repeated, but in vain as long as an empty key is held with a value.
     */
    method Flush(write: bool) returns (ok: bool)
      modifies this, backing
      ensures Flushes(old(Now()), Now(), write, ok)
      ensures ok == (!write || old(CanWrite()))
      ensures Attempts(write, ok, old(backing.calls))
      ensures write && old(HoldsEmptyKey(Now())) ==> !ok
      ensures [] !in old(backing.store) ==> [] !in backing.store
    {
      ok := true;
      if write && data.Some? {
        ok := WriteAll();
      }
      if ok { data := None; }
    }

    /** The calls on the real bucket since there were `from`: a flush without a failing one is successful. */
    ghost predicate Attempts(write: bool, ok: bool, from: nat)
      reads this, backing
    {
      && from <= backing.calls && (!write ==> backing.calls == from)
      && (ok ==> Smooth(backing.fails, from, backing.calls))
      && (!ok && !HoldsEmptyKey(Now()) ==> !Smooth(backing.fails, from, backing.calls))
    }

    method WriteOne(key: Bytes) returns (ok: bool)
      requires data.Some? && key in data.value
      modifies backing
      ensures ok == (!backing.fails(old(backing.calls)) && (key == [] ==> data.value[key].None?))
      ensures backing.calls == old(backing.calls) + 1
      ensures backing.store == if ok then Put(old(backing.store), key, data.value[key]) else old(backing.store)
    {
      match data.value[key]
      case None => ok := backing.Delete(key);
      case Some(v) => ok := backing.Set(key, v);
    }

    method WriteAll() returns (ok: bool)
      requires data.Some?
      modifies backing
      ensures View() == old(View()) && (ok ==> backing.store == View())
      ensures Between(old(backing.store), View(), backing.store)
      ensures ok == old(CanWrite()) && Attempts(true, ok, old(backing.calls))
      ensures [] !in old(backing.store) ==> [] !in backing.store
    {
      ghost var store, changes, from := backing.store, data.value, backing.calls;
      ghost var done;
      ok, done := WriteEach();
      TriedAll(changes, done, backing.fails, from, backing.calls, ok);
      WrittenReads(changes, store, backing.store, done);
    }

    /** Writes the changes one by one, in any order, until one is refused; `done` are those that were not. */
    method WriteEach() returns (ok: bool, ghost done: set<Bytes>)
      requires data.Some?
      modifies backing
      ensures Written(data.value, old(backing.store), backing.store, done) && (ok ==> done == data.value.Keys)
      ensures Tried(data.value, done, backing.fails, old(backing.calls), backing.calls, ok)
      ensures [] !in old(backing.store) ==> [] !in backing.store
    {
      ok, done := true, {};
      ghost var store, changes, from := backing.store, data.value, backing.calls;
      var left := data.value.Keys;
      while left != {} && ok
        invariant left !! done && left <= changes.Keys && (ok ==> left + done == changes.Keys)
        invariant Written(changes, store, backing.store, done) && ([] !in store ==> [] !in backing.store)
        invariant Tried(changes, done, backing.fails, from, backing.calls, ok)
        decreases |left|, ok
      {
        var k :| k in left;
        ok, done := WriteNext(k, store, from, done);
        left := left - {k};
      }
    }

    method WriteNext(k: Bytes, ghost store: Store, ghost from: nat, ghost done: set<Bytes>)
      returns (ok: bool, ghost done': set<Bytes>)
      requires data.Some? && k in data.value && k !in done && Written(data.value, store, backing.store, done)
      requires Tried(data.value, done, backing.fails, from, backing.calls, true)
      modifies backing
      ensures Written(data.value, store, backing.store, done') && done' == (if ok then done + {k} else done)
      ensures Tried(data.value, done', backing.fails, from, backing.calls, ok)
      ensures [] !in old(backing.store) ==> [] !in backing.store
    {
      WriteOneMore(data.value, store, backing.store, done, k);
      TriedNext(data.value, done, backing.fails, from, backing.calls, k);
      ok := WriteOne(k);
      done' := if ok then done + {k} else done;
    }
  }

  predicate EmptyKeyIn(changes: Changes) {
    [] in changes && changes[[]].Some?
  }

  /** The calls made for the changes of `done`, and a last one that was refused if not `ok`. */
  ghost predicate Tried(changes: Changes, done: set<Bytes>, fails: nat -> bool, from: nat, calls: nat, ok: bool) {
    && done <= changes.Keys && ([] in done ==> changes[[]].None?)
    && Smooth(fails, from, from + |done|) && calls == from + |done| + (if ok then 0 else 1)
    && (!ok ==> |done| < |changes| && (fails(from + |done|) || EmptyKeyIn(changes)))
  }

  lemma {:induction false} TriedNext(
    changes: Changes, done: set<Bytes>, fails: nat -> bool, from: nat, calls: nat, k: Bytes)
    requires Tried(changes, done, fails, from, calls, true) && k in changes && k !in done
    ensures !fails(calls) && (k == [] ==> changes[k].None?) ==> Tried(changes, done + {k}, fails, from, calls + 1, true)
    ensures fails(calls) || (k == [] && changes[k].Some?) ==> Tried(changes, done, fails, from, calls + 1, false)
  {
    OneMoreKey(changes, done, k);
  }

  lemma {:induction false} TriedAll(
    changes: Changes, done: set<Bytes>, fails: nat -> bool, from: nat, calls: nat, ok: bool)
    requires Tried(changes, done, fails, from, calls, ok) && (ok ==> done == changes.Keys)
    ensures ok <==> !EmptyKeyIn(changes) && Smooth(fails, from, from + |changes|)
    ensures from <= calls && (ok ==> Smooth(fails, from, calls))
    ensures !ok && !EmptyKeyIn(changes) ==> !Smooth(fails, from, calls)
  {
    assert |changes.Keys| == |changes|;
    if !ok && !EmptyKeyIn(changes) { assert fails(from + |done|); }
  }

  lemma {:induction false} OneMoreKey(changes: Changes, done: set<Bytes>, k: Bytes)
    requires done <= changes.Keys && k in changes && k !in done
    ensures |done| < |changes| && |done + {k}| == |done| + 1
  {
    assert |changes.Keys| == |changes|;
    SubsetSize(done + {k}, changes.Keys);
  }

  lemma {:induction false} SubsetSize(a: set<Bytes>, b: set<Bytes>)
    requires a <= b
    ensures |a| <= |b|
  {
    assert b == a + (b - a);
  }

  // ---- any sequence of operations

  datatype Op = Get(key: Bytes) | Has(key: Bytes) | Set(key: Bytes, value: Bytes) | Delete(key: Bytes)

  datatype Answer = Value(value: Option<Bytes>) | Found(found: bool) | Accepted | Refused

  /** A store that is written directly. */
  function Direct(s: Store, op: Op): (Store, Answer) {
    match op
    case Get(k) => (s, Value(Lookup(s, k)))
    case Has(k) => (s, Found(k in s))
    case Set(k, v) => if k == [] then (s, Refused) else (Put(s, k, Some(v)), Accepted)
    case Delete(k) => (Put(s, k, None), Accepted)
  }

  function DirectAll(s: Store, ops: seq<Op>): (Store, seq<Answer>) {
    if ops == [] then (s, [])
    else
      var front := DirectAll(s, ops[..|ops| - 1]);
      var last := Direct(front.0, ops[|ops| - 1]);
      (last.0, front.1 + [last.1])
  }

  predicate NoEmptyKey(ops: seq<Op>) {
    forall op <- ops :: op.Set? ==> op.key != []
  }

  method Perform(bucket: LayerBucket, op: Op) returns (answer: Answer)
    requires bucket.data.Some?
    modifies bucket, bucket.backing
    ensures bucket.data.Some? && bucket.backing.store == old(bucket.backing.store)
    ensures !answer.Refused?
    ensures (op.Set? ==> op.key != []) ==> (bucket.View(), answer) == Direct(old(bucket.View()), op)
  {
    match op
    case Get(k) => var v := bucket.Get(k); answer := Value(v);
    case Has(k) => var f := bucket.Has(k); answer := Found(f);
    case Set(k, v) => var _ := bucket.Set(k, Some(v)); answer := Accepted;
    case Delete(k) => var _ := bucket.Delete(k); answer := Accepted;
  }

  /**
   Through an unflushed layer every answer is the one a directly written store gives, and
   the real store is untouched; exactly when no empty key is set, which the layer accepts
   and the real bucket refuses.
   */
  method Replay(bucket: LayerBucket, ops: seq<Op>) returns (answers: seq<Answer>)
    requires bucket.data.Some?
    modifies bucket, bucket.backing
    ensures bucket.data.Some? && bucket.backing.store == old(bucket.backing.store)
    ensures NoEmptyKey(ops) <==> answers == DirectAll(old(bucket.View()), ops).1
    ensures NoEmptyKey(ops) ==> bucket.View() == DirectAll(old(bucket.View()), ops).0
  {
    answers := [];
    var i := 0;
    ghost var start := bucket.View();
    while i < |ops|
      invariant 0 <= i <= |ops| == i + (|ops| - i) && |answers| == i
      invariant bucket.data.Some? && bucket.backing.store == old(bucket.backing.store)
      invariant Refused !in answers
      invariant NoEmptyKey(ops[..i]) ==> (bucket.View(), answers) == DirectAll(start, ops[..i])
    {
      assert ops[..i + 1][..i] == ops[..i];
      var answer := Perform(bucket, ops[i]);
      answers := answers + [answer];
      i := i + 1;
    }
    assert ops[..i] == ops;
    if !NoEmptyKey(ops) { SomeRefused(start, ops); }
  }

  lemma {:induction false} SomeRefused(s: Store, ops: seq<Op>)
    requires !NoEmptyKey(ops)
    ensures Refused in DirectAll(s, ops).1
  {
    var n := |ops| - 1;
    if NoEmptyKey(ops[..n]) {
      assert ops == ops[..n] + [ops[n]];
      assert DirectAll(s, ops).1[|DirectAll(s, ops).1| - 1] == Refused;
    } else {
      SomeRefused(s, ops[..n]);
      var answers := DirectAll(s, ops[..n]).1;
      assert forall a <- answers :: a in DirectAll(s, ops).1;
    }
  }

  // ---- a whole life of the layer, flushes included

  datatype Step = Do(op: Op) | Flush(write: bool)

  /** What is read, what the real bucket holds, and whether changes are held back. */
  datatype Layered = Layered(view: Store, base: Store, held: bool)

  function LayeredOf(c: Content): Layered {
    Layered(ViewOf(c), c.store, c.data.Some?)
  }

  /** A change that was refused does nothing; an accepted one goes to the real bucket once nothing is held back. */
  function Changed(l: Layered, key: Bytes, value: Option<Bytes>, a: Answer): Layered {
    if a != Accepted then l
    else var view := Put(l.view, key, value); Layered(view, if l.held then l.base else view, l.held)
  }

  /** One step; `base` is what a flush that failed left in the real bucket. */
  function After(l: Layered, step: Step, a: Answer, base: Store): Layered {
    match step
    case Do(Get(_)) => l
    case Do(Has(_)) => l
    case Do(Set(k, v)) => Changed(l, k, Some(v), a)
    case Do(Delete(k)) => Changed(l, k, None, a)
    case Flush(write) =>
      if !l.held then l
      else if !write then Layered(l.base, l.base, false)
      else if a == Accepted then Layered(l.view, l.view, false)
      else Layered(l.view, base, true)
  }

  function AfterAll(l: Layered, steps: seq<Step>, answers: seq<Answer>, bases: seq<Store>): Layered
    requires |steps| == |answers| == |bases|
  {
    if steps == [] then l
    else
      var n := |steps| - 1;
      After(AfterAll(l, steps[..n], answers[..n], bases[..n]), steps[n], answers[n], bases[n])
  }

  /** An empty key is held back that the real bucket does not have, and will not take. */
  predicate EmptyKeyHeld(l: Layered) {
    l.held && [] in l.view && [] !in l.base
  }

  /**
   The answers of a layer; `fault` tells whether a call on the real bucket failed. Reads are
   exact, nothing that is held back can fail, and what is written fails only with such a
   call or for an empty key.
   */
  predicate Answers(l: Layered, step: Step, a: Answer, fault: bool) {
    match step
    case Do(Get(k)) => a == Value(Lookup(l.view, k)) && !fault
    case Do(Has(k)) => a == Found(k in l.view) && !fault
    case Do(Set(k, _)) => a == (if !l.held && (k == [] || fault) then Refused else Accepted) && (l.held ==> !fault)
    case Do(Delete(_)) => a == (if fault then Refused else Accepted) && (l.held ==> !fault)
    case Flush(write) =>
      && (a == Accepted || a == Refused) && (!write || !l.held ==> a == Accepted && !fault)
      && (fault || (write && EmptyKeyHeld(l)) ==> a == Refused)
      && (a == Refused ==> fault || [] in l.view)
  }

  method DoOp(bucket: LayerBucket, op: Op) returns (a: Answer)
    modifies bucket, bucket.backing
    ensures Answers(LayeredOf(old(bucket.Now())), Do(op), a, bucket.backing.Failed(old(bucket.backing.calls)))
    ensures LayeredOf(bucket.Now()) == After(LayeredOf(old(bucket.Now())), Do(op), a, map[])
    ensures old(bucket.backing.calls) <= bucket.backing.calls
    ensures [] !in old(bucket.backing.store) ==> [] !in bucket.backing.store
  {
    match op
    case Get(k) => var v := bucket.Get(k); a := Value(v);
    case Has(k) => var f := bucket.Has(k); a := Found(f);
    case Set(k, v) => var ok := bucket.Set(k, Some(v)); a := if ok then Accepted else Refused;
    case Delete(k) => var ok := bucket.Delete(k); a := if ok then Accepted else Refused;
  }

  method DoStep(bucket: LayerBucket, step: Step) returns (a: Answer)
    modifies bucket, bucket.backing
    ensures Answers(LayeredOf(old(bucket.Now())), step, a, bucket.backing.Failed(old(bucket.backing.calls)))
    ensures LayeredOf(bucket.Now()) == After(LayeredOf(old(bucket.Now())), step, a, bucket.backing.store)
    ensures step.Flush? && a == Refused ==> Between(old(bucket.backing.store), old(bucket.View()), bucket.backing.store)
    ensures old(bucket.backing.calls) <= bucket.backing.calls
    ensures [] !in old(bucket.backing.store) ==> [] !in bucket.backing.store
  {
    match step
    case Do(op) => a := DoOp(bucket, op);
    case Flush(write) => var ok := bucket.Flush(write); a := if ok then Accepted else Refused;
  }

  /** Which steps had a failing call, if `counts` calls had been made before each of them and after the last. */
  ghost predicate FaultsOf(fails: nat -> bool, counts: seq<nat>, faults: seq<bool>) {
    && |counts| == |faults| + 1
    && forall i :: 0 <= i < |faults| ==>
         counts[i] <= counts[i + 1] && faults[i] == !Smooth(fails, counts[i], counts[i + 1])
  }

  lemma {:induction false} FaultsOne(fails: nat -> bool, counts: seq<nat>, faults: seq<bool>, calls: nat, fault: bool)
    requires FaultsOf(fails, counts, faults)
    requires counts[|faults|] <= calls && fault == !Smooth(fails, counts[|faults|], calls)
    ensures FaultsOf(fails, counts + [calls], faults + [fault])
  {
    var counts', faults' := counts + [calls], faults + [fault];
    forall i | 0 <= i < |faults'|
      ensures counts'[i] <= counts'[i + 1] && faults'[i] == !Smooth(fails, counts'[i], counts'[i + 1])
    {
      if i < |faults| { assert counts[i] <= counts[i + 1]; }
    }
  }

  /** Any sequence of reads, changes and flushes, with any failures, from any state of the layer. */
  method Live(bucket: LayerBucket, steps: seq<Step>)
    returns (answers: seq<Answer>, ghost bases: seq<Store>, ghost faults: seq<bool>, ghost counts: seq<nat>)
    modifies bucket, bucket.backing
    ensures |answers| == |bases| == |faults| == |steps|
    ensures LayeredOf(bucket.Now()) == AfterAll(LayeredOf(old(bucket.Now())), steps, answers, bases)
    ensures AllAnswered(LayeredOf(old(bucket.Now())), steps, answers, bases, faults)
    ensures FaultsOf(bucket.backing.fails, counts, faults)
    ensures counts[0] == old(bucket.backing.calls) && counts[|steps|] == bucket.backing.calls
    ensures [] !in old(bucket.backing.store) ==> forall base <- bases :: [] !in base
  {
    answers, bases, faults, counts := [], [], [], [bucket.backing.calls];
    ghost var start := LayeredOf(bucket.Now());
    var i := 0;
    while i < |steps|
      invariant 0 <= i <= |steps| && |answers| == |bases| == |faults| == i
      invariant LayeredOf(bucket.Now()) == AfterAll(start, steps[..i], answers, bases)
      invariant AllAnswered(start, steps[..i], answers, bases, faults)
      invariant FaultsOf(bucket.backing.fails, counts, faults)
      invariant counts[0] == old(bucket.backing.calls) && counts[i] == bucket.backing.calls
      invariant [] !in start.base ==> [] !in bucket.backing.store && forall base <- bases :: [] !in base
    {
      ghost var from := bucket.backing.calls;
      var a := DoStep(bucket, steps[i]);
      ghost var fault := bucket.backing.Failed(from);
      AnsweredOne(start, steps, i, answers, bases, faults, a, bucket.backing.store, fault);
      FaultsOne(bucket.backing.fails, counts, faults, bucket.backing.calls, fault);
      answers, bases, faults := answers + [a], bases + [bucket.backing.store], faults + [fault];
      counts := counts + [bucket.backing.calls];
      i := i + 1;
    }
    assert steps[..i] == steps;
  }

  predicate AllAnswered(l: Layered, steps: seq<Step>, answers: seq<Answer>, bases: seq<Store>, faults: seq<bool>)
    requires |steps| == |answers| == |bases| == |faults|
  {
    forall i :: 0 <= i < |steps| ==>
      Answers(AfterAll(l, steps[..i], answers[..i], bases[..i]), steps[i], answers[i], faults[i])
  }

  lemma {:induction false} AnsweredOne(
    l: Layered, steps: seq<Step>, i: nat, answers: seq<Answer>, bases: seq<Store>, faults: seq<bool>, a: Answer,
    base: Store, fault: bool)
    requires i < |steps| && |answers| == |bases| == |faults| == i
    requires AllAnswered(l, steps[..i], answers, bases, faults)
    requires Answers(AfterAll(l, steps[..i], answers, bases), steps[i], a, fault)
    ensures AllAnswered(l, steps[..i + 1], answers + [a], bases + [base], faults + [fault])
    ensures AfterAll(l, steps[..i + 1], answers + [a], bases + [base]) ==
            After(AfterAll(l, steps[..i], answers, bases), steps[i], a, base)
  {
    var steps', answers', bases' := steps[..i + 1], answers + [a], bases + [base];
    assert steps'[..i] == steps[..i] && answers'[..i] == answers && bases'[..i] == bases;
    forall j | 0 <= j < i
      ensures Answers(AfterAll(l, steps'[..j], answers'[..j], bases'[..j]), steps'[j], answers'[j], faults[j])
    {
      assert steps[..i][..j] == steps'[..j] && answers[..j] == answers'[..j] && bases[..j] == bases'[..j];
      assert Answers(AfterAll(l, steps[..i][..j], answers[..j], bases[..j]), steps[..i][j], answers[j], faults[j]);
    }
  }

  /** A store that is written directly with the changes that were accepted. */
  function DirectlyWritten(s: Store, steps: seq<Step>, answers: seq<Answer>): Store
    requires |steps| == |answers|
  {
    if steps == [] then s
    else
      var n := |steps| - 1;
      var before := DirectlyWritten(s, steps[..n], answers[..n]);
      match steps[n]
      case Do(Set(k, v)) => if answers[n] == Accepted then Put(before, k, Some(v)) else before
      case Do(Delete(k)) => if answers[n] == Accepted then Put(before, k, None) else before
      case _ => before
  }

  /**
   As long as nothing is dropped, what is read is what a directly written store holds,
   before, during and after a flush, failed or not; and once a flush has succeeded the real
   bucket holds it too.
   */
  lemma {:induction false} LifeIsDirect(l: Layered, steps: seq<Step>, answers: seq<Answer>, bases: seq<Store>)
    requires |steps| == |answers| == |bases| && Flush(false) !in steps && (!l.held ==> l.base == l.view)
    ensures var r := AfterAll(l, steps, answers, bases);
            r.view == DirectlyWritten(l.view, steps, answers) && (!r.held ==> r.base == r.view)
  {
    if steps != [] {
      var n := |steps| - 1;
      assert steps == steps[..n] + [steps[n]];
      LifeIsDirect(l, steps[..n], answers[..n], bases[..n]);
    }
  }

  /** The real bucket is untouched until a flush writes. */
  lemma {:induction false} BaseUntouched(l: Layered, steps: seq<Step>, answers: seq<Answer>, bases: seq<Store>)
    requires |steps| == |answers| == |bases| && l.held && forall s <- steps :: s.Do?
    ensures var r := AfterAll(l, steps, answers, bases); r.held && r.base == l.base
  {
    if steps != [] {
      var n := |steps| - 1;
      assert steps == steps[..n] + [steps[n]];
      BaseUntouched(l, steps[..n], answers[..n], bases[..n]);
    }
  }

  /**
   Once an empty key is held back, every flush that is to write fails, for good: until the
   key is deleted or the changes are dropped, whatever else is done.
   */
  lemma {:induction false} EmptyKeyBlocks(
    l: Layered, steps: seq<Step>, answers: seq<Answer>, bases: seq<Store>, faults: seq<bool>)
    requires |steps| == |answers| == |bases| == |faults| && AllAnswered(l, steps, answers, bases, faults)
    requires EmptyKeyHeld(l) && forall base <- bases :: [] !in base
    requires Flush(false) !in steps && Do(Delete([])) !in steps
    ensures EmptyKeyHeld(AfterAll(l, steps, answers, bases))
    ensures forall i :: 0 <= i < |steps| && steps[i] == Flush(true) ==> answers[i] == Refused
  {
    var n := |steps|;
    EmptyKeyAt(l, steps, answers, bases, faults, n);
    assert StateAt(l, steps, answers, bases, n) == AfterAll(l, steps, answers, bases) by {
      assert steps[..n] == steps && answers[..n] == answers && bases[..n] == bases;
    }
    forall i | 0 <= i < |steps| && steps[i] == Flush(true) ensures answers[i] == Refused {
      EmptyKeyAt(l, steps, answers, bases, faults, i);
      EmptyKeyStays(StateAt(l, steps, answers, bases, i), steps[i], answers[i], faults[i], bases[i]);
    }
  }

  /** What the first `n` steps lead to. */
  function StateAt(l: Layered, steps: seq<Step>, answers: seq<Answer>, bases: seq<Store>, n: nat): Layered
    requires |steps| == |answers| == |bases| && n <= |steps|
  {
    AfterAll(l, steps[..n], answers[..n], bases[..n])
  }

  lemma {:induction false} StateNext(l: Layered, steps: seq<Step>, answers: seq<Answer>, bases: seq<Store>, n: nat)
    requires |steps| == |answers| == |bases| && n < |steps|
    ensures StateAt(l, steps, answers, bases, n + 1) ==
            After(StateAt(l, steps, answers, bases, n), steps[n], answers[n], bases[n])
  {
    assert steps[..n + 1][..n] == steps[..n] && answers[..n + 1][..n] == answers[..n];
    assert bases[..n + 1][..n] == bases[..n];
  }

  lemma {:induction false} EmptyKeyAt(
    l: Layered, steps: seq<Step>, answers: seq<Answer>, bases: seq<Store>, faults: seq<bool>, n: nat)
    requires |steps| == |answers| == |bases| == |faults| && AllAnswered(l, steps, answers, bases, faults)
    requires n <= |steps|
    requires EmptyKeyHeld(l) && forall base <- bases :: [] !in base
    requires Flush(false) !in steps && Do(Delete([])) !in steps
    ensures EmptyKeyHeld(StateAt(l, steps, answers, bases, n))
  {
    if n > 0 {
      EmptyKeyAt(l, steps, answers, bases, faults, n - 1);
      EmptyKeyStays(
        StateAt(l, steps, answers, bases, n - 1), steps[n - 1], answers[n - 1], faults[n - 1], bases[n - 1]);
      StateNext(l, steps, answers, bases, n - 1);
    }
  }

  lemma {:induction false} EmptyKeyStays(l: Layered, step: Step, a: Answer, fault: bool, base: Store)
    requires Answers(l, step, a, fault) && EmptyKeyHeld(l) && [] !in base
    requires step != Flush(false) && step != Do(Delete([]))
    ensures EmptyKeyHeld(After(l, step, a, base)) && (step == Flush(true) ==> a == Refused)
  {
  }

  // ---- the database

  type Id = string

  datatype AnyBucket = Layer(layer: LayerBucket) | Plain(bucket: RealBucket)

  /** The real database; opening a bucket may fail, as `fails` says. */
  class RealDatabase {
    var buckets: map<Id, RealBucket>
    const fails: nat -> bool
    const bucketFails: Id -> nat -> bool
    var calls: nat

    ghost predicate Valid()
      reads this
    {
      forall a, b :: a in buckets && b in buckets && a != b ==> buckets[a] != buckets[b]
    }

    constructor (fails: nat -> bool, bucketFails: Id -> nat -> bool)
      ensures Valid() && buckets == map[] && calls == 0
    {
      buckets, this.fails, this.bucketFails, calls := map[], fails, bucketFails, 0;
    }

    method GetBucket(id: Id) returns (r: Result<RealBucket, ()>)
      requires Valid()
      modifies this
      ensures Valid() && old(buckets.Keys) <= buckets.Keys
      ensures forall x <- old(buckets) :: buckets[x] == old(buckets[x])
      ensures forall x <- buckets :: x !in old(buckets) ==> fresh(buckets[x])
      ensures r.Ok? == !fails(old(calls)) && calls == old(calls) + 1
      ensures r.Ok? ==> id in buckets && r.value == buckets[id]
      ensures r.Ok? && id !in old(buckets) ==> r.value.store == map[] && r.value.calls == 0
    {
      if fails(calls) {
        r := Err(());
      } else {
        if id !in buckets {
          var bucket := new RealBucket(bucketFails(id));
          buckets := buckets[id := bucket];
        }
        r := Ok(buckets[id]);
      }
      calls := calls + 1;
    }
  }

  class LayerDatabase {
    var flushed: bool
    const source: RealDatabase
    var buckets: map<Id, LayerBucket>

    /** Each layer is over its own bucket of the real database, and after a flush holds nothing back. */
    ghost predicate Valid()
      reads this, source, buckets.Values
    {
      && source.Valid()
      && (forall id <- buckets :: id in source.buckets && buckets[id].backing == source.buckets[id])
      && (flushed ==> forall id <- buckets :: buckets[id].data.None?)
    }

    ghost function Reals(): set<RealBucket>
      reads this
    {
      set id | id in buckets :: buckets[id].backing
    }

    constructor (source: RealDatabase)
      requires source.Valid()
      ensures Valid() && !flushed && buckets == map[] && this.source == source
    {
      flushed, this.source, buckets := false, source, map[];
    }

    /**
     A bucket asked for again is the same object; a new one reads as the real bucket does,
     and is plain after a flush.
     */
    method GetBucket(id: Id) returns (r: Result<AnyBucket, ()>)
      requires Valid()
      modifies this`buckets, source
      ensures Valid()
      ensures id in old(buckets) ==> r == Ok(Layer(old(buckets[id]))) && buckets == old(buckets)
      ensures id !in old(buckets) ==> r.Ok? == !source.fails(old(source.calls))
      ensures id !in old(buckets) && (r.Err? || flushed) ==> buckets == old(buckets)
      ensures id !in old(buckets) && r.Ok? ==> id in source.buckets
      ensures id !in old(buckets) && r.Ok? && flushed ==> r.value == Plain(source.buckets[id])
      ensures id !in old(buckets) && r.Ok? && !flushed ==>
                && r.value.Layer? && fresh(r.value.layer) && r.value.layer.data == Some(map[])
                && r.value.layer.View() == source.buckets[id].store && buckets == old(buckets)[id := r.value.layer]
    {
      if id in buckets {
        r := Ok(Layer(buckets[id]));
      } else {
        var got := source.GetBucket(id);
        if got.Err? {
          r := Err(());
        } else if flushed {
          r := Ok(Plain(got.value));
        } else {
          var layer := new LayerBucket(got.value);
          buckets := buckets[id := layer];
          r := Ok(Layer(layer));
        }
      }
    }

    method FlushOne(id: Id, write: bool) returns (ok: bool)
      requires id in buckets && Separate()
      modifies buckets[id], buckets[id].backing
      ensures Flushes(old(buckets[id].Now()), buckets[id].Now(), write, ok)
      ensures ok == (!write || old(buckets[id].Prospect()).able)
      ensures forall x <- buckets :: x != id ==> buckets[x].Prospect() == old(buckets[x].Prospect())
    {
      ok := buckets[id].Flush(write);
    }

    method FlushEach(write: bool, ghost was: map<Id, Outlook>) returns (ok: bool)
      requires Separate() && was.Keys == buckets.Keys && forall id <- buckets :: was[id] == buckets[id].Prospect()
      modifies buckets.Values, Reals()
      ensures forall id <- buckets ::
                Settled(was[id].content, buckets[id].Now(), write, ok) || (!ok && buckets[id].Now() == was[id].content)
      ensures ok == (!write || forall id <- was :: was[id].able)
    {
      ok := true;
      var left := buckets.Keys;
      while left != {} && ok
        invariant Underway(left, write, ok, was)
        decreases |left|, ok
      {
        var id :| id in left;
        ok := FlushNext(id, write, left, was);
        left := left - {id};
      }
    }

    /** The buckets outside `left` are flushed; all are as they were inside it. */
    ghost predicate Underway(left: set<Id>, write: bool, ok: bool, was: map<Id, Outlook>)
      reads this, buckets.Values, Reals()
    {
      && left <= buckets.Keys == was.Keys
      && (forall id <- left :: buckets[id].Prospect() == was[id])
      && (forall id <- buckets :: id !in left ==> Settled(was[id].content, buckets[id].Now(), write, ok))
      && (if ok then write ==> forall id <- was :: id !in left ==> was[id].able
          else write && exists id <- was :: !was[id].able)
    }

    method FlushNext(id: Id, write: bool, ghost left: set<Id>, ghost was: map<Id, Outlook>) returns (ok: bool)
      requires id in left && Separate() && Underway(left, write, true, was)
      modifies buckets[id], buckets[id].backing
      ensures Underway(left - {id}, write, ok, was)
    {
      ok := FlushOne(id, write);
    }

    method FlushAll(write: bool) returns (ok: bool)
      requires Separate()
      modifies buckets.Values, Reals()
      ensures ok == (!write || forall id <- buckets :: old(buckets[id].Prospect()).able)
      ensures ok ==> forall id <- buckets :: Flushes(old(buckets[id].Now()), buckets[id].Now(), write, true)
      ensures write ==> forall id <- buckets :: buckets[id].View() == old(buckets[id].View())
    {
      ghost var was := map id | id in buckets :: buckets[id].Prospect();
      ok := FlushEach(write, was);
    }

    /**
     Flushes bucket after bucket in any order. It fails exactly if one of them has a change
     that is refused; then no read of any bucket has changed, the database is not flushed,
     and the flush can be repeated.
     */
    method Flush(write: bool) returns (ok: bool)
      requires Valid()
      modifies this`flushed, buckets.Values, Reals()
      ensures Valid() && flushed == (ok || old(flushed))
      ensures ok == (!write || forall id <- buckets :: old(buckets[id].Prospect()).able)
      ensures ok ==> forall id <- buckets :: Flushes(old(buckets[id].Now()), buckets[id].Now(), write, true)
      ensures write ==> forall id <- buckets :: buckets[id].View() == old(buckets[id].View())
    {
      assert Separate();
      ok := FlushAll(write);
      if ok { flushed := true; }
    }

    /** Different buckets share no object. */
    ghost predicate Separate()
      reads this, buckets.Values
    {
      forall a, b :: a in buckets && b in buckets && a != b ==>
        buckets[a] != buckets[b] && buckets[a].backing != buckets[b].backing
    }
  }
}
