/**
 The relay's buffer filter: drops what the destination already has and stops at the first
 gap. It rewrites the very slices it is reading; the specification is a plain filter.
 */
module RelayFilter {
  import opened Bytes

  datatype Event = Event(sequence: nat, message: Bytes)

  datatype Receipt = Receipt(height: nat, events: seq<Event>)

  /** What is kept, and the last sequence accounted for; or the sequence that is missing. */
  datatype Filtered<T> = Kept(items: seq<T>, rxSeq: nat) | Missing(expected: nat)

  function FilterEvents(es: seq<Event>, rxSeq: nat): (r: Filtered<Event>) {
    if es == [] then Kept([], rxSeq)
    else
      var n := |es| - 1;
      match FilterEvents(es[..n], rxSeq)
      case Missing(x) => Missing(x)
      case Kept(kept, s) =>
        if es[n].sequence <= s then Kept(kept, s)
        else if es[n].sequence != s + 1 then Missing(s + 1)
        else Kept(kept + [es[n]], s + 1)
  }

  function FilterReceipts(rs: seq<Receipt>, rxHeight: nat, rxSeq: nat): (r: Filtered<Receipt>) {
    if rs == [] then Kept([], rxSeq)
    else
      var n := |rs| - 1;
      var out := FilterReceipts(rs[..n], rxHeight, rxSeq);
      if out.Missing? then out else NextReceipt(out, rs[n], rxHeight)
  }

  // ---- the filter in place

  /** A receipt object: `events[..count]` is its slice of events. */
  class ReceiptObject {
    const height: nat
    const events: array<Event>
    var count: nat

    constructor (height: nat, events: array<Event>)
      ensures this.height == height && this.events == events && count == events.Length
    {
      this.height := height;
      this.events := events;
      count := events.Length;
    }
  }

  ghost predicate Sound(r: ReceiptObject)
    reads r
  {
    r.count <= r.events.Length
  }

  ghost function ValueOf(r: ReceiptObject): Receipt
    requires Sound(r)
    reads r, r.events
  {
    Receipt(r.height, r.events[..r.count])
  }

  method Put(a: array<Event>, k: nat, event: Event)
    requires k < a.Length
    modifies a
    ensures a[..k + 1] == old(a[..k]) + [event]
    ensures forall j :: k < j < a.Length ==> a[j] == old(a[j])
  {
    a[k] := event;
  }

  /** Filters the first `n` events of `a` into its own front. */
  method FilterEventsInPlace(a: array<Event>, n: nat, rxSeq: nat) returns (kept: nat, seq': nat, missing: nat)
    requires n <= a.Length
    modifies a
    ensures kept <= n && forall j :: n <= j < a.Length ==> a[j] == old(a[j])
    ensures match FilterEvents(old(a[..n]), rxSeq)
            case Missing(x) => missing == x > 0
            case Kept(es, s) => missing == 0 && a[..kept] == es && seq' == s
  {
    kept, seq', missing := 0, rxSeq, 0;
    ghost var before := a[..n];
    var i := 0;
    while i < n && missing == 0
      invariant kept <= i <= n
      invariant forall j :: i <= j < a.Length ==> a[j] == old(a[j])
      invariant if missing > 0 then FilterEvents(before[..i], rxSeq) == Missing(missing)
                else FilterEvents(before[..i], rxSeq) == Kept(a[..kept], seq')
    {
      assert before[..i + 1][..i] == before[..i];
      var event := a[i];
      if event.sequence > seq' {
        seq' := seq' + 1;
        if event.sequence != seq' {
          missing := seq';
        } else {
          Put(a, kept, event);
          kept := kept + 1;
        }
      }
      i := i + 1;
    }
    if missing > 0 {
      MissingStays(before, i, rxSeq);
    } else {
      assert before[..i] == before;
    }
  }

  /** A gap found in a prefix is the gap of the whole. */
  lemma {:induction false} MissingStays(es: seq<Event>, i: nat, rxSeq: nat)
    requires i <= |es| && FilterEvents(es[..i], rxSeq).Missing?
    ensures FilterEvents(es, rxSeq) == FilterEvents(es[..i], rxSeq)
    decreases |es|
  {
    if i < |es| {
      assert es[..|es| - 1][..i] == es[..i];
      MissingStays(es[..|es| - 1], i, rxSeq);
    } else {
      assert es[..i] == es;
    }
  }

  lemma {:induction false} GapStays(rs: seq<Receipt>, i: nat, rxHeight: nat, rxSeq: nat)
    requires i <= |rs| && FilterReceipts(rs[..i], rxHeight, rxSeq).Missing?
    ensures FilterReceipts(rs, rxHeight, rxSeq) == FilterReceipts(rs[..i], rxHeight, rxSeq)
    decreases |rs|
  {
    if i < |rs| {
      assert rs[..|rs| - 1][..i] == rs[..i];
      GapStays(rs[..|rs| - 1], i, rxHeight, rxSeq);
    } else {
      assert rs[..i] == rs;
    }
  }

  /** Distinct receipts with event arrays of their own. */
  ghost predicate Separate(objs: seq<ReceiptObject>)
    reads objs
  {
    && (forall i :: 0 <= i < |objs| ==> Sound(objs[i]))
    && forall i, j :: 0 <= i < j < |objs| ==> objs[i] != objs[j] && objs[i].events != objs[j].events
  }

  ghost function ArraysOf(objs: seq<ReceiptObject>): set<array<Event>> {
    set r | r in objs :: r.events
  }

  /** The receipt values of `objs[i]` before the filter ran. */
  ghost predicate Holds(objs: seq<ReceiptObject>, values: seq<Receipt>)
    reads objs, ArraysOf(objs)
  {
    |objs| == |values| && forall i :: 0 <= i < |objs| ==> Sound(objs[i]) && ValueOf(objs[i]) == values[i]
  }

  class Message {
    var receipts: array<ReceiptObject>
    var count: nat

    constructor (receipts: array<ReceiptObject>)
      ensures this.receipts == receipts && count == receipts.Length
    {
      this.receipts, count := receipts, receipts.Length;
    }

    /** Filters one receipt object in place. */
    static method FilterOne(r: ReceiptObject, rxSeq: nat) returns (seq': nat, missing: nat)
      requires Sound(r)
      modifies r, r.events
      ensures Sound(r)
      ensures match FilterEvents(old(ValueOf(r)).events, rxSeq)
              case Missing(x) => missing == x > 0
              case Kept(es, s) => missing == 0 && ValueOf(r) == Receipt(r.height, es) && seq' == s
    {
      var kept;
      kept, seq', missing := FilterEventsInPlace(r.events, r.count, rxSeq);
      if missing == 0 { r.count := kept; }
    }

    /** Filtering one receipt leaves the others alone. */
    static method FilterNth(ghost objs: seq<ReceiptObject>, ghost i: nat, r: ReceiptObject, rxSeq: nat)
      returns (seq': nat, missing: nat)
      requires Separate(objs) && i < |objs| && r == objs[i]
      modifies r, r.events
      ensures Separate(objs)
      ensures forall j :: 0 <= j < |objs| && j != i ==> ValueOf(objs[j]) == old(ValueOf(objs[j]))
      ensures match FilterEvents(old(ValueOf(r)).events, rxSeq)
              case Missing(x) => missing == x > 0
              case Kept(es, s) => missing == 0 && ValueOf(r) == Receipt(r.height, es) && seq' == s
    {
      seq', missing := FilterOne(r, rxSeq);
    }

    /**
     The filter stands at receipt `i` of `objs`: the front of the array holds the receipts
     kept so far, `index` says which, and the rest is as it was.
     */
    ghost predicate At(objs: seq<ReceiptObject>, values: seq<Receipt>, i: nat, index: seq<nat>, out: Filtered<Receipt>)
      reads this, receipts, objs, ArraysOf(objs)
    {
      && |objs| == |values| == count <= receipts.Length && i <= count && |index| <= i
      && Separate(objs)
      && (forall j :: i <= j < count ==> receipts[j] == objs[j] && ValueOf(objs[j]) == values[j])
      && out.Kept? && |out.items| == |index|
      && (forall j :: 0 <= j < |index| ==>
            index[j] < i && receipts[j] == objs[index[j]] && ValueOf(objs[index[j]]) == out.items[j])
      && forall j, k :: 0 <= j < k < |index| ==> index[j] < index[k]
    }

    /** Filters receipt `i` where it is. */
    method FilterAt(ghost objs: seq<ReceiptObject>, ghost values: seq<Receipt>, i: nat, s: nat,
                    ghost index: seq<nat>, ghost out: Filtered<Receipt>)
      returns (s': nat, missing: nat)
      requires At(objs, values, i, index, out) && i < count
      modifies objs[i], objs[i].events
      ensures match FilterEvents(values[i].events, s)
              case Missing(x) => missing == x > 0
              case Kept(es, t) =>
                missing == 0 && s' == t && At(objs, values[i := Receipt(values[i].height, es)], i, index, out)
    {
      s', missing := FilterNth(objs, i, receipts[i], s);
    }

    /** Appends receipt `i`, filtered to `v`, to the receipts kept. */
    method KeepAt(ghost objs: seq<ReceiptObject>, ghost values: seq<Receipt>, ghost v: Receipt, i: nat, kept: nat,
                  ghost index: seq<nat>, ghost out: Filtered<Receipt>, ghost s: nat)
      requires |values| == count && i < count && At(objs, values[i := v], i, index, out) && kept == |index|
      modifies receipts
      ensures At(objs, values, i + 1, index + [i], Kept(out.items + [v], s))
    {
      receipts[kept] := receipts[i];
    }

    lemma {:induction false} DropAt(objs: seq<ReceiptObject>, values: seq<Receipt>, v: Receipt, i: nat,
                 index: seq<nat>, out: Filtered<Receipt>, s: nat)
      requires |values| == count && i < count && At(objs, values[i := v], i, index, out)
      ensures At(objs, values, i + 1, index, Kept(out.items, s))
    {
    }

    /** Keeps or drops receipt `i`, which is not below the height; a gap is reported. */
    method StepAbove(ghost objs: seq<ReceiptObject>, ghost values: seq<Receipt>, i: nat, kept: nat, s: nat,
                     ghost index: seq<nat>, ghost out: Filtered<Receipt>)
      returns (kept': nat, s': nat, missing: nat, ghost index': seq<nat>)
      requires At(objs, values, i, index, out) && i < count && kept == |index| && s == out.rxSeq
      modifies receipts, objs[i], objs[i].events
      ensures match FilterEvents(values[i].events, s)
              case Missing(x) => missing == x > 0
              case Kept(es, t) =>
                && missing == 0 && s' == t && kept' == |index'|
                && At(objs, values, i + 1, index',
                      Kept(if es == [] then out.items else out.items + [Receipt(values[i].height, es)], t))
    {
      kept', index' := kept, index;
      s', missing := FilterAt(objs, values, i, s, index, out);
      if missing == 0 {
        ghost var v := Receipt(values[i].height, FilterEvents(values[i].events, s).items);
        assert receipts[i] == objs[i] && ValueOf(objs[i]) == v;
        if receipts[i].count > 0 {
          KeepAt(objs, values, v, i, kept, index, out, s');
          kept', index' := kept + 1, index + [i];
        } else {
          DropAt(objs, values, v, i, index, out, s');
        }
      }
    }

    /** One round of the filter. */
    method Step(ghost objs: seq<ReceiptObject>, ghost values: seq<Receipt>, i: nat, kept: nat, rxHeight: nat, s: nat,
                ghost index: seq<nat>, ghost out: Filtered<Receipt>)
      returns (kept': nat, s': nat, missing: nat, ghost index': seq<nat>)
      requires At(objs, values, i, index, out) && i < count && kept == |index| && s == out.rxSeq
      modifies receipts, objs[i], objs[i].events
      ensures match NextReceipt(out, values[i], rxHeight)
              case Missing(x) => missing == x > 0
              case Kept(rs, t) =>
                && missing == 0 && s' == t && kept' == |index'|
                && At(objs, values, i + 1, index', Kept(rs, t))
    {
      if receipts[i].height < rxHeight {
        kept', s', missing, index' := kept, s, 0, index;
        assert values[i := values[i]] == values;
        DropAt(objs, values, values[i], i, index, out, s);
      } else {
        kept', s', missing, index' := StepAbove(objs, values, i, kept, s, index, out);
      }
    }

    lemma {:induction false} AtStart(values: seq<Receipt>, rxSeq: nat)
      requires count <= receipts.Length && Separate(receipts[..count]) && Holds(receipts[..count], values)
      ensures At(receipts[..count], values, 0, [], Kept([], rxSeq))
    {
    }

    lemma {:induction false} AtEnd(
      objs: seq<ReceiptObject>, values: seq<Receipt>, index: seq<nat>, out: Filtered<Receipt>)
      requires At(objs, values, count, index, out)
      ensures Separate(receipts[..|index|]) && Holds(receipts[..|index|], out.items)
    {
      var rs := receipts[..|index|];
      assert forall j :: 0 <= j < |rs| ==> rs[j] == objs[index[j]];
    }

    /**
     Filters the buffered receipts at a link status: 0 if there is no gap, and then the
     message holds the filtered receipts; otherwise the first missing sequence.
     */
    method FilterSrcMsg(rxHeight: nat, rxSeq: nat, ghost values: seq<Receipt>) returns (missing: nat)
      requires count <= receipts.Length && Separate(receipts[..count]) && Holds(receipts[..count], values)
      modifies this, receipts, receipts[..count], ArraysOf(receipts[..count])
      ensures receipts == old(receipts)
      ensures match FilterReceipts(values, rxHeight, rxSeq)
              case Missing(x) => missing == x > 0
              case Kept(rs, _) =>
                && missing == 0 && count <= receipts.Length
                && Separate(receipts[..count]) && Holds(receipts[..count], rs)
    {
      ghost var objs := receipts[..count];
      AtStart(values, rxSeq);
      var kept;
      ghost var index, out;
      kept, missing, index, out := FilterAll(objs, values, rxHeight, rxSeq);
      if missing == 0 {
        AtEnd(objs, values, index, out);
        count := kept;
      }
    }

    method FilterAll(ghost objs: seq<ReceiptObject>, ghost values: seq<Receipt>, rxHeight: nat, rxSeq: nat)
      returns (kept: nat, missing: nat, ghost index: seq<nat>, ghost out: Filtered<Receipt>)
      requires At(objs, values, 0, [], Kept([], rxSeq))
      modifies receipts, objs, ArraysOf(objs)
      ensures out == FilterReceipts(values, rxHeight, rxSeq)
      ensures out.Missing? ==> missing == out.expected > 0
      ensures out.Kept? ==> missing == 0 && kept == |index| && At(objs, values, count, index, out)
    {
      kept, missing, index, out := 0, 0, [], Kept([], rxSeq);
      var s, i := rxSeq, 0;
      assert values[..0] == [];
      while i < count && missing == 0
        invariant i <= count == |values| && out == FilterReceipts(values[..i], rxHeight, rxSeq)
        invariant out.Missing? ==> missing == out.expected > 0
        invariant out.Kept? ==> missing == 0 && kept == |index| && s == out.rxSeq && At(objs, values, i, index, out)
      {
        assert values[..i + 1][..i] == values[..i];
        kept, s, missing, index := Step(objs, values, i, kept, rxHeight, s, index, out);
        out := NextReceipt(out, values[i], rxHeight);
        i := i + 1;
      }
      if missing > 0 {
        GapStays(values, i, rxHeight, rxSeq);
      } else {
        assert values[..i] == values;
      }
    }
  }

  /** One receipt more. */
  function NextReceipt(out: Filtered<Receipt>, r: Receipt, rxHeight: nat): Filtered<Receipt>
    requires out.Kept?
  {
    if r.height < rxHeight then out
    else
      match FilterEvents(r.events, out.rxSeq)
      case Missing(x) => Missing(x)
      case Kept(es, s) => Kept(if es == [] then out.items else out.items + [Receipt(r.height, es)], s)
  }

  // ---- what the filter keeps

  /**
   Without a gap the kept events are `rxSeq + 1`, `rxSeq + 2`, ... in order, all of them
   from the input, and no later event was passed over; a gap is an event beyond the next one.
   */
  lemma {:induction false} EventsKept(es: seq<Event>, rxSeq: nat)
    ensures match FilterEvents(es, rxSeq)
            case Kept(kept, s) =>
              && s == rxSeq + |kept|
              && (forall i :: 0 <= i < |kept| ==> kept[i].sequence == rxSeq + 1 + i && kept[i] in es)
              && (forall e <- es :: e.sequence <= s)
            case Missing(x) => x > rxSeq && exists e <- es :: e.sequence > x
  {
    if es != [] {
      var n := |es| - 1;
      EventsKept(es[..n], rxSeq);
      assert es == es[..n] + [es[n]];
    }
  }

  function Flat(rs: seq<Receipt>): seq<Event> {
    if rs == [] then [] else Flat(rs[..|rs| - 1]) + rs[|rs| - 1].events
  }

  /** The receipts at or above a height. */
  function AtLeast(rs: seq<Receipt>, h: nat): seq<Receipt> {
    if rs == [] then []
    else
      var n := |rs| - 1;
      AtLeast(rs[..n], h) + if rs[n].height < h then [] else [rs[n]]
  }

  lemma {:induction false} FilterEventsAppend(es: seq<Event>, e: Event, rxSeq: nat)
    ensures FilterEvents(es + [e], rxSeq) ==
            match FilterEvents(es, rxSeq)
            case Missing(x) => Missing(x)
            case Kept(kept, s) =>
              if e.sequence <= s then Kept(kept, s)
              else if e.sequence != s + 1 then Missing(s + 1)
              else Kept(kept + [e], s + 1)
  {
    assert (es + [e])[..|es|] == es;
  }

  lemma {:induction false} FilterConcat(a: seq<Event>, b: seq<Event>, rxSeq: nat)
    ensures FilterEvents(a + b, rxSeq) ==
            match FilterEvents(a, rxSeq)
            case Missing(x) => Missing(x)
            case Kept(ka, s) =>
              match FilterEvents(b, s)
              case Missing(x) => Missing(x)
              case Kept(kb, t) => Kept(ka + kb, t)
    decreases |b|
  {
    if b == [] {
      assert a + b == a;
      if FilterEvents(a, rxSeq).Kept? {
        assert FilterEvents(a, rxSeq).items + [] == FilterEvents(a, rxSeq).items;
      }
    } else {
      var n := |b| - 1;
      assert (a + b)[..|a + b| - 1] == a + b[..n];
      FilterConcat(a, b[..n], rxSeq);
    }
  }

  /** Receipt by receipt or all events at once: the filter keeps the same events and finds the same gap. */
  lemma {:induction false} FilterFlat(rs: seq<Receipt>, rxHeight: nat, rxSeq: nat)
    ensures match FilterReceipts(rs, rxHeight, rxSeq)
            case Missing(x) => FilterEvents(Flat(AtLeast(rs, rxHeight)), rxSeq) == Missing(x)
            case Kept(kept, s) =>
              && FilterEvents(Flat(AtLeast(rs, rxHeight)), rxSeq) == Kept(Flat(kept), s)
              && forall r <- kept :: r.events != [] && r.height >= rxHeight
  {
    if rs != [] {
      var n := |rs| - 1;
      FilterFlat(rs[..n], rxHeight, rxSeq);
      var front := AtLeast(rs[..n], rxHeight);
      if rs[n].height < rxHeight {
        assert front + [] == front;
      } else {
        assert (front + [rs[n]])[..|front|] == front;
        FilterConcat(Flat(front), rs[n].events, rxSeq);
        var out := FilterReceipts(rs[..n], rxHeight, rxSeq);
        if out.Kept? && FilterEvents(rs[n].events, out.rxSeq).Kept? {
          var es := FilterEvents(rs[n].events, out.rxSeq).items;
          if es == [] {
            assert Flat(out.items) + [] == Flat(out.items);
          } else {
            assert (out.items + [Receipt(rs[n].height, es)])[..|out.items|] == out.items;
          }
        }
      }
    }
  }

  /** The largest sequence accounted for after some events. */
  function Top(es: seq<Event>, rxSeq: nat): nat {
    if es == [] then rxSeq
    else
      var n := |es| - 1;
      var top := Top(es[..n], rxSeq);
      if es[n].sequence > top then es[n].sequence else top
  }

  /** Event `i` is beyond the one expected after all before it. */
  predicate Jumps(es: seq<Event>, rxSeq: nat, i: nat) {
    i < |es| && es[i].sequence > Top(es[..i], rxSeq) + 1
  }

  predicate FirstJump(es: seq<Event>, rxSeq: nat, i: nat) {
    Jumps(es, rxSeq, i) && forall j: nat :: j < i ==> !Jumps(es, rxSeq, j)
  }

  predicate NoJump(es: seq<Event>, rxSeq: nat) {
    forall i: nat :: i < |es| ==> !Jumps(es, rxSeq, i)
  }

  lemma {:induction false} JumpsFront(es: seq<Event>, rxSeq: nat, n: nat, i: nat)
    requires i < n <= |es|
    ensures Jumps(es[..n], rxSeq, i) <==> Jumps(es, rxSeq, i)
  {
    assert es[..n][..i] == es[..i];
  }

  /**
   The filter keeps exactly when no event jumps, and then accounts for the largest sequence;
   otherwise it reports the sequence expected at the first event that jumps.
   */
  lemma {:induction false} GapExact(es: seq<Event>, rxSeq: nat)
    ensures FilterEvents(es, rxSeq).Kept? <==> NoJump(es, rxSeq)
    ensures FilterEvents(es, rxSeq).Kept? ==> FilterEvents(es, rxSeq).rxSeq == Top(es, rxSeq)
    ensures FilterEvents(es, rxSeq).Missing? ==>
              exists i: nat :: FirstJump(es, rxSeq, i) && FilterEvents(es, rxSeq).expected == Top(es[..i], rxSeq) + 1
  {
    if es != [] {
      var n := |es| - 1;
      GapExact(es[..n], rxSeq);
      forall i: nat | i < n ensures Jumps(es[..n], rxSeq, i) <==> Jumps(es, rxSeq, i) { JumpsFront(es, rxSeq, n, i); }
      var front := FilterEvents(es[..n], rxSeq);
      if front.Missing? {
        var i: nat :| FirstJump(es[..n], rxSeq, i) && front.expected == Top(es[..n][..i], rxSeq) + 1;
        assert es[..n][..i] == es[..i];
        assert FirstJump(es, rxSeq, i);
      } else if Jumps(es, rxSeq, n) {
        assert FirstJump(es, rxSeq, n);
      }
    }
  }

  /** A kept event is the first with its sequence: all before it account for the ones before. */
  lemma {:induction false} KeptFirst(es: seq<Event>, rxSeq: nat, i: nat)
    requires FilterEvents(es, rxSeq).Kept? && i < |FilterEvents(es, rxSeq).items|
    ensures exists j: nat :: j < |es| && es[j] == FilterEvents(es, rxSeq).items[i] && Top(es[..j], rxSeq) == rxSeq + i
  {
    var n := |es| - 1;
    var kept := FilterEvents(es[..n], rxSeq).items;
    GapExact(es[..n], rxSeq);
    EventsKept(es[..n], rxSeq);
    if i < |kept| {
      KeptFirst(es[..n], rxSeq, i);
      var j: nat :| j < n && es[..n][j] == kept[i] && Top(es[..n][..j], rxSeq) == rxSeq + i;
      assert es[..n][..j] == es[..j];
    }
  }

  /** The same for receipts: the events of those at or above the height, one after another. */
  lemma {:induction false} GapExactReceipts(rs: seq<Receipt>, rxHeight: nat, rxSeq: nat)
    ensures var es, out := Flat(AtLeast(rs, rxHeight)), FilterReceipts(rs, rxHeight, rxSeq);
            && (out.Kept? <==> NoJump(es, rxSeq))
            && (out.Kept? ==> out.rxSeq == Top(es, rxSeq))
            && (out.Missing? ==> exists i: nat :: FirstJump(es, rxSeq, i) && out.expected == Top(es[..i], rxSeq) + 1)
  {
    FilterFlat(rs, rxHeight, rxSeq);
    GapExact(Flat(AtLeast(rs, rxHeight)), rxSeq);
  }

  /** Filtering what was kept with a later sequence is filtering the original once with it. */
  lemma {:induction false} RefilterEvents(es: seq<Event>, rxSeq: nat, later: nat)
    requires rxSeq <= later && FilterEvents(es, rxSeq).Kept?
    ensures FilterEvents(es, later) == FilterEvents(FilterEvents(es, rxSeq).items, later)
    ensures FilterEvents(es, later).Kept?
    ensures FilterEvents(es, later).rxSeq ==
            if FilterEvents(es, rxSeq).rxSeq >= later then FilterEvents(es, rxSeq).rxSeq else later
  {
    if es != [] {
      var n := |es| - 1;
      RefilterEvents(es[..n], rxSeq, later);
      var kept := FilterEvents(es[..n], rxSeq).items;
      if FilterEvents(es, rxSeq).items != kept {
        assert (kept + [es[n]])[..|kept|] == kept;
      }
    }
  }

  lemma {:induction false} Refilter(rs: seq<Receipt>, rxHeight: nat, rxSeq: nat, later: nat)
    requires rxSeq <= later && FilterReceipts(rs, rxHeight, rxSeq).Kept?
    ensures FilterReceipts(rs, rxHeight, later) ==
            FilterReceipts(FilterReceipts(rs, rxHeight, rxSeq).items, rxHeight, later)
    ensures FilterReceipts(rs, rxHeight, later).Kept?
    ensures FilterReceipts(rs, rxHeight, later).rxSeq ==
            if FilterReceipts(rs, rxHeight, rxSeq).rxSeq >= later then FilterReceipts(rs, rxHeight, rxSeq).rxSeq
            else later
  {
    if rs != [] {
      var n := |rs| - 1;
      Refilter(rs[..n], rxHeight, rxSeq, later);
      var out := FilterReceipts(rs[..n], rxHeight, rxSeq);
      if rs[n].height >= rxHeight {
        RefilterStep(out, FilterReceipts(rs[..n], rxHeight, later), rs[n], rxHeight, later);
      }
    }
  }

  lemma {:induction false} FilterAppend(items: seq<Receipt>, x: Receipt, rxHeight: nat, rxSeq: nat)
    requires FilterReceipts(items, rxHeight, rxSeq).Kept?
    ensures FilterReceipts(items + [x], rxHeight, rxSeq) ==
            NextReceipt(FilterReceipts(items, rxHeight, rxSeq), x, rxHeight)
  {
    assert (items + [x])[..|items|] == items;
  }

  lemma {:induction false} RefilterStep(
    out: Filtered<Receipt>, again: Filtered<Receipt>, r: Receipt, rxHeight: nat, later: nat)
    requires out.Kept? && again.Kept? && r.height >= rxHeight && NextReceipt(out, r, rxHeight).Kept?
    requires again == FilterReceipts(out.items, rxHeight, later)
    requires again.rxSeq == if out.rxSeq >= later then out.rxSeq else later
    ensures NextReceipt(again, r, rxHeight) == FilterReceipts(NextReceipt(out, r, rxHeight).items, rxHeight, later)
    ensures NextReceipt(again, r, rxHeight).Kept?
    ensures NextReceipt(again, r, rxHeight).rxSeq ==
            if NextReceipt(out, r, rxHeight).rxSeq >= later then NextReceipt(out, r, rxHeight).rxSeq else later
  {
    RefilterEvents(r.events, out.rxSeq, again.rxSeq);
    EventsKept(r.events, out.rxSeq);
    var es := FilterEvents(r.events, out.rxSeq).items;
    if es != [] { FilterAppend(out.items, Receipt(r.height, es), rxHeight, later); }
  }

}
