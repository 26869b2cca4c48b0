/**
 The watch cache: slots of pending watches, filled by registrations and cleared when an
 event log matches. A lookup and the removal that follows it are separate critical
 sections, so registrations come between them.
 */
module Finder {
  import opened Bytes

  datatype Watch = Watch(id: nat, eventType: string, contract: string, data: Bytes)

  type Info = Bytes

  /** The callback of a watch on an event log: any predicate. */
  const Matches: (Watch, Info) -> bool

  type Slots = seq<Option<Watch>>

  /** How often `w` is pending. */
  ghost function Live(mem: Slots, w: Watch): nat {
    if mem == [] then 0 else Live(mem[..|mem| - 1], w) + Holds(mem[|mem| - 1], w)
  }

  ghost function Holds(slot: Option<Watch>, w: Watch): nat {
    if slot == Some(w) then 1 else 0
  }

  ghost function Occurs(ws: seq<Watch>, w: Watch): nat {
    if ws == [] then 0 else Occurs(ws[..|ws| - 1], w) + if ws[|ws| - 1] == w then 1 else 0
  }

  lemma {:induction false} LiveUpdate(mem: Slots, i: nat, slot: Option<Watch>, w: Watch)
    requires i < |mem|
    ensures Live(mem[i := slot], w) + Holds(mem[i], w) == Live(mem, w) + Holds(slot, w)
    decreases |mem|
  {
    var n := |mem| - 1;
    if i < n {
      LiveUpdate(mem[..n], i, slot, w);
      assert mem[i := slot][..n] == mem[..n][i := slot];
    } else {
      assert mem[i := slot][..n] == mem[..n];
    }
  }

  lemma {:induction false} LiveIn(mem: Slots, w: Watch)
    ensures Live(mem, w) > 0 <==> Some(w) in mem
  {
    if mem != [] {
      var n := |mem| - 1;
      LiveIn(mem[..n], w);
      assert mem == mem[..n] + [mem[n]];
    }
  }

  /** The first slot whose watch matches. */
  ghost predicate IsFirst(mem: Slots, info: Info, i: nat) {
    && i < |mem| && mem[i].Some? && Matches(mem[i].value, info)
    && forall j :: 0 <= j < i ==> mem[j].None? || !Matches(mem[j].value, info)
  }

  /** Watches that were pending are still in their slots. */
  ghost predicate Kept(was: Slots, mem: Slots) {
    |was| <= |mem| && forall j :: 0 <= j < |was| && was[j].Some? ==> mem[j] == was[j]
  }

  /** Void `i` comes before all others. */
  ghost predicate IsFirstVoid(mem: Slots, i: nat) {
    i < |mem| && mem[i].None? && forall j :: 0 <= j < i ==> mem[j].Some?
  }

  /** The slots after a registration: the first void is filled, or the watch is appended. */
  ghost function AddTo(mem: Slots, w: Watch): Slots {
    if i: nat :| IsFirstVoid(mem, i) then mem[i := Some(w)] else mem + [Some(w)]
  }

  lemma {:induction false} AddKeeps(mem: Slots, r: Watch, w: Watch)
    ensures Live(AddTo(mem, r), w) == Live(mem, w) + Holds(Some(r), w) && Kept(mem, AddTo(mem, r))
  {
    if i: nat :| IsFirstVoid(mem, i) {
      LiveUpdate(mem, i, Some(r), w);
    } else {
      assert (mem + [Some(r)])[..|mem|] == mem;
    }
  }

  /** The slots after any number of registrations, one after another. */
  ghost function AddAllTo(mem: Slots, ws: seq<Watch>): Slots {
    if ws == [] then mem else AddTo(AddAllTo(mem, ws[..|ws| - 1]), ws[|ws| - 1])
  }

  datatype Step = Register(watch: Watch) | Event(info: Info, between: seq<Watch>)

  /** How often the steps register `w`. */
  ghost function Registered(steps: seq<Step>, w: Watch): nat {
    if steps == [] then 0 else Registered(steps[..|steps| - 1], w) + Adds(steps[|steps| - 1], w)
  }

  ghost function Adds(step: Step, w: Watch): nat {
    match step
    case Register(r) => if r == w then 1 else 0
    case Event(_, between) => Occurs(between, w)
  }

  /** An event fires the first pending watch that matches it, if there is one, and clears its slot. */
  ghost predicate Fires(was: Slots, mem: Slots, info: Info, between: seq<Watch>, found: Option<Watch>) {
    if i: nat :| IsFirst(was, info, i) then found == was[i] && Cleared(AddAllTo(was, between), mem, i)
    else found == None && mem == AddAllTo(was, between)
  }

  ghost predicate Cleared(was: Slots, mem: Slots, i: nat) {
    i < |was| && mem == was[i := None]
  }

  ghost predicate Did(was: Slots, mem: Slots, step: Step, found: Option<Watch>) {
    match step
    case Register(w) => found == None && mem == AddTo(was, w)
    case Event(info, between) => Fires(was, mem, info, between, found)
  }

  /** The slots before each step and after the last, and what each step fired. */
  ghost predicate Trace(mems: seq<Slots>, steps: seq<Step>, founds: seq<Option<Watch>>) {
    && |mems| == |steps| + 1 == |founds| + 1
    && forall i :: 0 <= i < |steps| ==> Did(mems[i], mems[i + 1], steps[i], founds[i])
  }

  lemma {:induction false} TraceOne(
    mems: seq<Slots>, steps: seq<Step>, i: nat, founds: seq<Option<Watch>>, mem: Slots, found: Option<Watch>)
    requires i < |steps| && Trace(mems, steps[..i], founds) && Did(mems[i], mem, steps[i], found)
    ensures Trace(mems + [mem], steps[..i + 1], founds + [found])
  {
    var mems', steps', founds' := mems + [mem], steps[..i + 1], founds + [found];
    forall j | 0 <= j < |steps'| ensures Did(mems'[j], mems'[j + 1], steps'[j], founds'[j]) {
      if j < i { assert Did(mems[j], mems[j + 1], steps[..i][j], founds[j]); }
    }
  }

  /** What fired, in order. */
  function Fired(founds: seq<Option<Watch>>): seq<Watch> {
    if founds == [] then []
    else
      var n := |founds| - 1;
      Fired(founds[..n]) + if founds[n].Some? then [founds[n].value] else []
  }

  lemma {:induction false} FirstUnique(mem: Slots, info: Info, i: nat, j: nat)
    requires IsFirst(mem, info, i) && IsFirst(mem, info, j)
    ensures i == j
  {
  }

  class Cache {
    var mem: Slots

    constructor ()
      ensures mem == []
    {
      mem := [];
    }

    /** Fills the first void, or appends. */
    method Add(r: Watch)
      modifies this
      ensures forall w :: Live(mem, w) == Live(old(mem), w) + if w == r then 1 else 0
      ensures Kept(old(mem), mem)
      ensures |mem| == if None in old(mem) then |old(mem)| else |old(mem)| + 1
      ensures mem == AddTo(old(mem), r)
    {
      forall w { AddKeeps(mem, r, w); }
      var i := 0;
      while i < |mem| && mem[i].Some?
        invariant 0 <= i <= |mem| && forall j :: 0 <= j < i ==> mem[j].Some?
      {
        i := i + 1;
      }
      if i < |mem| {
        assert IsFirstVoid(mem, i);
        mem := mem[i := Some(r)];
      } else {
        mem := mem + [Some(r)];
      }
    }

    method Remove(i: nat)
      requires i < |mem|
      modifies this
      ensures mem == old(mem)[i := None]
      ensures forall w :: Live(mem, w) + Holds(old(mem)[i], w) == Live(old(mem), w)
    {
      forall w { LiveUpdate(mem, i, None, w); }
      mem := mem[i := None];
    }

    method Lookup(info: Info) returns (index: int, id: nat)
      ensures index == -1 || (0 <= index && IsFirst(mem, info, index) && id == mem[index].value.id)
      ensures index == -1 <==> forall w :: Live(mem, w) > 0 ==> !Matches(w, info)
      ensures index == -1 ==> id == 0 && forall i: nat :: !IsFirst(mem, info, i)
    {
      index, id := -1, 0;
      var i := 0;
      while i < |mem| && index < 0
        invariant 0 <= i <= |mem|
        invariant index == -1 ==> id == 0 && forall j :: 0 <= j < i ==> mem[j].None? || !Matches(mem[j].value, info)
        invariant index == -1 || (0 <= index && IsFirst(mem, info, index) && id == mem[index].value.id)
      {
        if mem[i].Some? && Matches(mem[i].value, info) {
          index, id := i, mem[i].value.id;
        }
        i := i + 1;
      }
      if index >= 0 {
        LiveIn(mem, mem[index].value);
      } else {
        forall w | Live(mem, w) > 0 ensures !Matches(w, info) { LiveIn(mem, w); }
      }
    }

    method AddAll(ws: seq<Watch>)
      modifies this
      ensures forall w :: Live(mem, w) == Live(old(mem), w) + Occurs(ws, w)
      ensures Kept(old(mem), mem) && mem == AddAllTo(old(mem), ws)
    {
      var i := 0;
      while i < |ws|
        invariant 0 <= i <= |ws|
        invariant forall w :: Live(mem, w) == Live(old(mem), w) + Occurs(ws[..i], w)
        invariant Kept(old(mem), mem) && mem == AddAllTo(old(mem), ws[..i])
      {
        assert ws[..i + 1][..i] == ws[..i];
        Add(ws[i]);
        i := i + 1;
      }
      assert ws[..i] == ws;
    }

    /**
     Looks the event up, lets `between` register, and removes: exactly the watch that was
     found goes, whatever was registered meanwhile stays.
     */
    method Match(info: Info, between: seq<Watch>) returns (pid: Option<nat>, found: Option<Watch>)
      modifies this
      ensures pid.Some? == found.Some? && (found.Some? ==> pid.value == found.value.id && Matches(found.value, info))
      ensures found.Some? <==> exists w :: Live(old(mem), w) > 0 && Matches(w, info)
      ensures found.Some? ==> exists i: nat :: IsFirst(old(mem), info, i) && old(mem)[i] == found
      ensures forall w :: Live(mem, w) + Holds(found, w) == Live(old(mem), w) + Occurs(between, w)
      ensures Fires(old(mem), mem, info, between, found)
    {
      var index, id := Lookup(info);
      AddAll(between);
      if index >= 0 {
        found := mem[index];
        pid := Some(id);
        LiveIn(old(mem), found.value);
        forall j: nat | IsFirst(old(mem), info, j) ensures j == index { FirstUnique(old(mem), info, j, index); }
        Remove(index);
      } else {
        pid, found := None, None;
      }
    }

    method Do(step: Step) returns (found: Option<Watch>)
      modifies this
      ensures forall w :: Live(mem, w) + Holds(found, w) == Live(old(mem), w) + Adds(step, w)
      ensures Did(old(mem), mem, step, found)
    {
      found := None;
      match step
      case Register(w) => Add(w);
      case Event(info, between) => var pid; pid, found := Match(info, between);
    }

    /**
     With one matcher no watch is lost and none fires more often than it was registered. An
     event fires the first pending watch that matches it, and nothing exactly if none does.
     */
    method Serve(steps: seq<Step>) returns (founds: seq<Option<Watch>>, ghost mems: seq<Slots>)
      requires mem == []
      modifies this
      ensures forall w :: Live(mem, w) + Occurs(Fired(founds), w) == Registered(steps, w)
      ensures Trace(mems, steps, founds) && mems[0] == [] && mems[|steps|] == mem
    {
      founds, mems := [], [mem];
      var i := 0;
      while i < |steps|
        invariant 0 <= i <= |steps| && Trace(mems, steps[..i], founds) && mems[0] == [] && mems[i] == mem
        invariant forall w :: Live(mem, w) + Occurs(Fired(founds), w) == Registered(steps[..i], w)
      {
        assert steps[..i + 1][..i] == steps[..i];
        var found := Do(steps[i]);
        TraceOne(mems, steps, i, founds, mem, found);
        FiredOne(founds, found);
        founds, mems := founds + [found], mems + [mem];
        i := i + 1;
      }
      assert steps[..i] == steps;
    }
  }

  lemma {:induction false} FiredOne(founds: seq<Option<Watch>>, found: Option<Watch>)
    ensures forall w :: Occurs(Fired(founds + [found]), w) == Occurs(Fired(founds), w) + Holds(found, w)
  {
    assert (founds + [found])[..|founds|] == founds;
    var fired := Fired(founds);
    if found.Some? {
      assert (fired + [found.value])[..|fired|] == fired;
    } else {
      assert fired + [] == fired;
    }
  }

  /**
   Two matchers that find the same watch: the second removal clears the slot of a watch
   registered in between, which matched nothing.
   */
  method SecondMatcherLoses(w: Watch, other: Watch, info: Info)
    returns (cache: Cache, first: int, second: int, ghost before: Slots)
    requires Matches(w, info) && !Matches(other, info)
    ensures first == second == 0 && before == [Some(other)] && cache.mem == [None]
  {
    cache := new Cache();
    cache.Add(w);
    LiveIn(cache.mem, w);
    var id, id' : nat;
    first, id := cache.Lookup(info);
    second, id' := cache.Lookup(info);
    cache.Remove(first);
    cache.Add(other);
    before := cache.mem;
    cache.Remove(second);
  }
}
