/**
 Decoders for lists inside lists. Each is the level of an open list; a decoder closes the
 list that it has left open, with all that is open inside it, before its next read.
 */
module DecoderHandles {
  import opened Bytes
  import opened Rlp
  import opened RlpReader
  import opened CodecValue
  import opened CodecTyped
  import opened Decoder

  /** Where the decoder of a level reads next: right behind the list it has left open, if there is one. */
  ghost function Resume(p: Place, level: nat): Place
    requires level <= |p.tails|
  {
    if level == |p.tails| then p else Place(p.tails[level], p.tails[..level])
  }

  method Flush(st: Stream, level: nat)
    requires level <= |st.Tails()|
    modifies st
    ensures PlaceOf(st) == Resume(old(PlaceOf(st)), level)
  {
    TailsPrefix(st.data, st.limits, 0);
    if level < |st.limits| { st.CloseTo(level); }
  }

  method Decode(st: Stream, level: nat, s: Schema) returns (r: Result<Value, ReadError>)
    requires level <= |st.Tails()|
    modifies st
    ensures var from := Resume(old(PlaceOf(st)), level);
            && Reads(from, PlaceOf(st), r) && (r.Ok? ==> HasType(r.value, s))
            && (Parse(from.view).Some? ==> r == FromItem(s, Parse(from.view).value.0))
            && (r.Err? && WantsList(s) && OpensList(from.view) ==> level < |st.Tails()|)
  {
    Flush(st, level);
    r := DecodeValue(st, s);
  }

  method DecodeBytes(st: Stream, level: nat) returns (r: Result<Bytes, ReadError>)
    requires level <= |st.Tails()|
    modifies st
    ensures var from := Resume(old(PlaceOf(st)), level);
            && Reads(from, PlaceOf(st), r)
            && (Parse(from.view).Some? ==> r == Content(Parse(from.view).value.0))
  {
    Flush(st, level);
    r := ReadContent(st);
  }

  /** Opens the next list; its decoder is the one of the next level. */
  method DecodeList(st: Stream, level: nat) returns (err: Option<ReadError>)
    requires level <= |st.Tails()|
    modifies st
    ensures var from := Resume(old(PlaceOf(st)), level);
            && (err == None <==> OpensList(from.view))
            && st.Tails() == from.tails + if err == None then [After(from.view)] else []
  {
    Flush(st, level);
    err := OpenList(st);
  }

  /** After an error in a list that was opened for it, the next read starts exactly behind that list. */
  lemma {:induction false} ResumesBehind(from: Place, to: Place)
    requires StuckIn(from, to)
    ensures from.tails < to.tails ==> Resume(to, |from.tails|) == Place(After(from.view), from.tails)
  {
  }

  /** A failed read of a value that is kept in a list, and another read: it starts exactly behind that list. */
  method DecodeAgain(st: Stream, level: nat, s: Schema, next: Schema)
    returns (first: Result<Value, ReadError>, second: Result<Value, ReadError>)
    requires level <= |st.Tails()|
    modifies st
    ensures var from := Resume(old(PlaceOf(st)), level);
            WantsList(s) && OpensList(from.view) ==>
              && Reads(Place(After(from.view), from.tails), PlaceOf(st), second)
              && (Parse(After(from.view)).Some? ==> second == FromItem(next, Parse(After(from.view)).value.0))
  {
    ghost var from := Resume(PlaceOf(st), level);
    first := Decode(st, level, s);
    if first.Err? { ResumesBehind(from, PlaceOf(st)); }
    second := Decode(st, level, next);
  }

  datatype Op = GetValue(s: Schema) | GetBytes | GetList

  /** An operation on the decoder of a level. */
  datatype Step = Step(level: nat, op: Op)

  datatype Outcome =
    | GotValue(value: Result<Value, ReadError>)
    | GotBytes(bytes: Result<Bytes, ReadError>)
    | GotList(err: Option<ReadError>)

  /** What an operation does from the place where its decoder resumes. */
  ghost predicate Does(from: Place, to: Place, op: Op, o: Outcome) {
    match op
    case GetValue(s) =>
      && o.GotValue? && Reads(from, to, o.value)
      && (Parse(from.view).Some? ==> o.value == FromItem(s, Parse(from.view).value.0))
    case GetBytes =>
      && o.GotBytes? && Reads(from, to, o.bytes)
      && (Parse(from.view).Some? ==> o.bytes == Content(Parse(from.view).value.0))
    case GetList =>
      && o.GotList? && (o.err == None <==> OpensList(from.view))
      && to.tails == from.tails + if o.err == None then [After(from.view)] else []
  }

  method Perform(st: Stream, step: Step) returns (o: Outcome)
    requires step.level <= |st.Tails()|
    modifies st
    ensures Does(Resume(old(PlaceOf(st)), step.level), PlaceOf(st), step.op, o)
    ensures old(st.Tails())[..step.level] <= st.Tails()
  {
    match step.op
    case GetValue(s) =>
      var r := Decode(st, step.level, s);
      o := GotValue(r);
    case GetBytes =>
      var r := DecodeBytes(st, step.level);
      o := GotBytes(r);
    case GetList =>
      var err := DecodeList(st, step.level);
      o := GotList(err);
  }

  /** Where the reader stood before each step and after the last, if decoders inside `level` made the steps. */
  ghost predicate Trace(places: seq<Place>, level: nat, steps: seq<Step>, outcomes: seq<Option<Outcome>>) {
    && |places| == |steps| + 1 == |outcomes| + 1
    && forall i :: 0 <= i < |steps| ==> Traced(places[i], places[i + 1], level, steps[i], outcomes[i])
  }

  /** A decoder whose list is not open any more does nothing. */
  ghost predicate Traced(from: Place, to: Place, level: nat, step: Step, o: Option<Outcome>) {
    if level < step.level <= |from.tails| then o.Some? && Does(Resume(from, step.level), to, step.op, o.value)
    else o.None? && to == from
  }

  /** Any operations on decoders of open lists inside a level, failing or not. */
  method PerformInside(st: Stream, level: nat, steps: seq<Step>)
    returns (outcomes: seq<Option<Outcome>>, ghost places: seq<Place>)
    requires level < |st.Tails()|
    modifies st
    ensures level < |st.Tails()| && st.Tails()[..level + 1] == old(st.Tails())[..level + 1]
    ensures Trace(places, level, steps, outcomes)
    ensures places[0] == old(PlaceOf(st)) && places[|steps|] == PlaceOf(st)
  {
    outcomes, places := [], [PlaceOf(st)];
    for i := 0 to |steps|
      invariant level < |st.Tails()| && st.Tails()[..level + 1] == old(st.Tails())[..level + 1]
      invariant Trace(places, level, steps[..i], outcomes)
      invariant places[0] == old(PlaceOf(st)) && places[i] == PlaceOf(st)
    {
      var o := PerformIfOpen(st, level, steps[i]);
      TraceOne(places, level, steps, i, outcomes, PlaceOf(st), o);
      outcomes, places := outcomes + [o], places + [PlaceOf(st)];
    }
    assert steps[..|steps|] == steps;
  }

  method PerformIfOpen(st: Stream, level: nat, step: Step) returns (o: Option<Outcome>)
    requires level < |st.Tails()|
    modifies st
    ensures Traced(old(PlaceOf(st)), PlaceOf(st), level, step, o)
    ensures level < |st.Tails()| && st.Tails()[..level + 1] == old(st.Tails())[..level + 1]
  {
    o := None;
    TailsPrefix(st.data, st.limits, 0);
    if level < step.level <= |st.limits| {
      ghost var before := st.Tails();
      var done := Perform(st, step);
      o := Some(done);
      assert st.Tails()[..level + 1] == before[..level + 1];
    }
  }

  lemma {:induction false} TraceOne(
    places: seq<Place>, level: nat, steps: seq<Step>, i: nat, outcomes: seq<Option<Outcome>>, to: Place,
    o: Option<Outcome>)
    requires i < |steps| && Trace(places, level, steps[..i], outcomes) && Traced(places[i], to, level, steps[i], o)
    ensures Trace(places + [to], level, steps[..i + 1], outcomes + [o])
  {
    var places', steps', outcomes' := places + [to], steps[..i + 1], outcomes + [o];
    forall j | 0 <= j < |steps'| ensures Traced(places'[j], places'[j + 1], level, steps'[j], outcomes'[j]) {
      if j < i { assert Traced(places[j], places[j + 1], level, steps[..i][j], outcomes[j]); }
    }
  }

  /**
   A list opened and read in any way, to the end or not, with errors or without: the next
   read on the decoder around it starts exactly behind the list.
   */
  method DecodeBehindList(st: Stream, level: nat, steps: seq<Step>, s: Schema)
    returns (err: Option<ReadError>, outcomes: seq<Option<Outcome>>, r: Result<Value, ReadError>,
             ghost places: seq<Place>)
    requires level <= |st.Tails()|
    modifies st
    ensures var from := Resume(old(PlaceOf(st)), level);
            && (err == None <==> OpensList(from.view))
            && (err == None ==>
                  && Trace(places, level, steps, outcomes) && places[0].tails == from.tails + [After(from.view)]
                  && Reads(Place(After(from.view), from.tails), PlaceOf(st), r)
                  && (Parse(After(from.view)).Some? ==> r == FromItem(s, Parse(After(from.view)).value.0)))
  {
    ghost var from := Resume(PlaceOf(st), level);
    err := DecodeList(st, level);
    outcomes, places, r := [], [], Err(EndOfInput);
    if err == None {
      ghost var tails := st.Tails();
      outcomes, places := PerformInside(st, level, steps);
      assert tails[..level + 1] == tails && tails[..level] == from.tails;
      assert st.Tails()[level] == st.Tails()[..level + 1][level] == tails[level];
      assert st.Tails()[..level] == st.Tails()[..level + 1][..level] == from.tails;
      r := Decode(st, level, s);
    }
  }

}
