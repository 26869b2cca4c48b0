/**
 The streaming reader: an input with nested read limits, and the operations that read,
 skip or copy one item. What a reader can see is its view; what lies behind the view
 inside each enclosing list is a tail, which no operation on the inner reader touches.
 */
module RlpReader {
  import opened Bytes
  import opened IntConv
  import opened Rlp

  /** How many of `n` unread bytes nested limits let through. */
  function Avail(n: nat, limits: seq<nat>): (a: nat)
    ensures a <= n
  {
    if limits == [] then n
    else
      var a := Avail(n, limits[..|limits| - 1]);
      if a <= limits[|limits| - 1] then a else limits[|limits| - 1]
  }

  /** Reading `k` bytes counts against every limit. */
  function Spend(limits: seq<nat>, k: nat): seq<nat> {
    if limits == [] then []
    else
      var last := limits[|limits| - 1];
      Spend(limits[..|limits| - 1], k) + [if last >= k then last - k else 0]
  }

  function Clip(data: Bytes, limits: seq<nat>): Bytes {
    data[..Avail(|data|, limits)]
  }

  function TailsOf(data: Bytes, limits: seq<nat>): seq<Bytes> {
    if limits == [] then []
    else
      var outer := limits[..|limits| - 1];
      TailsOf(data, outer) + [data[Avail(|data|, limits)..Avail(|data|, outer)]]
  }

  lemma {:induction false} SpendAvail(n: nat, limits: seq<nat>, k: nat)
    requires k <= Avail(n, limits)
    ensures |Spend(limits, k)| == |limits|
    ensures Avail(n - k, Spend(limits, k)) == Avail(n, limits) - k
    decreases |limits|
  {
    if limits != [] {
      SpendAvail(n, limits[..|limits| - 1], k);
      assert Spend(limits, k)[..|limits| - 1] == Spend(limits[..|limits| - 1], k);
    }
  }

  lemma {:induction false} SpendView(data: Bytes, limits: seq<nat>, k: nat)
    requires k <= Avail(|data|, limits)
    ensures Clip(data[k..], Spend(limits, k)) == Clip(data, limits)[k..]
    ensures TailsOf(data[k..], Spend(limits, k)) == TailsOf(data, limits)
  {
    SpendAvail(|data|, limits, k);
    SpendTails(data, limits, k);
  }

  lemma {:induction false} SpendTails(data: Bytes, limits: seq<nat>, k: nat)
    requires k <= Avail(|data|, limits)
    ensures TailsOf(data[k..], Spend(limits, k)) == TailsOf(data, limits)
    decreases |limits|
  {
    if limits != [] {
      var outer := limits[..|limits| - 1];
      SpendAvail(|data|, limits, k);
      SpendAvail(|data|, outer, k);
      SpendTails(data, outer, k);
      assert Spend(limits, k)[..|limits| - 1] == Spend(outer, k);
      SliceBehind(data, k, Avail(|data|, limits), Avail(|data|, outer));
    }
  }

  lemma {:induction false} SliceBehind(data: Bytes, k: nat, a: nat, b: nat)
    requires k <= a <= b <= |data|
    ensures data[k..][a - k..b - k] == data[a..b]
  {
  }

  lemma {:induction false} TailsPrefix(data: Bytes, limits: seq<nat>, n: nat)
    requires n <= |limits|
    ensures |TailsOf(data, limits)| == |limits|
    ensures TailsOf(data, limits[..n]) == TailsOf(data, limits)[..n]
    decreases |limits|
  {
    if n < |limits| {
      TailsPrefix(data, limits[..|limits| - 1], n);
      assert limits[..|limits| - 1][..n] == limits[..n];
    } else {
      assert limits[..n] == limits;
      if limits != [] { TailsPrefix(data, limits[..|limits| - 1], |limits| - 1); }
    }
  }

  class Stream {
    var data: Bytes         // not yet read from the underlying input
    var limits: seq<nat>    // what each nested limit still allows, outermost first

    ghost function View(): Bytes
      reads this
    {
      Clip(data, limits)
    }

    ghost function Tails(): seq<Bytes>
      reads this
    {
      TailsOf(data, limits)
    }

    constructor (input: Bytes)
      ensures View() == input && Tails() == []
    {
      data, limits := input, [];
    }

    /** Reads up to `n` bytes of the view. */
    method Take(n: nat) returns (bs: Bytes, full: bool)
      modifies this
      ensures full == (n <= |old(View())|)
      ensures bs == if full then old(View())[..n] else old(View())
      ensures View() == old(View())[|bs|..] && Tails() == old(Tails())
    {
      var a := Avail(|data|, limits);
      full := n <= a;
      var k := if full then n else a;
      SpendView(data, limits, k);
      bs := data[..k];
      data, limits := data[k..], Spend(limits, k);
    }

    /** Reads exactly `n` bytes, or everything if there are fewer. */
    method ReadAll(n: nat) returns (r: Result<Bytes, ReadError>)
      modifies this
      ensures Tails() == old(Tails())
      ensures if n <= |old(View())| then r == Ok(old(View())[..n]) && View() == old(View())[n..]
              else r == Err(Truncated) && View() == []
    {
      var bs, full := Take(n);
      r := if full then Ok(bs) else Err(Truncated);
    }

    /** The tag byte of the next item. */
    method ReadTag() returns (r: Result<byte, ReadError>)
      modifies this
      ensures Tails() == old(Tails())
      ensures if old(View()) == [] then r == Err(EndOfInput) && View() == []
              else r == Ok(old(View())[0]) && View() == old(View())[1..]
    {
      var bs, full := Take(1);
      r := if full then Ok(bs[0]) else Err(EndOfInput);
    }

    /** Reads a size of `n` bytes, as a signed integer. */
    method ReadSize(n: nat) returns (r: Result<int, ReadError>)
      requires n <= 8
      modifies this
      ensures Tails() == old(Tails())
      ensures if n <= |old(View())| then
                r == Ok(Wrap64(Unsigned(old(View())[..n]))) && View() == old(View())[n..]
              else r == Err(Truncated) && View() == []
    {
      var buffer := ReadAll(n);
      if buffer.Err? { return Err(Truncated); }
      SmallSize(buffer.value);
      var size := BytesToSize(buffer.value);
      r := Ok(Wrap64(size));
    }

    /** Makes a buffer of a given size, which panics if it is negative, and fills it. */
    method ReadBuffer(size: int) returns (r: Result<Bytes, ReadError>)
      modifies this
      ensures Tails() == old(Tails()) && (r, View()) == BufferAt(old(View()), size)
    {
      if size < 0 {
        r := Err(Panics);
      } else {
        r := ReadAll(size);
      }
    }

    /** Reads a size of `sz` bytes and then as many bytes as it says. */
    method ReadSized(sz: nat) returns (r: Result<Bytes, ReadError>)
      requires 1 <= sz <= 8
      modifies this
      ensures Tails() == old(Tails()) && (r, View()) == SizedAt(old(View()), sz)
    {
      var size := ReadSize(sz);
      if size.Err? {
        r := Err(size.error);
      } else {
        r := ReadBuffer(size.value);
      }
    }

    /** Reads a byte-string item; where the reader stands after an error is `BytesAt` too. */
    method ReadBytes() returns (r: Result<Bytes, ReadError>)
      modifies this
      ensures Tails() == old(Tails()) && (r, View()) == BytesAt(old(View()))
      ensures match ReadHead(old(View()))
              case Err(EndOfInput) => r == Err(EndOfInput) && View() == []
              case Err(_) => r in {Err(Truncated), Err(WrongKind)}
              case Ok(Head(KNull, h, _)) => r == Err(NilValue) && View() == old(View())[h..]
              case Ok(Head(KList, _, _)) => r == Err(WrongKind) && View() == BehindTag(old(View()))
              case Ok(Head(KStr, h, n)) =>
                if n >= MAX_SIZE then r == Err(Panics) && View() == old(View())[h..]
                else if h + n <= |old(View())| then
                  r == Ok(old(View())[h..h + n]) && View() == old(View())[h + n..]
                else r == Err(Truncated) && View() == []
    {
      BytesAtHead(View());
      var t := ReadTag();
      if t.Err? {
        r := Err(t.error);
      } else {
        r := ReadTagged(t.value);
      }
    }

    method ReadTagged(tag: byte) returns (r: Result<Bytes, ReadError>)
      modifies this
      ensures Tails() == old(Tails()) && (r, View()) == TaggedAt(tag, old(View()))
    {
      if tag < 0x80 {
        r := Ok([tag]);
      } else if tag <= 0xB7 {
        r := ReadAll(tag - 0x80);
      } else if tag < 0xC0 {
        r := ReadSized(tag - 0xB7);
      } else if tag == 0xF8 {
        var sz2 := ReadSize(1);
        r := Err(if sz2.Err? then sz2.error else if sz2.value == 0 then NilValue else WrongKind);
      } else {
        r := Err(WrongKind);
      }
    }

    /**
     Opens a list item: the view narrows to its content, or to nothing if its size is
     taken as negative. After an error the reader stands where `ListAt` says.
     */
    method ReadList() returns (err: Option<ReadError>)
      modifies this
      ensures ListAt(old(View())).Err? ==>
                && err == Some(ListAt(old(View())).error.0) && View() == ListAt(old(View())).error.1
                && Tails() == old(Tails())
      ensures match ReadHead(old(View()))
              case Err(EndOfInput) => err == Some(EndOfInput) && View() == [] && Tails() == old(Tails())
              case Err(_) => err in {Some(Truncated), Some(WrongKind)} && Tails() == old(Tails())
              case Ok(Head(KNull, h, _)) =>
                err == Some(NilValue) && View() == old(View())[h..] && Tails() == old(Tails())
              case Ok(Head(KStr, _, _)) =>
                err == Some(WrongKind) && View() == old(View())[1..] && Tails() == old(Tails())
              case Ok(Head(KList, h, n)) =>
                && err == None
                && View() == Upto(old(View())[h..], Span(n))
                && Tails() == old(Tails()) + [old(View())[h..][|View()|..]]
    {
      ListAtHead(View());
      var size := ReadListSize();
      if size.Err? {
        err := Some(size.error);
      } else {
        var limit := if size.value < 0 then 0 else size.value;
        PushLimit(data, limits, limit);
        limits := limits + [limit];
        err := None;
      }
    }

    /** Reads the header of a list. */
    method ReadListSize() returns (r: Result<int, ReadError>)
      modifies this
      ensures Tails() == old(Tails())
      ensures match ListAt(old(View()))
              case Err(at) => r == Err(at.0) && View() == at.1
              case Ok(at) => r == Ok(at.0) && View() == at.1
    {
      var t := ReadTag();
      if t.Err? {
        r := Err(t.error);
      } else if t.value < 0xC0 {
        r := Err(WrongKind);
      } else if t.value <= 0xF7 {
        r := Ok(t.value - 0xC0);
      } else {
        r := ReadSize(t.value - 0xF7);
        if r == Ok(0) && t.value == 0xF8 { r := Err(NilValue); }
      }
    }

    /** Drains the innermost list and returns to the list around it, right behind it. */
    method CloseList()
      requires Tails() != []
      modifies this
      ensures View() == old(Tails())[|old(Tails())| - 1]
      ensures Tails() == old(Tails())[..|old(Tails())| - 1]
    {
      var a := Avail(|data|, limits);
      var _, _ := Take(a);
      limits := limits[..|limits| - 1];
    }

    /** Drains the list that is open at a level, with all that is open inside it, and leaves it. */
    method CloseTo(level: nat)
      requires level < |Tails()|
      modifies this
      ensures View() == old(Tails())[level] && Tails() == old(Tails())[..level]
    {
      TailsPrefix(data, limits, 0);
      TailsPrefix(data, limits, level + 1);
      limits := limits[..level + 1];
      CloseList();
      assert old(Tails())[..level + 1][..level] == old(Tails())[..level];
    }

    /** Discards `n` bytes, or none if there are to be fewer than that. */
    method SkipN(n: int) returns (err: Option<ReadError>)
      modifies this
      ensures Tails() == old(Tails()) && (err, View()) == DiscardAt(old(View()), n)
    {
      if n < 0 {
        err := None;
      } else {
        var _, full := Take(n);
        err := if full then None else Some(Truncated);
      }
    }

    method SkipSized(sz: nat) returns (err: Option<ReadError>)
      requires 1 <= sz <= 8
      modifies this
      ensures Tails() == old(Tails()) && (err, View()) == DiscardSizedAt(old(View()), sz)
    {
      var sz2 := ReadSize(sz);
      if sz2.Err? {
        err := Some(sz2.error);
      } else {
        err := SkipN(sz2.value);
      }
    }

    /** Discards one item; of one whose size is taken as negative only the header. */
    method SkipOne() returns (err: Option<ReadError>)
      modifies this
      ensures Tails() == old(Tails()) && (err, View()) == Skipped(old(View()))
    {
      SkipHead(View());
      var t := ReadTag();
      if t.Err? {
        err := Some(t.error);
      } else {
        err := SkipMore(t.value);
      }
    }

    /** Discards what follows the tag of an item. */
    method SkipMore(tag: byte) returns (err: Option<ReadError>)
      modifies this
      ensures Tails() == old(Tails()) && (err, View()) == SkipTaggedAt(tag, old(View()))
    {
      if tag < 0x80 {
        err := None;
      } else if tag <= 0xB7 {
        err := SkipN(tag - 0x80);
      } else if tag < 0xC0 {
        err := SkipSized(tag - 0xB7);
      } else if tag <= 0xF7 {
        err := SkipN(tag - 0xC0);
      } else {
        err := SkipSized(tag - 0xF7);
      }
    }

    /**
     Copies `org` and `size` more bytes into one buffer. Its length is computed in 64 bits:
     the buffer cannot be made, or is too short for `org`, if that is no size.
     */
    method ReadMore(org: Bytes, size: int) returns (r: Result<Bytes, ReadError>)
      requires |org| <= 9 && -MAX_SIZE <= size < MAX_SIZE
      modifies this
      ensures Tails() == old(Tails()) && (r, View()) == MoreAt(org, old(View()), size)
    {
      var length := Wrap64(|org| + size);
      BufferLength(|org|, size);
      if length < |org| {
        r := Err(Panics);
      } else {
        r := ReadAll(size);
        if r.Ok? { r := Ok(org + r.value); }
      }
    }

    method ReadMoreSized(tag: byte, sz: nat) returns (r: Result<Bytes, ReadError>)
      requires 1 <= sz <= 8
      modifies this
      ensures Tails() == old(Tails()) && (r, View()) == MoreSizedAt(tag, old(View()), sz)
    {
      var header := ReadAll(sz);
      if header.Err? {
        r := Err(Truncated);
      } else {
        SmallSize(header.value);
        var size := BytesToSize(header.value);
        r := ReadMore([tag] + header.value, Wrap64(size));
      }
    }

    /** Copies one item, framing included. */
    method ReadRaw() returns (r: Result<Bytes, ReadError>)
      modifies this
      ensures Tails() == old(Tails()) && (r, View()) == Copied(old(View()))
    {
      CopyHead(View());
      var t := ReadTag();
      if t.Err? {
        r := Err(t.error);
      } else {
        r := ReadRawTagged(t.value);
      }
    }

    method ReadRawTagged(tag: byte) returns (r: Result<Bytes, ReadError>)
      modifies this
      ensures Tails() == old(Tails()) && (r, View()) == CopyTaggedAt(tag, old(View()))
    {
      if tag < 0x80 {
        r := Ok([tag]);
      } else if tag <= 0xB7 {
        r := ReadMore([tag], tag - 0x80);
      } else if tag < 0xC0 {
        r := ReadMoreSized(tag, tag - 0xB7);
      } else if tag <= 0xF7 {
        r := ReadMore([tag], tag - 0xC0);
      } else {
        r := ReadMoreSized(tag, tag - 0xF7);
      }
    }
  }

  /** The length that a declared size amounts to: none if it is negative as a signed integer. */
  function Span(size: nat): nat {
    if size < MAX_SIZE then size else 0
  }

  lemma {:induction false} SizeSpan(bs: Bytes)
    requires |bs| <= 8
    ensures var size := Wrap64(Unsigned(bs));
            && -MAX_SIZE <= size < MAX_SIZE && (size < 0 <==> Unsigned(bs) >= MAX_SIZE)
            && (Unsigned(bs) < MAX_SIZE ==> size == Unsigned(bs))
            && (if size < 0 then 0 else size) == Span(Unsigned(bs))
  {
    UnsignedBound(bs);
    Pow256Mono(|bs|, 8);
    Pow256Eight();
    if Unsigned(bs) < MAX_SIZE {
      WrapUnique(Unsigned(bs), 0, Unsigned(bs));
    } else {
      WrapUnique(Unsigned(bs), 1, Unsigned(bs) - TWO64);
    }
  }

  lemma {:induction false} BufferLength(front: nat, size: int)
    requires front <= 9 && -MAX_SIZE <= size < MAX_SIZE
    ensures Wrap64(front + size) < front <==> size < 0 || front + size >= MAX_SIZE
  {
    if front + size < MAX_SIZE {
      WrapUnique(front + size, 0, front + size);
    } else {
      WrapUnique(front + size, 1, front + size - TWO64);
    }
  }

  /** `n` bytes and the rest; all of it is used up if there are fewer. */
  function TakeAt(view: Bytes, n: nat): (Result<Bytes, ReadError>, Bytes) {
    if n <= |view| then (Ok(view[..n]), view[n..]) else (Err(Truncated), [])
  }

  /** A buffer of a signed size, filled. */
  function BufferAt(view: Bytes, size: int): (Result<Bytes, ReadError>, Bytes) {
    if size < 0 then (Err(Panics), view) else TakeAt(view, size)
  }

  /** A size of `sz` bytes, then as many bytes as it says, and the rest. */
  function SizedAt(view: Bytes, sz: nat): (Result<Bytes, ReadError>, Bytes) {
    if sz <= |view| then BufferAt(view[sz..], Wrap64(Unsigned(view[..sz]))) else (Err(Truncated), [])
  }

  /** A byte string behind its tag, or the error and where it leaves the reader. */
  function TaggedAt(tag: byte, view: Bytes): (Result<Bytes, ReadError>, Bytes) {
    if tag < 0x80 then (Ok([tag]), view)
    else if tag <= 0xB7 then TakeAt(view, tag - 0x80)
    else if tag < 0xC0 then SizedAt(view, tag - 0xB7)
    else if tag == 0xF8 then
      if view == [] then (Err(Truncated), [])
      else (Err(if Unsigned(view[..1]) == 0 then NilValue else WrongKind), view[1..])
    else (Err(WrongKind), view)
  }

  function BytesAt(view: Bytes): (Result<Bytes, ReadError>, Bytes) {
    if view == [] then (Err(EndOfInput), []) else TaggedAt(view[0], view[1..])
  }

  /** Where the reader of a byte string gives up on a list: behind its tag, and behind the size byte after F8. */
  function BehindTag(view: Bytes): Bytes
    requires view != []
  {
    if view[0] == 0xF8 && |view| > 1 then view[2..] else view[1..]
  }

  lemma {:induction false} BytesAtHead(view: Bytes)
    ensures match ReadHead(view)
            case Err(EndOfInput) => BytesAt(view) == (Err(EndOfInput), [])
            case Err(_) => BytesAt(view).0 in {Err(Truncated), Err(WrongKind)}
            case Ok(Head(KNull, h, _)) => BytesAt(view) == (Err(NilValue), view[h..])
            case Ok(Head(KList, _, _)) => BytesAt(view) == (Err(WrongKind), BehindTag(view))
            case Ok(Head(KStr, h, n)) => BytesAt(view) == ContentAt(view, h, n)
  {
    if view != [] {
      var tag := view[0];
      if tag < 0x80 {
        assert view[0..1] == [tag];
      } else if tag <= 0xB7 {
        Slices(view, 1, tag - 0x80);
      } else if tag < 0xC0 {
        SizedAtHead(view, tag - 0xB7);
      } else if tag == 0xF8 {
        LongHeadSized(KList, view, 1);
      }
    }
  }

  /** The content behind a header, if its size is one. */
  function ContentAt(view: Bytes, h: nat, n: nat): (Result<Bytes, ReadError>, Bytes)
    requires h <= |view|
  {
    if n >= MAX_SIZE then (Err(Panics), view[h..])
    else if h + n <= |view| then (Ok(view[h..h + n]), view[h + n..])
    else (Err(Truncated), [])
  }

  lemma {:induction false} SizedAtHead(view: Bytes, sz: nat)
    requires view != [] && 1 <= sz <= 8
    ensures match LongHead(KStr, view, sz)
            case Err(_) => SizedAt(view[1..], sz) == (Err(Truncated), [])
            case Ok(Head(_, h, n)) => SizedAt(view[1..], sz) == ContentAt(view, h, n)
  {
    LongHeadSized(KStr, view, sz);
    var head := LongHead(KStr, view, sz);
    if head.Ok? {
      SizeSpan(view[1..][..sz]);
      Slices(view, 1 + sz, head.value.size);
    }
  }

  /** The size of a list and what is behind its header, or the error and where it leaves the reader. */
  function ListAt(view: Bytes): Result<(int, Bytes), (ReadError, Bytes)> {
    if view == [] then Err((EndOfInput, []))
    else
      var tag, rest := view[0], view[1..];
      if tag < 0xC0 then Err((WrongKind, rest))
      else if tag <= 0xF7 then Ok((tag - 0xC0, rest))
      else
        var sz := tag - 0xF7;
        if sz > |rest| then Err((Truncated, []))
        else if sz == 1 && Unsigned(rest[..1]) == 0 then Err((NilValue, rest[1..]))
        else Ok((Wrap64(Unsigned(rest[..sz])), rest[sz..]))
  }

  lemma {:induction false} ListAtHead(view: Bytes)
    ensures match ReadHead(view)
            case Err(EndOfInput) => ListAt(view) == Err((EndOfInput, []))
            case Err(_) => ListAt(view).Err? && ListAt(view).error.0 in {Truncated, WrongKind}
            case Ok(Head(KNull, h, _)) => ListAt(view) == Err((NilValue, view[h..]))
            case Ok(Head(KStr, _, _)) => ListAt(view) == Err((WrongKind, view[1..]))
            case Ok(Head(KList, h, n)) =>
              ListAt(view).Ok? && ListAt(view).value.1 == view[h..]
              && Span(n) == if ListAt(view).value.0 < 0 then 0 else ListAt(view).value.0
  {
    if view != [] && view[0] > 0xF7 {
      var sz := view[0] - 0xF7;
      LongHeadSized(KList, view, sz);
      if sz < |view| { SizeSpan(view[1..][..sz]); }
    }
  }

  // ---- skipping and copying

  /** The length of the first item as the reader takes it, framing included, if all of it is there. */
  function WholeItem(view: Bytes): (r: Result<nat, ReadError>)
    ensures r.Ok? ==> r.value <= |view|
  {
    match ReadHead(view)
    case Err(e) => Err(e)
    case Ok(Head(_, h, n)) => if h + Span(n) <= |view| then Ok(h + Span(n)) else Err(Truncated)
  }

  /** What skipping an item reports and leaves. */
  function Skipped(view: Bytes): (Option<ReadError>, Bytes) {
    match WholeItem(view)
    case Ok(n) => (None, view[n..])
    case Err(e) => (Some(e), [])
  }

  /** The first item announces more bytes, framing included, than a buffer can hold. */
  predicate TooLong(view: Bytes) {
    match ReadHead(view)
    case Ok(Head(_, h, n)) => h + n >= MAX_SIZE
    case Err(_) => false
  }

  /** What copying an item returns and leaves. */
  function Copied(view: Bytes): (Result<Bytes, ReadError>, Bytes) {
    if TooLong(view) then (Err(Panics), view[ReadHead(view).value.header..])
    else
      match WholeItem(view)
      case Ok(n) => (Ok(view[..n]), view[n..])
      case Err(e) => (Err(e), [])
  }

  /**
   Copying returns exactly the bytes that skipping consumes, with the same errors, if and
   only if the item's length, framing included, is below 2^63.
   */
  lemma {:induction false} CopiesWhatIsSkipped(view: Bytes)
    ensures !TooLong(view) <==>
              && Copied(view).1 == Skipped(view).1
              && match Copied(view).0
                 case Ok(bs) => Skipped(view).0 == None && bs + Skipped(view).1 == view
                 case Err(e) => Skipped(view).0 == Some(e)
  {
    if WholeItem(view).Ok? { assert view[..WholeItem(view).value] + view[WholeItem(view).value..] == view; }
  }

  function DiscardAt(view: Bytes, n: int): (Option<ReadError>, Bytes) {
    if n < 0 then (None, view) else if n <= |view| then (None, view[n..]) else (Some(Truncated), [])
  }

  function DiscardSizedAt(view: Bytes, sz: nat): (Option<ReadError>, Bytes) {
    if sz <= |view| then DiscardAt(view[sz..], Wrap64(Unsigned(view[..sz]))) else (Some(Truncated), [])
  }

  /** Skipping what follows the tag of an item. */
  function SkipTaggedAt(tag: byte, rest: Bytes): (Option<ReadError>, Bytes) {
    if tag < 0x80 then (None, rest)
    else if tag <= 0xB7 then DiscardAt(rest, tag - 0x80)
    else if tag < 0xC0 then DiscardSizedAt(rest, tag - 0xB7)
    else if tag <= 0xF7 then DiscardAt(rest, tag - 0xC0)
    else DiscardSizedAt(rest, tag - 0xF7)
  }

  lemma {:induction false} SkipHead(view: Bytes)
    ensures view != [] ==> SkipTaggedAt(view[0], view[1..]) == Skipped(view)
  {
    if view != [] {
      var tag := view[0];
      if 0xB7 < tag < 0xC0 {
        SkipSizedHead(KStr, view, tag - 0xB7);
      } else if 0xF7 < tag {
        SkipSizedHead(KList, view, tag - 0xF7);
      } else if 0x80 <= tag {
        Slices(view, 1, if tag < 0xC0 then tag - 0x80 else tag - 0xC0);
      }
    }
  }

  lemma {:induction false} SkipSizedHead(kind: Kind, view: Bytes, sz: nat)
    requires view != [] && 1 <= sz <= 8
    ensures match LongHead(kind, view, sz)
            case Err(e) => e == Truncated && DiscardSizedAt(view[1..], sz) == (Some(Truncated), [])
            case Ok(Head(_, h, n)) =>
              DiscardSizedAt(view[1..], sz) ==
              if h + Span(n) <= |view| then (None, view[h + Span(n)..]) else (Some(Truncated), [])
  {
    LongHeadSized(kind, view, sz);
    var head := LongHead(kind, view, sz);
    if head.Ok? {
      SizeSpan(view[1..][..sz]);
      Slices(view, 1 + sz, Span(head.value.size));
    }
  }

  /** `org` and `size` more bytes in one buffer. */
  function MoreAt(org: Bytes, view: Bytes, size: int): (Result<Bytes, ReadError>, Bytes) {
    if size < 0 || |org| + size >= MAX_SIZE then (Err(Panics), view)
    else if size <= |view| then (Ok(org + view[..size]), view[size..])
    else (Err(Truncated), [])
  }

  function MoreSizedAt(tag: byte, view: Bytes, sz: nat): (Result<Bytes, ReadError>, Bytes) {
    if sz <= |view| then MoreAt([tag] + view[..sz], view[sz..], Wrap64(Unsigned(view[..sz])))
    else (Err(Truncated), [])
  }

  /** Copying an item whose tag is read. */
  function CopyTaggedAt(tag: byte, rest: Bytes): (Result<Bytes, ReadError>, Bytes) {
    if tag < 0x80 then (Ok([tag]), rest)
    else if tag <= 0xB7 then MoreAt([tag], rest, tag - 0x80)
    else if tag < 0xC0 then MoreSizedAt(tag, rest, tag - 0xB7)
    else if tag <= 0xF7 then MoreAt([tag], rest, tag - 0xC0)
    else MoreSizedAt(tag, rest, tag - 0xF7)
  }

  lemma {:induction false} CopyHead(view: Bytes)
    ensures view != [] ==> CopyTaggedAt(view[0], view[1..]) == Copied(view)
  {
    if view != [] {
      var tag := view[0];
      assert view[..1] == [tag];
      if 0xB7 < tag < 0xC0 {
        CopySizedHead(KStr, view, tag - 0xB7);
      } else if 0xF7 < tag {
        CopySizedHead(KList, view, tag - 0xF7);
      } else if 0x80 <= tag {
        Slices(view, 1, if tag < 0xC0 then tag - 0x80 else tag - 0xC0);
      }
    }
  }

  lemma {:induction false} CopySizedHead(kind: Kind, view: Bytes, sz: nat)
    requires view != [] && 1 <= sz <= 8
    ensures match LongHead(kind, view, sz)
            case Err(e) => e == Truncated && MoreSizedAt(view[0], view[1..], sz) == (Err(Truncated), [])
            case Ok(Head(_, h, n)) =>
              MoreSizedAt(view[0], view[1..], sz) ==
              if h + n >= MAX_SIZE then (Err(Panics), view[h..])
              else if h + n <= |view| then (Ok(view[..h + n]), view[h + n..])
              else (Err(Truncated), [])
  {
    LongHeadSized(kind, view, sz);
    var head := LongHead(kind, view, sz);
    if head.Ok? {
      SizeSpan(view[1..][..sz]);
      assert [view[0]] + view[1..][..sz] == view[..1 + sz];
      Slices(view, 1 + sz, head.value.size);
    }
  }

  /** A byte string and a list that declare 2^63 bytes, with nothing behind the header. */
  const HUGE_BYTES: Bytes := [0xBF, 0x80, 0, 0, 0, 0, 0, 0, 0]
  const HUGE_LIST: Bytes := [0xFF, 0x80, 0, 0, 0, 0, 0, 0, 0]

  /** Such a byte string is skipped as if it were empty, and panics when it is read or copied. */
  lemma {:induction false} HugeBytes(rest: Bytes)
    ensures Skipped(HUGE_BYTES + rest) == (None, rest)
    ensures BytesAt(HUGE_BYTES + rest) == (Err(Panics), rest) == Copied(HUGE_BYTES + rest)
  {
    HugeHead(0xBF, rest);
    BytesAtHead(HUGE_BYTES + rest);
  }

  /** Such a list reads as an empty one, and what follows the header is taken to follow the list. */
  lemma {:induction false} HugeList(rest: Bytes)
    ensures Skipped(HUGE_LIST + rest) == (None, rest) && Copied(HUGE_LIST + rest) == (Err(Panics), rest)
    ensures ListAt(HUGE_LIST + rest) == Ok((-MAX_SIZE, rest))
  {
    HugeHead(0xFF, rest);
    var view := HUGE_LIST + rest;
    assert view[1..][..8] == HUGE_LIST[1..];
    WrapUnique(MAX_SIZE, 1, -MAX_SIZE);
    ListAtHead(view);
  }

  lemma {:induction false} HugeHead(tag: byte, rest: Bytes)
    requires tag == 0xBF || tag == 0xFF
    ensures var view := [tag, 0x80, 0, 0, 0, 0, 0, 0, 0] + rest;
            && ReadHead(view) == Ok(Head(if tag == 0xBF then KStr else KList, 9, MAX_SIZE))
            && Unsigned([0x80, 0, 0, 0, 0, 0, 0, 0]) == MAX_SIZE && view[9..] == rest
  {
    var view := [tag, 0x80, 0, 0, 0, 0, 0, 0, 0] + rest;
    assert view[1..9] == [0x80, 0, 0, 0, 0, 0, 0, 0];
    HugeSize();
  }

  lemma {:induction false} HugeSize()
    ensures Unsigned([0x80, 0, 0, 0, 0, 0, 0, 0]) == MAX_SIZE
  {
    assert [0x80 as byte, 0, 0, 0, 0, 0, 0, 0][..7] == [0x80, 0, 0, 0, 0, 0, 0];
    assert [0x80 as byte, 0, 0, 0, 0, 0, 0][..6] == [0x80, 0, 0, 0, 0, 0];
    assert [0x80 as byte, 0, 0, 0, 0, 0][..5] == [0x80, 0, 0, 0, 0];
    assert [0x80 as byte, 0, 0, 0, 0][..4] == [0x80, 0, 0, 0];
    assert [0x80 as byte, 0, 0, 0][..3] == [0x80, 0, 0];
    assert [0x80 as byte, 0, 0][..2] == [0x80, 0];
    assert [0x80 as byte, 0][..1] == [0x80];
    assert [0x80 as byte][..0] == [];
  }

  lemma {:induction false} Slices(bs: Bytes, a: nat, n: nat)
    requires a <= |bs|
    ensures a + n <= |bs| ==>
              && bs[a..][..n] == bs[a..a + n] && bs[a..][n..] == bs[a + n..]
              && bs[..a] + bs[a..][..n] == bs[..a + n]
  {
  }

  /** At most `n` bytes. */
  function Upto(bs: Bytes, n: nat): Bytes {
    if n <= |bs| then bs[..n] else bs
  }

  lemma {:induction false} PushLimit(data: Bytes, limits: seq<nat>, n: nat)
    ensures Clip(data, limits + [n]) == Upto(Clip(data, limits), n)
    ensures TailsOf(data, limits + [n]) ==
            TailsOf(data, limits) + [Clip(data, limits)[|Clip(data, limits + [n])|..]]
  {
    assert (limits + [n])[..|limits|] == limits;
  }

  /** A long header seen from behind its tag byte. */
  lemma {:induction false} LongHeadSized(kind: Kind, view: Bytes, sz: nat)
    requires view != [] && sz >= 1
    ensures LongHead(kind, view, sz).Ok? <==> sz <= |view[1..]|
    ensures LongHead(kind, view, sz).Ok? ==>
              && LongHead(kind, view, sz).value.size == Unsigned(view[1..][..sz])
              && view[1..][..sz] == view[1..1 + sz]
              && view[1..][sz..] == view[1 + sz..]
  {
    if sz <= |view[1..]| { assert view[1..1 + sz] == view[1..][..sz]; }
  }

  lemma {:induction false} SmallSize(bs: Bytes)
    requires |bs| <= 8
    ensures Unsigned(bs) % TWO64 == Unsigned(bs)
  {
    UnsignedBound(bs);
    Pow256Mono(|bs|, 8);
    Pow256Eight();
    ModUnique(Unsigned(bs), 0, Unsigned(bs));
  }

  lemma {:induction false} Pow256Mono(a: nat, b: nat)
    requires a <= b
    ensures Pow256(a) <= Pow256(b)
    decreases b
  {
    if a < b { Pow256Mono(a, b - 1); }
  }

}
