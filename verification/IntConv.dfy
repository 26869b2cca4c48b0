/**
 Integers as big-endian byte strings: the shortest two's-complement form for values,
 the shortest unsigned form for sizes, and the 64-bit loops that must agree with the
 arbitrary-precision versions.
 */
module IntConv {
  import opened Bytes
  import opened BitOps

  function Pow256(n: nat): (p: nat)
    ensures p >= 1
  {
    if n == 0 then 1 else 256 * Pow256(n - 1)
  }

  function Unsigned(bs: Bytes): nat {
    if bs == [] then 0 else 256 * Unsigned(bs[..|bs| - 1]) + bs[|bs| - 1]
  }

  predicate Negative(bs: Bytes) {
    bs != [] && bs[0] >= 0x80
  }

  /** The two's-complement value of a byte string. */
  function Signed(bs: Bytes): int {
    Unsigned(bs) - if Negative(bs) then Pow256(|bs|) else 0
  }

  /** The leading byte is needed: it is not a mere copy of the sign. */
  predicate Minimal(bs: Bytes) {
    && bs != []
    && (|bs| >= 2 ==> !(bs[0] == 0 && bs[1] < 0x80) && !(bs[0] == 0xff && bs[1] >= 0x80))
  }

  /** The shortest two's-complement form of `v`. */
  function SignedBytes(v: int): (bs: Bytes)
    ensures bs != []
    decreases if v < 0 then -v else v
  {
    if -0x80 <= v < 0x80 then [v % 256] else SignedBytes(v / 256) + [v % 256]
  }

  /** The shortest unsigned form of `n`; zero has no bytes. */
  function UnsignedBytes(n: nat): Bytes {
    if n == 0 then [] else UnsignedBytes(n / 256) + [n % 256]
  }

  function SizeBytes(n: nat): Bytes {
    if n == 0 then [0] else UnsignedBytes(n)
  }

  lemma {:induction false} UnsignedBound(bs: Bytes)
    ensures Unsigned(bs) < Pow256(|bs|)
    ensures bs != [] ==> bs[0] <= Unsigned(bs)
  {
    if |bs| > 0 { UnsignedBound(bs[..|bs| - 1]); }
  }

  lemma {:induction false} SignedStep(bs: Bytes)
    requires |bs| >= 2
    ensures Signed(bs) == 256 * Signed(bs[..|bs| - 1]) + bs[|bs| - 1]
  {
  }

  lemma {:induction false} SignedOne(b: byte)
    ensures Signed([b]) == if b < 0x80 then b else b - 256
  {
    assert [b][..0] == [];
    assert Unsigned([b]) == 256 * Unsigned([]) + b;
    assert Pow256(1) == 256 * Pow256(0);
  }

  lemma {:induction false} SignedBytesRight(v: int)
    ensures Signed(SignedBytes(v)) == v && Minimal(SignedBytes(v))
    decreases if v < 0 then -v else v
  {
    var bs := SignedBytes(v);
    if -0x80 <= v < 0x80 {
      SignedOne(v % 256);
    } else {
      var q := v / 256;
      var init := SignedBytes(q);
      SignedBytesRight(q);
      assert bs[..|bs| - 1] == init;
      SignedStep(bs);
      if |init| == 1 { SignedOne(init[0]); }
    }
  }

  lemma {:induction false} MinimalSmall(bs: Bytes)
    requires Minimal(bs) && -0x80 <= Signed(bs) < 0x80
    ensures |bs| == 1
  {
    if |bs| >= 2 {
      var init := bs[..|bs| - 1];
      SignedStep(bs);
      MinimalSmall(init);
      SignedOne(init[0]);
    }
  }

  /** A value has one minimal form only. */
  lemma {:induction false} MinimalUnique(a: Bytes, b: Bytes)
    requires Minimal(a) && Minimal(b) && Signed(a) == Signed(b)
    ensures a == b
    decreases |a|
  {
    if |a| == 1 || |b| == 1 {
      SignedOne(a[0]);
      SignedOne(b[0]);
      assert a == [a[0]] || b == [b[0]];
      MinimalSmall(a);
      MinimalSmall(b);
      assert a == [a[0]] && b == [b[0]];
    } else {
      SignedStep(a);
      SignedStep(b);
      MinimalUnique(a[..|a| - 1], b[..|b| - 1]);
      assert a == a[..|a| - 1] + [a[|a| - 1]];
      assert b == b[..|b| - 1] + [b[|b| - 1]];
    }
  }

  lemma {:induction false} DropSignCopy(bs: Bytes)
    requires |bs| >= 2 && !Minimal(bs)
    ensures Signed(bs) == Signed(bs[1..])
  {
    SignedStep(bs);
    if |bs| == 2 {
      assert bs[..1] == [bs[0]] && bs[1..] == [bs[1]];
      SignedOne(bs[0]);
      SignedOne(bs[1]);
    } else {
      DropSignCopy(bs[..|bs| - 1]);
      SignedStep(bs[1..]);
      assert bs[1..][..|bs| - 2] == bs[..|bs| - 1][1..];
    }
  }

  /** No byte string for the same value is shorter than the minimal one. */
  lemma {:induction false} MinimalIsShortest(a: Bytes, b: Bytes)
    requires Minimal(a) && b != [] && Signed(a) == Signed(b)
    ensures |a| <= |b|
    decreases |b|
  {
    if Minimal(b) {
      MinimalUnique(a, b);
    } else {
      DropSignCopy(b);
      MinimalIsShortest(a, b[1..]);
    }
  }

  lemma {:induction false} UnsignedBytesRight(n: nat)
    ensures Unsigned(UnsignedBytes(n)) == n
    ensures n > 0 ==> UnsignedBytes(n) != [] && UnsignedBytes(n)[0] != 0
  {
    if n > 0 {
      UnsignedBytesRight(n / 256);
      var bs := UnsignedBytes(n);
      assert bs[..|bs| - 1] == UnsignedBytes(n / 256);
    }
  }

  lemma {:induction false} UnsignedBytesUnique(bs: Bytes)
    requires bs != [] ==> bs[0] != 0
    ensures UnsignedBytes(Unsigned(bs)) == bs
  {
    if bs != [] {
      var init := bs[..|bs| - 1];
      UnsignedBytesUnique(init);
      UnsignedBound(bs);
      assert bs == init + [bs[|bs| - 1]];
    }
  }

  lemma {:induction false} UnsignedBytesLen(n: nat, k: nat)
    requires n < Pow256(k)
    ensures |UnsignedBytes(n)| <= k
    decreases k
  {
    if n > 0 && k > 0 { UnsignedBytesLen(n / 256, k - 1); }
  }

  lemma {:induction false} SignedBytesLen(v: int, k: nat)
    requires k > 0 && -0x80 * Pow256(k - 1) <= v < 0x80 * Pow256(k - 1)
    ensures |SignedBytes(v)| <= k
    decreases k
  {
    if !(-0x80 <= v < 0x80) { SignedBytesLen(v / 256, k - 1); }
  }

  // ---- arbitrary precision

  function BitLen(n: nat): nat {
    if n == 0 then 0 else 1 + BitLen(n / 2)
  }

  lemma {:induction false} BitLenByte(n: nat)
    requires n >= 0x80
    ensures BitLen(n) == 8 + BitLen(n / 256)
  {
    var a := n / 2; var b := a / 2; var c := b / 2; var d := c / 2;
    var e := d / 2; var f := e / 2; var g := f / 2;
    assert g / 2 == n / 256;
    assert BitLen(g) == 1 + BitLen(n / 256);
    assert BitLen(f) == 1 + BitLen(g);
    assert BitLen(e) == 1 + BitLen(f);
    assert BitLen(d) == 1 + BitLen(e);
    assert BitLen(c) == 1 + BitLen(d);
    assert BitLen(b) == 1 + BitLen(c);
    assert BitLen(a) == 1 + BitLen(b);
  }

  lemma {:induction false} BitLenBound(n: nat, k: nat)
    requires n < Shl(1, k)
    ensures BitLen(n) <= k
    decreases k
  {
    if n > 0 && k > 0 {
      ShlDouble(1, k);
      BitLenBound(n / 2, k - 1);
    }
  }

  lemma {:induction false} BitLenSmall(n: nat)
    requires n < 0x80
    ensures BitLen(n) <= 7
  {
    assert Shl(1, 7) == Shl(4, 5) == Shl(16, 3) == Shl(64, 1) == 0x80;
    BitLenBound(n, 7);
  }

  /** A positive number needs a leading zero byte exactly when its bit length fills its bytes. */
  lemma {:induction false} PositiveForm(n: nat)
    requires n > 0
    ensures SignedBytes(n) == if BitLen(n) % 8 == 0 then [0] + UnsignedBytes(n) else UnsignedBytes(n)
    ensures BitLen(n) % 8 == 0 ==> |UnsignedBytes(n)| == BitLen(n) / 8
  {
    if n < 0x80 {
      BitLenSmall(n);
      assert UnsignedBytes(n) == UnsignedBytes(0) + [n];
    } else {
      BitLenByte(n);
      if n < 256 {
        assert SignedBytes(n) == SignedBytes(0) + [n];
        assert UnsignedBytes(n) == UnsignedBytes(0) + [n];
      } else {
        PositiveForm(n / 256);
        assert [0] + UnsignedBytes(n) == [0] + UnsignedBytes(n / 256) + [n % 256];
      }
    }
  }

  lemma {:induction false} NegativeForm(v: int)
    requires v < 0
    ensures (BitLen(-v - 1) + 8) / 8 == |SignedBytes(v)|
    ensures Pow256(|SignedBytes(v)|) + v > 0
    ensures UnsignedBytes(Pow256(|SignedBytes(v)|) + v) == SignedBytes(v)
    decreases -v
  {
    var bs := SignedBytes(v);
    NegativeLen(v);
    SignedBytesRight(v);
    assert Negative(bs);
    assert Unsigned(bs) == Pow256(|bs|) + v;
    UnsignedBound(bs);
    UnsignedBytesUnique(bs);
  }

  lemma {:induction false} NegativeLen(v: int)
    requires v < 0
    ensures (BitLen(-v - 1) + 8) / 8 == |SignedBytes(v)|
    decreases -v
  {
    if -0x80 <= v {
      BitLenSmall(-v - 1);
    } else {
      BitLenByte(-v - 1);
      assert -(v / 256) - 1 == (-v - 1) / 256;
      NegativeLen(v / 256);
    }
  }

  lemma {:induction false} ShlPow256(n: nat)
    ensures Shl(1, 8 * n) == Pow256(n)
  {
    if n > 0 {
      ShlPow256(n - 1);
      var k := 8 * (n - 1);
      assert 8 * n == k + 8;
      ShlDouble(1, k + 1); ShlDouble(1, k + 2); ShlDouble(1, k + 3); ShlDouble(1, k + 4);
      ShlDouble(1, k + 5); ShlDouble(1, k + 6); ShlDouble(1, k + 7); ShlDouble(1, k + 8);
    }
  }

  method BigIntToBytes(i: int) returns (bs: Bytes)
    ensures bs == SignedBytes(i)
  {
    if i == 0 {
      bs := [0];
    } else if i > 0 {
      PositiveForm(i);
      var bl := BitLen(i);
      if bl % 8 == 0 {
        bs := [0] + UnsignedBytes(i);
      } else {
        bs := UnsignedBytes(i);
      }
    } else {
      NegativeForm(i);
      var ti := i + 1;
      var bl := BitLen(-ti);
      var nb := Shl(1, (bl + 8) / 8 * 8);
      ShlPow256((bl + 8) / 8);
      nb := nb + i;
      bs := UnsignedBytes(nb);
    }
  }

  lemma {:induction false} FullBitLen(bs: Bytes)
    requires Negative(bs)
    ensures BitLen(Unsigned(bs)) == 8 * |bs|
  {
    UnsignedBound(bs);
    if |bs| == 1 {
      assert bs[..0] == [];
      BitLenByte(bs[0]);
    } else {
      FullBitLen(bs[..|bs| - 1]);
      UnsignedBound(bs[..|bs| - 1]);
      BitLenByte(Unsigned(bs));
    }
  }

  method BigIntSetBytes(bs: Bytes) returns (i: int)
    ensures i == Signed(bs)
  {
    i := Unsigned(bs);
    if |bs| > 0 && bs[0] >= 0x80 {
      FullBitLen(bs);
      ShlPow256(|bs|);
      var base := Shl(1, BitLen(i));
      i := i - base;
    }
  }

  // ---- 64 bits

  const TWO64 := 0x1_0000_0000_0000_0000

  type int64 = v: int | -0x8000_0000_0000_0000 <= v < 0x8000_0000_0000_0000

  type uint64 = v: int | 0 <= v < TWO64

  /** The 64-bit two's-complement number congruent to `x`. */
  function Wrap64(x: int): (w: int)
    ensures -0x8000_0000_0000_0000 <= w < 0x8000_0000_0000_0000
  {
    (x + 0x8000_0000_0000_0000) % TWO64 - 0x8000_0000_0000_0000
  }

  lemma {:induction false} Pow256Eight()
    ensures Pow256(7) == 0x100_0000_0000_0000 && Pow256(8) == TWO64
  {
    assert Pow256(4) == 0x1_0000_0000;
  }

  /** `v & -0x80`: the low seven bits cleared. */
  function ClearLow7(v: int): int {
    v - v % 128
  }

  lemma {:induction false} SignFill(v: int)
    ensures ClearLow7(v) == (if v < 0 then -0x80 else 0) <==> -0x80 <= v < 0x80
  {
  }

  method Int64ToBytes(v: int64) returns (bs: Bytes)
    ensures bs == SignedBytes(v)
  {
    if v == 0 {
      return [0];
    }
    var buf := new byte[8];
    var mask: int := -0x80;
    var target := if v < 0 then mask else 0;
    Pow256Eight();
    SignedBytesLen(v, 8);
    var rest: int := v;
    var idx := 7;
    while idx >= 0
      invariant -1 <= idx <= 7
      invariant rest < 0 <==> v < 0
      invariant SignedBytes(v) == SignedBytes(rest) + buf[idx + 1..]
      invariant |SignedBytes(rest)| <= idx + 1
    {
      buf[idx] := rest % 256;
      assert buf[idx..] == [rest % 256] + buf[idx + 1..];
      SignFill(rest);
      if ClearLow7(rest) == target {
        return buf[idx..];
      }
      assert SignedBytes(rest) == SignedBytes(rest / 256) + [rest % 256];
      rest := rest / 256;
      idx := idx - 1;
    }
    assert false;
  }

  method Uint64ToBytes(v: uint64) returns (bs: Bytes)
    ensures bs == SignedBytes(v)
  {
    if v == 0 {
      return [0];
    }
    var buf := new byte[9];
    Pow256Eight();
    SignedBytesLen(v, 9);
    var rest: int := v;
    var idx := 8;
    while idx >= 0
      invariant -1 <= idx <= 8 && rest >= 0
      invariant SignedBytes(v) == SignedBytes(rest) + buf[idx + 1..]
      invariant |SignedBytes(rest)| <= idx + 1
    {
      var tv := rest % 256;
      buf[idx] := tv;
      assert buf[idx..] == [tv] + buf[idx + 1..];
      if rest / 256 == 0 && tv < 0x80 {
        return buf[idx..];
      }
      assert SignedBytes(rest) == SignedBytes(rest / 256) + [rest % 256];
      rest := rest / 256;
      idx := idx - 1;
    }
    assert false;
  }

  method SizeToBytes(v: uint64) returns (bs: Bytes)
    ensures bs == SizeBytes(v)
  {
    if v == 0 {
      return [0];
    }
    var buf := new byte[8];
    Pow256Eight();
    UnsignedBytesLen(v, 8);
    var rest: int := v;
    var idx := 7;
    while idx >= 0
      invariant -1 <= idx <= 7 && rest > 0
      invariant UnsignedBytes(v) == UnsignedBytes(rest) + buf[idx + 1..]
      invariant |UnsignedBytes(rest)| <= idx + 1
    {
      buf[idx] := rest % 256;
      assert buf[idx..] == [rest % 256] + buf[idx + 1..];
      if rest / 256 == 0 {
        assert UnsignedBytes(rest) == [rest % 256];
        return buf[idx..];
      }
      rest := rest / 256;
      idx := idx - 1;
    }
    assert false;
  }

  lemma {:induction false} ModUnique(x: int, q: int, r: int)
    requires x == TWO64 * q + r && 0 <= r < TWO64
    ensures x % TWO64 == r
  {
  }

  /** One step of `v << 8 | b` on 64 bits keeps the congruence. */
  lemma {:induction false} ShiftIn(x: int, v: int, b: byte)
    requires v == x % TWO64
    ensures (256 * v) % TWO64 + b == (256 * x + b) % TWO64 < TWO64
  {
    var t, r := (256 * v) % TWO64, (256 * v) / TWO64;
    assert t == 256 * (v - 0x100_0000_0000_0000 * r);
    assert t + b < TWO64;
    ModUnique(256 * x + b, 256 * (x / TWO64) + r, t + b);
  }

  method BytesToUint64(bs: Bytes) returns (v: uint64)
    ensures v == Signed(bs) % TWO64
  {
    if |bs| == 0 {
      return 0;
    }
    v := 0;
    if bs[0] >= 0x80 {
      v := 0xffff_ffff_ffff_ffff;
    }
    ghost var sign := if bs[0] >= 0x80 then 1 else 0;
    assert bs[..0] == [];
    for i := 0 to |bs|
      invariant v == (Unsigned(bs[..i]) - sign * Pow256(i)) % TWO64
    {
      assert bs[..i + 1][..i] == bs[..i];
      ShiftIn(Unsigned(bs[..i]) - sign * Pow256(i), v, bs[i]);
      v := (256 * v) % TWO64 + bs[i];
    }
    assert bs[..|bs|] == bs;
  }

  method BytesToSize(bs: Bytes) returns (v: uint64)
    ensures v == Unsigned(bs) % TWO64
  {
    v := 0;
    assert bs[..0] == [];
    for i := 0 to |bs|
      invariant v == Unsigned(bs[..i]) % TWO64
    {
      assert bs[..i + 1][..i] == bs[..i];
      ShiftIn(Unsigned(bs[..i]), v, bs[i]);
      v := (256 * v) % TWO64 + bs[i];
    }
    assert bs[..|bs|] == bs;
  }

  function Complement(bs: Bytes): Bytes {
    if bs == [] then [] else Complement(bs[..|bs| - 1]) + [255 - bs[|bs| - 1]]
  }

  lemma {:induction false} ComplementValue(bs: Bytes)
    ensures |Complement(bs)| == |bs|
    ensures Unsigned(Complement(bs)) == Pow256(|bs|) - 1 - Unsigned(bs)
  {
    if bs != [] {
      ComplementValue(bs[..|bs| - 1]);
      assert Complement(bs)[..|bs| - 1] == Complement(bs[..|bs| - 1]);
    }
  }

  lemma {:induction false} WrapUnique(x: int, q: int, y: int)
    requires x == TWO64 * q + y && -0x8000_0000_0000_0000 <= y < 0x8000_0000_0000_0000
    ensures Wrap64(x) == y
  {
    ModUnique(x + 0x8000_0000_0000_0000, q, y + 0x8000_0000_0000_0000);
  }

  lemma {:induction false} WrapQuotient(x: int) returns (q: int)
    ensures x == TWO64 * q + Wrap64(x)
  {
    q := (x + 0x8000_0000_0000_0000) / TWO64;
  }

  /** `v << 8 | b` on a signed 64-bit number. */
  lemma {:induction false} ShiftInSigned(x: int, v: int, b: byte)
    requires v == Wrap64(x)
    ensures Wrap64(256 * v) + b == Wrap64(256 * x + b)
  {
    var q := WrapQuotient(x);
    var r := WrapQuotient(256 * v);
    var t := Wrap64(256 * v);
    assert t == 256 * (v - 0x100_0000_0000_0000 * r);
    assert t + b < 0x8000_0000_0000_0000;
    WrapUnique(256 * x + b, 256 * q + r, t + b);
  }

  lemma {:induction false} NegateWrapped(x: int)
    ensures Wrap64(-Wrap64(x) - 1) == Wrap64(-x - 1)
  {
    var q := WrapQuotient(x);
    WrapUnique(-x - 1, -q, -Wrap64(x) - 1);
    WrapUnique(-Wrap64(x) - 1, 0, -Wrap64(x) - 1);
  }

  method ComplementToInt64(bs: Bytes) returns (v: int64)
    ensures v == Wrap64(Unsigned(Complement(bs)))
  {
    v := 0;
    assert bs[..0] == [];
    for i := 0 to |bs|
      invariant v == Wrap64(Unsigned(Complement(bs[..i])))
    {
      ghost var c := Complement(bs[..i + 1]);
      assert bs[..i + 1][..i] == bs[..i];
      assert c[..|c| - 1] == Complement(bs[..i]);
      ShiftInSigned(Unsigned(Complement(bs[..i])), v, 255 - bs[i]);
      v := Wrap64(256 * v) + (255 - bs[i]);
    }
    assert bs[..|bs|] == bs;
  }

  method PlainToInt64(bs: Bytes) returns (v: int64)
    ensures v == Wrap64(Unsigned(bs))
  {
    v := 0;
    assert bs[..0] == [];
    for i := 0 to |bs|
      invariant v == Wrap64(Unsigned(bs[..i]))
    {
      assert bs[..i + 1][..i] == bs[..i];
      ShiftInSigned(Unsigned(bs[..i]), v, bs[i]);
      v := Wrap64(256 * v) + bs[i];
    }
    assert bs[..|bs|] == bs;
  }

  /** On any byte string, of any length: the two's-complement value, wrapped to 64 bits. */
  method BytesToInt64(bs: Bytes) returns (v: int64)
    ensures v == Wrap64(Signed(bs))
  {
    if |bs| == 0 {
      return 0;
    }
    if bs[0] >= 0x80 {
      v := ComplementToInt64(bs);
      ComplementValue(bs);
      NegateWrapped(Unsigned(Complement(bs)));
      var w: int := v;
      v := Wrap64(-w - 1);
    } else {
      v := PlainToInt64(bs);
    }
  }

  /** Each 64-bit decoder undoes its encoder on the whole range. */
  lemma {:induction false} Int64RoundTrip(v: int64)
    ensures Wrap64(Signed(SignedBytes(v))) == v
  {
    SignedBytesRight(v);
    WrapUnique(v, 0, v);
  }

  lemma {:induction false} Uint64RoundTrip(v: uint64)
    ensures Signed(SignedBytes(v)) % TWO64 == v
  {
    SignedBytesRight(v);
    ModUnique(v, 0, v);
  }

  lemma {:induction false} SizeRoundTrip(v: uint64)
    ensures Unsigned(SizeBytes(v)) % TWO64 == v
    ensures 1 <= |SizeBytes(v)| <= 8 && (|SizeBytes(v)| > 1 ==> SizeBytes(v)[0] != 0)
  {
    UnsignedBytesRight(v);
    Pow256Eight();
    if v > 0 { UnsignedBytesLen(v, 8); }
    assert [0 as byte][..0] == [] && Unsigned([0]) == 256 * Unsigned([]);
    ModUnique(v, 0, v);
  }

}
