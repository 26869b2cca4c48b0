/**
 Shifts and bits of integers, defined by halving and doubling.

 `Shr` floors, as Go's `>>` does on signed integers, so `Bit` reads the
 two's-complement bits of negative numbers as well.
 */
module BitOps {

  function Shl(q: int, i: nat): int
    decreases i
  {
    if i == 0 then q else Shl(2 * q, i - 1)
  }

  function Shr(n: int, i: nat): int {
    if i == 0 then n else Shr(n, i - 1) / 2
  }

  predicate Bit(n: int, i: nat) {
    Shr(n, i) % 2 == 1
  }

  /** The low `i` bits of `n` as a number. */
  function Low(n: int, i: nat): int {
    if i == 0 then 0 else Low(n, i - 1) + if Bit(n, i - 1) then Shl(1, i - 1) else 0
  }

  lemma {:induction false} ShlAdd(a: int, b: int, i: nat)
    ensures Shl(a + b, i) == Shl(a, i) + Shl(b, i)
    decreases i
  {
    if i > 0 { ShlAdd(2 * a, 2 * b, i - 1); }
  }

  lemma {:induction false} ShlDouble(a: int, i: nat)
    requires i > 0
    ensures Shl(a, i) == 2 * Shl(a, i - 1)
  {
    ShlAdd(a, a, i - 1);
  }

  lemma {:induction false} ShlMono(a: int, b: int, i: nat)
    requires a <= b
    ensures Shl(a, i) <= Shl(b, i)
    ensures a < b ==> Shl(a, i) < Shl(b, i)
    decreases i
  {
    if i > 0 { ShlMono(2 * a, 2 * b, i - 1); }
  }

  lemma {:induction false} ShlPositive(i: nat)
    ensures Shl(1, i) >= 1 && Shl(0, i) == 0
  {
    if i > 0 { ShlPositive(i - 1); ShlDouble(1, i); }
  }

  /** A number is its high part shifted back plus its low part. */
  lemma {:induction false} ShiftSplit(n: int, i: nat)
    ensures n == Shl(Shr(n, i), i) + Low(n, i)
    ensures 0 <= Low(n, i) < Shl(1, i)
  {
    if i > 0 {
      ShiftSplit(n, i - 1);
      ShlDouble(1, i);
      var s := Shr(n, i - 1);
      ShlAdd(2 * (s / 2), s % 2, i - 1);
      ShlPositive(i - 1);
    }
  }

  /** The split into a shifted high part and a small low part is unique. */
  lemma {:induction false} ShiftUnique(q: int, r: int, i: nat)
    requires 0 <= r < Shl(1, i)
    ensures Shr(Shl(q, i) + r, i) == q
    ensures Low(Shl(q, i) + r, i) == r
  {
    var n := Shl(q, i) + r;
    ShiftSplit(n, i);
    var p := Shr(n, i);
    ShlAdd(q, 1, i);
    ShlAdd(p, 1, i);
    if p < q { ShlMono(p + 1, q, i); }
    if q < p { ShlMono(q + 1, p, i); }
  }

  lemma {:induction false} ShrMono(a: int, b: int, i: nat)
    requires a <= b
    ensures Shr(a, i) <= Shr(b, i)
  {
    if i > 0 { ShrMono(a, b, i - 1); }
  }

  /** Shifting by one first or last is the same. */
  lemma {:induction false} ShrHalf(n: int, i: nat)
    ensures Shr(n / 2, i) == Shr(n, i + 1)
  {
    if i > 0 { ShrHalf(n, i - 1); }
  }

  lemma {:induction false} ShrZero(i: nat)
    ensures Shr(0, i) == 0
  {
    if i > 0 { ShrZero(i - 1); }
  }

}
