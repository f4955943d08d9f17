/** The branch-free integer logarithm of bits.bpf.h. */
module Bits {
  import opened Machine

  function Pow2(n: nat): (p: nat)
    ensures p >= 1
  {
    if n == 0 then 1 else 2 * Pow2(n - 1)
  }

  /** `v >> n`. */
  function Shr(v: nat, n: nat): nat { if n == 0 then v else Shr(v / 2, n - 1) }

  /** `a | b`, bit by bit. */
  function Or(a: nat, b: nat): nat {
    if a == 0 && b == 0 then 0
    else (if a % 2 == 1 || b % 2 == 1 then 1 else 0) + 2 * Or(a / 2, b / 2)
  }

  /** The lowest `k` bits of `a` are zero. */
  predicate LowClear(a: nat, k: nat) { k == 0 || (a % 2 == 0 && LowClear(a / 2, k - 1)) }

  lemma {:induction false} OrZero(a: nat)
    ensures Or(a, 0) == a
  {
    if a != 0 { OrZero(a / 2); }
  }

  /** Or-ing bits into a clear low part is addition. */
  lemma {:induction false} OrIsSum(a: nat, k: nat, b: nat)
    requires LowClear(a, k) && b < Pow2(k)
    ensures Or(a, b) == a + b
  {
    if k == 0 {
      OrZero(a);
    } else if a != 0 || b != 0 {
      OrIsSum(a / 2, k - 1, b / 2);
    }
  }

  lemma {:induction false} StillClear(a: nat, k: nat)
    requires LowClear(a, k + 1)
    ensures LowClear(a, k) && LowClear(a + Pow2(k), k)
  {
    if k > 0 { StillClear(a / 2, k - 1); }
  }

  lemma {:induction false} ZeroClear(k: nat)
    ensures LowClear(0, k)
  {
    if k > 0 { ZeroClear(k - 1); }
  }

  /** The floor of the binary logarithm, with 0 for 0. */
  function FloorLog2(v: nat): nat { if v < 2 then 0 else 1 + FloorLog2(v / 2) }

  /** It is the position of the highest set bit. */
  lemma {:induction false} FloorLog2Bounds(v: nat)
    requires v > 0
    ensures Pow2(FloorLog2(v)) <= v < Pow2(FloorLog2(v) + 1)
  {
    if v >= 2 { FloorLog2Bounds(v / 2); }
  }

  lemma {:induction false} PowMonotone(a: nat, b: nat)
    requires a <= b
    ensures Pow2(a) <= Pow2(b)
  {
    if a < b { PowMonotone(a, b - 1); }
  }

  /** A value lies in the range of exactly one exponent. */
  lemma FloorLog2Iff(v: nat, r: nat)
    requires v > 0
    ensures FloorLog2(v) == r <==> Pow2(r) <= v < Pow2(r + 1)
    ensures FloorLog2(v) >= r <==> Pow2(r) <= v
  {
    FloorLog2Bounds(v);
    if FloorLog2(v) < r { PowMonotone(FloorLog2(v) + 1, r); }
    if FloorLog2(v) > r { PowMonotone(r + 1, FloorLog2(v)); }
    if FloorLog2(v) >= r { PowMonotone(r, FloorLog2(v)); }
  }

  lemma {:induction false} ShiftLog(v: nat, n: nat)
    requires v >= Pow2(n)
    ensures FloorLog2(v) == n + FloorLog2(Shr(v, n)) && Shr(v, n) >= 1
  {
    if n > 0 { ShiftLog(v / 2, n - 1); }
  }

  lemma {:induction false} ShiftBelow(v: nat, n: nat, m: nat)
    ensures v < Pow2(n + m) <==> Shr(v, n) < Pow2(m)
  {
    if n > 0 { ShiftBelow(v / 2, n - 1, m); }
  }

  /** One stage: if the high half of a word of 2^(log + 1) bits is not empty, count its 2^log bits and keep it. */
  method Stage(v: nat, r: nat, log: nat) returns (v': nat, r': nat)
    requires v < Pow2(Pow2(log + 1)) && LowClear(r, log + 1)
    ensures r' + FloorLog2(v') == r + FloorLog2(v)
    ensures v' < Pow2(Pow2(log)) && LowClear(r', log)
  {
    var bits := Pow2(log);
    var shift := if v > Pow2(bits) - 1 then bits else 0;
    v' := Shr(v, shift);
    r' := Or(r, shift);
    OrIsSum(r, log + 1, shift);
    StillClear(r, log);
    if shift == bits {
      ShiftLog(v, bits);
      ShiftBelow(v, bits, bits);
    }
  }

  lemma {:induction false} PowDouble(n: nat, m: nat)
    ensures Pow2(n + m) == Pow2(n) * Pow2(m)
  {
    if n > 0 {
      PowDouble(n - 1, m);
      assert 2 * Pow2(n - 1) * Pow2(m) == 2 * (Pow2(n - 1) * Pow2(m));
    }
  }

  lemma Widths()
    ensures Pow2(32) == U32 && Pow2(64) == U64
  {
    assert Pow2(8) == 0x100;
    hide Pow2;
    var n := 8;
    PowDouble(n, n);
    PowDouble(2 * n, 2 * n);
    PowDouble(4 * n, 4 * n);
  }

  /** `log2`: stages of 16, 8, 4 and 2 bits; in what is left, `v >> 1` is the last bit of the answer. */
  method Log2(v: u32) returns (r: nat)
    ensures r == FloorLog2(v) && r < 32
  {
    Widths();
    ZeroClear(5);
    assert Pow2(5) == 32;
    var w, s := Stage(v, 0, 4);
    w, s := Stage(w, s, 3);
    w, s := Stage(w, s, 2);
    w, s := Stage(w, s, 1);
    r := Or(s, Shr(w, 1));
    assert w < 4 && Shr(w, 1) == w / 2;
    OrIsSum(s, 1, w / 2);
    assert FloorLog2(w) == w / 2;
    BelowWidth(v, 32);
  }

  lemma BelowWidth(v: nat, width: nat)
    requires v < Pow2(width) && width > 0
    ensures FloorLog2(v) < width
  {}

  /** `log2l` is the floor of the binary logarithm, and 0 for 0. */
  method Log2l(v: u64) returns (r: nat)
    ensures r == FloorLog2(v) && r < 64
    ensures v > 0 ==> Pow2(r) <= v < Pow2(r + 1)
    ensures v == 0 ==> r == 0
  {
    Widths();
    var hi := Shr(v, 32);
    ShiftBelow(v, 32, 32);
    ShiftBelow(v, 32, 0);
    if hi != 0 {
      ShiftLog(v, 32);
      r := Log2(hi);
      r := r + 32;
    } else {
      r := Log2(v);
    }
    if v > 0 { FloorLog2Bounds(v); }
  }
}
