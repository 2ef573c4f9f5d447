/** Fixed-width unsigned words as natural numbers: the shifts, masks and bitwise
    operators the coordinator applies to IPv4 (32-bit) and IPv6 (128-bit) addresses,
    and what each of them means arithmetically. The operators are defined bit by bit. */
module Bits {

  function Pow2(n: nat): (r: nat)
    ensures r >= 1
  {
    if n == 0 then 1 else 2 * Pow2(n - 1)
  }

  function And(x: nat, y: nat): nat {
    if x == 0 || y == 0 then 0
    else 2 * And(x / 2, y / 2) + if x % 2 == 1 && y % 2 == 1 then 1 else 0
  }

  function Or(x: nat, y: nat): nat
    decreases x + y
  {
    if x == 0 then y
    else if y == 0 then x
    else 2 * Or(x / 2, y / 2) + if x % 2 == 1 || y % 2 == 1 then 1 else 0
  }

  function Xor(x: nat, y: nat): nat
    decreases x + y
  {
    if x == 0 then y
    else if y == 0 then x
    else 2 * Xor(x / 2, y / 2) + if x % 2 != y % 2 then 1 else 0
  }

  function Shr(x: nat, s: nat): nat
    decreases s
  {
    if s == 0 then x else Shr(x / 2, s - 1)
  }

  /** Left shift in a `w`-bit word: bits shifted past the top are lost. */
  function Shl(x: nat, s: nat, w: nat): (r: nat)
    requires x < Pow2(w)
    ensures r < Pow2(w)
    decreases s
  {
    if s == 0 then x
    else
      var d := 2 * Shl(x, s - 1, w);
      if d < Pow2(w) then d else d - Pow2(w)
  }

  /** Complement in a `w`-bit word. */
  function Not(x: nat, w: nat): nat
    requires x < Pow2(w)
  {
    Pow2(w) - 1 - x
  }

  /** The network mask of a prefix: that many ones from the top of a `w`-bit word. */
  function Mask(w: nat, prefix: nat): nat
    requires prefix <= w
  {
    if prefix == 0 then 0 else Shl(Pow2(w) - 1, w - prefix, w)
  }

  /** `x` with its low `s` bits cleared. */
  function Floor(x: nat, s: nat): nat
    decreases s
  {
    if s == 0 then x else 2 * Floor(x / 2, s - 1)
  }

  predicate Aligned(x: nat, s: nat) {
    Floor(x, s) == x
  }

  lemma {:induction false} Pow2Monotone(m: nat, n: nat)
    requires m <= n
    ensures Pow2(m) <= Pow2(n)
    decreases n - m
  {
    if m < n { Pow2Monotone(m, n - 1); }
  }

  lemma {:induction false} Pow2Add(m: nat, n: nat)
    ensures Pow2(m + n) == Pow2(m) * Pow2(n)
    decreases m
  {
    if m > 0 {
      Pow2Add(m - 1, n);
      assert Pow2(m + n) == 2 * Pow2(m - 1 + n);
      assert 2 * (Pow2(m - 1) * Pow2(n)) == (2 * Pow2(m - 1)) * Pow2(n);
    }
  }

  lemma {:induction false} FloorBounds(x: nat, s: nat)
    ensures Floor(x, s) <= x < Floor(x, s) + Pow2(s)
    decreases s
  {
    if s > 0 { FloorBounds(x / 2, s - 1); }
  }

  /** `Floor` is constant on the interval it names. */
  lemma {:induction false} FloorOfInterval(x: nat, i: nat, s: nat)
    ensures Floor(x, s) <= i < Floor(x, s) + Pow2(s) <==> Floor(i, s) == Floor(x, s)
    decreases s
  {
    if s > 0 { FloorOfInterval(x / 2, i / 2, s - 1); }
  }

  lemma {:induction false} FloorOfFloor(x: nat, s: nat, t: nat)
    requires s <= t
    ensures Floor(Floor(x, s), t) == Floor(x, t)
    decreases s
  {
    if s > 0 { FloorOfFloor(x / 2, s - 1, t - 1); }
  }

  lemma {:induction false} FloorCoarser(x: nat, y: nat, s: nat, t: nat)
    requires s <= t
    requires Floor(x, s) == Floor(y, s)
    ensures Floor(x, t) == Floor(y, t)
  {
    FloorOfFloor(x, s, t);
    FloorOfFloor(y, s, t);
  }

  lemma {:induction false} FloorBelow(x: nat, s: nat, w: nat)
    requires s <= w && x < Pow2(w)
    ensures Floor(x, s) + Pow2(s) <= Pow2(w)
    decreases s
  {
    if s == 0 { } else { FloorBelow(x / 2, s - 1, w - 1); }
  }

  lemma {:induction false} MaskValue(w: nat, prefix: nat)
    requires prefix <= w
    ensures Mask(w, prefix) == Pow2(w) - Pow2(w - prefix)
    ensures Mask(w, prefix) < Pow2(w)
  {
    if prefix > 0 { ShlOnes(w - prefix, w); }
  }

  lemma {:induction false} ShlOnes(s: nat, w: nat)
    requires s <= w
    ensures Shl(Pow2(w) - 1, s, w) == Pow2(w) - Pow2(s)
    decreases s
  {
    if s > 0 {
      ShlOnes(s - 1, w);
      Pow2Monotone(s, w);
    }
  }

  lemma {:induction false} AndOnes(x: nat, w: nat)
    requires x < Pow2(w)
    ensures And(x, Pow2(w) - 1) == x
    decreases w
  {
    if w > 0 {
      AndOnes(x / 2, w - 1);
      assert (Pow2(w) - 1) / 2 == Pow2(w - 1) - 1;
    }
  }

  lemma {:induction false} AndHigh(x: nat, s: nat, w: nat)
    requires s <= w && x < Pow2(w)
    ensures Pow2(s) <= Pow2(w) && And(x, Pow2(w) - Pow2(s)) == Floor(x, s)
    decreases s
  {
    Pow2Monotone(s, w);
    if s == 0 {
      AndOnes(x, w);
    } else {
      AndHigh(x / 2, s - 1, w - 1);
      FloorBounds(x, s);
    }
  }

  /** Masking an address keeps exactly its network part. */
  lemma {:induction false} AndMask(x: nat, w: nat, prefix: nat)
    requires prefix <= w && x < Pow2(w)
    ensures And(x, Mask(w, prefix)) == Floor(x, w - prefix)
  {
    MaskValue(w, prefix);
    AndHigh(x, w - prefix, w);
  }

  lemma {:induction false} AndLow(x: nat, s: nat)
    ensures And(x, Pow2(s) - 1) == x - Floor(x, s)
    decreases s
  {
    FloorBounds(x, s);
    if s > 0 {
      AndLow(x / 2, s - 1);
      assert (Pow2(s) - 1) / 2 == Pow2(s - 1) - 1;
      FloorBounds(x / 2, s - 1);
    }
  }

  /** No bit below the mask is set exactly in a network address. */
  lemma {:induction false} AndNotMask(x: nat, w: nat, prefix: nat)
    requires prefix <= w && x < Pow2(w)
    ensures Mask(w, prefix) < Pow2(w)
    ensures And(x, Not(Mask(w, prefix), w)) == 0 <==> Aligned(x, w - prefix)
  {
    MaskValue(w, prefix);
    AndLow(x, w - prefix);
  }

  /** Setting bits that are clear is addition. */
  lemma {:induction false} OrLow(x: nat, y: nat, s: nat)
    requires Aligned(x, s) && y < Pow2(s)
    ensures Or(x, y) == x + y
    decreases s
  {
    if s > 0 && x > 0 && y > 0 {
      assert x == 2 * Floor(x / 2, s - 1);
      OrLow(x / 2, y / 2, s - 1);
    }
  }

  /** Setting every bit below the mask gives the last address of the network. */
  lemma {:induction false} OrNotMask(x: nat, w: nat, prefix: nat)
    requires prefix <= w && x < Pow2(w) && Aligned(x, w - prefix)
    ensures Mask(w, prefix) < Pow2(w)
    ensures Or(x, Not(Mask(w, prefix), w)) == x + Pow2(w - prefix) - 1
  {
    MaskValue(w, prefix);
    OrLow(x, Pow2(w - prefix) - 1, w - prefix);
  }

  lemma {:induction false} ShrOnes(w: nat, prefix: nat)
    requires prefix <= w
    ensures Shr(Pow2(w) - 1, prefix) == Pow2(w - prefix) - 1
    decreases prefix
  {
    if prefix > 0 {
      assert (Pow2(w) - 1) / 2 == Pow2(w - 1) - 1;
      ShrOnes(w - 1, prefix - 1);
    }
  }

  lemma {:induction false} XorZero(x: nat, y: nat)
    ensures Xor(x, y) == 0 <==> x == y
    decreases x + y
  {
    if x > 0 && y > 0 { XorZero(x / 2, y / 2); }
  }

  /** The difference shifts away exactly when the words agree above their low `s` bits. */
  lemma {:induction false} XorShr(a: nat, b: nat, s: nat)
    ensures Shr(Xor(a, b), s) == 0 <==> Floor(a, s) == Floor(b, s)
    decreases s
  {
    if s == 0 {
      XorZero(a, b);
    } else {
      assert Xor(a, b) / 2 == Xor(a / 2, b / 2);
      XorShr(a / 2, b / 2, s - 1);
    }
  }

  lemma AlignedCoarser(x: nat, s: nat, t: nat)
    requires s <= t && Aligned(x, t)
    ensures Aligned(x, s)
  {
    FloorBounds(x, s);
    FloorOfFloor(x, s, t);
    FloorBounds(Floor(x, s), t);
  }

  lemma {:induction false} FloorIsDivision(x: nat, s: nat)
    ensures Floor(x, s) == x / Pow2(s) * Pow2(s)
    decreases s
  {
    if s > 0 {
      FloorIsDivision(x / 2, s - 1);
      DivideTwice(x, Pow2(s - 1));
    }
  }

  lemma {:induction false} DivideTwice(x: nat, p: nat)
    requires p > 0
    ensures x / 2 / p == x / (2 * p)
  {
    var q, r := x / 2 / p, x / 2 % p;
    var rest := 2 * r + x % 2;
    assert x == 2 * p * q + rest;
    assert 0 <= rest < 2 * p;
    QuotientIs(x, 2 * p, q, rest);
  }

  lemma {:induction false} QuotientIs(x: int, d: int, q: int, r: int)
    requires d > 0 && x == d * q + r && 0 <= r < d
    ensures x / d == q
  {
    var k := x / d - q;
    assert x == d * (x / d) + x % d;
    assert d * k == r - x % d;
    MultipleIsFar(d, k);
  }

  lemma {:induction false} MultipleIsFar(d: int, k: int)
    requires d > 0
    ensures k >= 1 ==> d * k >= d
    ensures k <= -1 ==> d * k <= -d
  {
  }

  lemma {:induction false} AlignedByModulo(x: nat, s: nat)
    requires x % Pow2(s) == 0
    ensures Floor(x, s) == x
  {
    FloorIsDivision(x, s);
  }
}
