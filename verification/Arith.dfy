/** Modular arithmetic shared by the wrapping counters and lengths. */
module Arith {
  const TWO32: nat := 0x1_0000_0000

  function Min(a: int, b: int): int { if a < b then a else b }

  lemma MulMonotone(a: int, b: int, n: int)
    requires n >= 0 && a <= b
    ensures a * n <= b * n
  {
    assert (b - a) * n >= 0;
  }

  lemma SmallMultiple(q: int, n: int)
    requires n > 0 && -n < q * n < n
    ensures q == 0
  {
    if q >= 1 {
      MulMonotone(1, q, n);
    } else if q <= -1 {
      MulMonotone(q, -1, n);
    }
  }

  /** Quotient and remainder are unique. */
  lemma DivModUnique(a: int, n: int, q: int, r: int)
    requires n > 0 && 0 <= r < n && a == q * n + r
    ensures a / n == q && a % n == r
  {
    var q' := a / n;
    assert a == q' * n + a % n;
    assert (q - q') * n == q * n - q' * n;
    SmallMultiple(q - q', n);
  }

  lemma AddMultiple(a: int, n: int, k: int)
    requires n > 0
    ensures (a + k * n) % n == a % n
  {
    assert a == (a / n) * n + a % n;
    assert (a / n + k) * n == (a / n) * n + k * n;
    DivModUnique(a + k * n, n, a / n + k, a % n);
  }

  lemma AddMultipleOfMultiple(t: int, q: int, k: int, n: int)
    requires n > 0
    ensures (t + q * (k * n)) % n == t % n
  {
    AddMultiple(t, n, q * k);
  }

  /** Reducing first by `big` changes nothing modulo `n` when `n` divides `big`, or when there is nothing to reduce. */
  lemma NestedMod(a: nat, big: nat, n: nat)
    requires n > 0 && big > 0
    requires big % n == 0 || a < big
    ensures (a % big) % n == a % n
  {
    if a < big {
      DivModUnique(a, big, 0, a);
    } else {
      assert a == a % big + (a / big) * big;
      assert big == (big / n) * n;
      AddMultipleOfMultiple(a % big, a / big, big / n, n);
    }
  }

  /** Two counts less than `n` apart share a slot only when they are equal. */
  lemma SameSlot(a: int, b: int, n: int)
    requires n > 0 && a <= b && b - a < n && a % n == b % n
    ensures a == b
  {
    assert a == (a / n) * n + a % n && b == (b / n) * n + b % n;
    assert (b / n - a / n) * n == (b / n) * n - (a / n) * n;
    SmallMultiple(b / n - a / n, n);
  }

  /** Arithmetic of unsigned long long. */
  function Mod64(n: int): (m: nat)
    ensures m < 0x1_0000_0000_0000_0000
  {
    n % 0x1_0000_0000_0000_0000
  }

  lemma Mod64Small(n: nat)
    requires n < 0x1_0000_0000_0000_0000
    ensures Mod64(n) == n
  {
    DivModUnique(n, 0x1_0000_0000_0000_0000, 0, n);
  }

  lemma Mod64Once(n: nat)
    requires n < 0x1_0000_0000_0000_0000
    ensures Mod64(n + 0x1_0000_0000_0000_0000) == n && Mod64(n - 0x1_0000_0000_0000_0000) == n
  {
    DivModUnique(n + 0x1_0000_0000_0000_0000, 0x1_0000_0000_0000_0000, 1, n);
    DivModUnique(n - 0x1_0000_0000_0000_0000, 0x1_0000_0000_0000_0000, -1, n);
  }

  lemma Mod64Add(a: int, b: int)
    ensures Mod64(Mod64(a) + b) == Mod64(a + b)
  {
    AddMultiple(a % 0x1_0000_0000_0000_0000 + b, 0x1_0000_0000_0000_0000, a / 0x1_0000_0000_0000_0000);
  }

  /** Adding k leaves a residue alone exactly when k is a multiple of 2^64. */
  lemma Mod64SameIff(a: int, k: int)
    ensures Mod64(a + k) == Mod64(a) <==> Mod64(k) == 0
  {
    var r, q := Mod64(k), Mod64(a);
    Mod64Add(k, a);
    Mod64Add(a, r);
    hide Mod64;
    if q + r < 0x1_0000_0000_0000_0000 { Mod64Small(q + r); } else { Mod64Once(q + r - 0x1_0000_0000_0000_0000); }
  }

  // ---- Bits ----

  /** Bit k of x. */
  predicate HasBit(x: nat, k: nat) {
    if k == 0 then x % 2 == 1 else HasBit(x / 2, k - 1)
  }

  lemma {:induction false} NoBits(k: nat)
    ensures !HasBit(0, k)
    decreases k
  {
    if k > 0 { NoBits(k - 1); }
  }

  /** a | b. */
  function BitOr(a: nat, b: nat): nat {
    if a == 0 then b else if b == 0 then a
    else 2 * BitOr(a / 2, b / 2) + if a % 2 == 1 || b % 2 == 1 then 1 else 0
  }

  /** a & b. */
  function BitAnd(a: nat, b: nat): (n: nat)
    ensures n <= b
  {
    if a == 0 || b == 0 then 0 else 2 * BitAnd(a / 2, b / 2) + if a % 2 == 1 && b % 2 == 1 then 1 else 0
  }

  lemma {:induction false} BitOrIsBitwise(a: nat, b: nat, k: nat)
    ensures HasBit(BitOr(a, b), k) <==> HasBit(a, k) || HasBit(b, k)
    decreases k
  {
    NoBits(k);
    if a > 0 && b > 0 && k > 0 { BitOrIsBitwise(a / 2, b / 2, k - 1); }
  }

  lemma {:induction false} BitAndIsBitwise(a: nat, b: nat, k: nat)
    ensures HasBit(BitAnd(a, b), k) <==> HasBit(a, k) && HasBit(b, k)
    decreases k
  {
    NoBits(k);
    if a > 0 && b > 0 && k > 0 { BitAndIsBitwise(a / 2, b / 2, k - 1); }
  }
}
