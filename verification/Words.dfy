/** 64-bit words as bounded integers, with the bitwise operations the page-table code uses.
    A shift by a constant is a division or a multiplication, so that address arithmetic stays linear;
    `|` is defined bit by bit and its laws are proved here once. */
module Words {

  const WORD_SIZE: nat := 0x1_0000_0000_0000_0000

  /** An unsigned 64-bit machine word (`uint64_t`, `uintptr_t`). */
  type Word = w: int | 0 <= w < 0x1_0000_0000_0000_0000

  /** `a + b` in wrapping 64-bit arithmetic. */
  function Plus(a: Word, b: nat): Word { (a + b) % 0x1_0000_0000_0000_0000 }

  /** The machine's `v + 1`. */
  function Succ(v: Word): Word { Plus(v, 1) }

  lemma SuccMod(a: nat)
    ensures Succ(a % WORD_SIZE) == (a + 1) % WORD_SIZE
  {
  }

  lemma PlusOne(a: Word, n: nat)
    ensures Plus(Plus(a, n), 1) == Plus(a, n + 1)
  {
    SuccMod(a + n);
  }

  function Pow2(n: nat): (r: nat)
    ensures r > 0
  {
    if n == 0 then 1 else 2 * Pow2(n - 1)
  }

  /** Bit k of w. */
  predicate Bit(w: nat, k: nat)
    decreases w, k
  {
    if k == 0 then w % 2 == 1 else Bit(w / 2, k - 1)
  }

  /** Bitwise inclusive or. */
  function BitOr(a: nat, b: nat): nat
    decreases a + b
  {
    if a == 0 then b
    else if b == 0 then a
    else 2 * BitOr(a / 2, b / 2) + (if a % 2 == 1 || b % 2 == 1 then 1 else 0)
  }

  /** `a | b` on machine words. */
  function Or(a: Word, b: Word): Word {
    OrFits(a, b);
    BitOr(a, b)
  }

  lemma {:induction false} ZeroHasNoBits(k: nat)
    ensures !Bit(0, k)
    decreases k
  {
    if k > 0 { ZeroHasNoBits(k - 1); }
  }

  lemma {:induction false} NoHighBit(w: nat, n: nat, k: nat)
    requires w < Pow2(n) && n <= k
    ensures !Bit(w, k)
    decreases k
  {
    if n == 0 { ZeroHasNoBits(k); } else { NoHighBit(w / 2, n - 1, k - 1); }
  }

  lemma {:induction false} PowerBit(n: nat, k: nat)
    ensures Bit(Pow2(n), k) <==> k == n
    decreases k
  {
    if n == 0 {
      if k > 0 { ZeroHasNoBits(k - 1); }
    } else if k > 0 {
      PowerBit(n - 1, k - 1);
    }
  }

  /** `|` sets exactly the bits that either operand has. */
  lemma {:induction false} OrBits(a: nat, b: nat, k: nat)
    ensures Bit(BitOr(a, b), k) <==> Bit(a, k) || Bit(b, k)
    decreases k
  {
    ZeroHasNoBits(k);
    if a != 0 && b != 0 && k > 0 {
      OrBits(a / 2, b / 2, k - 1);
    }
  }

  lemma {:induction false} OrBound(a: nat, b: nat, n: nat)
    requires a < Pow2(n) && b < Pow2(n)
    ensures BitOr(a, b) < Pow2(n)
    decreases n
  {
    if a != 0 && b != 0 {
      OrBound(a / 2, b / 2, n - 1);
    }
  }

  lemma Pow2Ten()
    ensures Pow2(10) == 1024
  {
    assert Pow2(5) == 32;
    Pow2Add(5, 5);
  }

  lemma Pow2Doubles(n: nat, m: nat)
    requires Pow2(n) == m
    ensures Pow2(n + n) == m * m
  {
    Pow2Add(n, n);
  }

  lemma Pow2Word()
    ensures Pow2(64) == WORD_SIZE
  {
    Pow2Doubles(4, 0x10); Pow2Doubles(8, 0x100); Pow2Doubles(16, 0x1_0000); Pow2Doubles(32, 0x1_0000_0000);
  }

  lemma {:induction false} Pow2Add(m: nat, n: nat)
    ensures Pow2(m + n) == Pow2(m) * Pow2(n)
    decreases m
  {
    if m > 0 { Pow2Add(m - 1, n); }
  }

  lemma OrFits(a: Word, b: Word)
    ensures 0 <= BitOr(a, b) < WORD_SIZE
  {
    Pow2Word();
    OrBound(a, b, 64);
  }

  lemma {:induction false} OrStep(a: nat, b: nat)
    ensures BitOr(a, b) == 2 * BitOr(a / 2, b / 2) + (if a % 2 == 1 || b % 2 == 1 then 1 else 0)
    ensures BitOr(a, b) / 2 == BitOr(a / 2, b / 2)
    ensures BitOr(a, b) % 2 == 1 <==> a % 2 == 1 || b % 2 == 1
  {
    if a == 0 || b == 0 {
      assert BitOr(a / 2, b / 2) == a / 2 + b / 2;
    }
  }

  lemma {:induction false} OrAssoc(a: nat, b: nat, c: nat)
    ensures BitOr(BitOr(a, b), c) == BitOr(a, BitOr(b, c))
    decreases a
  {
    if a != 0 {
      var l, r := BitOr(BitOr(a, b), c), BitOr(a, BitOr(b, c));
      OrStep(a, b); OrStep(b, c); OrStep(BitOr(a, b), c); OrStep(a, BitOr(b, c));
      OrAssoc(a / 2, b / 2, c / 2);
      assert l / 2 == r / 2 && l % 2 == r % 2;
    }
  }

  lemma Halve(x: nat, p: nat)
    ensures (x * (2 * p)) / 2 == x * p && (x * (2 * p)) % 2 == 0
  {
    assert x * (2 * p) == 2 * (x * p);
  }

  /** Or-ing a field below an aligned value is addition. */
  lemma {:induction false} OrAligned(x: nat, f: nat, k: nat)
    requires f < Pow2(k)
    ensures BitOr(x * Pow2(k), f) == x * Pow2(k) + f
    decreases k
  {
    if k > 0 {
      var p := Pow2(k - 1);
      Halve(x, p);
      OrAligned(x, f / 2, k - 1);
      OrStep(x * Pow2(k), f);
    }
  }

  function Shr(a: nat, k: nat): nat
    decreases k
  {
    if k == 0 then a else Shr(a / 2, k - 1)
  }

  lemma {:induction false} OrShr(a: nat, b: nat, k: nat)
    ensures Shr(BitOr(a, b), k) == BitOr(Shr(a, k), Shr(b, k))
    decreases k
  {
    if k > 0 {
      OrStep(a, b);
      OrShr(a / 2, b / 2, k - 1);
    }
  }

  lemma Shr10(a: nat)
    ensures Shr(a, 10) == a / 1024
  {
    assert Shr(a, 10) == Shr(a / 2 / 2 / 2 / 2 / 2, 5);
    assert a / 2 / 2 / 2 / 2 / 2 == a / 32;
    assert Shr(a / 32, 5) == a / 32 / 2 / 2 / 2 / 2 / 2;
  }

  /** The page-number field (everything above the low ten bits) of an or is the or of the fields. */
  lemma OrHighField(a: nat, b: nat)
    ensures BitOr(a, b) / 1024 == BitOr(a / 1024, b / 1024)
  {
    OrShr(a, b, 10);
    Shr10(a); Shr10(b); Shr10(BitOr(a, b));
  }
}
