// Unsigned 64-bit wrap-around and masking by a power of two minus one.
module Masks {

  const WORD: int := 0x1_0000_0000_0000_0000

  function Pow2(k: nat): (p: nat)
    ensures p > 0
  {
    if k == 0 then 1 else 2 * Pow2(k - 1)
  }

  // A computation on std::size_t keeps the low 64 bits.
  function Wrap(x: int): nat {
    x % WORD
  }

  // Bitwise and.
  function And(a: nat, b: nat): (r: nat)
    ensures r <= a && r <= b
    decreases a
  {
    if a == 0 || b == 0 then 0 else 2 * And(a / 2, b / 2) + (a % 2) * (b % 2)
  }

  // ---------- Division facts ----------

  lemma MulGap(m: int, d: int)
    requires m > 0
    ensures d >= 1 ==> m * d >= m
    ensures d <= -1 ==> m * d <= -m
  {
  }

  lemma DivUnique(x: int, m: int, q: int, r: int)
    requires m > 0 && x == m * q + r && 0 <= r < m
    ensures x % m == r && x / m == q
  {
    var d := q - x / m;
    assert m * d == x % m - r by {
      assert x == m * (x / m) + x % m;
      assert m * q - m * (x / m) == m * d;
    }
    MulGap(m, d);
  }

  lemma ModShift(x: int, m: int, j: int)
    requires m > 0
    ensures (x + m * j) % m == x % m
  {
    assert x + m * j == m * (x / m + j) + x % m;
    DivUnique(x + m * j, m, x / m + j, x % m);
  }

  lemma ModAdd(a: int, b: int, m: int)
    requires m > 0
    ensures (a % m + b) % m == (a + b) % m
  {
    assert a % m + b == (a + b) + m * (-(a / m));
    ModShift(a + b, m, -(a / m));
  }

  lemma ModSub(a: int, b: int, m: int)
    requires m > 0
    ensures (a % m - b % m) % m == (a - b) % m
  {
    ModAdd(a, -(b % m), m);
    assert a - b % m == (a - b) + m * (b / m);
    ModShift(a - b, m, b / m);
  }

  // Numbers less than m apart have different remainders.
  lemma ModApart(a: int, b: int, m: int)
    requires 0 < b - a < m
    ensures a % m != b % m
  {
    var d := b / m - a / m;
    assert b - a == m * d + (b % m - a % m) by {
      assert a == m * (a / m) + a % m;
      assert b == m * (b / m) + b % m;
      assert m * (b / m) - m * (a / m) == m * d;
    }
    MulGap(m, d);
  }

  lemma ModMod(x: int, m: int, n: int)
    requires m > 0 && n > 0
    ensures m * n > 0 && (x % (m * n)) % m == x % m
  {
    assert m * n > 0;
    var q := x / (m * n);
    assert x % (m * n) == x + m * (-(n * q)) by {
      assert x == (m * n) * q + x % (m * n);
      assert (m * n) * q == m * (n * q);
    }
    ModShift(x, m, -(n * q));
  }

  // ---------- Powers of two ----------

  lemma {:induction false} Pow2Add(i: nat, j: nat)
    ensures Pow2(i + j) == Pow2(i) * Pow2(j)
  {
    if i > 0 {
      Pow2Add(i - 1, j);
      assert Pow2(i + j) == 2 * Pow2(i - 1 + j) && Pow2(i) == 2 * Pow2(i - 1);
      hide Pow2;
      assert 2 * (Pow2(i - 1) * Pow2(j)) == (2 * Pow2(i - 1)) * Pow2(j);
    }
  }

  lemma Pow2Square(i: nat, v: nat)
    requires Pow2(i) == v
    ensures Pow2(2 * i) == v * v
  {
    Pow2Add(i, i);
  }

  lemma Pow2Word()
    ensures Pow2(64) == WORD
  {
    assert Pow2(8) == 0x100;
    Pow2Square(8, 0x100);
    Pow2Square(16, 0x1_0000);
    Pow2Square(32, 0x1_0000_0000);
  }

  // ---------- Masking ----------

  // Removing the lowest bit of a remainder.
  lemma HalfMod(x: nat, h: nat)
    requires h > 0
    ensures x % (2 * h) == 2 * (x / 2 % h) + x % 2
  {
    var q := x / 2 / h;
    assert x / 2 == h * q + x / 2 % h;
    assert x == (2 * h) * q + (2 * (x / 2 % h) + x % 2) by {
      assert x == 2 * (x / 2) + x % 2;
      assert 2 * (h * q) == (2 * h) * q;
    }
    DivUnique(x, 2 * h, q, 2 * (x / 2 % h) + x % 2);
  }

  lemma {:induction false} AndMask(x: nat, k: nat)
    ensures And(x, Pow2(k) - 1) == x % Pow2(k)
    decreases x
  {
    if x == 0 || k == 0 {
    } else {
      var h := Pow2(k - 1);
      assert (2 * h - 1) / 2 == h - 1 && (2 * h - 1) % 2 == 1;
      AndMask(x / 2, k - 1);
      HalfMod(x, h);
    }
  }

  // Masking a wrapped result gives the remainder of the unwrapped one.
  lemma WrapMask(x: int, k: nat)
    requires k <= 64
    ensures And(Wrap(x), Pow2(k) - 1) == x % Pow2(k)
  {
    AndMask(Wrap(x), k);
    Pow2Add(k, 64 - k);
    Pow2Word();
    ModMod(x, Pow2(k), Pow2(64 - k));
  }
}
