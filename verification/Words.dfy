/** Machine words, and the bitwise AND the drivers mask their indices with. */
module Words {

  const U32_LIMIT: int := 0x1_0000_0000

  type u8 = x: int | 0 <= x < 0x100
  type u16 = x: int | 0 <= x < 0x1_0000
  type u32 = x: int | 0 <= x < U32_LIMIT
  type u64 = x: int | 0 <= x < 0x1_0000_0000_0000_0000

  datatype Option<+T> = None | Some(value: T)

  /** Arithmetic on `u32` wraps, for subtraction as well as for addition. */
  function Wrap32(x: int): u32 {
    x % 0x1_0000_0000
  }

  function Pow2(k: nat): (n: nat)
    ensures n >= 1
  {
    if k == 0 then 1 else 2 * Pow2(k - 1)
  }

  lemma {:induction false} Pow2Grows(j: nat, k: nat)
    requires j <= k
    ensures Pow2(j) <= Pow2(k)
    decreases k - j
  {
    if j < k {
      Pow2Grows(j + 1, k);
    }
  }

  lemma {:induction false} Pow2Product(j: nat, k: nat)
    ensures Pow2(j) * Pow2(k) == Pow2(j + k)
  {
    if j == 0 {
    } else {
      Pow2Product(j - 1, k);
      assert Pow2(j) * Pow2(k) == 2 * (Pow2(j - 1) * Pow2(k));
    }
  }

  lemma U32IsPow2()
    ensures Pow2(32) == U32_LIMIT
  {
    assert Pow2(8) == 256;
    Pow2Product(8, 8);
    Pow2Product(16, 16);
  }

  /** Bitwise AND, bit by bit from the least significant one. */
  function BitAnd(x: nat, y: nat): (r: nat)
    ensures r <= x
  {
    if x == 0 || y == 0 then 0
    else (if x % 2 == 1 && y % 2 == 1 then 1 else 0) + 2 * BitAnd(x / 2, y / 2)
  }

  lemma MultipleAtLeast(n: nat, t: int)
    ensures t >= 1 ==> n * t >= n
    ensures t <= -1 ==> n * t <= 0 - n
  {
    if t >= 1 {
      assert n * t == n + n * (t - 1);
    } else if t <= -1 {
      assert n * t == n * (t + 1) - n;
    }
  }

  lemma ModUnique(x: int, q: int, n: nat, r: nat)
    requires r < n && x == q * n + r
    ensures x % n == r
  {
    var d := q - x / n;
    assert x == n * (x / n) + x % n;
    assert n * d == x % n - r;
    MultipleAtLeast(n, d);
  }

  /** Two numbers less than n apart agree modulo n exactly when they are equal. */
  lemma ModInjective(a: int, b: int, n: nat)
    requires n > 0 && a <= b < a + n
    ensures a % n == b % n <==> a == b
  {
    var d := b / n - a / n;
    assert a == n * (a / n) + a % n && b == n * (b / n) + b % n;
    assert b - a == n * d + (b % n - a % n);
    MultipleAtLeast(n, d);
  }

  lemma ModAdd(a: int, c: int, n: nat)
    requires n > 0
    ensures (a % n + c) % n == (a + c) % n
  {
    var q := a / n;
    var s := a % n + c;
    assert a == n * q + a % n && s == n * (s / n) + s % n;
    assert a + c == (q + s / n) * n + s % n;
    ModUnique(a + c, q + s / n, n, s % n);
  }

  lemma OneLapOn(a: int, n: nat)
    requires n > 0
    ensures (a + n) % n == a % n
  {
    ModUnique(a + n, a / n + 1, n, a % n);
  }

  /** Reducing modulo a multiple of n first loses nothing modulo n. */
  lemma ModOfMod(x: int, n: nat, m: nat)
    requires n > 0 && m > 0 && n * m > 0
    ensures (x % (n * m)) % n == x % n
  {
    var y, z := x % (n * m), x / (n * m);
    assert x == (n * m) * z + y;
    assert y == n * (y / n) + y % n;
    assert (n * m) * z == (m * z) * n;
    assert x == (m * z + y / n) * n + y % n;
    ModUnique(x, m * z + y / n, n, y % n);
  }

  lemma HalveMod(x: nat, n: nat)
    requires n > 0
    ensures x % (2 * n) == 2 * ((x / 2) % n) + x % 2
  {
    var q, r := (x / 2) / n, (x / 2) % n;
    assert x / 2 == n * q + r;
    assert x == q * (2 * n) + (2 * r + x % 2);
    ModUnique(x, q, 2 * n, 2 * r + x % 2);
  }

  lemma BitAndOdd(x: nat, y: nat)
    requires y % 2 == 1
    ensures BitAnd(x, y) == x % 2 + 2 * BitAnd(x / 2, y / 2)
  {
  }

  /** Masking with a power of two less one is reduction modulo that power. */
  lemma {:induction false} MaskIsMod(x: nat, k: nat)
    ensures BitAnd(x, Pow2(k) - 1) == x % Pow2(k)
  {
    if k == 0 {
      assert Pow2(k) == 1 && BitAnd(x, 0) == 0;
    } else {
      hide BitAnd;
      var n := Pow2(k - 1);
      assert Pow2(k) == 2 * n;
      MaskIsMod(x / 2, k - 1);
      HalveMod(x, n);
      assert (2 * n - 1) / 2 == n - 1 && (2 * n - 1) % 2 == 1;
      BitAndOdd(x, 2 * n - 1);
    }
  }

  lemma WrapThenMod(x: int, k: nat)
    requires k <= 32
    ensures Wrap32(x) % Pow2(k) == x % Pow2(k)
  {
    U32IsPow2();
    Pow2Product(k, 32 - k);
    ModOfMod(x, Pow2(k), Pow2(32 - k));
  }
}
