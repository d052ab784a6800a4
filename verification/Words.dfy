/** Unsigned words and masking by a power of two. */
module Words {
  import opened Arithmetic

  const WORD: nat := 0x1_0000_0000
  const WORD64: nat := 0x1_0000_0000_0000_0000

  function Pow2(k: nat): nat
    ensures Pow2(k) >= 1
  {
    if k == 0 then 1 else 2 * Pow2(k - 1)
  }

  ghost predicate IsPow2(n: nat) {
    exists k: nat :: k <= 31 && Pow2(k) == n
  }

  /** Bitwise conjunction, bit by bit. */
  function And(x: nat, y: nat): nat {
    if x == 0 || y == 0 then 0 else (if x % 2 == 1 && y % 2 == 1 then 1 else 0) + 2 * And(x / 2, y / 2)
  }

  lemma HalfRemainder(x: nat, half: nat)
    requires half > 0
    ensures x % (2 * half) == 2 * (x / 2 % half) + x % 2
  {
    var q := x / 2 / half;
    QuotientBounds(x / 2, half);
    QuotientUnique(x / 2, half, q);
    assert q * (2 * half) == 2 * (q * half);
    QuotientUnique(x, 2 * half, q);
  }

  lemma AndByHalves(x: nat, y: nat)
    requires y % 2 == 1
    ensures And(x, y) == x % 2 + 2 * And(x / 2, y / 2)
  {
  }

  lemma OddHalves(half: nat)
    requires half > 0
    ensures (2 * half - 1) % 2 == 1 && (2 * half - 1) / 2 == half - 1
  {
  }

  /** Masking with a power of two less one takes the remainder. */
  lemma {:induction false} MaskIsRemainder(x: nat, k: nat)
    ensures And(x, Pow2(k) - 1) == x % Pow2(k)
  {
    if k > 0 {
      MaskIsRemainder(x / 2, k - 1);
      var half := Pow2(k - 1);
      OddHalves(half);
      AndByHalves(x, 2 * half - 1);
      HalfRemainder(x, half);
    }
  }

  lemma {:induction false} Pow2Divides(j: nat, k: nat)
    requires j <= k
    ensures Pow2(k) == Pow2(k - j) * Pow2(j)
    decreases k - j
  {
    if j < k {
      Pow2Divides(j, k - 1);
    }
  }

  lemma {:induction false} Pow2Grows(j: nat, k: nat)
    requires j <= k
    ensures Pow2(j) <= Pow2(k)
    decreases k - j
  {
    if j < k { Pow2Grows(j, k - 1); }
  }

  lemma Pow2Values()
    ensures Pow2(10) == 1024 && Pow2(11) == 2048 && Pow2(14) == 16384
  {
    assert Pow2(5) == 32 && Pow2(4) == 16;
    Pow2Divides(5, 10);
    assert Pow2(13) == 8 * Pow2(10) by { assert Pow2(12) == 4 * Pow2(10); }
  }

  lemma RemainderOfMultiple(n: nat, p: nat, c: nat, w: nat)
    requires c > 0 && w == p * c && w > 0
    ensures n % w % c == n % c
  {
    var q, r := n / w, n % w;
    QuotientBounds(r, c);
    assert q * w == q * p * c;
    assert (q * p + r / c) * c == q * p * c + r / c * c;
    QuotientUnique(n, c, q * p + r / c);
  }

  /** A power of two divides the word size, so the index of a counter survives the wrap. */
  lemma WordKeepsRemainder(n: nat, c: nat)
    requires IsPow2(c)
    ensures n % WORD % c == n % c
  {
    var k: nat :| k <= 31 && Pow2(k) == c;
    Pow2Divides(k, 32);
    WordIsPow2();
    RemainderOfMultiple(n, Pow2(32 - k), c, WORD);
  }

  lemma WordIsPow2()
    ensures Pow2(32) == WORD
  {
    assert Pow2(8) == 256;
    Pow2Divides(8, 16);
    Pow2Divides(16, 32);
  }

  /** Adding to a word is adding to its counter. */
  lemma WordSum(a: nat, b: nat)
    ensures (a % WORD + b) % WORD == (a + b) % WORD
  {
  }

  /** The difference of two counters less than a word apart, computed on their words. */
  lemma WordDifference(a: nat, b: nat)
    requires b <= a < b + WORD
    ensures (a % WORD - b % WORD) % WORD == a - b
  {
  }

  /** The same when the first counter is behind: the difference wraps. */
  lemma WordBehind(a: nat, b: nat)
    requires a < b <= a + WORD
    ensures (a % WORD - b % WORD) % WORD == (if b - a == WORD then 0 else WORD - (b - a))
  {
  }

  /** Counters less than `c` apart have different remainders. */
  lemma NearRemaindersDiffer(a: nat, b: nat, c: nat)
    requires a < b < a + c
    ensures a % c != b % c
  {
    QuotientBounds(a, c);
    QuotientBounds(b, c);
    QuotientMonotone(a, b, c);
    if a % c == b % c && a / c < b / c { MulLess(a / c, b / c, c); }
  }
}
