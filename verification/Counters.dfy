/**
  32-bit counters that wrap: the C type `uint` as residues modulo 2^32 of an
  unbounded count.
 */
module Counters {

  const WORD: nat := 0x1_0000_0000

  type Word = x: int | 0 <= x < WORD

  function Next(x: Word): Word {
    (x + 1) % WORD
  }

  function Plus(x: Word, y: Word): Word {
    (x + y) % WORD
  }

  function Minus(x: Word, y: Word): Word {
    (x - y) % WORD
  }

  // The slot of a counter in a ring of n entries.
  function Slot(x: Word, n: nat): nat
    requires n > 0
    ensures Slot(x, n) < n
  {
    x % n
  }

  lemma DifferenceOfResidues(a: int, b: int, m: nat)
    requires m > 0
    ensures (a % m - b % m - 1) % m == (a - b - 1) % m
  {
    ShiftByMultiple(a - b - 1, b / m - a / m, m);
    assert (a - b - 1) + (b / m - a / m) * m == a % m - b % m - 1 by {
      Distribute(b / m, a / m, m);
    }
  }

  lemma Distribute(x: int, y: int, m: int)
    ensures (x - y) * m == x * m - y * m
  {
  }

  lemma {:induction false} ShiftByMultiple(a: int, q: int, m: nat)
    requires m > 0
    ensures (a + q * m) % m == a % m
    decreases if q < 0 then -q else q
  {
    if q > 0 {
      ShiftByMultiple(a, q - 1, m);
      OneMore(a + (q - 1) * m, m);
      assert a + (q - 1) * m + m == a + q * m;
    } else if q < 0 {
      ShiftByMultiple(a, q + 1, m);
      OneMore(a + q * m, m);
      assert a + (q + 1) * m == a + q * m + m;
    }
  }

  lemma OneMore(a: int, m: nat)
    requires m > 0
    ensures (a + m) % m == a % m
  {
    var q, r := a / m, a % m;
    assert a == q * m + r && a + m == (q + 1) * m + r;
    Unique(a + m, q + 1, r, m);
  }

  // Division with remainder is unique.
  lemma Unique(a: int, q: int, r: int, m: nat)
    requires m > 0 && 0 <= r < m && a == q * m + r
    ensures a % m == r
  {
    var d := a / m - q;
    assert d * m == r - a % m by {
      Distribute(a / m, q, m);
    }
    Magnitude(d, m);
  }

  lemma Magnitude(d: int, m: int)
    requires m > 0
    ensures (d >= 1 ==> d * m >= m) && (d <= -1 ==> d * m <= -m)
  {
  }

  // The ring's index is the same for the wrapped and the unbounded counter, if the
  // ring's size divides 2^32.
  lemma SlotOf(n: nat, size: nat, k: nat)
    requires size > 0 && size * k == WORD
    ensures Slot(n % WORD, size) == n % size
  {
    var q := n / WORD;
    assert -q * k * size == -q * WORD by {
      Regroup(-q, k, size);
    }
    assert n % WORD == n + -q * k * size;
    ShiftByMultiple(n, -q * k, size);
  }

  lemma Regroup(a: int, b: int, c: int)
    ensures a * b * c == a * (c * b)
  {
  }

  // Two positions less than one lap apart use different slots.
  lemma SlotsDiffer(i: nat, n: nat, size: nat)
    requires i < n < i + size
    ensures i % size != n % size
  {
    var d := n / size - i / size;
    Distribute(n / size, i / size, size);
    assert n - i == d * size + n % size - i % size;
    Magnitude(d, size);
  }

  lemma Sum(a: nat, b: Word)
    ensures Plus(a % WORD, b) == (a + b) % WORD
  {
    ShiftByMultiple(a % WORD + b, a / WORD, WORD);
  }

  lemma Increment(n: nat)
    ensures Next(n % WORD) == (n + 1) % WORD
  {
    ShiftByMultiple(n % WORD + 1, n / WORD, WORD);
  }

  // The distance between two wrapped counters that are less than 2^32 apart.
  lemma Distance(a: nat, b: nat)
    requires b <= a < b + WORD
    ensures (a % WORD - b % WORD) % WORD == a - b
  {
    var q := b / WORD - a / WORD;
    assert a % WORD - b % WORD == (a - b) + q * WORD;
    ShiftByMultiple(a - b, q, WORD);
  }
}
