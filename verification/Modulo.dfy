/** The few facts about remainders that ring indices need. */
module Modulo {
  lemma DivMod(a: nat, n: nat)
    requires n > 0
    ensures a == n * (a / n) + a % n && 0 <= a % n < n
  {
  }

  lemma MulAtLeast(n: nat, d: int)
    requires n > 0
    ensures d >= 1 ==> n * d >= n
    ensures d <= 0 ==> n * d <= 0
  {
    if d >= 1 {
      MulLe(n, 1, d);
    } else {
      MulLe(n, d, 0);
    }
  }

  lemma MulLe(n: nat, a: int, b: int)
    requires a <= b
    ensures n * a <= n * b
  {
  }

  lemma MulSub(n: int, a: int, b: int)
    ensures n * a - n * b == n * (a - b)
  {
  }

  lemma ModSmall(a: nat, n: nat)
    requires a < n
    ensures a % n == a
  {
  }

  /** The quotient and remainder of a number are unique. */
  lemma Unique(n: nat, q: nat, r: nat, q': nat, r': nat)
    requires r < n && r' < n && n * q + r == n * q' + r'
    ensures q == q' && r == r'
  {
    MulSub(n, q, q');
    MulAtLeast(n, q - q');
    MulSub(n, q', q);
    MulAtLeast(n, q' - q);
  }

  lemma ModAddMultiple(a: nat, k: nat, n: nat)
    requires n > 0
    ensures (a + n * k) % n == a % n
  {
    DivMod(a, n);
    DivMod(a + n * k, n);
    MulAdd(n, a / n, k);
    Unique(n, a / n + k, a % n, (a + n * k) / n, (a + n * k) % n);
  }

  lemma MulAdd(n: int, a: int, b: int)
    ensures n * a + n * b == n * (a + b)
  {
  }

  lemma MulAssoc(a: int, b: int, d: int)
    ensures (a * b) * d == a * (b * d)
  {
  }

  lemma AddMultiple(q: nat, r: nat, k: nat, w: nat)
    requires w > 0
    ensures (w * q + r + k) % w == (r + k) % w
  {
    ModAddMultiple(r + k, q, w);
  }

  /** Adding to a remainder wraps like adding to the number. */
  lemma AddWrap(a: nat, k: nat, w: nat)
    requires w > 0
    ensures (a % w + k) % w == (a + k) % w
  {
    var q, r := a / w, a % w;
    DivMod(a, w);
    AddMultiple(q, r, k, w);
  }

  /** Two numbers less than n apart leave different remainders. */
  lemma DistinctResidues(a: nat, b: nat, n: nat)
    requires a < b < a + n
    ensures a % n != b % n
  {
    DivMod(a, n);
    DivMod(b, n);
    MulSub(n, b / n, a / n);
    MulAtLeast(n, b / n - a / n);
  }

  /** Subtracting two wrapped counters gives their true distance. */
  lemma SubMod(a: nat, b: nat, w: nat)
    requires w > 0 && b <= a < b + w
    ensures (a % w + w - b % w) % w == a - b
  {
    DivMod(a, w);
    DivMod(b, w);
    SubParts(a, b, w, a / w, a % w, b / w, b % w);
  }

  lemma SubParts(a: nat, b: nat, w: nat, q: nat, r: nat, q': nat, r': nat)
    requires b <= a < b + w && a == w * q + r && b == w * q' + r' && r < w && r' < w
    ensures (r + w - r') % w == a - b
  {
    OneApart(w, q, r, q', r');
    WrapBack(r, r', a - b, w);
  }

  lemma WrapBack(x: nat, y: nat, d: nat, w: nat)
    requires y < w && d < w && (d == x - y || d == x + w - y)
    ensures (x + w - y) % w == d
  {
    if d == x - y {
      assert x + w - y == d + w;
    }
    SumSmall(d, w);
  }

  /** Numbers less than w apart have quotients at most one apart. */
  lemma OneApart(w: nat, q: nat, r: nat, q': nat, r': nat)
    requires r < w && r' < w && w * q' + r' <= w * q + r < w * q' + r' + w
    ensures w * q + r - (w * q' + r') == r - r' || w * q + r - (w * q' + r') == r + w - r'
  {
    MulSub(w, q, q');
    MulAtLeast(w, q - q');
    MulAtLeast(w, q - q' - 1);
    MulSub(w, q - q', 1);
  }

  lemma SumSmall(d: nat, w: nat)
    requires d < w
    ensures d % w == d && (d + w) % w == d
  {
    ModSmall(d, w);
    ModAddMultiple(d, 1, w);
  }
}
