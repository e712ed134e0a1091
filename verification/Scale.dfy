/** Addresses as multiples of a unit that is only known at mount time. `Times` and `Quot` are
    multiplication and division by recursion, which keeps address proofs linear; `TimesIsProduct` and
    `QuotIsDivision` connect them to the source's operators. */
module Scale {

  function Times(k: nat, n: nat): nat {
    if n == 0 then 0 else Times(k, n - 1) + k
  }

  /** The unit that contains position `x`. */
  function Quot(k: nat, x: nat): (q: nat)
    requires 0 < k
    ensures Times(k, q) <= x < Times(k, q) + k
  {
    if x < k then 0 else Quot(k, x - k) + 1
  }

  lemma {:induction false} TimesMonotone(k: nat, a: nat, b: nat)
    requires a < b
    ensures Times(k, a) + k <= Times(k, b)
  {
    if a + 1 < b {
      TimesMonotone(k, a, b - 1);
    }
  }

  lemma {:induction false} TimesAdd(k: nat, a: nat, b: nat)
    ensures Times(k, a + b) == Times(k, a) + Times(k, b)
  {
    if b > 0 {
      TimesAdd(k, a, b - 1);
    }
  }

  /** The unit of a position is unique. */
  lemma QuotUnique(k: nat, q: nat, r: nat)
    requires r < k
    ensures Quot(k, Times(k, q) + r) == q
  {
    var p := Quot(k, Times(k, q) + r);
    if p < q { TimesMonotone(k, p, q); }
    if q < p { TimesMonotone(k, q, p); }
  }

  lemma QuotBelow(k: nat, x: nat, n: nat)
    requires 0 < k && x < Times(k, n)
    ensures Quot(k, x) < n
  {
    var q := Quot(k, x);
    if n < q { TimesMonotone(k, n, q); }
  }

  lemma {:induction false} TimesIsProduct(k: nat, n: nat)
    ensures Times(k, n) == n * k
  {
    if n > 0 {
      TimesIsProduct(k, n - 1);
      assert (n - 1) * k + k == n * k;
    }
  }

  lemma QuotIsDivision(k: nat, x: nat)
    requires 0 < k
    ensures Quot(k, x) == x / k && x - Times(k, Quot(k, x)) == x % k
  {
    var q := Quot(k, x);
    TimesIsProduct(k, q);
    DivisionUnique(x, k, q, x - q * k);
  }

  lemma DivisionUnique(x: int, d: nat, q: int, r: nat)
    requires 0 < d && x == q * d + r && r < d
    ensures x / d == q && x % d == r
  {
    var e := x / d - q;
    assert e * d == r - x % d;
    assert e == 0;
  }

  /** Division as the source performs it. */
  method DivMod(k: nat, x: nat) returns (q: nat, r: nat)
    requires 0 < k
    ensures q == Quot(k, x) && x == Times(k, q) + r && r < k
  {
    QuotIsDivision(k, x);
    q, r := x / k, x % k;
  }

  method Mul(k: nat, n: nat) returns (p: nat)
    ensures p == Times(k, n)
  {
    TimesIsProduct(k, n);
    p := n * k;
  }

  // ----- byte strings -----

  type Byte = x: int | 0 <= x < 256

  function Put(d: seq<Byte>, p: nat, s: seq<Byte>): (r: seq<Byte>)
    requires p + |s| <= |d|
    ensures |r| == |d|
    ensures forall i | 0 <= i < |d| :: r[i] == if p <= i < p + |s| then s[i - p] else d[i]
  {
    d[..p] + s + d[p + |s|..]
  }

  lemma PutNone(s: seq<Byte>, p: nat, data: seq<Byte>)
    requires p <= |s|
    ensures Put(s, p, data[..0]) == s
  {
  }

  /** Writing the next part of a string after the first `done` bytes. */
  lemma PutMore(s: seq<Byte>, p: nat, data: seq<Byte>, done: nat, n: nat)
    requires done + n <= |data| && p + |data| <= |s|
    ensures Put(Put(s, p, data[..done]), p + done, data[done..done + n]) == Put(s, p, data[..done + n])
  {
  }

  function Zeros(n: nat): (r: seq<Byte>)
    ensures |r| == n && forall i | 0 <= i < n :: r[i] == 0
  {
    seq(n, _ => 0)
  }

  /** The outcome of a write that may be torn: each byte of the range is old or new. */
  ghost predicate Torn(a: seq<Byte>, b: seq<Byte>, offset: nat, data: seq<Byte>) {
    && |b| == |a|
    && forall i | 0 <= i < |a| :: b[i] == a[i] || (offset <= i < offset + |data| && b[i] == data[i - offset])
  }

  /** Big-endian 32-bit words. */
  function Read32(s: seq<Byte>, p: nat): (v: nat)
    requires p + 4 <= |s|
    ensures v < 0x1_0000_0000
  {
    (s[p] as int) * 0x100_0000 + (s[p + 1] as int) * 0x1_0000 + (s[p + 2] as int) * 0x100 + s[p + 3] as int
  }

  function Write32(v: nat): (s: seq<Byte>)
    requires v < 0x1_0000_0000
    ensures |s| == 4 && Read32(s, 0) == v
  {
    var v1 := v / 256;
    var v2 := v1 / 256;
    var v3 := v2 / 256;
    assert v == v1 * 256 + v % 256 && v1 == v2 * 256 + v1 % 256 && v2 == v3 * 256 + v2 % 256;
    assert v3 < 256;
    [v3 as Byte, (v2 % 256) as Byte, (v1 % 256) as Byte, (v % 256) as Byte]
  }

  /** Storing a word changes that word and no other. */
  lemma PutWord(s: seq<Byte>, base: nat, i: nat, v: nat, j: nat)
    requires base + 4 * i + 4 <= |s| && base + 4 * j + 4 <= |s| && v < 0x1_0000_0000
    ensures Read32(Put(s, base + 4 * i, Write32(v)), base + 4 * j) == if j == i then v else Read32(s, base + 4 * j)
  {
    var p, q := base + 4 * i, base + 4 * j;
    var t := Put(s, p, Write32(v));
    assert forall k | q <= k < q + 4 :: t[k] == if j == i then Write32(v)[k - p] else s[k];
  }
}
