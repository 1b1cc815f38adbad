/** Definitions shared by the component models. */
module Common {

  datatype Option<+T> = None | Some(value: T)

  type Byte = x: int | 0 <= x < 256

  lemma ConcatAssoc<T>(a: seq<T>, b: seq<T>, c: seq<T>)
    ensures a + b + c == a + (b + c)
  {
  }

  lemma SplitConcat<T>(a: seq<T>, b: seq<T>)
    ensures (a + b)[..|a|] == a && (a + b)[|a|..] == b
  {
  }

  lemma SplitPrefix<T>(a: seq<T>, b: seq<T>, n: nat)
    requires n <= |a|
    ensures (a + b)[..n] == a[..n] && (a + b)[n..] == a[n..] + b
  {
  }

  lemma TakeCons<T>(s: seq<T>, k: nat)
    requires k < |s|
    ensures s[..k + 1] == [s[0]] + s[1..][..k]
  {
  }

  lemma TakeSnoc<T>(s: seq<T>, k: nat)
    requires k < |s|
    ensures s[..k + 1] == s[..k] + [s[k]]
  {
  }

  lemma TakeAll<T>(s: seq<T>)
    ensures s[..|s|] == s
  {
  }

  lemma RemoveAt<T>(s: seq<T>, i: nat)
    requires i < |s|
    ensures var r := s[..i] + s[i + 1..];
            && |r| == |s| - 1
            && (forall j :: 0 <= j < i ==> r[j] == s[j])
            && (forall j :: i <= j < |r| ==> r[j] == s[j + 1])
  {
  }

  // ---- Counting threads ---------------------------------------------------

  /** How many entries of a thread table satisfy `at`. */
  ghost function Count<P>(ts: seq<P>, at: P -> bool): nat
  {
    if ts == [] then 0 else (if at(ts[0]) then 1 else 0) + Count(ts[1..], at)
  }

  /** Moving one thread changes a count by that thread's own contribution. */
  lemma {:induction false} CountUpdate<P>(ts: seq<P>, i: nat, p: P, at: P -> bool)
    requires i < |ts|
    ensures Count(ts[i := p], at) + (if at(ts[i]) then 1 else 0) == Count(ts, at) + (if at(p) then 1 else 0)
    ensures at(ts[i]) ==> Count(ts, at) > 0
    ensures at(p) ==> Count(ts[i := p], at) > 0
  {
    var us := ts[i := p];
    if i == 0 {
      assert us[1..] == ts[1..];
    } else {
      assert us[1..] == ts[1..][i - 1 := p];
      CountUpdate(ts[1..], i - 1, p, at);
    }
  }

  /** A count is positive exactly when some thread has the property. */
  lemma {:induction false} CountPositive<P>(ts: seq<P>, at: P -> bool)
    ensures Count(ts, at) > 0 <==> exists i :: 0 <= i < |ts| && at(ts[i])
  {
    if ts != [] {
      CountPositive(ts[1..], at);
      if i :| 0 <= i < |ts| && at(ts[i]) {
        if i > 0 { assert at(ts[1..][i - 1]); }
      }
      if j :| 0 <= j < |ts| - 1 && at(ts[1..][j]) { assert at(ts[j + 1]); }
    }
  }

  function One(b: bool): int { if b then 1 else 0 }

  // ---- Ring indices -------------------------------------------------------

  /** Index `i` of a ring of `n` slots, for an index at most one lap ahead. */
  function Wrap(i: nat, n: nat): nat
  {
    if i < n then i else i - n
  }

  /** The remainder taken by the code when it advances an index is that wrap. */
  lemma WrapIsMod(i: nat, n: nat)
    requires 0 < n && i <= n
    ensures i % n == Wrap(i, n) < n
  {
  }

  // ---- Integers as bytes --------------------------------------------------

  /** The `k` low bytes of `n`, lowest first. */
  function LittleEndian(n: nat, k: nat): (bs: seq<Byte>)
    ensures |bs| == k
  {
    if k == 0 then [] else [n % 256] + LittleEndian(n / 256, k - 1)
  }

  function FromLittleEndian(bs: seq<Byte>): nat {
    if bs == [] then 0 else bs[0] + 256 * FromLittleEndian(bs[1..])
  }

  function Pow256(k: nat): (p: nat)
    ensures p > 0
  {
    if k == 0 then 1 else 256 * Pow256(k - 1)
  }

  lemma {:induction false} LittleEndianRoundTrip(n: nat, k: nat)
    requires n < Pow256(k)
    ensures FromLittleEndian(LittleEndian(n, k)) == n
  {
    if k > 0 {
      assert n / 256 < Pow256(k - 1);
      LittleEndianRoundTrip(n / 256, k - 1);
      assert LittleEndian(n, k)[1..] == LittleEndian(n / 256, k - 1);
    }
  }

  lemma {:induction false} FromLittleEndianBound(bs: seq<Byte>)
    ensures FromLittleEndian(bs) < Pow256(|bs|)
  {
    if bs != [] { FromLittleEndianBound(bs[1..]); }
  }

  /** Byte `i` of the encoding is digit `i` in base 256. */
  lemma {:induction false} LittleEndianDigit(n: nat, k: nat, i: nat)
    requires i < k
    ensures LittleEndian(n, k)[i] == n / Pow256(i) % 256
  {
    if i > 0 {
      LittleEndianDigit(n / 256, k - 1, i - 1);
      assert LittleEndian(n, k)[i] == LittleEndian(n / 256, k - 1)[i - 1];
      DivideTwice(n, Pow256(i - 1));
    }
  }

  lemma DivideTwice(n: nat, d: nat)
    requires d > 0
    ensures n / 256 / d == n / (256 * d)
  {
    var q, r := n / 256, n % 256;
    var a, b := q / d, q % d;
    assert n == 256 * (d * a + b) + r;
    assert n == (256 * d) * a + (256 * b + r);
    assert 0 <= 256 * b + r < 256 * d;
    QuotientIs(n, 256 * d, a, 256 * b + r);
  }

  lemma QuotientIs(n: nat, d: nat, q: nat, r: nat)
    requires d > 0 && n == d * q + r && r < d
    ensures n / d == q
  {
    var p := n / d;
    DivMod(n, d);
    if p < q { TimesMonotone(d, p + 1, q); }
    if p > q { TimesMonotone(d, q + 1, p); }
  }

  lemma DivMod(n: nat, d: nat)
    requires d > 0
    ensures d * (n / d) <= n < d * (n / d) + d
  {
  }

  lemma TimesMonotone(d: nat, a: nat, b: nat)
    requires a <= b
    ensures d * a <= d * b && d * a == d * (a - 1) + d
  {
    assert d * b == d * a + d * (b - a);
  }
}
