/** Positional notation: fixed-width digit strings and the numbers they stand for. */
module BigEndian {
  import opened Basics

  function Pow(base: nat, n: nat): (r: nat)
    ensures base > 0 ==> r > 0
  {
    if n == 0 then 1 else base * Pow(base, n - 1)
  }

  /** The number that `digits` spell, most significant first. */
  function Value(base: nat, digits: seq<nat>): nat {
    if digits == [] then 0 else Value(base, digits[..|digits| - 1]) * base + digits[|digits| - 1]
  }

  ghost predicate Digits(base: nat, digits: seq<nat>) {
    forall i :: 0 <= i < |digits| ==> digits[i] < base
  }

  lemma ValueSnoc(base: nat, digits: seq<nat>, d: nat)
    ensures Value(base, digits + [d]) == Value(base, digits) * base + d
  {
    assert (digits + [d])[..|digits|] == digits;
  }

  /** Two digit strings of one width that spell the same number are the same string. */
  lemma {:induction false} ValueInjective(base: nat, xs: seq<nat>, ys: seq<nat>)
    requires base > 0 && |xs| == |ys| && Digits(base, xs) && Digits(base, ys)
    requires Value(base, xs) == Value(base, ys)
    ensures xs == ys
    decreases |xs|
  {
    if xs != [] {
      var n := |xs| - 1;
      DivisionUnique(base, Value(base, xs[..n]), xs[n], Value(base, ys[..n]), ys[n]);
      ValueInjective(base, xs[..n], ys[..n]);
      assert xs == xs[..n] + [xs[n]] && ys == ys[..n] + [ys[n]];
    }
  }

  lemma DivisionUnique(base: nat, p: nat, a: nat, q: nat, b: nat)
    requires base > 0 && a < base && b < base && p * base + a == q * base + b
    ensures p == q && a == b
  {
    QuotientOf(base, p, a);
    QuotientOf(base, q, b);
  }

  lemma {:induction false} QuotientOf(base: nat, p: nat, a: nat)
    requires base > 0 && a < base
    ensures (p * base + a) / base == p && (p * base + a) % base == a
  {
    var n := p * base + a;
    var q := n / base;
    assert n == q * base + n % base;
    assert (p - q) * base == n % base - a;
    AtLeast(base, p - q);
    AtLeast(base, q - p);
    assert (q - p) * base == -((p - q) * base);
  }

  lemma AtLeast(base: nat, k: int)
    ensures k >= 1 ==> k * base >= base
  {
  }

  /** `to_be_bytes` at width `n`: the low `n` bytes. */
  function Bytes(x: nat, n: nat): (r: seq<Byte>)
    ensures |r| == n
  {
    if n == 0 then [] else Bytes(x / 256, n - 1) + [x % 256]
  }

  lemma {:induction false} BytesInjective(x: nat, y: nat, n: nat)
    requires x < Pow(256, n) && y < Pow(256, n) && Bytes(x, n) == Bytes(y, n)
    ensures x == y
    decreases n
  {
    if n != 0 {
      assert Bytes(x, n)[n - 1] == x % 256 && Bytes(y, n)[n - 1] == y % 256;
      assert Bytes(x, n)[..n - 1] == Bytes(x / 256, n - 1) && Bytes(y, n)[..n - 1] == Bytes(y / 256, n - 1);
      BytesInjective(x / 256, y / 256, n - 1);
    }
  }
}
