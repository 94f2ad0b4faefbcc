/** What several of the models need. */
module Common {

  datatype Option<+T> = None | Some(value: T)

  function Min(a: int, b: int): int {
    if a < b then a else b
  }

  function Max(a: int, b: int): int {
    if a < b then b else a
  }

  /** The last `n` elements, or all when there are fewer. */
  function KeepLast<T>(s: seq<T>, n: nat): (r: seq<T>)
    ensures |r| == if |s| < n then |s| else n
  {
    if |s| > n then s[|s| - n..] else s
  }

  lemma ModOf(n: nat, q: int, r: nat)
    requires r < n
    ensures (n * q + r) % n == r
  {
    var x := n * q + r;
    var d := x / n - q;
    assert n * d == r - x % n by { assert x == n * (x / n) + x % n; }
    MulBounds(n, d);
  }

  lemma MulBounds(n: nat, d: int)
    ensures d >= 1 ==> n * d >= n
    ensures d <= -1 ==> n * d + n <= 0
  {
  }

  lemma MulMono(a: nat, b: nat, c: nat)
    requires a <= b
    ensures a * c <= b * c
  {
  }
}
