/**
 * The few JavaScript built-ins the game logic relies on: `Array.prototype.findIndex`,
 * `Array.prototype.find`, the `%` operator (which truncates toward zero, unlike
 * Dafny's Euclidean `%`) and `Math.min` / `Math.max`.
 */
module Builtins {

  /** `undefined` / `null` versus a present value. */
  datatype Option<+T> = None | Some(value: T)

  /** `s.findIndex(f)`: the first index whose element satisfies `f`, or -1. */
  function FindIndex<T>(s: seq<T>, f: T -> bool): (k: int)
    ensures -1 <= k < |s|
    ensures k == -1 <==> forall i :: 0 <= i < |s| ==> !f(s[i])
    ensures 0 <= k ==> f(s[k]) && forall i :: 0 <= i < k ==> !f(s[i])
  {
    if |s| == 0 then -1
    else if f(s[0]) then 0
    else
      var k := FindIndex(s[1..], f);
      if k == -1 then -1 else k + 1
  }

  /** `s.find(f)`: the first element satisfying `f`, or `undefined`. */
  function Find<T>(s: seq<T>, f: T -> bool): (r: Option<T>)
    ensures r.None? <==> forall i :: 0 <= i < |s| ==> !f(s[i])
    ensures r.Some? ==> r.value in s && f(r.value)
    ensures r.Some? ==> exists k :: 0 <= k < |s| && s[k] == r.value && forall i :: 0 <= i < k ==> !f(s[i])
  {
    var k := FindIndex(s, f);
    if k == -1 then None else Some(s[k])
  }

  /** Two searches with the same predicate agree when the predicate agrees position by position. */
  lemma {:induction false} FindIndexRespectsAgreement<T, U>(s: seq<T>, f: T -> bool, t: seq<U>, g: U -> bool)
    requires |s| == |t|
    requires forall i :: 0 <= i < |s| ==> f(s[i]) == g(t[i])
    ensures FindIndex(s, f) == FindIndex(t, g)
  {
    if |s| > 0 && !f(s[0]) {
      assert forall i :: 0 <= i < |s[1..]| ==> f(s[1..][i]) == g(t[1..][i]) by {
        forall i | 0 <= i < |s[1..]| ensures f(s[1..][i]) == g(t[1..][i]) {
          assert s[1..][i] == s[i + 1] && t[1..][i] == t[i + 1];
        }
      }
      FindIndexRespectsAgreement(s[1..], f, t[1..], g);
    }
  }

  /** JavaScript's `a % b` for a positive divisor: the remainder carries the sign of `a`. */
  function Rem(a: int, b: int): (r: int)
    requires b > 0
    ensures a >= 0 ==> 0 <= r < b
    ensures a < 0 ==> -b < r <= 0
    ensures r % b == a % b
  {
    if a >= 0 then a % b
    else
      var m := (-a) % b;
      NegatedRemainder(-a, b);
      -m
  }

  /** For `n >= 0`, `-(n % b)` and `-n` leave the same Euclidean remainder. */
  lemma NegatedRemainder(n: int, b: int)
    requires n >= 0 && b > 0
    ensures (-(n % b)) % b == (-n) % b
  {
    var q, m := n / b, n % b;
    var p, k := (-m) / b, (-m) % b;
    assert -m == b * p + k;
    assert -n == b * (p - q) + k by {
      assert n == b * q + m;
      assert b * p - b * q == b * (p - q);
    }
    RemainderUnique(-n, b, p - q, k);
  }

  /** Euclidean division has one quotient and one remainder. */
  lemma RemainderUnique(x: int, b: int, q: int, k: int)
    requires b > 0 && 0 <= k < b && x == b * q + k
    ensures x % b == k
  {
    var q', k' := x / b, x % b;
    assert b * (q - q') == k' - k by {
      assert x == b * q' + k';
      assert b * q - b * q' == b * (q - q');
    }
    if q - q' >= 1 {
      assert false;
    } else if q - q' <= -1 {
      assert false;
    }
  }

  function Min(a: int, b: int): (r: int)
    ensures r <= a && r <= b && (r == a || r == b)
  {
    if a <= b then a else b
  }

  function Max(a: int, b: int): (r: int)
    ensures r >= a && r >= b && (r == a || r == b)
  {
    if a >= b then a else b
  }
}
