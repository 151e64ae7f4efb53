/** Bytes and the little-endian integer conversions of Python's `int.to_bytes` and `int.from_bytes`. */
module Bytes {
  import opened Arithmetic

  type byte = x: int | 0 <= x < 256

  function Pow256(n: nat): (p: int)
    ensures p >= 1
  {
    if n == 0 then 1 else 256 * Pow256(n - 1)
  }

  /** The low `n` bytes of `x`, least significant first; two's complement when `x` is negative. */
  function ToLE(x: int, n: nat): (s: seq<byte>)
    ensures |s| == n
    decreases n, x
  {
    if n == 0 then [] else [x % 256] + ToLE(x / 256, n - 1)
  }

  function FromLE(s: seq<byte>): (x: nat)
    ensures x < Pow256(|s|)
  {
    if s == [] then 0 else s[0] + 256 * FromLE(s[1..])
  }

  /** `int.from_bytes(s, 'little', signed=True)`: the top bit of the last byte is the sign. */
  function FromLESigned(s: seq<byte>): int {
    if s != [] && s[|s| - 1] >= 128 then FromLE(s) - Pow256(|s|) else FromLE(s)
  }

  /** Two and four bytes written out, least significant first. */
  function Two(a: int, b: int): int {
    a + 256 * b
  }

  function Four(a: int, b: int, c: int, d: int): int {
    a + 256 * b + 65536 * c + 16777216 * d
  }

  function Reverse<T>(s: seq<T>): (r: seq<T>)
    ensures |r| == |s|
    ensures forall i :: 0 <= i < |s| ==> r[i] == s[|s| - 1 - i]
  {
    if s == [] then [] else Reverse(s[1..]) + [s[0]]
  }

  /** The concatenation of `f` over a list. */
  function ConcatMap<A, B>(f: A -> seq<B>, s: seq<A>): seq<B> {
    if s == [] then [] else f(s[0]) + ConcatMap(f, s[1..])
  }

  lemma Associate<T>(a: seq<T>, b: seq<T>, c: seq<T>)
    ensures a + (b + c) == a + b + c
  {
  }

  lemma ConcatMapUnfold<A, B>(f: A -> seq<B>, s: seq<A>)
    ensures ConcatMap(f, s) == if s == [] then [] else f(s[0]) + ConcatMap(f, s[1..])
  {
  }

  lemma {:induction false} ConcatMapAppend<A, B>(f: A -> seq<B>, a: seq<A>, b: seq<A>)
    ensures ConcatMap(f, a + b) == ConcatMap(f, a) + ConcatMap(f, b)
  {
    hide ConcatMap;
    ConcatMapUnfold(f, a);
    ConcatMapUnfold(f, a + b);
    if a == [] {
      assert a + b == b;
    } else {
      ConcatMapAppend(f, a[1..], b);
      assert (a + b)[1..] == a[1..] + b;
      Associate(f(a[0]), ConcatMap(f, a[1..]), ConcatMap(f, b));
    }
  }

  lemma ConcatMapOne<A, B>(f: A -> seq<B>, x: A)
    ensures ConcatMap(f, [x]) == f(x)
  {
    assert ConcatMap(f, [x]) == f(x) + ConcatMap(f, []);
  }

  /** The concatenation over the first i + 1 elements, as a loop builds it. */
  lemma ConcatMapStep<A, B>(f: A -> seq<B>, s: seq<A>, i: nat)
    requires i < |s|
    ensures ConcatMap(f, s[..i + 1]) == ConcatMap(f, s[..i]) + f(s[i])
  {
    assert s[..i + 1] == s[..i] + [s[i]];
    ConcatMapAppend(f, s[..i], [s[i]]);
    ConcatMapOne(f, s[i]);
  }

  lemma ConcatMapFour<A, B>(f: A -> seq<B>, a: A, b: A, c: A, d: A)
    ensures ConcatMap(f, [a, b, c, d]) == f(a) + f(b) + f(c) + f(d)
  {
    assert [a, b, c, d] == [a, b] + [c, d] && [a, b] == [a] + [b] && [c, d] == [c] + [d];
    ConcatMapAppend(f, [a, b], [c, d]);
    ConcatMapAppend(f, [a], [b]);
    ConcatMapAppend(f, [c], [d]);
    ConcatMapOne(f, a);
    ConcatMapOne(f, b);
    ConcatMapOne(f, c);
    ConcatMapOne(f, d);
  }

  lemma {:induction false} FromLEToLE(x: int, n: nat)
    ensures FromLE(ToLE(x, n)) == x % Pow256(n)
    decreases n
  {
    if n > 0 {
      FromLEToLE(x / 256, n - 1);
      var p := Pow256(n - 1);
      assert ToLE(x, n)[1..] == ToLE(x / 256, n - 1);
      DivDiv(x, 256, p);
    }
  }

  lemma {:induction false} ByteAt(x: int, n: nat, i: nat)
    requires i < n
    ensures ToLE(x, n)[i] == (x / Pow256(i)) % 256
    decreases n
  {
    if i > 0 {
      ByteAt(x / 256, n - 1, i - 1);
      DivDiv(x, 256, Pow256(i - 1));
    }
  }

  lemma {:induction false} ToLEFromLE(s: seq<byte>)
    ensures ToLE(FromLE(s), |s|) == s
  {
    if s != [] {
      ToLEFromLE(s[1..]);
      assert FromLE(s) / 256 == FromLE(s[1..]) && FromLE(s) % 256 == s[0];
    }
  }

  lemma {:induction false} Pow256Add(a: nat, b: nat)
    ensures Pow256(a + b) == Pow256(a) * Pow256(b)
  {
    if a > 0 { Pow256Add(a - 1, b); }
  }

  lemma {:induction false} Pow256Mono(a: nat, b: nat)
    requires a <= b
    ensures Pow256(a) <= Pow256(b)
    ensures a < b ==> 256 * Pow256(a) <= Pow256(b)
    decreases b
  {
    if a < b { Pow256Mono(a, b - 1); }
  }
}
