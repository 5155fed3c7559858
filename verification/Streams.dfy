/** Byte streams cut into chunks. */
module Streams {
  import opened Support

  /** The least number of pieces of size b that hold a. */
  lemma CeilDivIsLeast(a: nat, b: nat, n: nat)
    requires b >= 1
    ensures CeilDiv(a, b) <= n <==> a <= n * b
  {
    var q, r := (a + b - 1) / b, (a + b - 1) % b;
    assert a + b - 1 == q * b + r;
    if q <= n {
      assert q * b <= n * b;
    } else {
      assert (n + 1) * b <= q * b;
    }
  }

  lemma CeilDivStep(a: nat, b: nat)
    requires a > b >= 1
    ensures CeilDiv(a, b) == CeilDiv(a - b, b) + 1
  {
    var q := CeilDiv(a - b, b);
    CeilDivIsLeast(a - b, b, q);
    CeilDivIsLeast(a - b, b, 0);
    CeilDivIsLeast(a - b, b, q - 1);
    CeilDivIsLeast(a, b, q);
    CeilDivIsLeast(a, b, q + 1);
  }

  function Take<T>(s: seq<T>, n: nat): seq<T> {
    if |s| <= n then s else s[..n]
  }

  function Flatten<T>(chunks: seq<seq<T>>): seq<T> {
    FlattenTo(chunks, |chunks|)
  }

  /** The bytes of the first n chunks. */
  function FlattenTo<T>(chunks: seq<seq<T>>, n: nat): seq<T>
    requires n <= |chunks|
  {
    if n == 0 then [] else FlattenTo(chunks, n - 1) + chunks[n - 1]
  }

  lemma {:induction false} FlattenToConcat<T>(a: seq<seq<T>>, b: seq<seq<T>>, n: nat)
    requires n <= |a + b|
    ensures n <= |a| ==> FlattenTo(a + b, n) == FlattenTo(a, n)
    ensures n > |a| ==> FlattenTo(a + b, n) == Flatten(a) + FlattenTo(b, n - |a|)
  {
    if n > 0 {
      FlattenToConcat(a, b, n - 1);
    }
  }

  lemma FlattenConcat<T>(a: seq<seq<T>>, b: seq<seq<T>>)
    ensures Flatten(a + b) == Flatten(a) + Flatten(b)
  {
    FlattenToConcat(a, b, |a + b|);
  }

  lemma FlattenOne<T>(c: seq<T>)
    ensures Flatten([c]) == c
  {
    assert FlattenTo([c], 1) == FlattenTo([c], 0) + c;
  }

  lemma FlattenHead<T>(c: seq<T>, rest: seq<seq<T>>)
    ensures Flatten([c] + rest) == c + Flatten(rest)
  {
    FlattenConcat([c], rest);
    FlattenOne(c);
  }

  lemma FlattenAppend<T>(chunks: seq<seq<T>>, c: seq<T>)
    ensures Flatten(chunks + [c]) == Flatten(chunks) + c
  {
    FlattenConcat(chunks, [c]);
    FlattenOne(c);
  }

  lemma {:induction false} FlattenEqualSizes<T>(chunks: seq<seq<T>>, size: nat, n: nat)
    requires n <= |chunks|
    requires forall i :: 0 <= i < |chunks| ==> |chunks[i]| == size
    ensures |FlattenTo(chunks, n)| == n * size
  {
    if n > 0 {
      FlattenEqualSizes(chunks, size, n - 1);
      assert n * size == (n - 1) * size + size;
    }
  }

  /** A stream and the lengths of its chunks determine the chunks. */
  lemma {:induction false} SameCuts<T>(a: seq<seq<T>>, b: seq<seq<T>>, n: nat)
    requires n <= |a| && n <= |b|
    requires forall i :: 0 <= i < n ==> |a[i]| == |b[i]|
    requires FlattenTo(a, n) == FlattenTo(b, n)
    ensures forall i :: 0 <= i < n ==> a[i] == b[i]
  {
    if n > 0 {
      FlattenSizes(a, b, n - 1);
      var x, y := FlattenTo(a, n - 1), FlattenTo(b, n - 1);
      assert x == (x + a[n - 1])[..|x|] && y == (y + b[n - 1])[..|y|];
      assert a[n - 1] == (x + a[n - 1])[|x|..] && b[n - 1] == (y + b[n - 1])[|y|..];
      SameCuts(a, b, n - 1);
    }
  }

  lemma {:induction false} FlattenSizes<T>(a: seq<seq<T>>, b: seq<seq<T>>, n: nat)
    requires n <= |a| && n <= |b|
    requires forall i :: 0 <= i < n ==> |a[i]| == |b[i]|
    ensures |FlattenTo(a, n)| == |FlattenTo(b, n)|
  {
    if n > 0 {
      FlattenSizes(a, b, n - 1);
    }
  }
}
