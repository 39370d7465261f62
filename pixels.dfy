/**
 Regrouping an interleaved byte run into fixed-arity pixel tuples, and
 flattening tuples back into an interleaved run.
 */
module Pixels {
  import opened Texture

  /**
   The run cut into consecutive tuples of `n` bytes, in order. Trailing
   bytes that do not fill a whole tuple are dropped.
   */
  function Regroup(bytes: seq<Byte>, n: nat): (r: seq<seq<Byte>>)
    requires n > 0
    ensures |r| == |bytes| / n
    ensures forall i :: 0 <= i < |r| ==> |r[i]| == n
    decreases |bytes|
  {
    if |bytes| < n then []
    else
      DivStep(|bytes|, n);
      [bytes[..n]] + Regroup(bytes[n..], n)
  }

  /** The tuples laid end to end. */
  function Flatten(pixels: seq<seq<Byte>>): seq<Byte>
  {
    if pixels == [] then [] else pixels[0] + Flatten(pixels[1..])
  }

  /** All tuples have `n` components. */
  predicate Uniform(pixels: seq<seq<Byte>>, n: nat)
  {
    forall i :: 0 <= i < |pixels| ==> |pixels[i]| == n
  }

  /**
   The decoder's regrouping loop: for each whole tuple of the run, in
   order, push its `n` bytes onto a fresh vector.
   */
  method GroupPixels(bytes: seq<Byte>, n: nat) returns (data: seq<seq<Byte>>)
    requires n > 0
    ensures |data| == |bytes| / n
    ensures data == Regroup(bytes, n)
  {
    data := [];
    ghost var spec := Regroup(bytes, n);
    for i := 0 to |bytes| / n
      invariant |data| == i
      invariant data == spec[..i]
    {
      RegroupAt(bytes, n, i);
      data := data + [bytes[i * n .. i * n + n]];
    }
  }

  /** Tuple `i` of a regrouped run is the `n` bytes starting at offset `i * n`. */
  lemma {:induction false} RegroupAt(bytes: seq<Byte>, n: nat, i: nat)
    requires n > 0 && i < |bytes| / n
    ensures i * n + n <= |bytes|
    ensures Regroup(bytes, n)[i] == bytes[i * n .. i * n + n]
  {
    if i > 0 {
      DivStep(|bytes|, n);
      RegroupAt(bytes[n..], n, i - 1);
      assert (i - 1) * n + n == i * n;
    }
  }

  /** Flattening `k` tuples of `n` components gives `n * k` bytes. */
  lemma {:induction false} FlattenLength(pixels: seq<seq<Byte>>, n: nat)
    requires Uniform(pixels, n)
    ensures |Flatten(pixels)| == n * |pixels|
  {
    if pixels != [] {
      FlattenLength(pixels[1..], n);
    }
  }

  /** Byte `i * n + j` of a flattened run is component `j` of tuple `i`. */
  lemma {:induction false} FlattenAt(pixels: seq<seq<Byte>>, n: nat, i: nat, j: nat)
    requires Uniform(pixels, n)
    requires i < |pixels| && j < n
    ensures i * n + j < |Flatten(pixels)|
    ensures Flatten(pixels)[i * n + j] == pixels[i][j]
  {
    FlattenLength(pixels, n);
    MulAtLeast(n, |pixels| - i);
    assert n * (|pixels| - i) == n * |pixels| - i * n;
    if i > 0 {
      FlattenAt(pixels[1..], n, i - 1, j);
      assert (i - 1) * n + j + n == i * n + j;
    }
  }

  /** Regrouping a flattened run recovers the tuples. */
  lemma {:induction false} RegroupFlatten(pixels: seq<seq<Byte>>, n: nat)
    requires n > 0 && Uniform(pixels, n)
    ensures Regroup(Flatten(pixels), n) == pixels
  {
    if pixels != [] {
      var rest := Flatten(pixels[1..]);
      assert Flatten(pixels) == pixels[0] + rest;
      assert (pixels[0] + rest)[..n] == pixels[0];
      assert (pixels[0] + rest)[n..] == rest;
      RegroupFlatten(pixels[1..], n);
      assert pixels == [pixels[0]] + pixels[1..];
    }
  }

  /**
   Flattening a regrouped run gives the run back without its last
   `|bytes| % n` bytes: the tail that does not fill a tuple is lost.
   */
  lemma {:induction false} FlattenRegroup(bytes: seq<Byte>, n: nat)
    requires n > 0
    ensures Flatten(Regroup(bytes, n)) == bytes[..|bytes| - |bytes| % n]
  {
    if |bytes| < n {
      DivUnique(|bytes|, n, 0, |bytes|);
    } else {
      DivStep(|bytes|, n);
      FlattenRegroup(bytes[n..], n);
      var r := Regroup(bytes, n);
      assert r[0] == bytes[..n] && r[1..] == Regroup(bytes[n..], n);
      assert bytes[..n] + bytes[n..][..|bytes| - n - |bytes| % n] == bytes[..|bytes| - |bytes| % n];
    }
  }

  /** When the run length is a multiple of `n`, no byte is lost. */
  lemma {:induction false} FlattenRegroupExact(bytes: seq<Byte>, n: nat)
    requires n > 0 && |bytes| % n == 0
    ensures Flatten(Regroup(bytes, n)) == bytes
  {
    FlattenRegroup(bytes, n);
  }

  /** Removing one divisor's worth from a dividend lowers the quotient by one and keeps the remainder. */
  lemma DivStep(x: nat, n: nat)
    requires 0 < n <= x
    ensures (x - n) / n == x / n - 1
    ensures (x - n) % n == x % n
  {
    DivUnique(x - n, n, x / n - 1, x % n);
  }

  /** Quotient and remainder are the only pair that rebuilds the dividend. */
  lemma DivUnique(x: int, n: int, q: int, r: int)
    requires 0 <= r < n
    requires x == n * q + r
    ensures x / n == q && x % n == r
  {
    var q', r' := x / n, x % n;
    assert n * (q - q') == r' - r;
    if q > q' {
      MulAtLeast(n, q - q');
    } else if q < q' {
      MulAtLeast(n, q' - q);
    }
  }

  /** The nonlinear step `DivUnique` and `FlattenAt` need: a positive multiple is at least the multiplier. */
  lemma MulAtLeast(n: int, d: int)
    requires n > 0 && d >= 1
    ensures n * d >= n
  {
  }
}
