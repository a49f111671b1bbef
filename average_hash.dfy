/** The average-hash fingerprint of a 32 x 32 RGBA raster, as a function of
    the raster's bytes (the part of `computePerceptualHash` after
    `getImageData`). */
module AverageHash {

  newtype byte = x: int | 0 <= x < 256

  /** Grey value of one pixel: Math.round(0.299 R + 0.587 G + 0.114 B),
      evaluated on exact rationals rather than on binary floating point.
      Only its range 0..255 is used by the lemmas below. */
  function Luma(r: byte, g: byte, b: byte): (y: nat)
    ensures y <= 255
  {
    (299 * (r as int) + 587 * (g as int) + 114 * (b as int) + 500) / 1000
  }

  /** Grey values of the pixels of an RGBA buffer, four bytes per pixel, in
      raster order. The fourth (alpha) byte of each pixel is not used. */
  function Grays(data: seq<byte>): (g: seq<nat>)
    requires |data| % 4 == 0
    ensures |g| == |data| / 4
    decreases |data|
  {
    if |data| == 0 then []
    else
      var k := |data| - 4;
      Grays(data[..k]) + [Luma(data[k], data[k + 1], data[k + 2])]
  }

  function Sum(s: seq<nat>): nat
    decreases |s|
  {
    if |s| == 0 then 0 else Sum(s[..|s| - 1]) + s[|s| - 1]
  }

  /** One character per grey value, '1' when it is strictly above the mean.
      With n values and total T, `gray > T / n` is stated as the integer
      fact `gray * n > T`. */
  function Bits(g: seq<nat>, total: nat): (h: string)
    ensures |h| == |g|
    ensures forall k :: 0 <= k < |h| ==> h[k] == '0' || h[k] == '1'
  {
    var n := |g|;
    seq(n, k requires 0 <= k < n => if g[k] * n > total then '1' else '0')
  }

  /** The fingerprint: one character per pixel, '1' when the pixel's grey
      value is strictly above the mean grey value. */
  function Hash(data: seq<byte>): (h: string)
    requires |data| % 4 == 0
    ensures |h| == |data| / 4
    ensures forall k :: 0 <= k < |h| ==> h[k] == '0' || h[k] == '1'
  {
    Bits(Grays(data), Sum(Grays(data)))
  }

  /** Pixel k's grey value is computed from bytes 4k, 4k+1 and 4k+2. */
  lemma {:induction false} GrayAt(data: seq<byte>, k: nat)
    requires |data| % 4 == 0 && k < |data| / 4
    ensures Grays(data)[k] == Luma(data[4 * k], data[4 * k + 1], data[4 * k + 2])
    decreases |data|
  {
    var last := |data| - 4;
    if 4 * k < last {
      var front := data[..last];
      GrayAt(front, k);
      assert front[4 * k] == data[4 * k] && front[4 * k + 1] == data[4 * k + 1] && front[4 * k + 2] == data[4 * k + 2];
    }
  }

  /** Two buffers that differ only in alpha bytes have the same fingerprint:
      the alpha byte is never read. */
  lemma AlphaNeverRead(a: seq<byte>, b: seq<byte>)
    requires |a| == |b| && |a| % 4 == 0
    requires forall i :: 0 <= i < |a| && i % 4 != 3 ==> a[i] == b[i]
    ensures Hash(a) == Hash(b)
  {
    GraysIgnoreAlpha(a, b);
  }

  lemma GraysIgnoreAlpha(a: seq<byte>, b: seq<byte>)
    requires |a| == |b| && |a| % 4 == 0
    requires forall i :: 0 <= i < |a| && i % 4 != 3 ==> a[i] == b[i]
    ensures Grays(a) == Grays(b)
  {
    forall k | 0 <= k < |a| / 4 ensures Grays(a)[k] == Grays(b)[k] {
      GrayAt(a, k);
      GrayAt(b, k);
      ColorBytesAgree(a, b, k);
    }
  }

  lemma ColorBytesAgree(a: seq<byte>, b: seq<byte>, k: nat)
    requires |a| == |b| && 4 * k + 3 < |a|
    requires forall i :: 0 <= i < |a| && i % 4 != 3 ==> a[i] == b[i]
    ensures a[4 * k] == b[4 * k] && a[4 * k + 1] == b[4 * k + 1] && a[4 * k + 2] == b[4 * k + 2]
  {
    assert (4 * k) % 4 == 0 && (4 * k + 1) % 4 == 1 && (4 * k + 2) % 4 == 2;
  }

  /** Bit k is '1' exactly when grey value k exceeds the real-valued mean,
      which is the comparison the source performs. */
  lemma BitIsAboveMean(data: seq<byte>, k: nat)
    requires |data| % 4 == 0 && k < |data| / 4
    ensures Hash(data)[k] == '1' <==>
      (Grays(data)[k] as real) > (Sum(Grays(data)) as real) / ((|data| / 4) as real)
  {
    var g := Grays(data);
    AboveMeanIff(g[k], Sum(g), |g|);
  }

  lemma AboveMeanIff(x: nat, total: nat, n: nat)
    requires n > 0
    ensures x * n > total <==> (x as real) > (total as real) / (n as real)
  {
    var m := (total as real) / (n as real);
    assert m * (n as real) == total as real;
    assert (((x as real) - m) * (n as real) > 0.0 <==> (x as real) - m > 0.0) by {
      PositiveFactor((x as real) - m, n as real);
    }
    assert (x as real) * (n as real) == (x * n) as real;
  }

  lemma PositiveFactor(x: real, y: real)
    requires y > 0.0
    ensures x * y > 0.0 <==> x > 0.0
  {
    if x <= 0.0 {
      assert (0.0 - x) * y >= 0.0;
    }
  }

  lemma {:induction false} SumAtLeast(g: seq<nat>, c: nat)
    requires forall k :: 0 <= k < |g| ==> g[k] >= c
    ensures Sum(g) >= |g| * c
    decreases |g|
  {
    if |g| > 0 {
      SumAtLeast(g[..|g| - 1], c);
    }
  }

  lemma {:induction false} SumOfConstant(g: seq<nat>, c: nat)
    requires forall k :: 0 <= k < |g| ==> g[k] == c
    ensures Sum(g) == |g| * c
    decreases |g|
  {
    if |g| > 0 {
      SumOfConstant(g[..|g| - 1], c);
    }
  }

  /** An image whose pixels all have the same grey value hashes to all '0':
      no pixel is strictly above the mean. */
  lemma UniformImageHashesToZeros(data: seq<byte>)
    requires |data| % 4 == 0
    requires forall i, j :: 0 <= i < j < |Grays(data)| ==> Grays(data)[i] == Grays(data)[j]
    ensures forall k :: 0 <= k < |Hash(data)| ==> Hash(data)[k] == '0'
  {
    var g := Grays(data);
    if |g| > 0 {
      var c := g[0];
      assert forall k :: 0 <= k < |g| ==> g[k] == c by {
        forall k | 0 < k < |g| ensures g[k] == c {
          assert g[0] == g[k];
        }
      }
      SumOfConstant(g, c);
      var h := Bits(g, Sum(g));
      assert Hash(data) == h;
      forall k | 0 <= k < |g| ensures h[k] == '0' {
        assert g[k] == c;
        assert g[k] * |g| == |g| * c;
      }
    }
  }

  /** Index of a darkest pixel. */
  function MinIndex(g: seq<nat>): (m: nat)
    requires |g| > 0
    ensures m < |g| && forall k :: 0 <= k < |g| ==> g[m] <= g[k]
    decreases |g|
  {
    if |g| == 1 then 0
    else
      var m := MinIndex(g[..|g| - 1]);
      if g[|g| - 1] < g[m] then |g| - 1 else m
  }

  /** A non-empty image always has a '0' bit: a darkest pixel is never
      strictly above the mean. */
  lemma DarkestPixelIsZero(data: seq<byte>)
    requires |data| % 4 == 0 && |data| > 0
    ensures Hash(data)[MinIndex(Grays(data))] == '0'
  {
    var g := Grays(data);
    var m := MinIndex(g);
    SumAtLeast(g, g[m]);
    assert g[m] * |g| == |g| * g[m];
  }
}
