/** The `ImageHasher` class: the loops of `computePerceptualHash` and
    `calculateSimilarity`, proved equal to the functions of `AverageHash`
    and `Hamming`, and the hash table `findSimilarPhotos` builds first. */
module ImageHashing {
  import opened Photos
  import opened AverageHash
  import Hamming

  datatype Result<T> = Ok(value: T) | Err(message: string)

  class ImageHasher {
    /** Whether a canvas and its 2D context could be created: false when the
        code runs outside a browser (server-side rendering). */
    const available: bool

    constructor (browser: bool)
      ensures available == browser
    {
      available := browser;
    }

    /** The fingerprint of the 32 x 32 RGBA raster `data` that the canvas
        returns; fails when no canvas exists. */
    method ComputePerceptualHash(data: array<byte>) returns (r: Result<string>)
      requires data.Length % 4 == 0
      ensures r.Ok? <==> available
      ensures r.Ok? ==> r.value == Hash(data[..])
    {
      if !available {
        return Err("Canvas not available");
      }
      var grayscale, total := Grayscale(data);
      var hash := AboveAverage(grayscale, total);
      return Ok(hash);
    }

    /** `calculateSimilarity`: 0 for different lengths, otherwise one minus
        the fraction of differing positions (NaN for two empty strings). */
    method CalculateSimilarity(hash1: string, hash2: string) returns (r: Hamming.Num)
      ensures r == Hamming.Similarity(hash1, hash2)
    {
      if |hash1| != |hash2| {
        return Hamming.Finite(0.0);
      }
      var differences := 0;
      var i := 0;
      while i < |hash1|
        invariant 0 <= i <= |hash1|
        invariant differences == Hamming.Mismatches(hash1[..i], hash2[..i])
      {
        assert hash1[..i + 1][..i] == hash1[..i] && hash2[..i + 1][..i] == hash2[..i];
        if hash1[i] != hash2[i] {
          differences := differences + 1;
        }
        i := i + 1;
      }
      assert hash1[..i] == hash1 && hash2[..i] == hash2;
      if |hash1| == 0 {
        // 1 - 0 / 0
        return Hamming.NaN;
      }
      return Hamming.Finite(1.0 - (differences as real) / (|hash1| as real));
    }

    /** `generateHash` once the image at the photo's url has been decoded:
        `raster` is the canvas pixel data, `None` when the image failed to
        load. */
    method GenerateHash(photo: Photo, raster: Option<seq<byte>>) returns (r: Result<string>)
      requires raster.Some? ==> |raster.value| % 4 == 0
      ensures r.Ok? <==> available && raster.Some?
      ensures r.Ok? ==> r.value == Hash(raster.value)
    {
      if !available {
        return Err("Canvas not available in SSR environment");
      }
      if raster.None? {
        return Err("image failed to load");
      }
      var pixels := raster.value;
      var data := new byte[|pixels|](k requires 0 <= k < |pixels| => pixels[k]);
      assert data[..] == pixels;
      r := ComputePerceptualHash(data);
    }
  }

  /** The first loop of `computePerceptualHash`: grey values and their total. */
  method Grayscale(data: array<byte>) returns (grayscale: seq<nat>, total: nat)
    requires data.Length % 4 == 0
    ensures grayscale == Grays(data[..]) && total == Sum(grayscale)
  {
    grayscale, total := [], 0;
    var i := 0;
    while i < data.Length
      invariant 0 <= i <= data.Length && i % 4 == 0
      invariant grayscale == Grays(data[..i]) && total == Sum(grayscale)
    {
      WholePixel(i, data.Length);
      var gray := Luma(data[i], data[i + 1], data[i + 2]);
      GraysStep(data[..], i);
      SumExtend(grayscale, gray);
      grayscale := grayscale + [gray];
      total := total + gray;
      i := i + 4;
    }
    assert data[..i] == data[..];
  }

  /** The second loop of `computePerceptualHash`: one bit per grey value. */
  method AboveAverage(grayscale: seq<nat>, total: nat) returns (hash: string)
    ensures hash == Bits(grayscale, total)
  {
    var n := |grayscale|;
    hash := "";
    var k := 0;
    while k < n
      invariant 0 <= k <= n
      invariant hash == Bits(grayscale, total)[..k]
    {
      hash := hash + (if grayscale[k] * n > total then "1" else "0");
      k := k + 1;
    }
  }

  lemma WholePixel(i: nat, n: nat)
    requires i % 4 == 0 && n % 4 == 0 && i < n
    ensures i + 4 <= n && (i + 4) % 4 == 0
  {
  }

  lemma GraysStep(data: seq<byte>, i: nat)
    requires i % 4 == 0 && i + 4 <= |data|
    ensures Grays(data[..i + 4]) == Grays(data[..i]) + [Luma(data[i], data[i + 1], data[i + 2])]
  {
    var d := data[..i + 4];
    assert d[..i] == data[..i];
    assert d[i] == data[i] && d[i + 1] == data[i + 1] && d[i + 2] == data[i + 2];
  }

  lemma SumExtend(s: seq<nat>, x: nat)
    ensures Sum(s + [x]) == Sum(s) + x
  {
    assert (s + [x])[..|s|] == s;
  }

  /** Rasters are well formed: whole pixels. */
  predicate Whole(rasters: seq<Option<seq<byte>>>) {
    forall k :: 0 <= k < |rasters| ==> rasters[k].Some? ==> |rasters[k].value| % 4 == 0
  }

  /** The id-to-hash table after the first n photos: a photo whose hash
      fails is left out, and a later photo with the same id overwrites. */
  function HashTable(browser: bool, ps: seq<Photo>, rasters: seq<Option<seq<byte>>>, n: nat): map<string, string>
    requires n <= |ps| == |rasters| && Whole(rasters)
    decreases n
  {
    if n == 0 then map[]
    else
      var t := HashTable(browser, ps, rasters, n - 1);
      if browser && rasters[n - 1].Some? then t[ps[n - 1].id := Hash(rasters[n - 1].value)] else t
  }

  /** An id has a hash exactly when some photo with that id produced one,
      and with unique ids it is that photo's fingerprint. */
  lemma {:induction false} HashTableLookup(browser: bool, ps: seq<Photo>, rasters: seq<Option<seq<byte>>>, n: nat, k: nat)
    requires n <= |ps| == |rasters| && Whole(rasters) && k < n
    requires UniqueIds(ps)
    ensures ps[k].id in HashTable(browser, ps, rasters, n) <==> browser && rasters[k].Some?
    ensures ps[k].id in HashTable(browser, ps, rasters, n) ==>
      HashTable(browser, ps, rasters, n)[ps[k].id] == Hash(rasters[k].value)
    decreases n
  {
    if k < n - 1 {
      HashTableLookup(browser, ps, rasters, n - 1, k);
      assert ps[n - 1].id != ps[k].id;
    } else {
      HashTableAbsent(browser, ps, rasters, n - 1, ps[k].id);
    }
  }

  /** Only ids of photos among the first n are in the table. */
  lemma {:induction false} HashTableAbsent(browser: bool, ps: seq<Photo>, rasters: seq<Option<seq<byte>>>, n: nat, id: string)
    requires n <= |ps| == |rasters| && Whole(rasters)
    requires forall k :: 0 <= k < n ==> ps[k].id != id
    ensures id !in HashTable(browser, ps, rasters, n)
    decreases n
  {
    if n > 0 {
      HashTableAbsent(browser, ps, rasters, n - 1, id);
    }
  }

  /** Outside a browser no photo gets a hash. */
  lemma {:induction false} NoCanvasNoHashes(ps: seq<Photo>, rasters: seq<Option<seq<byte>>>, n: nat)
    requires n <= |ps| == |rasters| && Whole(rasters)
    ensures HashTable(false, ps, rasters, n) == map[]
    decreases n
  {
    if n > 0 {
      NoCanvasNoHashes(ps, rasters, n - 1);
    }
  }

  /** The first loop of `findSimilarPhotos`: one `generateHash` per photo,
      a failure logged and skipped. */
  method BuildHashes(hasher: ImageHasher, ps: seq<Photo>, rasters: seq<Option<seq<byte>>>) returns (hashes: map<string, string>)
    requires |ps| == |rasters| && Whole(rasters)
    ensures hashes == HashTable(hasher.available, ps, rasters, |ps|)
  {
    hashes := map[];
    var i := 0;
    while i < |ps|
      invariant 0 <= i <= |ps|
      invariant hashes == HashTable(hasher.available, ps, rasters, i)
    {
      var r := hasher.GenerateHash(ps[i], rasters[i]);
      if r.Ok? {
        hashes := hashes[ps[i].id := r.value];
      }
      i := i + 1;
    }
  }
}
