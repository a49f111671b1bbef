/** The greedy forward clustering that `findDuplicates` and
    `findSimilarPhotos` both run, as a fold over the anchors. The two passes
    differ only in their join test, given by a `Criterion`. */
module GreedyClustering {
  import opened Photos
  import Hamming

  /** The join test of a pass: metadata (`findDuplicates`) or fingerprint
      similarity against a precomputed id-to-hash table (`findSimilarPhotos`). */
  datatype Criterion =
    | Metadata
    | Fingerprint(hashes: map<string, string>, threshold: real)

  function Dist(a: nat, b: nat): nat {
    if a >= b then a - b else b - a
  }

  /** `Math.abs(a - b) / a`, computed on exact rationals; `None` stands for
      the non-finite results of dividing by a zero size (NaN or Infinity).
      A defined ratio is the size difference as a share of the anchor's size. */
  function SizeRatio(a: nat, b: nat): (r: Option<real>)
    ensures r.None? <==> a == 0
    ensures r.Some? ==> r.value >= 0.0 && r.value * (a as real) == Dist(a, b) as real
  {
    if a == 0 then None else Some((Dist(a, b) as real) / (a as real))
  }

  /** `sizeDiff < 0.1`, which is false for NaN and Infinity, so a zero-size
      anchor never meets it. */
  predicate SizeClose(a: nat, b: nat)
    ensures SizeClose(a, b) ==> a > 0
  {
    var r := SizeRatio(a, b);
    r.Some? && r.value < 0.1
  }

  /** A hash lookup that JavaScript treats as present: the key exists and the
      stored hash is not the (falsy) empty string. */
  predicate HasHash(hashes: map<string, string>, id: string) {
    id in hashes && hashes[id] != ""
  }

  /** Whether a photo that is not yet processed opens a group: always for the
      metadata pass; only with a hash for the fingerprint pass. */
  predicate CanAnchor(c: Criterion, p: Photo) {
    c.Metadata? || HasHash(c.hashes, p.id)
  }

  /** How many times the scan of anchor `p` pushes the later photo `q` into
      the group. The metadata pass tests the size rule and then the name rule
      without skipping the second test, so a photo meeting both is pushed twice. */
  function Pushes(c: Criterion, p: Photo, q: Photo): (n: nat)
    ensures n <= 2
    ensures c.Fingerprint? ==> n <= 1
  {
    match c
    case Metadata =>
      (if SizeClose(p.size, q.size) then 1 else 0) + (if p.name == q.name then 1 else 0)
    case Fingerprint(h, t) =>
      if HasHash(h, p.id) && HasHash(h, q.id) && Hamming.AtLeast(Hamming.Similarity(h[p.id], h[q.id]), t)
      then 1 else 0
  }

  predicate Joins(c: Criterion, p: Photo, q: Photo) {
    Pushes(c, p, q) > 0
  }

  /** The similarity score the fingerprint pass records on follower `q` of
      anchor `p`; the metadata pass records none. */
  function Score(c: Criterion, p: Photo, q: Photo): Option<real> {
    match c
    case Metadata => None
    case Fingerprint(h, t) =>
      if HasHash(h, p.id) && HasHash(h, q.id) && Hamming.Similarity(h[p.id], h[q.id]).Finite?
      then Some(Hamming.Similarity(h[p.id], h[q.id]).value) else None
  }

  function WithScore(p: Photo, score: Option<real>): Photo {
    if score.Some? then p.(similarityScore := score) else p
  }

  /** The annotation every follower of a group receives. */
  function Mark(p: Photo, gid: string): Photo {
    p.(isDuplicate := true, group := Some(gid))
  }

  // Group ids. The source builds them from the clock and a random number;
  // here they come from an injected counter: "group-" or "similar-"
  // followed by the counter value in decimal.

  function DigitChar(d: nat): char
    requires d < 10
  {
    (48 + d) as char
  }

  function Digits(n: nat): (s: string)
    ensures |s| >= 1
    decreases n
  {
    if n < 10 then [DigitChar(n)] else Digits(n / 10) + [DigitChar(n % 10)]
  }

  function Prefix(c: Criterion): string {
    if c.Metadata? then "group-" else "similar-"
  }

  function Label(c: Criterion, serial: nat): string {
    Prefix(c) + Digits(serial)
  }

  /** State of the inner scan: the followers pushed so far (the source's
      `group` without its first element, the anchor) and the processed ids. */
  datatype Scan = Scan(group: seq<nat>, processed: set<string>)

  function Repeat(k: nat, n: nat): seq<nat> {
    seq(n, _ => k)
  }

  /** One visit of the inner loop of anchor i, at position k. A photo
      already processed is skipped; otherwise it is pushed once per rule it
      meets and, if pushed at all, marked processed. */
  function Visit(c: Criterion, ps: seq<Photo>, i: nat, s: Scan, k: nat): (r: Scan)
    requires i < |ps| && k < |ps|
    ensures s.processed <= r.processed && s.group <= r.group
    ensures forall m :: |s.group| <= m < |r.group| ==> r.group[m] == k
  {
    if ps[k].id in s.processed then s
    else
      var n := Pushes(c, ps[i], ps[k]);
      if n == 0 then s else Scan(s.group + Repeat(k, n), s.processed + {ps[k].id})
  }

  /** The inner loop of anchor `i` after visiting positions i+1 .. j-1.
      It only ever adds to the processed set. */
  function ScanTo(c: Criterion, ps: seq<Photo>, i: nat, j: nat, processed: set<string>): (r: Scan)
    requires i < j <= |ps|
    ensures processed <= r.processed
    decreases j
  {
    if j == i + 1 then Scan([], processed)
    else Visit(c, ps, i, ScanTo(c, ps, i, j - 1, processed), j - 1)
  }

  /** The scan of anchor i only pushes positions after i. */
  lemma {:induction false} ScanAfterAnchor(c: Criterion, ps: seq<Photo>, i: nat, j: nat, processed: set<string>)
    requires i < j <= |ps|
    ensures forall m :: 0 <= m < |ScanTo(c, ps, i, j, processed).group| ==> i < ScanTo(c, ps, i, j, processed).group[m] < j
    decreases j
  {
    if j > i + 1 {
      ScanAfterAnchor(c, ps, i, j - 1, processed);
    }
  }

  /** State of a pass: the annotated collection, the processed ids, the
      returned follower list, the next counter value, and two maps that
      record the clustering itself: `owner` sends each follower to its
      anchor, `serials` sends each anchor of a group to its counter value. */
  datatype Pass = Pass(
    photos: seq<Photo>,
    processed: set<string>,
    found: seq<nat>,
    serial: nat,
    owner: map<nat, nat>,
    serials: map<nat, nat>)

  /** The photo record at position k after it joins anchor i's group. */
  function Follow(c: Criterion, ps: seq<Photo>, cur: Photo, i: nat, k: nat, gid: string): Photo
    requires i < |ps| && k < |ps|
  {
    Mark(WithScore(cur, Score(c, ps[i], ps[k])), gid)
  }

  function MarkAll(c: Criterion, ps: seq<Photo>, cur: seq<Photo>, i: nat, group: seq<nat>, gid: string): (r: seq<Photo>)
    requires |cur| == |ps| && i < |ps|
    ensures |r| == |cur|
  {
    seq(|cur|, k requires 0 <= k < |cur| => if k in group then Follow(c, ps, cur[k], i, k, gid) else cur[k])
  }

  /** `owner` with every position of `group` sent to anchor `i`. */
  function Assign(owner: map<nat, nat>, group: seq<nat>, i: nat): map<nat, nat> {
    owner + map k | k in group :: i
  }

  /** One iteration of the outer loop, for anchor candidate `i`. The scan
      reads the metadata and hashes of the original records `ps`, which the
      annotations never change. */
  function Step(c: Criterion, ps: seq<Photo>, s: Pass, i: nat): (r: Pass)
    requires i < |ps| && |s.photos| == |ps|
    ensures |r.photos| == |ps|
    ensures forall k :: k in r.owner ==>
      (k in s.owner && r.owner[k] == s.owner[k]) || (i < k < |ps| && r.owner[k] == i)
  {
    if ps[i].id in s.processed || !CanAnchor(c, ps[i]) then s
    else
      var sc := ScanTo(c, ps, i, |ps|, s.processed);
      ScanAfterAnchor(c, ps, i, |ps|, s.processed);
      var processed := sc.processed + {ps[i].id};
      if |sc.group| == 0 then s.(processed := processed)
      else
        Pass(MarkAll(c, ps, s.photos, i, sc.group, Label(c, s.serial)),
             processed,
             s.found + sc.group,
             s.serial + 1,
             Assign(s.owner, sc.group, i),
             s.serials[i := s.serial])
  }

  /** The pass after its first i outer iterations. */
  function PassUpTo(c: Criterion, ps: seq<Photo>, i: nat, serial0: nat): (r: Pass)
    requires i <= |ps|
    ensures |r.photos| == |ps|
    ensures forall k :: k in r.owner ==> r.owner[k] < i && r.owner[k] < k < |ps|
    decreases i
  {
    if i == 0 then Pass(ps, {}, [], serial0, map[], map[])
    else Step(c, ps, PassUpTo(c, ps, i - 1, serial0), i - 1)
  }

  /** The returned list only refers to photos of the collection. */
  lemma {:induction false} FoundInRange(c: Criterion, ps: seq<Photo>, i: nat, serial0: nat)
    requires i <= |ps|
    ensures forall m :: 0 <= m < |PassUpTo(c, ps, i, serial0).found| ==> PassUpTo(c, ps, i, serial0).found[m] < |ps|
    decreases i
  {
    if i > 0 {
      var s := PassUpTo(c, ps, i - 1, serial0);
      FoundInRange(c, ps, i - 1, serial0);
      assert PassUpTo(c, ps, i, serial0) == Step(c, ps, s, i - 1);
      if ps[i - 1].id !in s.processed && CanAnchor(c, ps[i - 1]) {
        ScanAfterAnchor(c, ps, i - 1, |ps|, s.processed);
      }
    }
  }

  /** A whole pass over `ps`, with group ids drawn from counter value
      `serial0` on. Every follower lies after its anchor. */
  function Run(c: Criterion, ps: seq<Photo>, serial0: nat): (r: Pass)
    ensures |r.photos| == |ps|
    ensures forall k :: k in r.owner ==> r.owner[k] < k < |ps|
  {
    PassUpTo(c, ps, |ps|, serial0)
  }
}
