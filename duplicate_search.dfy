/** `findDuplicates` and `findSimilarPhotos` as the nested loops they are,
    annotating the photo array in place, each proved equal to the fold
    `GreedyClustering.Run` with its join test. */
module DuplicateSearch {
  import opened Photos
  import opened GreedyClustering
  import opened ImageHashing
  import opened AverageHash
  import Hamming

  /** The default similarity threshold of `findSimilarPhotos`. */
  const DefaultThreshold: real := 0.85

  /** `cur` with the similarity score against anchor i written on every
      position of `group`, as the fingerprint scan does when a photo joins. */
  function Scored(c: Criterion, ps: seq<Photo>, cur: seq<Photo>, i: nat, group: seq<nat>): (r: seq<Photo>)
    requires |cur| == |ps| && i < |ps|
    ensures |r| == |cur|
  {
    seq(|cur|, k requires 0 <= k < |cur| => if k in group then WithScore(cur[k], Score(c, ps[i], ps[k])) else cur[k])
  }

  /** `cur` with every position of `group` marked as a duplicate in group `gid`. */
  function Marked(cur: seq<Photo>, group: seq<nat>, gid: string): (r: seq<Photo>)
    ensures |r| == |cur|
  {
    seq(|cur|, k requires 0 <= k < |cur| => if k in group then Mark(cur[k], gid) else cur[k])
  }

  /** Scoring at join time and marking at the end give the annotation of the
      specification, which applies both at once. */
  lemma MarkAllSplits(c: Criterion, ps: seq<Photo>, cur: seq<Photo>, i: nat, group: seq<nat>, gid: string)
    requires |cur| == |ps| && i < |ps|
    ensures MarkAll(c, ps, cur, i, group, gid) == Marked(Scored(c, ps, cur, i, group), group, gid)
  {
    var a, b := MarkAll(c, ps, cur, i, group, gid), Marked(Scored(c, ps, cur, i, group), group, gid);
    assert forall k :: 0 <= k < |cur| ==> a[k] == b[k];
  }

  /** The metadata pass records no score. */
  lemma MetadataUnscored(ps: seq<Photo>, cur: seq<Photo>, i: nat, group: seq<nat>)
    requires |cur| == |ps| && i < |ps|
    ensures Scored(Metadata, ps, cur, i, group) == cur
  {
  }

  lemma ScoredNothing(c: Criterion, ps: seq<Photo>, cur: seq<Photo>, i: nat)
    requires |cur| == |ps| && i < |ps|
    ensures Scored(c, ps, cur, i, []) == cur
  {
  }

  /** Scoring one more position, not scored before, changes only that position. */
  lemma ScoredPush(c: Criterion, ps: seq<Photo>, cur: seq<Photo>, i: nat, group: seq<nat>, j: nat)
    requires |cur| == |ps| && i < |ps| && j < |ps| && j !in group
    ensures Scored(c, ps, cur, i, group)[j] == cur[j]
    ensures Scored(c, ps, cur, i, group + [j]) == Scored(c, ps, cur, i, group)[j := WithScore(cur[j], Score(c, ps[i], ps[j]))]
  {
    var a, b := Scored(c, ps, cur, i, group + [j]), Scored(c, ps, cur, i, group)[j := WithScore(cur[j], Score(c, ps[i], ps[j]))];
    assert forall k :: 0 <= k < |cur| ==> a[k] == b[k];
  }

  /** Marking one more position: marking a position twice with the same id
      is the same as marking it once. */
  lemma MarkedPush(cur: seq<Photo>, group: seq<nat>, j: nat, gid: string, now: seq<Photo>)
    requires j < |cur| && now == Marked(cur, group, gid)
    ensures Marked(cur, group + [j], gid) == now[j := Mark(now[j], gid)]
  {
    var a, b := Marked(cur, group + [j], gid), now[j := Mark(now[j], gid)];
    assert forall k :: 0 <= k < |cur| ==> a[k] == b[k];
  }

  lemma RepeatSmall(j: nat)
    ensures Repeat(j, 0) == [] && Repeat(j, 1) == [j] && Repeat(j, 2) == [j, j]
  {
  }

  /** The `forEach` over a group of more than one photo: every follower is
      marked and appended to the result list. */
  method MarkGroup(photos: array<Photo>, group: seq<nat>, gid: string, found: seq<Ref>) returns (found': seq<Ref>)
    modifies photos
    requires forall m :: 0 <= m < |group| ==> group[m] < photos.Length
    ensures photos[..] == Marked(old(photos[..]), group, gid)
    ensures found' == found + group
  {
    found' := found;
    var m := 0;
    while m < |group|
      invariant 0 <= m <= |group|
      invariant photos[..] == Marked(old(photos[..]), group[..m], gid)
      invariant found' == found + group[..m]
    {
      var k := group[m];
      MarkedPush(old(photos[..]), group[..m], k, gid, photos[..]);
      assert group[..m + 1] == group[..m] + [k];
      photos[k] := Mark(photos[k], gid);
      found' := found' + [k];
      m := m + 1;
    }
    assert group[..m] == group;
  }

  /** The inner loop of `findDuplicates` for anchor i: the size rule and then
      the name rule, each pushing the photo and marking it processed. */
  method CollectDuplicates(ps: seq<Photo>, i: nat, processed0: set<string>) returns (group: seq<nat>, processed: set<string>)
    requires i < |ps|
    ensures Scan(group, processed) == ScanTo(Metadata, ps, i, |ps|, processed0)
  {
    group, processed := [], processed0;
    var j := i + 1;
    while j < |ps|
      invariant i < j <= |ps|
      invariant Scan(group, processed) == ScanTo(Metadata, ps, i, j, processed0)
    {
      RepeatSmall(j);
      if ps[j].id !in processed {
        var currentPhoto, comparePhoto := ps[i], ps[j];
        var sizeDiff := SizeRatio(currentPhoto.size, comparePhoto.size);
        if sizeDiff.Some? && sizeDiff.value < 0.1 {
          group := group + [j];
          processed := processed + {comparePhoto.id};
        }
        if currentPhoto.name == comparePhoto.name {
          group := group + [j];
          processed := processed + {comparePhoto.id};
        }
      }
      j := j + 1;
    }
  }

  /** `findDuplicates`: groups by size within 10% or equal name, marks the
      followers in place and returns them; group ids come from `serial0` on. */
  method FindDuplicates(photos: array<Photo>, serial0: nat) returns (duplicates: seq<Ref>, serial: nat)
    modifies photos
    ensures var r := Run(Metadata, old(photos[..]), serial0);
      photos[..] == r.photos && duplicates == r.found && serial == r.serial
  {
    // The scan reads ids, names and sizes, which annotation never changes.
    var ps := photos[..];
    duplicates, serial := [], serial0;
    var processed: set<string> := {};
    ghost var owner: map<nat, nat> := map[];
    ghost var serials: map<nat, nat> := map[];
    var i := 0;
    while i < |ps|
      invariant 0 <= i <= |ps| == photos.Length
      invariant PassUpTo(Metadata, ps, i, serial0) == Pass(photos[..], processed, duplicates, serial, owner, serials)
    {
      ghost var s := Pass(photos[..], processed, duplicates, serial, owner, serials);
      assert PassUpTo(Metadata, ps, i + 1, serial0) == Step(Metadata, ps, s, i);
      if ps[i].id !in processed {
        var group, proc := CollectDuplicates(ps, i, processed);
        ScanAfterAnchor(Metadata, ps, i, |ps|, processed);
        if |group| > 0 {
          var groupId := Label(Metadata, serial);
          MarkAllSplits(Metadata, ps, photos[..], i, group, groupId);
          MetadataUnscored(ps, photos[..], i, group);
          duplicates := MarkGroup(photos, group, groupId, duplicates);
          owner, serials := Assign(owner, group, i), serials[i := serial];
          serial := serial + 1;
        }
        processed := proc + {ps[i].id};
      }
      i := i + 1;
    }
  }

  /** The pointwise form of `Scored`, as the scan loop maintains it. */
  lemma ScoredPointwise(c: Criterion, ps: seq<Photo>, cur: seq<Photo>, i: nat, group: seq<nat>, now: seq<Photo>)
    requires |now| == |cur| == |ps| && i < |ps|
    requires forall k :: 0 <= k < |ps| ==> now[k] == (if k in group then WithScore(cur[k], Score(c, ps[i], ps[k])) else cur[k])
    ensures now == Scored(c, ps, cur, i, group)
  {
  }

  /** A visit of the fingerprint scan that pushes photo j. */
  lemma JoinStep(h: map<string, string>, t: real, ps: seq<Photo>, cur: seq<Photo>, i: nat, j: nat,
                 processed0: set<string>, sc: Scan)
    requires i < j < |ps| == |cur| && HasHash(h, ps[i].id) && HasHash(h, ps[j].id)
    requires sc == ScanTo(Fingerprint(h, t), ps, i, j, processed0)
    requires forall m :: 0 <= m < |sc.group| ==> sc.group[m] < j
    requires ps[j].id !in sc.processed && Hamming.AtLeast(Hamming.Similarity(h[ps[i].id], h[ps[j].id]), t)
    ensures Scan(sc.group + [j], sc.processed + {ps[j].id}) == ScanTo(Fingerprint(h, t), ps, i, j + 1, processed0)
    ensures forall m :: 0 <= m < |sc.group + [j]| ==> (sc.group + [j])[m] < j + 1
    ensures Scored(Fingerprint(h, t), ps, cur, i, sc.group)[j] == cur[j]
    ensures Scored(Fingerprint(h, t), ps, cur, i, sc.group)[j := cur[j].(similarityScore := Some(Hamming.Similarity(h[ps[i].id], h[ps[j].id]).value))]
      == Scored(Fingerprint(h, t), ps, cur, i, sc.group + [j])
  {
    RepeatSmall(j);
    ScoredPush(Fingerprint(h, t), ps, cur, i, sc.group, j);
  }

  /** A visit of the fingerprint scan that pushes nothing. */
  lemma SkipStep(h: map<string, string>, t: real, ps: seq<Photo>, i: nat, j: nat, processed0: set<string>, sc: Scan)
    requires i < j < |ps| && HasHash(h, ps[i].id)
    requires sc == ScanTo(Fingerprint(h, t), ps, i, j, processed0)
    requires !(ps[j].id !in sc.processed && HasHash(h, ps[j].id) && Hamming.AtLeast(Hamming.Similarity(h[ps[i].id], h[ps[j].id]), t))
    ensures sc == ScanTo(Fingerprint(h, t), ps, i, j + 1, processed0)
  {
  }

  /** One iteration of the inner loop of `findSimilarPhotos`: photo j
      joins anchor i when it is unprocessed, has a hash, and its similarity
      to the anchor's hash reaches the threshold; it gets that similarity as
      its score at once. */
  method VisitSimilar(hasher: ImageHasher, photos: array<Photo>, ps: seq<Photo>, hashes: map<string, string>,
                      threshold: real, i: nat, j: nat, group: seq<nat>, processed: set<string>,
                      ghost cur: seq<Photo>, ghost processed0: set<string>)
    returns (group': seq<nat>, processed': set<string>)
    modifies photos
    requires photos.Length == |ps| == |cur| && i < j < |ps| && HasHash(hashes, ps[i].id)
    requires Scan(group, processed) == ScanTo(Fingerprint(hashes, threshold), ps, i, j, processed0)
    requires forall m :: 0 <= m < |group| ==> group[m] < j
    requires forall k :: 0 <= k < |ps| ==> photos[k] == (if k in group then WithScore(cur[k], Score(Fingerprint(hashes, threshold), ps[i], ps[k])) else cur[k])
    ensures Scan(group', processed') == ScanTo(Fingerprint(hashes, threshold), ps, i, j + 1, processed0)
    ensures forall m :: 0 <= m < |group'| ==> group'[m] < j + 1
    ensures forall k :: 0 <= k < |ps| ==> photos[k] == (if k in group' then WithScore(cur[k], Score(Fingerprint(hashes, threshold), ps[i], ps[k])) else cur[k])
  {
    group', processed' := group, processed;
    var comparePhoto := ps[j];
    if comparePhoto.id !in processed && comparePhoto.id in hashes && hashes[comparePhoto.id] != "" {
      var similarity := hasher.CalculateSimilarity(hashes[ps[i].id], hashes[comparePhoto.id]);
      if similarity.Finite? && similarity.value >= threshold {
        JoinStep(hashes, threshold, ps, cur, i, j, processed0, Scan(group, processed));
        assert photos[j] == cur[j];
        photos[j] := photos[j].(similarityScore := Some(similarity.value));
        group' := group + [j];
        processed' := processed + {comparePhoto.id};
      } else {
        SkipStep(hashes, threshold, ps, i, j, processed0, Scan(group, processed));
      }
    } else {
      SkipStep(hashes, threshold, ps, i, j, processed0, Scan(group, processed));
    }
  }

  /** The inner loop of `findSimilarPhotos` for anchor i. */
  method CollectSimilar(hasher: ImageHasher, photos: array<Photo>, ps: seq<Photo>, hashes: map<string, string>,
                        threshold: real, i: nat, processed0: set<string>) returns (group: seq<nat>, processed: set<string>)
    modifies photos
    requires photos.Length == |ps| && i < |ps| && HasHash(hashes, ps[i].id)
    ensures Scan(group, processed) == ScanTo(Fingerprint(hashes, threshold), ps, i, |ps|, processed0)
    ensures forall k :: 0 <= k < |ps| ==> photos[k] == (if k in group then WithScore(old(photos[k]), Score(Fingerprint(hashes, threshold), ps[i], ps[k])) else old(photos[k]))
  {
    group, processed := [], processed0;
    var j := i + 1;
    while j < |ps|
      invariant i < j <= |ps| == photos.Length
      invariant Scan(group, processed) == ScanTo(Fingerprint(hashes, threshold), ps, i, j, processed0)
      invariant forall m :: 0 <= m < |group| ==> group[m] < j
      invariant forall k :: 0 <= k < |ps| ==> photos[k] == (if k in group then WithScore(old(photos[k]), Score(Fingerprint(hashes, threshold), ps[i], ps[k])) else old(photos[k]))
    {
      group, processed := VisitSimilar(hasher, photos, ps, hashes, threshold, i, j, group, processed, old(photos[..]), processed0);
      j := j + 1;
    }
  }

  /** `findSimilarPhotos`: builds the id-to-hash table from the decoded
      rasters, then groups photos whose fingerprints are at least
      `threshold` similar to an earlier anchor's; group ids come from
      `serial0` on. */
  method FindSimilarPhotos(photos: array<Photo>, rasters: seq<Option<seq<byte>>>, browser: bool, threshold: real, serial0: nat)
    returns (similar: seq<Ref>, serial: nat)
    modifies photos
    requires |rasters| == photos.Length && Whole(rasters)
    ensures var h := HashTable(browser, old(photos[..]), rasters, |rasters|);
      var r := Run(Fingerprint(h, threshold), old(photos[..]), serial0);
      photos[..] == r.photos && similar == r.found && serial == r.serial
  {
    var hasher := new ImageHasher(browser);
    var hashes := BuildHashes(hasher, photos[..], rasters);
    similar, serial := GroupSimilar(hasher, photos, hashes, threshold, serial0);
  }

  /** The comparison loop of `findSimilarPhotos` over a finished hash table:
      a photo without a hash is skipped without being marked processed. */
  method GroupSimilar(hasher: ImageHasher, photos: array<Photo>, hashes: map<string, string>, threshold: real, serial0: nat)
    returns (similar: seq<Ref>, serial: nat)
    modifies photos
    ensures var r := Run(Fingerprint(hashes, threshold), old(photos[..]), serial0);
      photos[..] == r.photos && similar == r.found && serial == r.serial
  {
    var ps := photos[..];
    ghost var c := Fingerprint(hashes, threshold);
    similar, serial := [], serial0;
    var processed: set<string> := {};
    ghost var owner: map<nat, nat> := map[];
    ghost var serials: map<nat, nat> := map[];
    var i := 0;
    while i < |ps|
      invariant 0 <= i <= |ps| == photos.Length
      invariant PassUpTo(c, ps, i, serial0) == Pass(photos[..], processed, similar, serial, owner, serials)
    {
      ghost var s := Pass(photos[..], processed, similar, serial, owner, serials);
      assert PassUpTo(c, ps, i + 1, serial0) == Step(c, ps, s, i);
      var currentPhoto := ps[i];
      if currentPhoto.id !in processed && currentPhoto.id in hashes && hashes[currentPhoto.id] != "" {
        ghost var before := photos[..];
        var group, proc := CollectSimilar(hasher, photos, ps, hashes, threshold, i, processed);
        ScoredPointwise(c, ps, before, i, group, photos[..]);
        ScanAfterAnchor(c, ps, i, |ps|, processed);
        if |group| > 0 {
          var groupId := Label(Fingerprint(hashes, threshold), serial);
          MarkAllSplits(c, ps, before, i, group, groupId);
          similar := MarkGroup(photos, group, groupId, similar);
          owner, serials := Assign(owner, group, i), serials[i := serial];
          serial := serial + 1;
        } else {
          ScoredNothing(c, ps, before, i);
        }
        processed := proc + {currentPhoto.id};
      }
      i := i + 1;
    }
  }
}
