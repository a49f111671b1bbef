/** What a finished pass of the greedy clustering guarantees, read off the
    invariant at the end of the outer loop. `r.owner` sends every follower
    to the anchor whose group it joined; `r.serials` sends every anchor of
    a group to the counter value its group id was made from. */
module ClusteringFacts {
  import opened Photos
  import opened GreedyClustering
  import opened ClusteringInvariant
  import Hamming

  /** The invariant holds after every prefix of the outer loop. */
  lemma {:induction false} PrefixInv(c: Criterion, ps: seq<Photo>, i: nat, serial0: nat)
    requires UniqueIds(ps) && i <= |ps|
    ensures Inv(c, ps, PassUpTo(c, ps, i, serial0), i, serial0)
    decreases i
  {
    if i == 0 {
      InvInit(c, ps, serial0);
    } else {
      var k := i - 1;
      PrefixInv(c, ps, k, serial0);
      PrefixStep(c, ps, k, i, serial0);
    }
  }

  /** Outer iteration k takes the invariant from k to n = k + 1. */
  lemma PrefixStep(c: Criterion, ps: seq<Photo>, k: nat, n: nat, serial0: nat)
    requires UniqueIds(ps) && k < |ps| && n == k + 1
    requires Inv(c, ps, PassUpTo(c, ps, k, serial0), k, serial0)
    ensures Inv(c, ps, PassUpTo(c, ps, n, serial0), n, serial0)
  {
    PassUpToNext(c, ps, k, n, serial0);
    StepInv(c, ps, PassUpTo(c, ps, k, serial0), k, serial0, PassUpTo(c, ps, n, serial0), n);
  }

  lemma {:induction false} PassUpToNext(c: Criterion, ps: seq<Photo>, k: nat, n: nat, serial0: nat)
    requires k < |ps| && n == k + 1
    ensures PassUpTo(c, ps, n, serial0) == Step(c, ps, PassUpTo(c, ps, k, serial0), k)
  {
  }

  lemma PassInv(c: Criterion, ps: seq<Photo>, serial0: nat)
    requires UniqueIds(ps)
    ensures Inv(c, ps, Run(c, ps, serial0), |ps|, serial0)
  {
    PrefixInv(c, ps, |ps|, serial0);
  }

  // ---- group ids ----

  lemma {:induction false} DigitsInjective(n: nat, m: nat)
    requires Digits(n) == Digits(m)
    ensures n == m
    decreases n
  {
    if n >= 10 && m >= 10 {
      var a, b := Digits(n / 10), Digits(m / 10);
      assert Digits(n) == a + [DigitChar(n % 10)] && Digits(m) == b + [DigitChar(m % 10)];
      assert |a| == |b|;
      assert a == Digits(n)[..|a|] && b == Digits(m)[..|b|];
      assert DigitChar(n % 10) == Digits(n)[|a|] == Digits(m)[|b|] == DigitChar(m % 10);
      DigitsInjective(n / 10, m / 10);
    }
  }

  /** Two groups of one pass get the same id only from the same counter value. */
  lemma LabelInjective(c: Criterion, n: nat, m: nat)
    requires Label(c, n) == Label(c, m)
    ensures n == m
  {
    var p := Prefix(c);
    assert Digits(n) == Label(c, n)[|p|..];
    assert Digits(m) == Label(c, m)[|p|..];
    DigitsInjective(n, m);
  }

  /** A group id of the metadata pass never equals one of the fingerprint pass. */
  lemma PassLabelsDiffer(h: map<string, string>, t: real, n: nat, m: nat)
    ensures Label(Metadata, n) != Label(Fingerprint(h, t), m)
  {
    assert Label(Metadata, n)[0] == 'g';
    assert Label(Fingerprint(h, t), m)[0] == 's';
  }

  // ---- the join tests ----

  /** The size rule `|a - b| / a < 0.1` in integers: an anchor of size 0
      gives NaN or Infinity and never matches by size. */
  lemma SizeCloseIff(a: nat, b: nat)
    ensures SizeClose(a, b) <==> a > 0 && 10 * Dist(a, b) < a
  {
    if a > 0 {
      RatioBelowTenth(Dist(a, b) as real, a as real);
      assert (10 * Dist(a, b)) as real == 10.0 * (Dist(a, b) as real);
    }
  }

  /** A ratio below one tenth, without the division. */
  lemma RatioBelowTenth(d: real, x: real)
    requires x > 0.0
    ensures d / x < 0.1 <==> 10.0 * d < x
  {
    var q := d / x;
    assert q * x == d;
    if q < 0.1 {
      ScaleStrict(q, 0.1, x);
    } else {
      ScaleStrict(0.1, q, x);
    }
  }

  lemma ScaleStrict(u: real, v: real, x: real)
    requires x > 0.0 && u <= v
    ensures u * x <= v * x && (u < v ==> u * x < v * x)
  {
    assert v * x - u * x == (v - u) * x;
  }

  /** The metadata pass pushes a photo once per rule it meets: the size
      rule, then the name rule, with no check in between. */
  lemma MetadataPushes(p: Photo, q: Photo)
    ensures Joins(Metadata, p, q) <==> (p.size > 0 && 10 * Dist(p.size, q.size) < p.size) || p.name == q.name
    ensures Pushes(Metadata, p, q) == 2 <==> (p.size > 0 && 10 * Dist(p.size, q.size) < p.size) && p.name == q.name
  {
    SizeCloseIff(p.size, q.size);
  }

  /** The fingerprint pass joins two photos exactly when both have a hash
      and their similarity is a number at least the threshold. */
  lemma FingerprintJoins(h: map<string, string>, t: real, p: Photo, q: Photo)
    ensures Joins(Fingerprint(h, t), p, q) <==>
      p.id in h && q.id in h && h[p.id] != "" && h[q.id] != ""
      && Hamming.Similarity(h[p.id], h[q.id]).Finite? && Hamming.Similarity(h[p.id], h[q.id]).value >= t
    ensures Pushes(Fingerprint(h, t), p, q) <= 1
  {
  }

  // ---- the clustering ----

  /** Every follower joined an earlier photo that is not itself a follower,
      and passed the join test against it. */
  lemma FollowerJoinsEarlierAnchor(c: Criterion, ps: seq<Photo>, serial0: nat, k: nat)
    requires UniqueIds(ps)
    ensures var r := Run(c, ps, serial0);
      k in r.owner ==> r.owner[k] < k < |ps| && r.owner[k] !in r.owner && Joins(c, ps[r.owner[k]], ps[k])
  {
    PassInv(c, ps, serial0);
  }

  /** A follower's anchor is the first photo, among those that are not
      followers, that passes the join test with it. */
  lemma AnchorIsFirstMatch(c: Criterion, ps: seq<Photo>, serial0: nat, k: nat, a: nat)
    requires UniqueIds(ps)
    ensures var r := Run(c, ps, serial0);
      k in r.owner && a < r.owner[k] && a !in r.owner ==> !Joins(c, ps[a], ps[k])
  {
    PassInv(c, ps, serial0);
    var r := Run(c, ps, serial0);
    if k in r.owner && a < r.owner[k] && a !in r.owner {
      assert k < |ps|;
    }
  }

  /** The clustering is maximal: no photo left out of every group passes the
      join test with a later photo left out of every group. */
  lemma NothingLeftToGroup(c: Criterion, ps: seq<Photo>, serial0: nat, a: nat, k: nat)
    requires UniqueIds(ps) && a < k < |ps|
    ensures var r := Run(c, ps, serial0);
      a !in r.owner && k !in r.owner ==> !Joins(c, ps[a], ps[k])
  {
    PassInv(c, ps, serial0);
  }

  /** A follower is marked as a duplicate with its anchor's group id, keeps
      its identifying metadata, and (fingerprint pass only) records its
      similarity to the anchor. */
  lemma FollowerMarked(c: Criterion, ps: seq<Photo>, serial0: nat, k: nat)
    requires UniqueIds(ps)
    ensures var r := Run(c, ps, serial0);
      k in r.owner ==>
        r.owner[k] in r.serials
        && r.photos[k] == Follow(c, ps, ps[k], r.owner[k], k, Label(c, r.serials[r.owner[k]]))
        && r.photos[k].isDuplicate
        && r.photos[k].group == Some(Label(c, r.serials[r.owner[k]]))
        && SameMetadata(r.photos[k], ps[k])
  {
    PassInv(c, ps, serial0);
    var r := Run(c, ps, serial0);
    if k in r.owner {
      assert k < |ps| && r.photos[k] == Expected(c, ps, r.owner, r.serials, k);
    }
  }

  /** Photos outside every group, which includes every anchor, leave the
      pass exactly as they entered it. */
  lemma OthersUnchanged(c: Criterion, ps: seq<Photo>, serial0: nat, k: nat)
    requires UniqueIds(ps) && k < |ps|
    ensures var r := Run(c, ps, serial0);
      |r.photos| == |ps| && (k !in r.owner ==> r.photos[k] == ps[k])
  {
    PassInv(c, ps, serial0);
  }

  /** Two followers carry the same group id exactly when they joined the
      same anchor. */
  lemma SameGroupIff(c: Criterion, ps: seq<Photo>, serial0: nat, k1: nat, k2: nat)
    requires UniqueIds(ps)
    ensures var r := Run(c, ps, serial0);
      k1 in r.owner && k2 in r.owner ==>
        (r.photos[k1].group == r.photos[k2].group <==> r.owner[k1] == r.owner[k2])
  {
    FollowerMarked(c, ps, serial0, k1);
    FollowerMarked(c, ps, serial0, k2);
    PassInv(c, ps, serial0);
    var r := Run(c, ps, serial0);
    if k1 in r.owner && k2 in r.owner && r.photos[k1].group == r.photos[k2].group {
      var a1, a2 := r.owner[k1], r.owner[k2];
      LabelInjective(c, r.serials[a1], r.serials[a2]);
      assert SerialsOk(r.owner, r.serials, r.serial, serial0, |ps|);
    }
  }

  /** The returned list holds each follower once per push it received, and
      nothing else. */
  lemma FoundCounts(c: Criterion, ps: seq<Photo>, serial0: nat, k: nat)
    requires UniqueIds(ps) && k < |ps|
    ensures var r := Run(c, ps, serial0);
      multiset(r.found)[k] == if k in r.owner then Pushes(c, ps[r.owner[k]], ps[k]) else 0
  {
    PassInv(c, ps, serial0);
  }

  /** Every entry of the returned list is a follower. */
  lemma FoundAreFollowers(c: Criterion, ps: seq<Photo>, serial0: nat)
    requires UniqueIds(ps)
    ensures var r := Run(c, ps, serial0);
      forall m :: 0 <= m < |r.found| ==> r.found[m] in r.owner && r.found[m] < |ps|
  {
    PassInv(c, ps, serial0);
  }

  /** The returned list is ordered by anchor, then by position. */
  lemma FoundOrdered(c: Criterion, ps: seq<Photo>, serial0: nat, x: nat, y: nat)
    requires UniqueIds(ps)
    ensures var r := Run(c, ps, serial0);
      x < y < |r.found| ==>
        r.found[x] in r.owner && r.found[y] in r.owner
        && (r.owner[r.found[x]] < r.owner[r.found[y]]
            || (r.owner[r.found[x]] == r.owner[r.found[y]] && r.found[x] <= r.found[y]))
  {
    PassInv(c, ps, serial0);
    var r := Run(c, ps, serial0);
    if x < y < |r.found| {
      assert Precedes(r.owner, r.found[x], r.found[y]);
    }
  }

  /** In the metadata pass a follower appears twice in the result exactly
      when it meets both the size rule and the name rule against its anchor. */
  lemma MetadataFoundTwice(ps: seq<Photo>, serial0: nat, k: nat)
    requires UniqueIds(ps) && k < |ps|
    ensures var r := Run(Metadata, ps, serial0);
      multiset(r.found)[k] == 2 <==>
        k in r.owner
        && ps[r.owner[k]].size > 0 && 10 * Dist(ps[r.owner[k]].size, ps[k].size) < ps[r.owner[k]].size
        && ps[r.owner[k]].name == ps[k].name
  {
    FoundCounts(Metadata, ps, serial0, k);
    var r := Run(Metadata, ps, serial0);
    if k in r.owner {
      MetadataPushes(ps[r.owner[k]], ps[k]);
    }
  }

  /** The fingerprint pass returns each follower once. */
  lemma FingerprintFoundOnce(h: map<string, string>, t: real, ps: seq<Photo>, serial0: nat, k: nat)
    requires UniqueIds(ps) && k < |ps|
    ensures var r := Run(Fingerprint(h, t), ps, serial0);
      multiset(r.found)[k] == if k in r.owner then 1 else 0
  {
    FoundCounts(Fingerprint(h, t), ps, serial0, k);
    FollowerJoinsEarlierAnchor(Fingerprint(h, t), ps, serial0, k);
  }

  /** The score a follower of the fingerprint pass records is its
      similarity to the anchor's hash, and it reaches the threshold. */
  lemma ScoreAgainstAnchor(h: map<string, string>, t: real, ps: seq<Photo>, serial0: nat, k: nat)
    requires UniqueIds(ps)
    ensures var c := Fingerprint(h, t); var r := Run(c, ps, serial0);
      k in r.owner ==>
        HasHash(h, ps[r.owner[k]].id) && HasHash(h, ps[k].id)
        && var sim := Hamming.Similarity(h[ps[r.owner[k]].id], h[ps[k].id]);
           sim.Finite? && sim.value >= t && r.photos[k].similarityScore == Some(sim.value)
  {
    var c := Fingerprint(h, t);
    FollowerJoinsEarlierAnchor(c, ps, serial0, k);
    FollowerMarked(c, ps, serial0, k);
  }

  /** The metadata pass records no score. */
  lemma MetadataKeepsScore(ps: seq<Photo>, serial0: nat, k: nat)
    requires UniqueIds(ps) && k < |ps|
    ensures Run(Metadata, ps, serial0).photos[k].similarityScore == ps[k].similarityScore
  {
    FollowerMarked(Metadata, ps, serial0, k);
    OthersUnchanged(Metadata, ps, serial0, k);
  }

  /** In the fingerprint pass a photo without a usable hash is nobody's
      anchor, joins no group, and is left as it was. */
  lemma NoHashUntouched(h: map<string, string>, t: real, ps: seq<Photo>, serial0: nat, k: nat)
    requires UniqueIds(ps) && k < |ps| && !HasHash(h, ps[k].id)
    ensures var r := Run(Fingerprint(h, t), ps, serial0);
      k !in r.owner && r.photos[k] == ps[k] && multiset(r.found)[k] == 0
      && forall f :: f in r.owner ==> r.owner[f] != k
  {
    var c := Fingerprint(h, t);
    PassInv(c, ps, serial0);
    FoundCounts(c, ps, serial0, k);
  }

  /** A collection of at most one photo yields no duplicates and no changes. */
  lemma SmallInput(c: Criterion, ps: seq<Photo>, serial0: nat)
    requires UniqueIds(ps) && |ps| <= 1
    ensures Run(c, ps, serial0).found == [] && Run(c, ps, serial0).photos == ps
  {
    PassInv(c, ps, serial0);
    var r := Run(c, ps, serial0);
    assert r.owner == map[];
    assert r.photos == ps by {
      forall k | 0 <= k < |ps| ensures r.photos[k] == ps[k] {
        assert r.photos[k] == Expected(c, ps, r.owner, r.serials, k);
      }
    }
  }
}
