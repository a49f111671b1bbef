/** The invariant of the greedy clustering fold: what a pass has computed
    after its first i outer iterations, stated through the `owner` and
    `serials` maps. The corollaries that matter to callers are in
    `ClusteringFacts`. */
module ClusteringInvariant {
  import opened Photos
  import opened GreedyClustering

  // ---- the inner scan ----

  /** Position k is a new follower of anchor i: later than i, not claimed
      when the scan starts (`idx`), and passing the join test. */
  ghost predicate Fresh(c: Criterion, ps: seq<Photo>, i: nat, idx: set<nat>, k: nat) {
    i < k < |ps| && k !in idx && Joins(c, ps[i], ps[k])
  }

  /** What the scan of anchor i has done after visiting positions below j:
      the processed ids, the group's members, how often each member was
      pushed, and the group's order. */
  ghost predicate ScanProcessed(c: Criterion, ps: seq<Photo>, i: nat, j: nat, idx: set<nat>, processed: set<string>) {
    forall k :: 0 <= k < |ps| ==>
      (ps[k].id in processed <==> k in idx || (k < j && Fresh(c, ps, i, idx, k)))
  }

  ghost predicate ScanMembers(c: Criterion, ps: seq<Photo>, i: nat, j: nat, idx: set<nat>, g: seq<nat>) {
    forall m :: 0 <= m < |g| ==> g[m] < j && Fresh(c, ps, i, idx, g[m])
  }

  ghost predicate ScanCounts(c: Criterion, ps: seq<Photo>, i: nat, j: nat, idx: set<nat>, g: seq<nat>) {
    forall k :: 0 <= k < |ps| ==>
      multiset(g)[k] == if k < j && Fresh(c, ps, i, idx, k) then Pushes(c, ps[i], ps[k]) else 0
  }

  ghost predicate Sorted(g: seq<nat>) {
    forall a, b :: 0 <= a < b < |g| ==> g[a] <= g[b]
  }

  ghost predicate ScanOk(c: Criterion, ps: seq<Photo>, i: nat, j: nat, idx: set<nat>, sc: Scan) {
    ScanProcessed(c, ps, i, j, idx, sc.processed) && ScanMembers(c, ps, i, j, idx, sc.group)
    && ScanCounts(c, ps, i, j, idx, sc.group) && Sorted(sc.group)
  }

  lemma {:induction false} RepeatCount(k: nat, n: nat, x: nat)
    ensures multiset(Repeat(k, n))[x] == if x == k then n else 0
    decreases n
  {
    if n > 0 {
      RepeatCount(k, n - 1, x);
      assert Repeat(k, n) == Repeat(k, n - 1) + [k];
    }
  }

  /** The visit at position j either leaves the scan as it is or, for a
      fresh follower, pushes it and marks it processed. */
  lemma VisitCases(c: Criterion, ps: seq<Photo>, i: nat, j: nat, idx: set<nat>, sc: Scan)
    requires i < j < |ps| && ScanProcessed(c, ps, i, j, idx, sc.processed)
    ensures var r := Visit(c, ps, i, sc, j);
      if Fresh(c, ps, i, idx, j)
      then r == Scan(sc.group + Repeat(j, Pushes(c, ps[i], ps[j])), sc.processed + {ps[j].id})
      else r == sc
  {
  }

  lemma VisitProcessed(c: Criterion, ps: seq<Photo>, i: nat, j: nat, n: nat, idx: set<nat>, sc: Scan, r: Scan)
    requires UniqueIds(ps) && i < j < |ps| && n == j + 1 && r == Visit(c, ps, i, sc, j)
    requires ScanProcessed(c, ps, i, j, idx, sc.processed)
    ensures ScanProcessed(c, ps, i, n, idx, r.processed)
  {
    VisitCases(c, ps, i, j, idx, sc);
    forall k | 0 <= k < |ps| && k != j ensures ps[k].id != ps[j].id {
      if k < j {
        assert ps[k].id != ps[j].id;
      } else {
        assert ps[j].id != ps[k].id;
      }
    }
  }

  lemma VisitMembers(c: Criterion, ps: seq<Photo>, i: nat, j: nat, n: nat, idx: set<nat>, sc: Scan, r: Scan)
    requires i < j < |ps| && n == j + 1 && r == Visit(c, ps, i, sc, j)
    requires ScanProcessed(c, ps, i, j, idx, sc.processed)
    requires ScanMembers(c, ps, i, j, idx, sc.group) && Sorted(sc.group)
    ensures ScanMembers(c, ps, i, n, idx, r.group) && Sorted(r.group)
  {
    VisitCases(c, ps, i, j, idx, sc);
    forall m | |sc.group| <= m < |r.group| ensures r.group[m] == j {
    }
  }

  lemma VisitCounts(c: Criterion, ps: seq<Photo>, i: nat, j: nat, n: nat, idx: set<nat>, sc: Scan, r: Scan)
    requires i < j < |ps| && n == j + 1 && r == Visit(c, ps, i, sc, j)
    requires ScanProcessed(c, ps, i, j, idx, sc.processed)
    requires ScanCounts(c, ps, i, j, idx, sc.group)
    ensures ScanCounts(c, ps, i, n, idx, r.group)
  {
    VisitCases(c, ps, i, j, idx, sc);
    if Fresh(c, ps, i, idx, j) {
      var pushes := Pushes(c, ps[i], ps[j]);
      forall k | 0 <= k < |ps| ensures multiset(r.group)[k] ==
        if k < j + 1 && Fresh(c, ps, i, idx, k) then Pushes(c, ps[i], ps[k]) else 0
      {
        RepeatCount(j, pushes, k);
        assert multiset(r.group)[k] == multiset(sc.group)[k] + multiset(Repeat(j, pushes))[k];
      }
    }
  }

  /** The scan of anchor i after visiting positions i+1 .. j-1. */
  lemma {:induction false} ScanFacts(c: Criterion, ps: seq<Photo>, i: nat, j: nat, p: set<string>, idx: set<nat>)
    requires UniqueIds(ps) && i < j <= |ps|
    requires forall k :: 0 <= k < |ps| ==> (ps[k].id in p <==> k in idx)
    ensures ScanOk(c, ps, i, j, idx, ScanTo(c, ps, i, j, p))
    decreases j
  {
    if j > i + 1 {
      ScanFacts(c, ps, i, j - 1, p, idx);
      ScanStep(c, ps, i, j, p, idx);
    }
  }

  lemma ScanStep(c: Criterion, ps: seq<Photo>, i: nat, j: nat, p: set<string>, idx: set<nat>)
    requires UniqueIds(ps) && i + 1 < j <= |ps|
    requires ScanOk(c, ps, i, j - 1, idx, ScanTo(c, ps, i, j - 1, p))
    ensures ScanOk(c, ps, i, j, idx, ScanTo(c, ps, i, j, p))
  {
    var sc, r := ScanTo(c, ps, i, j - 1, p), ScanTo(c, ps, i, j, p);
    VisitProcessed(c, ps, i, j - 1, j, idx, sc, r);
    VisitMembers(c, ps, i, j - 1, j, idx, sc, r);
    VisitCounts(c, ps, i, j - 1, j, idx, sc, r);
  }

  // ---- the pass ----

  /** The positions a pass has claimed before outer iteration i: the
      anchor candidates already visited and every follower. The scan of
      anchor i skips exactly these. */
  ghost function Claimed(c: Criterion, ps: seq<Photo>, owner: map<nat, nat>, i: nat): set<nat> {
    set k | 0 <= k < |ps| && ((k < i && CanAnchor(c, ps[k])) || k in owner)
  }

  ghost predicate ProcessedOk(c: Criterion, ps: seq<Photo>, processed: set<string>, owner: map<nat, nat>, i: nat) {
    forall k :: 0 <= k < |ps| ==>
      (ps[k].id in processed <==> (k < i && CanAnchor(c, ps[k])) || k in owner)
  }

  /** Every follower has an earlier, already visited anchor that passes the
      join test with it, and no anchor is itself a follower. */
  ghost predicate OwnerOk(c: Criterion, ps: seq<Photo>, owner: map<nat, nat>, i: nat) {
    (forall k :: k in owner ==>
      k < |ps| && owner[k] < i && owner[k] < k && Joins(c, ps[owner[k]], ps[k]))
    && (forall k, a :: k in owner && a in owner ==> owner[k] != a)
  }

  /** No non-follower before a follower's anchor would have taken it. */
  ghost predicate FirstMatch(c: Criterion, ps: seq<Photo>, owner: map<nat, nat>) {
    forall k, a :: k in owner && 0 <= a < owner[k] < k < |ps| && a !in owner ==>
      !Joins(c, ps[a], ps[k])
  }

  /** Among the positions no anchor has taken, no visited one joins a later one. */
  ghost predicate Unmatched(c: Criterion, ps: seq<Photo>, owner: map<nat, nat>, i: nat) {
    forall a, k :: 0 <= a < i && a < k < |ps| && a !in owner && k !in owner ==>
      !Joins(c, ps[a], ps[k])
  }

  /** Each anchor of a group holds its own counter value, drawn in order. */
  ghost predicate SerialsOk(owner: map<nat, nat>, serials: map<nat, nat>, serial: nat, serial0: nat, i: nat) {
    serial0 <= serial
    && |serials| == serial - serial0
    && (forall k :: k in owner ==> owner[k] in serials)
    && (forall a :: a in serials ==> a < i && serial0 <= serials[a] < serial)
    && (forall a, k :: a in serials && k in owner ==> a != k)
    && (forall a, b :: a in serials && b in serials && a != b ==> serials[a] != serials[b])
  }

  /** The record a pass leaves at position k: a follower is marked with its
      anchor's group id (and score); every other record is as it was. */
  ghost function Expected(c: Criterion, ps: seq<Photo>, owner: map<nat, nat>, serials: map<nat, nat>, k: nat): Photo
    requires k < |ps|
  {
    if k in owner && owner[k] < |ps| && owner[k] in serials
    then Follow(c, ps, ps[k], owner[k], k, Label(c, serials[owner[k]]))
    else ps[k]
  }

  ghost predicate AnnotOk(c: Criterion, ps: seq<Photo>, photos: seq<Photo>, owner: map<nat, nat>, serials: map<nat, nat>) {
    |photos| == |ps| && forall k :: 0 <= k < |ps| ==> photos[k] == Expected(c, ps, owner, serials, k)
  }

  /** Follower order in the result: by anchor, then by position. */
  ghost predicate Precedes(owner: map<nat, nat>, x: nat, y: nat)
    requires x in owner && y in owner
  {
    owner[x] < owner[y] || (owner[x] == owner[y] && x <= y)
  }

  ghost predicate FoundOk(c: Criterion, ps: seq<Photo>, found: seq<nat>, owner: map<nat, nat>) {
    (forall m :: 0 <= m < |found| ==> found[m] in owner)
    && (forall k :: 0 <= k < |ps| ==>
          multiset(found)[k] == if k in owner && owner[k] < k then Pushes(c, ps[owner[k]], ps[k]) else 0)
    && (forall a, b :: 0 <= a < b < |found| && found[a] in owner && found[b] in owner ==>
          Precedes(owner, found[a], found[b]))
  }

  ghost predicate Inv(c: Criterion, ps: seq<Photo>, s: Pass, i: nat, serial0: nat) {
    i <= |ps|
    && ProcessedOk(c, ps, s.processed, s.owner, i)
    && OwnerOk(c, ps, s.owner, i)
    && FirstMatch(c, ps, s.owner)
    && Unmatched(c, ps, s.owner, i)
    && SerialsOk(s.owner, s.serials, s.serial, serial0, i)
    && AnnotOk(c, ps, s.photos, s.owner, s.serials)
    && FoundOk(c, ps, s.found, s.owner)
  }

  // ---- one anchor step ----

  /** What the scan of anchor i yields: the group holds exactly the new
      followers, i.e. the unclaimed later positions that pass the join test. */
  ghost predicate GroupOk(c: Criterion, ps: seq<Photo>, owner: map<nat, nat>, i: nat, idx: set<nat>, g: seq<nat>) {
    i < |ps| && i !in owner && i !in idx
    && (forall k :: k in idx <==> 0 <= k < |ps| && ((k < i && CanAnchor(c, ps[k])) || k in owner))
    && (forall k: nat :: k in g <==> Fresh(c, ps, i, idx, k))
  }

  /** `o2` is `o1` with every position of `g` sent to anchor i. */
  ghost predicate Extends(o1: map<nat, nat>, o2: map<nat, nat>, g: seq<nat>, i: nat) {
    (forall k :: k in o2 <==> k in o1 || k in g)
    && (forall k :: k in o1 ==> o2[k] == o1[k])
    && (forall k :: k in g ==> k !in o1 && o2[k] == i)
  }

  lemma GroupHolds(c: Criterion, ps: seq<Photo>, s: Pass, i: nat, serial0: nat, idx: set<nat>, sc: Scan)
    requires i < |ps| && Inv(c, ps, s, i, serial0)
    requires ps[i].id !in s.processed && idx == Claimed(c, ps, s.owner, i) && ScanOk(c, ps, i, |ps|, idx, sc)
    ensures GroupOk(c, ps, s.owner, i, idx, sc.group)
  {
    forall k: nat ensures k in sc.group <==> Fresh(c, ps, i, idx, k) {
      if Fresh(c, ps, i, idx, k) {
        assert multiset(sc.group)[k] > 0;
      }
    }
  }

  lemma ExtendsHolds(c: Criterion, ps: seq<Photo>, o1: map<nat, nat>, i: nat, idx: set<nat>, g: seq<nat>)
    requires GroupOk(c, ps, o1, i, idx, g)
    ensures Extends(o1, Assign(o1, g, i), g, i)
  {
  }

  // Each lemma below takes exactly the parts of the invariant it needs and
  // yields one part of the invariant after a step that forms a group.

  lemma NewProcessed(c: Criterion, ps: seq<Photo>, p: set<string>, o1: map<nat, nat>, i: nat, idx: set<nat>, g: seq<nat>)
    requires GroupOk(c, ps, o1, i, idx, g) && UniqueIds(ps) && CanAnchor(c, ps[i])
    requires ScanProcessed(c, ps, i, |ps|, idx, p)
    ensures ProcessedOk(c, ps, p + {ps[i].id}, Assign(o1, g, i), i + 1)
  {
    var o2 := Assign(o1, g, i);
    ExtendsHolds(c, ps, o1, i, idx, g);
    forall k | 0 <= k < |ps| ensures (ps[k].id in p + {ps[i].id} <==> (k < i + 1 && CanAnchor(c, ps[k])) || k in o2) {
      if k != i {
        if k < i {
          assert ps[k].id != ps[i].id;
        } else {
          assert ps[i].id != ps[k].id;
        }
      }
    }
  }

  lemma NewOwner(c: Criterion, ps: seq<Photo>, o1: map<nat, nat>, i: nat, idx: set<nat>, g: seq<nat>)
    requires GroupOk(c, ps, o1, i, idx, g) && OwnerOk(c, ps, o1, i)
    ensures OwnerOk(c, ps, Assign(o1, g, i), i + 1)
  {
    var o2 := Assign(o1, g, i);
    ExtendsHolds(c, ps, o1, i, idx, g);
    forall k, a | k in o2 && a in o2 ensures o2[k] != a {
      if k in g {
        assert i !in g;
      } else if a in g {
        assert o2[k] < i < a;
      }
    }
  }

  lemma NewFirstMatch(c: Criterion, ps: seq<Photo>, o1: map<nat, nat>, i: nat, idx: set<nat>, g: seq<nat>)
    requires GroupOk(c, ps, o1, i, idx, g) && FirstMatch(c, ps, o1) && Unmatched(c, ps, o1, i)
    ensures FirstMatch(c, ps, Assign(o1, g, i))
  {
    var o2 := Assign(o1, g, i);
    ExtendsHolds(c, ps, o1, i, idx, g);
    forall k, a | k in o2 && 0 <= a < o2[k] < k < |ps| && a !in o2 ensures !Joins(c, ps[a], ps[k]) {
      if k in g {
        assert k !in o1;
      }
    }
  }

  lemma NewUnmatched(c: Criterion, ps: seq<Photo>, o1: map<nat, nat>, i: nat, idx: set<nat>, g: seq<nat>)
    requires GroupOk(c, ps, o1, i, idx, g) && Unmatched(c, ps, o1, i)
    ensures Unmatched(c, ps, Assign(o1, g, i), i + 1)
  {
    var o2 := Assign(o1, g, i);
    ExtendsHolds(c, ps, o1, i, idx, g);
    forall a, k | 0 <= a < i + 1 && a < k < |ps| && a !in o2 && k !in o2 ensures !Joins(c, ps[a], ps[k]) {
      if a == i {
        assert k !in g && k !in idx;
      }
    }
  }

  lemma NewSerials(c: Criterion, ps: seq<Photo>, o1: map<nat, nat>, ser: map<nat, nat>, serial: nat, serial0: nat,
                   i: nat, idx: set<nat>, g: seq<nat>)
    requires GroupOk(c, ps, o1, i, idx, g) && SerialsOk(o1, ser, serial, serial0, i)
    ensures SerialsOk(Assign(o1, g, i), ser[i := serial], serial + 1, serial0, i + 1)
  {
    ExtendsHolds(c, ps, o1, i, idx, g);
    forall k | k in g ensures i < k {
      assert Fresh(c, ps, i, idx, k);
    }
    SerialsGrow(o1, Assign(o1, g, i), ser, serial, serial0, i, g);
  }

  /** Giving anchor i the next counter value keeps the serials consistent. */
  lemma SerialsGrow(o1: map<nat, nat>, o2: map<nat, nat>, ser: map<nat, nat>, serial: nat, serial0: nat, i: nat, g: seq<nat>)
    requires Extends(o1, o2, g, i) && SerialsOk(o1, ser, serial, serial0, i)
    requires i !in o1 && forall k :: k in g ==> i < k
    ensures SerialsOk(o2, ser[i := serial], serial + 1, serial0, i + 1)
  {
    var ser2 := ser[i := serial];
    assert i !in ser;
    assert |ser2| == |ser| + 1;
    forall k | k in o2 ensures o2[k] in ser2 {
      if k in g {
        assert o2[k] == i;
      } else {
        assert o2[k] == o1[k];
      }
    }
    forall a, k | a in ser2 && k in o2 ensures a != k {
      if k in g {
        assert a <= i < k;
      }
    }
    forall a, b | a in ser2 && b in ser2 && a != b ensures ser2[a] != ser2[b] {
      if a != i && b != i {
        assert ser2[a] == ser[a] && ser2[b] == ser[b];
      }
    }
  }

  lemma NewAnnot(c: Criterion, ps: seq<Photo>, photos: seq<Photo>, o1: map<nat, nat>, ser: map<nat, nat>,
                 serial: nat, serial0: nat, i: nat, idx: set<nat>, g: seq<nat>)
    requires GroupOk(c, ps, o1, i, idx, g) && AnnotOk(c, ps, photos, o1, ser)
    requires OwnerOk(c, ps, o1, i) && SerialsOk(o1, ser, serial, serial0, i)
    ensures AnnotOk(c, ps, MarkAll(c, ps, photos, i, g, Label(c, serial)), Assign(o1, g, i), ser[i := serial])
  {
    var o2 := Assign(o1, g, i);
    ExtendsHolds(c, ps, o1, i, idx, g);
    assert i !in ser;
    forall k | 0 <= k < |ps|
      ensures MarkAll(c, ps, photos, i, g, Label(c, serial))[k] == Expected(c, ps, o2, ser[i := serial], k)
    {
      AnnotAt(c, ps, photos, o1, o2, ser, serial, i, g, k);
    }
  }

  /** The record at position k after anchor i's group is marked. */
  lemma AnnotAt(c: Criterion, ps: seq<Photo>, photos: seq<Photo>, o1: map<nat, nat>, o2: map<nat, nat>,
                ser: map<nat, nat>, serial: nat, i: nat, g: seq<nat>, k: nat)
    requires i < |ps| && k < |ps| && |photos| == |ps| && i !in ser
    requires photos[k] == Expected(c, ps, o1, ser, k) && Extends(o1, o2, g, i)
    requires k in o1 ==> o1[k] < i
    ensures MarkAll(c, ps, photos, i, g, Label(c, serial))[k] == Expected(c, ps, o2, ser[i := serial], k)
  {
    if k in g {
      assert photos[k] == ps[k];
    }
  }

  lemma NewFound(c: Criterion, ps: seq<Photo>, f: seq<nat>, o1: map<nat, nat>, i: nat, idx: set<nat>, g: seq<nat>)
    requires GroupOk(c, ps, o1, i, idx, g) && FoundOk(c, ps, f, o1) && OwnerOk(c, ps, o1, i)
    requires ScanCounts(c, ps, i, |ps|, idx, g) && Sorted(g)
    ensures FoundOk(c, ps, f + g, Assign(o1, g, i))
  {
    var o2 := Assign(o1, g, i);
    ExtendsHolds(c, ps, o1, i, idx, g);
    NewCounts(c, ps, f, o1, o2, i, idx, g);
    FoundOrder(f, g, o1, o2, i);
  }

  /** The followers found so far, then the sorted new group, are in result order. */
  lemma FoundOrder(f: seq<nat>, g: seq<nat>, o1: map<nat, nat>, o2: map<nat, nat>, i: nat)
    requires Extends(o1, o2, g, i) && forall k :: k in o1 ==> o1[k] < i
    requires forall m :: 0 <= m < |f| ==> f[m] in o1
    requires forall a, b :: 0 <= a < b < |f| && f[a] in o1 && f[b] in o1 ==> Precedes(o1, f[a], f[b])
    requires Sorted(g)
    ensures forall m :: 0 <= m < |f + g| ==> (f + g)[m] in o2
    ensures forall a, b :: 0 <= a < b < |f + g| && (f + g)[a] in o2 && (f + g)[b] in o2 ==>
      Precedes(o2, (f + g)[a], (f + g)[b])
  {
    forall m | 0 <= m < |g| ensures g[m] in o2 && o2[g[m]] == i {
      assert g[m] in g;
    }
    forall m | 0 <= m < |f| ensures f[m] in o2 && o2[f[m]] < i {
    }
    forall a, b | 0 <= a < b < |f| ensures Precedes(o2, f[a], f[b]) {
      assert Precedes(o1, f[a], f[b]);
    }
    AppendOrdered(f, g, o2, i);
    forall m | 0 <= m < |f + g| ensures (f + g)[m] in o2 {
      if m >= |f| {
        assert (f + g)[m] == g[m - |f|];
      }
    }
  }

  lemma NewCounts(c: Criterion, ps: seq<Photo>, f: seq<nat>, o1: map<nat, nat>, o2: map<nat, nat>, i: nat, idx: set<nat>, g: seq<nat>)
    requires GroupOk(c, ps, o1, i, idx, g) && Extends(o1, o2, g, i)
    requires FoundOk(c, ps, f, o1) && ScanCounts(c, ps, i, |ps|, idx, g)
    ensures forall k :: 0 <= k < |ps| ==>
      multiset(f + g)[k] == if k in o2 && o2[k] < k then Pushes(c, ps[o2[k]], ps[k]) else 0
  {
    forall k | 0 <= k < |ps| ensures multiset(f + g)[k] ==
      if k in o2 && o2[k] < k then Pushes(c, ps[o2[k]], ps[k]) else 0
    {
      assert multiset(f + g)[k] == multiset(f)[k] + multiset(g)[k];
    }
  }

  /** Appending a sorted group of anchor i after the followers of earlier
      anchors keeps the result ordered by anchor, then by position. */
  lemma AppendOrdered(f: seq<nat>, g: seq<nat>, owner: map<nat, nat>, i: nat)
    requires forall m :: 0 <= m < |f| ==> f[m] in owner && owner[f[m]] < i
    requires forall a, b :: 0 <= a < b < |f| ==> Precedes(owner, f[a], f[b])
    requires forall m :: 0 <= m < |g| ==> g[m] in owner && owner[g[m]] == i
    requires forall a, b :: 0 <= a < b < |g| ==> g[a] <= g[b]
    ensures forall a, b :: 0 <= a < b < |f + g| && (f + g)[a] in owner && (f + g)[b] in owner ==>
      Precedes(owner, (f + g)[a], (f + g)[b])
  {
    var h := f + g;
    forall a, b | 0 <= a < b < |h| ensures Precedes(owner, h[a], h[b]) {
      if b < |f| {
        assert h[a] == f[a] && h[b] == f[b];
      } else if a < |f| {
        assert h[a] == f[a] && h[b] == g[b - |f|];
      } else {
        assert h[a] == g[a - |f|] && h[b] == g[b - |f|];
      }
    }
  }

  lemma StepGrow(c: Criterion, ps: seq<Photo>, s: Pass, i: nat, serial0: nat, idx: set<nat>, sc: Scan)
    requires UniqueIds(ps) && i < |ps| && Inv(c, ps, s, i, serial0) && CanAnchor(c, ps[i])
    requires GroupOk(c, ps, s.owner, i, idx, sc.group) && ScanOk(c, ps, i, |ps|, idx, sc)
    ensures Inv(c, ps, Pass(MarkAll(c, ps, s.photos, i, sc.group, Label(c, s.serial)),
                            sc.processed + {ps[i].id}, s.found + sc.group, s.serial + 1,
                            Assign(s.owner, sc.group, i), s.serials[i := s.serial]), i + 1, serial0)
  {
    NewProcessed(c, ps, sc.processed, s.owner, i, idx, sc.group);
    NewOwner(c, ps, s.owner, i, idx, sc.group);
    NewFirstMatch(c, ps, s.owner, i, idx, sc.group);
    NewUnmatched(c, ps, s.owner, i, idx, sc.group);
    NewSerials(c, ps, s.owner, s.serials, s.serial, serial0, i, idx, sc.group);
    NewAnnot(c, ps, s.photos, s.owner, s.serials, s.serial, serial0, i, idx, sc.group);
    NewFound(c, ps, s.found, s.owner, i, idx, sc.group);
  }

  lemma StepEmpty(c: Criterion, ps: seq<Photo>, s: Pass, i: nat, serial0: nat, idx: set<nat>, sc: Scan)
    requires UniqueIds(ps) && Inv(c, ps, s, i, serial0)
    requires GroupOk(c, ps, s.owner, i, idx, sc.group) && CanAnchor(c, ps[i]) && |sc.group| == 0
    requires ScanProcessed(c, ps, i, |ps|, idx, sc.processed)
    ensures Inv(c, ps, s.(processed := sc.processed + {ps[i].id}), i + 1, serial0)
  {
    AssignNothing(s.owner, sc.group, i);
    NewProcessed(c, ps, sc.processed, s.owner, i, idx, sc.group);
    NewUnmatched(c, ps, s.owner, i, idx, sc.group);
  }

  lemma AssignNothing(owner: map<nat, nat>, g: seq<nat>, i: nat)
    requires |g| == 0
    ensures Assign(owner, g, i) == owner
  {
  }

  lemma StepAnchor(c: Criterion, ps: seq<Photo>, s: Pass, i: nat, serial0: nat)
    requires UniqueIds(ps) && i < |ps| && Inv(c, ps, s, i, serial0)
    requires ps[i].id !in s.processed && CanAnchor(c, ps[i])
    ensures Inv(c, ps, Step(c, ps, s, i), i + 1, serial0)
  {
    var idx := Claimed(c, ps, s.owner, i);
    var sc := ScanTo(c, ps, i, |ps|, s.processed);
    AnchorScan(c, ps, s, i, serial0);
    if |sc.group| == 0 {
      StepEmpty(c, ps, s, i, serial0, idx, sc);
    } else {
      StepGrow(c, ps, s, i, serial0, idx, sc);
    }
  }

  /** The scan of an unprocessed anchor yields its group of new followers. */
  lemma AnchorScan(c: Criterion, ps: seq<Photo>, s: Pass, i: nat, serial0: nat)
    requires UniqueIds(ps) && i < |ps| && Inv(c, ps, s, i, serial0) && ps[i].id !in s.processed
    ensures var idx := Claimed(c, ps, s.owner, i);
      var sc := ScanTo(c, ps, i, |ps|, s.processed);
      ScanOk(c, ps, i, |ps|, idx, sc) && GroupOk(c, ps, s.owner, i, idx, sc.group)
  {
    var idx := Claimed(c, ps, s.owner, i);
    ScanFacts(c, ps, i, |ps|, s.processed, idx);
    GroupHolds(c, ps, s, i, serial0, idx, ScanTo(c, ps, i, |ps|, s.processed));
  }

  lemma StepSkip(c: Criterion, ps: seq<Photo>, s: Pass, i: nat, serial0: nat)
    requires UniqueIds(ps) && i < |ps| && Inv(c, ps, s, i, serial0)
    requires ps[i].id in s.processed || !CanAnchor(c, ps[i])
    ensures Inv(c, ps, Step(c, ps, s, i), i + 1, serial0)
  {
    assert Step(c, ps, s, i) == s;
    SkipProcessed(c, ps, s.processed, s.owner, i);
    SkipUnmatched(c, ps, s.processed, s.owner, i);
  }

  lemma SkipProcessed(c: Criterion, ps: seq<Photo>, p: set<string>, owner: map<nat, nat>, i: nat)
    requires i < |ps| && ProcessedOk(c, ps, p, owner, i)
    requires ps[i].id in p || !CanAnchor(c, ps[i])
    ensures ProcessedOk(c, ps, p, owner, i + 1)
  {
  }

  lemma SkipUnmatched(c: Criterion, ps: seq<Photo>, p: set<string>, owner: map<nat, nat>, i: nat)
    requires i < |ps| && ProcessedOk(c, ps, p, owner, i) && Unmatched(c, ps, owner, i)
    requires ps[i].id in p || !CanAnchor(c, ps[i])
    ensures Unmatched(c, ps, owner, i + 1)
  {
    forall a, k | 0 <= a < i + 1 && a < k < |ps| && a !in owner && k !in owner ensures !Joins(c, ps[a], ps[k]) {
      if a == i {
        assert !CanAnchor(c, ps[i]);
      }
    }
  }

  lemma StepInv(c: Criterion, ps: seq<Photo>, s: Pass, i: nat, serial0: nat, t: Pass, n: nat)
    requires UniqueIds(ps) && i < |ps| && Inv(c, ps, s, i, serial0) && t == Step(c, ps, s, i) && n == i + 1
    ensures Inv(c, ps, t, n, serial0)
  {
    if ps[i].id in s.processed || !CanAnchor(c, ps[i]) {
      StepSkip(c, ps, s, i, serial0);
    } else {
      StepAnchor(c, ps, s, i, serial0);
    }
  }

  lemma InvInit(c: Criterion, ps: seq<Photo>, serial0: nat)
    ensures Inv(c, ps, Pass(ps, {}, [], serial0, map[], map[]), 0, serial0)
  {
  }
}
