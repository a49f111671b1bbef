/** The `usePhotoAnalysis` hook: the analysis run that chains the two
    passes, the reset on an empty collection, and the derived views of the
    passes' results (the id-deduplicated union, the buckets by group id and
    the space savings). The passes return references into the collection,
    so every view reads the records' latest annotation. */
module PhotoAnalysis {
  import opened Photos
  import opened GreedyClustering
  import opened ImageHashing
  import opened AverageHash
  import opened DuplicateSearch

  /** Every reference points into a collection of n photos. */
  predicate InRange(n: nat, s: seq<Ref>) {
    forall m :: 0 <= m < |s| ==> s[m] < n
  }

  /** `self.findIndex(p => p.id === id)`: the first position of `s` whose
      photo has id `id`, or -1. */
  function FindIndex(ps: seq<Photo>, s: seq<Ref>, id: string): (r: int)
    requires InRange(|ps|, s)
    ensures -1 <= r < |s|
    ensures r >= 0 ==> ps[s[r]].id == id && forall m :: 0 <= m < r ==> ps[s[m]].id != id
    ensures r == -1 ==> forall m :: 0 <= m < |s| ==> ps[s[m]].id != id
    decreases |s|
  {
    if |s| == 0 then -1
    else
      var r := FindIndex(ps, s[..|s| - 1], id);
      if r >= 0 then r else if ps[s[|s| - 1]].id == id then |s| - 1 else -1
  }

  /** The `filter` of `getAllDuplicates` over the first n entries of `s`:
      an entry is kept when it is the first one with its id. */
  function KeepFirst(ps: seq<Photo>, s: seq<Ref>, n: nat): (r: seq<Ref>)
    requires InRange(|ps|, s) && n <= |s|
    ensures InRange(|ps|, r)
    decreases n
  {
    if n == 0 then []
    else KeepFirst(ps, s, n - 1) + (if FindIndex(ps, s, ps[s[n - 1]].id) == n - 1 then [s[n - 1]] else [])
  }

  /** `getAllDuplicates`: the exact pass's list followed by the perceptual
      pass's, the first entry of each id kept. */
  function AllDuplicates(ps: seq<Photo>, duplicates: seq<Ref>, similar: seq<Ref>): (r: seq<Ref>)
    requires InRange(|ps|, duplicates) && InRange(|ps|, similar)
    ensures InRange(|ps|, r)
  {
    KeepFirst(ps, duplicates + similar, |duplicates + similar|)
  }

  function Ids(ps: seq<Photo>, s: seq<Ref>): set<string>
    requires InRange(|ps|, s)
  {
    set m | 0 <= m < |s| :: ps[s[m]].id
  }

  /** Each entry the filter keeps among the first n is the first
      occurrence of its id. */
  lemma {:induction false} KeepFirstSound(ps: seq<Photo>, s: seq<Ref>, n: nat)
    requires InRange(|ps|, s) && n <= |s|
    ensures forall a :: 0 <= a < |KeepFirst(ps, s, n)| ==>
      0 <= FindIndex(ps, s, ps[KeepFirst(ps, s, n)[a]].id) < n && s[FindIndex(ps, s, ps[KeepFirst(ps, s, n)[a]].id)] == KeepFirst(ps, s, n)[a]
    decreases n
  {
    if n > 0 {
      KeepFirstSound(ps, s, n - 1);
      var r0, r := KeepFirst(ps, s, n - 1), KeepFirst(ps, s, n);
      var kept := FindIndex(ps, s, ps[s[n - 1]].id) == n - 1;
      assert r == r0 + (if kept then [s[n - 1]] else []);
      forall a | 0 <= a < |r|
        ensures 0 <= FindIndex(ps, s, ps[r[a]].id) < n && s[FindIndex(ps, s, ps[r[a]].id)] == r[a]
      {
        if a < |r0| {
          assert r[a] == r0[a];
        } else {
          assert kept && r[a] == s[n - 1];
        }
      }
    }
  }

  /** Kept entries are in the order of their first occurrences. */
  lemma {:induction false} KeepFirstOrdered(ps: seq<Photo>, s: seq<Ref>, n: nat)
    requires InRange(|ps|, s) && n <= |s|
    ensures forall a, b :: 0 <= a < b < |KeepFirst(ps, s, n)| ==>
      FindIndex(ps, s, ps[KeepFirst(ps, s, n)[a]].id) < FindIndex(ps, s, ps[KeepFirst(ps, s, n)[b]].id)
    decreases n
  {
    if n > 0 {
      KeepFirstOrdered(ps, s, n - 1);
      KeepFirstSound(ps, s, n - 1);
      var r0, r := KeepFirst(ps, s, n - 1), KeepFirst(ps, s, n);
      var kept := FindIndex(ps, s, ps[s[n - 1]].id) == n - 1;
      assert r == r0 + (if kept then [s[n - 1]] else []);
      forall a, b | 0 <= a < b < |r| ensures FindIndex(ps, s, ps[r[a]].id) < FindIndex(ps, s, ps[r[b]].id) {
        assert r[a] == r0[a];
        assert FindIndex(ps, s, ps[r0[a]].id) < n - 1;
        if b < |r0| {
          assert r[b] == r0[b];
        } else {
          assert kept && r[b] == s[n - 1];
        }
      }
    }
  }

  /** The first occurrence of every id among the first n entries is kept. */
  lemma {:induction false} KeepFirstComplete(ps: seq<Photo>, s: seq<Ref>, n: nat)
    requires InRange(|ps|, s) && n <= |s|
    ensures forall k :: 0 <= k < n ==> s[FindIndex(ps, s, ps[s[k]].id)] in KeepFirst(ps, s, n)
    decreases n
  {
    if n > 0 {
      KeepFirstComplete(ps, s, n - 1);
      var r0, r := KeepFirst(ps, s, n - 1), KeepFirst(ps, s, n);
      assert r == r0 + (if FindIndex(ps, s, ps[s[n - 1]].id) == n - 1 then [s[n - 1]] else []);
      var f := FindIndex(ps, s, ps[s[n - 1]].id);
      if f < n - 1 {
        assert FindIndex(ps, s, ps[s[f]].id) == f;
      }
      forall k | 0 <= k < n ensures s[FindIndex(ps, s, ps[s[k]].id)] in r {
        if k < n - 1 {
          assert s[FindIndex(ps, s, ps[s[k]].id)] in r0;
        }
      }
    }
  }

  /** No id appears twice in `getAllDuplicates`. */
  lemma AllDuplicatesUnique(ps: seq<Photo>, duplicates: seq<Ref>, similar: seq<Ref>)
    requires InRange(|ps|, duplicates) && InRange(|ps|, similar)
    ensures forall a, b :: 0 <= a < b < |AllDuplicates(ps, duplicates, similar)| ==>
      ps[AllDuplicates(ps, duplicates, similar)[a]].id != ps[AllDuplicates(ps, duplicates, similar)[b]].id
  {
    var s := duplicates + similar;
    KeepFirstOrdered(ps, s, |s|);
    var r := AllDuplicates(ps, duplicates, similar);
    forall a, b | 0 <= a < b < |r| ensures ps[r[a]].id != ps[r[b]].id {
      assert FindIndex(ps, s, ps[r[a]].id) < FindIndex(ps, s, ps[r[b]].id);
    }
  }

  /** `getAllDuplicates` has exactly the ids of the two lists together. */
  lemma AllDuplicatesIds(ps: seq<Photo>, duplicates: seq<Ref>, similar: seq<Ref>)
    requires InRange(|ps|, duplicates) && InRange(|ps|, similar)
    ensures Ids(ps, AllDuplicates(ps, duplicates, similar)) == Ids(ps, duplicates + similar)
    ensures Ids(ps, duplicates + similar) == Ids(ps, duplicates) + Ids(ps, similar)
  {
    var s := duplicates + similar;
    var r := AllDuplicates(ps, duplicates, similar);
    KeepFirstSound(ps, s, |s|);
    forall id | id in Ids(ps, r) ensures id in Ids(ps, s) {
      var a :| 0 <= a < |r| && ps[r[a]].id == id;
      var f := FindIndex(ps, s, ps[r[a]].id);
      assert ps[s[f]].id == id;
    }
    forall id | id in Ids(ps, s) ensures id in Ids(ps, r) {
      var k :| 0 <= k < |s| && ps[s[k]].id == id;
      KeepFirstComplete(ps, s, |s|);
      var f := FindIndex(ps, s, id);
      var a :| 0 <= a < |r| && r[a] == s[f];
    }
    IdsConcat(ps, duplicates, similar);
  }

  lemma IdsConcat(ps: seq<Photo>, s: seq<Ref>, t: seq<Ref>)
    requires InRange(|ps|, s) && InRange(|ps|, t)
    ensures InRange(|ps|, s + t) && Ids(ps, s + t) == Ids(ps, s) + Ids(ps, t)
  {
    var u := s + t;
    forall id | id in Ids(ps, u) ensures id in Ids(ps, s) + Ids(ps, t) {
      var k :| 0 <= k < |u| && ps[u[k]].id == id;
      if k >= |s| {
        assert u[k] == t[k - |s|];
      }
    }
    forall id | id in Ids(ps, t) ensures id in Ids(ps, u) {
      var k :| 0 <= k < |t| && ps[t[k]].id == id;
      assert u[|s| + k] == t[k];
    }
    forall id | id in Ids(ps, s) ensures id in Ids(ps, u) {
      var k :| 0 <= k < |s| && ps[s[k]].id == id;
      assert u[k] == s[k];
    }
  }

  /** `getAllDuplicates` keeps each id's first occurrence in the combined
      list, in the order of those first occurrences. */
  lemma AllDuplicatesOrder(ps: seq<Photo>, duplicates: seq<Ref>, similar: seq<Ref>)
    requires InRange(|ps|, duplicates) && InRange(|ps|, similar)
    ensures InRange(|ps|, duplicates + similar)
    ensures forall a :: 0 <= a < |AllDuplicates(ps, duplicates, similar)| ==>
      var f := FindIndex(ps, duplicates + similar, ps[AllDuplicates(ps, duplicates, similar)[a]].id);
      0 <= f && (duplicates + similar)[f] == AllDuplicates(ps, duplicates, similar)[a]
    ensures forall a, b :: 0 <= a < b < |AllDuplicates(ps, duplicates, similar)| ==>
      FindIndex(ps, duplicates + similar, ps[AllDuplicates(ps, duplicates, similar)[a]].id)
        < FindIndex(ps, duplicates + similar, ps[AllDuplicates(ps, duplicates, similar)[b]].id)
  {
    KeepFirstSound(ps, duplicates + similar, |duplicates + similar|);
    KeepFirstOrdered(ps, duplicates + similar, |duplicates + similar|);
  }

  // ---- appending one entry, which is how the lists grow ----

  lemma FindIndexExtend(ps: seq<Photo>, s: seq<Ref>, x: Ref, id: string)
    requires InRange(|ps|, s) && x < |ps|
    ensures InRange(|ps|, s + [x])
    ensures FindIndex(ps, s + [x], id) == if FindIndex(ps, s, id) >= 0 then FindIndex(ps, s, id)
      else if ps[x].id == id then |s| else -1
  {
    assert (s + [x])[..|s|] == s;
  }

  lemma {:induction false} KeepFirstExtend(ps: seq<Photo>, s: seq<Ref>, x: Ref, n: nat)
    requires InRange(|ps|, s) && x < |ps| && n <= |s|
    ensures InRange(|ps|, s + [x]) && KeepFirst(ps, s + [x], n) == KeepFirst(ps, s, n)
    decreases n
  {
    FindIndexExtend(ps, s, x, ps[x].id);
    if n > 0 {
      KeepFirstExtend(ps, s, x, n - 1);
      FindIndexExtend(ps, s, x, ps[s[n - 1]].id);
      assert (s + [x])[n - 1] == s[n - 1];
    }
  }

  /** Appending an entry whose id is already listed leaves the union as it
      is; appending a new id adds that entry at the end. */
  lemma AppendToUnion(ps: seq<Photo>, s: seq<Ref>, x: Ref)
    requires InRange(|ps|, s) && x < |ps|
    ensures InRange(|ps|, s + [x])
    ensures KeepFirst(ps, s + [x], |s| + 1) ==
      if ps[x].id in Ids(ps, s) then KeepFirst(ps, s, |s|) else KeepFirst(ps, s, |s|) + [x]
  {
    KeepFirstExtend(ps, s, x, |s|);
    FindIndexExtend(ps, s, x, ps[x].id);
    assert (s + [x])[|s|] == x;
    if ps[x].id in Ids(ps, s) {
      var m :| 0 <= m < |s| && ps[s[m]].id == ps[x].id;
      assert FindIndex(ps, s, ps[x].id) >= 0;
    }
  }

  // ---- space savings ----

  /** The `reduce` of `getSpaceSavings`: the sizes added up. */
  function SizeSum(ps: seq<Photo>, s: seq<Ref>): nat
    requires InRange(|ps|, s)
    decreases |s|
  {
    if |s| == 0 then 0 else SizeSum(ps, s[..|s| - 1]) + ps[s[|s| - 1]].size
  }

  /** `getSpaceSavings`: the total size of `getAllDuplicates`. */
  function SpaceSavings(ps: seq<Photo>, duplicates: seq<Ref>, similar: seq<Ref>): nat
    requires InRange(|ps|, duplicates) && InRange(|ps|, similar)
  {
    SizeSum(ps, AllDuplicates(ps, duplicates, similar))
  }

  /** With no results there is nothing to save. */
  lemma NoResultsNoSavings(ps: seq<Photo>)
    ensures SpaceSavings(ps, [], []) == 0
  {
  }

  /** A photo reported a second time, by the same pass or by the other one,
      adds nothing; a photo with a new id adds its size once. */
  lemma SavingsCountEachIdOnce(ps: seq<Photo>, duplicates: seq<Ref>, similar: seq<Ref>, x: Ref)
    requires InRange(|ps|, duplicates) && InRange(|ps|, similar) && x < |ps|
    ensures InRange(|ps|, similar + [x])
    ensures SpaceSavings(ps, duplicates, similar + [x]) ==
      if ps[x].id in Ids(ps, duplicates + similar) then SpaceSavings(ps, duplicates, similar)
      else SpaceSavings(ps, duplicates, similar) + ps[x].size
  {
    InRangeConcat(|ps|, similar, [x]);
    InRangeConcat(|ps|, duplicates, similar);
    var s := duplicates + similar;
    assert duplicates + (similar + [x]) == s + [x];
    SavingsStep(ps, s, x);
  }

  lemma InRangeConcat(n: nat, a: seq<Ref>, b: seq<Ref>)
    requires InRange(n, a) && InRange(n, b)
    ensures InRange(n, a + b)
  {
  }

  /** The union of `s + [x]` adds x's size exactly when x's id is new. */
  lemma SavingsStep(ps: seq<Photo>, s: seq<Ref>, x: Ref)
    requires InRange(|ps|, s) && x < |ps|
    ensures InRange(|ps|, s + [x])
    ensures SizeSum(ps, KeepFirst(ps, s + [x], |s| + 1)) ==
      if ps[x].id in Ids(ps, s) then SizeSum(ps, KeepFirst(ps, s, |s|))
      else SizeSum(ps, KeepFirst(ps, s, |s|)) + ps[x].size
  {
    AppendToUnion(ps, s, x);
    SizeSumAppend(ps, KeepFirst(ps, s, |s|), x);
  }

  lemma SizeSumAppend(ps: seq<Photo>, r: seq<Ref>, x: Ref)
    requires InRange(|ps|, r) && x < |ps|
    ensures InRange(|ps|, r + [x])
    ensures SizeSum(ps, r + [x]) == SizeSum(ps, r) + ps[x].size
  {
    assert (r + [x])[..|r|] == r;
  }

  // ---- groups ----

  /** A photo counts as in group `key` when its (truthy) group id is `key`. */
  predicate InGroup(p: Photo, key: string) {
    Truthy(p.group) && p.group.value == key
  }

  /** The bucket of `key`: the entries of `s` in group `key`, in order. It
      is no longer than `s` and holds only photos of that group. */
  function Bucket(ps: seq<Photo>, s: seq<Ref>, key: string): (r: seq<Ref>)
    requires InRange(|ps|, s)
    ensures |r| <= |s|
    ensures forall m :: 0 <= m < |r| ==> r[m] < |ps| && InGroup(ps[r[m]], key)
    decreases |s|
  {
    if |s| == 0 then []
    else Bucket(ps, s[..|s| - 1], key) + (if InGroup(ps[s[|s| - 1]], key) then [s[|s| - 1]] else [])
  }

  /** The positions of `s` whose photo is in group `key`: the bucket is `s`
      at those positions, in the union's order, and no entry of the group is
      missed. */
  ghost function BucketPositions(ps: seq<Photo>, s: seq<Ref>, key: string): (f: seq<nat>)
    requires InRange(|ps|, s)
    ensures KeptAt(Bucket(ps, s, key), s, f)
    ensures forall k :: 0 <= k < |s| && InGroup(ps[s[k]], key) ==> k in f
    decreases |s|
  {
    if |s| == 0 then []
    else
      var front, x := s[..|s| - 1], s[|s| - 1];
      var g := BucketPositions(ps, front, key);
      KeptAtStep(Bucket(ps, front, key), front, g, x, InGroup(ps[x], key));
      assert front + [x] == s;
      g + (if InGroup(ps[x], key) then [|front|] else [])
  }

  /** A bucket holds every entry of its group as often as the list does, and
      nothing else. */
  lemma {:induction false} BucketCounts(ps: seq<Photo>, s: seq<Ref>, key: string)
    requires InRange(|ps|, s)
    ensures forall x: Ref :: multiset(Bucket(ps, s, key))[x] == if x < |ps| && InGroup(ps[x], key) then multiset(s)[x] else 0
    decreases |s|
  {
    if |s| > 0 {
      var front, x := s[..|s| - 1], s[|s| - 1];
      BucketCounts(ps, front, key);
      assert s == front + [x];
      assert Bucket(ps, s, key) == Bucket(ps, front, key) + (if InGroup(ps[x], key) then [x] else []);
    }
  }

  /** The `forEach` of `getDuplicateGroups`: one bucket per truthy group id
      that occurs, holding that group's entries in order. */
  method DuplicateGroups(ps: seq<Photo>, all: seq<Ref>) returns (groups: map<string, seq<Ref>>)
    requires InRange(|ps|, all)
    ensures forall key :: key in groups <==> exists m :: 0 <= m < |all| && InGroup(ps[all[m]], key)
    ensures forall key :: key in groups ==> groups[key] == Bucket(ps, all, key)
  {
    groups := map[];
    var m := 0;
    while m < |all|
      invariant 0 <= m <= |all|
      invariant forall key :: key in groups <==> exists k :: 0 <= k < m && InGroup(ps[all[k]], key)
      invariant forall key :: key in groups ==> groups[key] == Bucket(ps, all[..m], key)
    {
      var photo := ps[all[m]];
      assert all[..m + 1][..m] == all[..m];
      if Truthy(photo.group) {
        var key := photo.group.value;
        if key !in groups {
          assert Bucket(ps, all[..m], key) == [] by {
            BucketEmpty(ps, all[..m], key);
          }
          groups := groups[key := []];
        }
        groups := groups[key := groups[key] + [all[m]]];
      }
      m := m + 1;
    }
    assert all[..m] == all;
  }

  lemma {:induction false} BucketEmpty(ps: seq<Photo>, s: seq<Ref>, key: string)
    requires InRange(|ps|, s)
    requires forall k :: 0 <= k < |s| ==> !InGroup(ps[s[k]], key)
    ensures Bucket(ps, s, key) == []
    decreases |s|
  {
    if |s| > 0 {
      BucketEmpty(ps, s[..|s| - 1], key);
    }
  }

  // ---- the analysis run ----

  /** The state updates of the hook, in the order they are issued. */
  datatype Event =
    | SetAnalyzing(on: bool)
    | SetProgress(value: nat)
    | SetDuplicates(refs: seq<Ref>)
    | SetSimilar(refs: seq<Ref>)

  /** The updates of one `analyzePhotos` run whose passes returned
      `exact` and `similar`. */
  function AnalysisEvents(exact: seq<Ref>, similar: seq<Ref>): seq<Event> {
    [SetAnalyzing(true), SetProgress(0), SetProgress(25), SetDuplicates(exact),
     SetProgress(50), SetSimilar(similar), SetProgress(100), SetAnalyzing(false)]
  }

  /** The progress values among a list of updates, in order. */
  function Progress(events: seq<Event>): seq<nat>
    decreases |events|
  {
    if |events| == 0 then []
    else Progress(events[..|events| - 1]) + (if events[|events| - 1].SetProgress? then [events[|events| - 1].value] else [])
  }

  /** One run reports progress 0, 25, 50, 100, which never decreases; the
      exact result is stored at progress 25 before the perceptual pass
      starts at 50; the run ends with analysis switched off. */
  lemma AnalysisMilestones(exact: seq<Ref>, similar: seq<Ref>)
    ensures Progress(AnalysisEvents(exact, similar)) == [0, 25, 50, 100]
    ensures var p := Progress(AnalysisEvents(exact, similar));
      forall a, b :: 0 <= a < b < |p| ==> p[a] <= p[b]
    ensures var e := AnalysisEvents(exact, similar);
      e[2] == SetProgress(25) && e[3] == SetDuplicates(exact) && e[4] == SetProgress(50) && e[5] == SetSimilar(similar)
    ensures var e := AnalysisEvents(exact, similar);
      e[0] == SetAnalyzing(true) && e[|e| - 1] == SetAnalyzing(false)
      && forall k :: 0 < k < |e| - 1 ==> !e[k].SetAnalyzing?
  {
    var e := AnalysisEvents(exact, similar);
    assert e[..7][..6][..5][..4][..3][..2][..1][..0] == [];
    assert Progress(e[..1]) == [] by { assert e[..1][..0] == []; }
    assert Progress(e[..2]) == [0] by { assert e[..2][..1] == e[..1]; }
    assert Progress(e[..3]) == [0, 25] by { assert e[..3][..2] == e[..2]; }
    assert Progress(e[..4]) == [0, 25] by { assert e[..4][..3] == e[..3]; }
    assert Progress(e[..5]) == [0, 25, 50] by { assert e[..5][..4] == e[..4]; }
    assert Progress(e[..6]) == [0, 25, 50] by { assert e[..6][..5] == e[..5]; }
    assert Progress(e[..7]) == [0, 25, 50, 100] by { assert e[..7][..6] == e[..6]; }
    assert e[..8][..7] == e[..7];
    assert e[..8] == e;
  }

  class PhotoAnalysis {
    /** The collection the hook analyses; the passes annotate its records. */
    const photos: array<Photo>
    var duplicates: seq<Ref>
    var similar: seq<Ref>
    var isAnalyzing: bool
    var progress: nat
    var isMounted: bool
    /** The counter that supplies group ids. */
    var serial: nat
    /** Every state update issued so far. */
    var events: seq<Event>

    ghost predicate Valid()
      reads this
    {
      InRange(photos.Length, duplicates) && InRange(photos.Length, similar)
    }

    constructor (photos: array<Photo>)
      ensures this.photos == photos && Valid()
      ensures duplicates == [] && similar == [] && !isAnalyzing && progress == 0 && !isMounted
      ensures serial == 0 && events == []
    {
      this.photos := photos;
      duplicates, similar := [], [];
      isAnalyzing, progress, isMounted := false, 0, false;
      serial, events := 0, [];
    }

    /** The mount effect. */
    method Mount()
      modifies this
      ensures isMounted
      ensures duplicates == old(duplicates) && similar == old(similar) && isAnalyzing == old(isAnalyzing)
      ensures progress == old(progress) && serial == old(serial) && events == old(events)
    {
      isMounted := true;
    }

    /** The first half of `analyzePhotos`: the flag and progress updates
        up to 50, with the exact pass between them and its result stored. */
    method ExactPhase() returns (next: nat)
      modifies this, photos
      ensures var r := Run(Metadata, old(photos[..]), old(serial));
        duplicates == r.found && photos[..] == r.photos && next == r.serial
      ensures InRange(photos.Length, duplicates)
      ensures isAnalyzing && progress == 50
      ensures similar == old(similar) && serial == old(serial) && isMounted == old(isMounted)
      ensures events == old(events) + [SetAnalyzing(true), SetProgress(0), SetProgress(25), SetDuplicates(duplicates), SetProgress(50)]
    {
      isAnalyzing := true;
      events := events + [SetAnalyzing(true)];
      progress := 0;
      events := events + [SetProgress(0)];
      progress := 25;
      events := events + [SetProgress(25)];
      var exactDuplicates;
      exactDuplicates, next := FindDuplicates(photos, serial);
      duplicates := exactDuplicates;
      events := events + [SetDuplicates(exactDuplicates)];
      progress := 50;
      events := events + [SetProgress(50)];
      FoundInRange(Metadata, old(photos[..]), photos.Length, old(serial));
    }

    /** The second half of `analyzePhotos`: the perceptual pass at threshold
        0.85 starting from counter `next`, its result stored, then progress
        100 and the flag cleared. */
    method SimilarPhase(rasters: seq<Option<seq<byte>>>, browser: bool, next: nat)
      modifies this, photos
      requires |rasters| == photos.Length && Whole(rasters)
      ensures var h := HashTable(browser, old(photos[..]), rasters, |rasters|);
        var r := Run(Fingerprint(h, DefaultThreshold), old(photos[..]), next);
        similar == r.found && photos[..] == r.photos && serial == r.serial
      ensures InRange(photos.Length, similar)
      ensures !isAnalyzing && progress == 100
      ensures duplicates == old(duplicates) && isMounted == old(isMounted)
      ensures events == old(events) + [SetSimilar(similar), SetProgress(100), SetAnalyzing(false)]
    {
      ghost var before := photos[..];
      var similarPhotos, last := FindSimilarPhotos(photos, rasters, browser, DefaultThreshold, next);
      similar := similarPhotos;
      events := events + [SetSimilar(similarPhotos)];
      serial := last;
      progress := 100;
      events := events + [SetProgress(100)];
      isAnalyzing := false;
      events := events + [SetAnalyzing(false)];
      FoundInRange(Fingerprint(HashTable(browser, before, rasters, |rasters|), DefaultThreshold), before, photos.Length, next);
    }

    /** `analyzePhotos`: the exact pass, its result stored, then the
        perceptual pass at threshold 0.85 on the records the exact pass
        annotated. `rasters` are the decoded images, `browser` whether a
        canvas exists. Neither pass throws, so the `catch` branch is not
        taken. Each update is recorded in `events` where it happens. */
    method AnalyzePhotos(rasters: seq<Option<seq<byte>>>, browser: bool)
      modifies this, photos
      requires |rasters| == photos.Length && Whole(rasters)
      ensures Valid()
      ensures var mid := Run(Metadata, old(photos[..]), old(serial));
        var h := HashTable(browser, mid.photos, rasters, |rasters|);
        var fin := Run(Fingerprint(h, DefaultThreshold), mid.photos, mid.serial);
        duplicates == mid.found && similar == fin.found && photos[..] == fin.photos && serial == fin.serial
      ensures !isAnalyzing && progress == 100 && isMounted == old(isMounted)
      ensures events == old(events) + AnalysisEvents(duplicates, similar)
    {
      var next := ExactPhase();
      SimilarPhase(rasters, browser, next);
    }

    /** The effect that runs when the collection or the mount state changes:
        before mounting or with no photos it clears both results and the
        progress; otherwise it analyses. */
    method Refresh(rasters: seq<Option<seq<byte>>>, browser: bool)
      modifies this, photos
      requires Valid() && |rasters| == photos.Length && Whole(rasters)
      ensures Valid() && isMounted == old(isMounted)
      ensures !isMounted || photos.Length == 0 ==>
        duplicates == [] && similar == [] && progress == 0 && photos[..] == old(photos[..])
        && isAnalyzing == old(isAnalyzing) && serial == old(serial)
        && events == old(events) + [SetDuplicates([]), SetSimilar([]), SetProgress(0)]
      ensures isMounted && photos.Length > 0 ==>
        var mid := Run(Metadata, old(photos[..]), old(serial));
        var h := HashTable(browser, mid.photos, rasters, |rasters|);
        var fin := Run(Fingerprint(h, DefaultThreshold), mid.photos, mid.serial);
        duplicates == mid.found && similar == fin.found && photos[..] == fin.photos
        && !isAnalyzing && progress == 100 && events == old(events) + AnalysisEvents(duplicates, similar)
    {
      if !isMounted || photos.Length == 0 {
        duplicates := [];
        events := events + [SetDuplicates([])];
        similar := [];
        events := events + [SetSimilar([])];
        progress := 0;
        events := events + [SetProgress(0)];
        return;
      }
      AnalyzePhotos(rasters, browser);
    }

    /** `getAllDuplicates` on the current records: every reported photo
        once, with no id listed twice. */
    function GetAllDuplicates(): (r: seq<Ref>)
      reads this, photos
      requires Valid()
      ensures InRange(photos.Length, r)
      ensures forall a, b :: 0 <= a < b < |r| ==> photos[r[a]].id != photos[r[b]].id
      ensures Ids(photos[..], r) == Ids(photos[..], duplicates) + Ids(photos[..], similar)
    {
      AllDuplicatesUnique(photos[..], duplicates, similar);
      AllDuplicatesIds(photos[..], duplicates, similar);
      AllDuplicates(photos[..], duplicates, similar)
    }

    /** `getSpaceSavings` on the current records. */
    function GetSpaceSavings(): (r: nat)
      reads this, photos
      requires Valid()
      ensures duplicates == [] && similar == [] ==> r == 0
    {
      NoResultsNoSavings(photos[..]);
      SpaceSavings(photos[..], duplicates, similar)
    }

    /** `getDuplicateGroups` on the current records. */
    method GetDuplicateGroups() returns (groups: map<string, seq<Ref>>)
      requires Valid()
      ensures var all := AllDuplicates(photos[..], duplicates, similar);
        (forall key :: key in groups <==> exists m :: 0 <= m < |all| && InGroup(photos[all[m]], key))
        && forall key :: key in groups ==> groups[key] == Bucket(photos[..], all, key)
    {
      var all := AllDuplicates(photos[..], duplicates, similar);
      groups := DuplicateGroups(photos[..], all);
    }
  }
}
