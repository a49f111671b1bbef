/** The `Home` page: the photo list of the session, the current view, and
    the counters of deleted photos and freed bytes behind the statistics. */
module HomePage {
  import opened Photos
  import Analysis = PhotoAnalysis

  datatype View = Upload | Grid | Swipe | Stats

  /** `photos.find(p => p.id === photoId)`: the first photo with that id. */
  function FindById(ps: seq<Photo>, id: string): (r: Option<Photo>)
    ensures r.Some? <==> exists k :: 0 <= k < |ps| && ps[k].id == id
    ensures r.Some? ==> r.value.id == id
    ensures r.Some? ==> exists k :: 0 <= k < |ps| && ps[k] == r.value && forall m :: 0 <= m < k ==> ps[m].id != id
    decreases |ps|
  {
    if |ps| == 0 then None
    else if ps[0].id == id then Some(ps[0])
    else
      var r := FindById(ps[1..], id);
      assert forall k :: 1 <= k < |ps| ==> ps[k] == ps[1..][k - 1];
      r
  }

  /** `prev.filter(p => p.id !== photoId)`: no longer than the list, and
      free of the id. */
  function RemoveId(ps: seq<Photo>, id: string): (r: seq<Photo>)
    ensures |r| <= |ps|
    ensures forall m :: 0 <= m < |r| ==> r[m].id != id
    decreases |ps|
  {
    if |ps| == 0 then []
    else RemoveId(ps[..|ps| - 1], id) + (if ps[|ps| - 1].id != id then [ps[|ps| - 1]] else [])
  }

  /** The positions of `ps` that the delete keeps: the result is `ps` at
      those positions, in order, and every photo with another id is among
      them. */
  ghost function RemoveIdPositions(ps: seq<Photo>, id: string): (f: seq<nat>)
    ensures KeptAt(RemoveId(ps, id), ps, f)
    ensures forall k :: 0 <= k < |ps| && ps[k].id != id ==> k in f
    decreases |ps|
  {
    if |ps| == 0 then []
    else
      var front, p := ps[..|ps| - 1], ps[|ps| - 1];
      var g := RemoveIdPositions(front, id);
      KeptAtStep(RemoveId(front, id), front, g, p, p.id != id);
      assert front + [p] == ps;
      g + (if p.id != id then [|front|] else [])
  }

  /** The photos with a given id. */
  function WithId(ps: seq<Photo>, id: string): seq<Photo>
    decreases |ps|
  {
    if |ps| == 0 then []
    else WithId(ps[..|ps| - 1], id) + (if ps[|ps| - 1].id == id then [ps[|ps| - 1]] else [])
  }

  /** Deleting by id keeps every photo with another id as often as before. */
  lemma {:induction false} RemoveIdEffect(ps: seq<Photo>, id: string)
    ensures forall p: Photo :: p.id != id ==> multiset(RemoveId(ps, id))[p] == multiset(ps)[p]
    decreases |ps|
  {
    if |ps| > 0 {
      var front, p := ps[..|ps| - 1], ps[|ps| - 1];
      RemoveIdEffect(front, id);
      assert ps == front + [p];
      assert multiset(ps) == multiset(front) + multiset{p};
    }
  }

  /** The list shrinks by the number of photos with that id. */
  lemma {:induction false} RemoveIdLength(ps: seq<Photo>, id: string)
    ensures |RemoveId(ps, id)| + |WithId(ps, id)| == |ps|
    decreases |ps|
  {
    if |ps| > 0 {
      RemoveIdLength(ps[..|ps| - 1], id);
    }
  }

  /** With unique ids, a delete removes one photo when the id is found and
      none otherwise. */
  lemma {:induction false} RemoveUniqueId(ps: seq<Photo>, id: string)
    requires UniqueIds(ps)
    ensures |RemoveId(ps, id)| == |ps| - (if FindById(ps, id).Some? then 1 else 0)
    decreases |ps|
  {
    RemoveIdLength(ps, id);
    WithIdUnique(ps, id);
  }

  lemma {:induction false} WithIdUnique(ps: seq<Photo>, id: string)
    requires UniqueIds(ps)
    ensures |WithId(ps, id)| == if exists k :: 0 <= k < |ps| && ps[k].id == id then 1 else 0
    decreases |ps|
  {
    if |ps| > 0 {
      var front := ps[..|ps| - 1];
      assert UniqueIds(front) by {
        forall a, b | 0 <= a < b < |front| ensures front[a].id != front[b].id {
          assert front[a] == ps[a] && front[b] == ps[b];
        }
      }
      WithIdUnique(front, id);
      if ps[|ps| - 1].id == id {
        assert forall k :: 0 <= k < |front| ==> front[k].id != id by {
          forall k | 0 <= k < |front| ensures front[k].id != id {
            assert front[k] == ps[k];
          }
        }
      } else {
        assert (exists k :: 0 <= k < |ps| && ps[k].id == id) <==> exists k :: 0 <= k < |front| && front[k].id == id by {
          forall k | 0 <= k < |front| ensures front[k] == ps[k] { }
        }
      }
    }
  }

  /** `Math.round(spaceSaved / (1024 * 1024))` on a whole number of bytes. */
  function Megabytes(bytes: nat): nat {
    (bytes + 524288) / 1048576
  }

  /** The rounding is to the nearest whole megabyte, halves rounded up. */
  lemma MegabytesNearest(bytes: nat)
    ensures (Megabytes(bytes) as real) - 0.5 <= (bytes as real) / 1048576.0 < (Megabytes(bytes) as real) + 0.5
  {
    var m := Megabytes(bytes);
    assert m * 1048576 <= bytes + 524288 < (m + 1) * 1048576;
    var x := bytes as real;
    assert (m as real) * 1048576.0 <= x + 524288.0;
    assert x + 524288.0 < (m as real) * 1048576.0 + 1048576.0;
  }

  /** The references below n. */
  function Below(n: nat): (s: set<Ref>)
    ensures forall k: nat :: k in s <==> k < n
    ensures |s| == n
    decreases n
  {
    if n == 0 then {} else Below(n - 1) + {n - 1}
  }

  /** A list of distinct references drawn from a set is no longer than the set. */
  lemma {:induction false} DistinctWithin(s: seq<Ref>, t: set<Ref>)
    requires NoDuplicates(s) && forall m :: 0 <= m < |s| ==> s[m] in t
    ensures |s| <= |t|
    decreases |s|
  {
    if |s| > 0 {
      var front, x := s[..|s| - 1], s[|s| - 1];
      assert NoDuplicates(front);
      assert forall m :: 0 <= m < |front| ==> front[m] in t - {x} by {
        forall m | 0 <= m < |front| ensures front[m] in t - {x} {
          assert front[m] == s[m] && s[m] != s[|s| - 1];
        }
      }
      DistinctWithin(front, t - {x});
    }
  }

  /** A list of distinct references into n records is at most n long. */
  lemma DistinctRefsBounded(r: seq<Ref>, n: nat)
    requires Analysis.InRange(n, r) && NoDuplicates(r)
    ensures |r| <= n
  {
    DistinctWithin(r, Below(n));
  }

  /** The deduplicated union never lists more photos than the collection has. */
  lemma AllDuplicatesWithinTotal(ps: seq<Photo>, duplicates: seq<Ref>, similar: seq<Ref>)
    requires Analysis.InRange(|ps|, duplicates) && Analysis.InRange(|ps|, similar)
    ensures |Analysis.AllDuplicates(ps, duplicates, similar)| <= |ps|
  {
    var r := Analysis.AllDuplicates(ps, duplicates, similar);
    Analysis.AllDuplicatesUnique(ps, duplicates, similar);
    assert NoDuplicates(r) by {
      forall a, b | 0 <= a < b < |r| ensures r[a] != r[b] {
        assert ps[r[a]].id != ps[r[b]].id;
      }
    }
    DistinctRefsBounded(r, |ps|);
  }

  /** The figures the page shows. */
  datatype Statistics = Figures(totalPhotos: nat, duplicates: nat, spaceFreed: nat, processed: nat)

  class Home {
    var photos: seq<Photo>
    var currentView: View
    var processedCount: nat
    var spaceSaved: nat

    constructor ()
      ensures photos == [] && currentView == Upload && processedCount == 0 && spaceSaved == 0
    {
      photos, currentView, processedCount, spaceSaved := [], Upload, 0, 0;
    }

    /** `handlePhotosUploaded`: the new list replaces the old one. */
    method HandlePhotosUploaded(newPhotos: seq<Photo>)
      modifies this
      ensures photos == newPhotos && currentView == Grid
      ensures processedCount == old(processedCount) && spaceSaved == old(spaceSaved)
    {
      photos := newPhotos;
      currentView := Grid;
    }

    /** `handlePhotoDeleted`: the size of the first photo with the id is
        added to the freed bytes, every photo with the id goes, and the
        processed counter counts the call whether or not the id was found. */
    method HandlePhotoDeleted(photoId: string)
      modifies this
      ensures var found := FindById(old(photos), photoId);
        spaceSaved == old(spaceSaved) + (if found.Some? then found.value.size else 0)
      ensures photos == RemoveId(old(photos), photoId)
      ensures processedCount == old(processedCount) + 1 && currentView == old(currentView)
    {
      var deletedPhoto := FindById(photos, photoId);
      if deletedPhoto.Some? {
        spaceSaved := spaceSaved + deletedPhoto.value.size;
      }
      photos := RemoveId(photos, photoId);
      processedCount := processedCount + 1;
    }

    /** `stats`, with the analysis hook the page runs on its photos. */
    function CurrentStats(hook: Analysis.PhotoAnalysis): (s: Statistics)
      reads this, hook, hook.photos
      requires hook.Valid()
      ensures s.totalPhotos == |photos| && s.processed == processedCount
      ensures s.duplicates == |hook.GetAllDuplicates()| && s.duplicates <= hook.photos.Length
      ensures (s.spaceFreed as real) - 0.5 <= (spaceSaved as real) / 1048576.0 < (s.spaceFreed as real) + 0.5
    {
      AllDuplicatesWithinTotal(hook.photos[..], hook.duplicates, hook.similar);
      MegabytesNearest(spaceSaved);
      Figures(|photos|, |hook.GetAllDuplicates()|, Megabytes(spaceSaved), processedCount)
    }
  }
}
