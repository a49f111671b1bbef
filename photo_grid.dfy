/** `PhotoGrid`: the selection of photo ids (a JavaScript set, kept here in
    insertion order without repeats), the batch delete, the split of the
    photos into flagged and unflagged ones, and the buckets of flagged photos
    by group id. */
module PhotoGrid {
  import opened Photos

  /** `togglePhotoSelection`: remove the id if selected, add it otherwise.
      The id's membership flips and no other id's changes. */
  function Toggle(selected: seq<string>, id: string): (r: seq<string>)
    ensures id in r <==> id !in selected
    ensures forall other :: other != id ==> (other in r <==> other in selected)
  {
    if id in selected then Without(selected, id) else selected + [id]
  }

  /** Removing an absent element changes nothing. */
  lemma {:induction false} WithoutAbsent(s: seq<string>, x: string)
    requires x !in s
    ensures Without(s, x) == s
    decreases |s|
  {
    if s != [] {
      WithoutAbsent(s[1..], x);
    }
  }

  /** Removing an element that was just appended to a list without it gives
      the list back. */
  lemma {:induction false} WithoutAppended(s: seq<string>, x: string)
    requires x !in s
    ensures Without(s + [x], x) == s
    decreases |s|
  {
    if s == [] {
      assert [] + [x] == [x];
      assert [x][1..] == [];
    } else {
      assert (s + [x])[1..] == s[1..] + [x];
      WithoutAppended(s[1..], x);
      assert [s[0]] + s[1..] == s;
    }
  }

  /** A toggle keeps the selection free of repeats. */
  lemma ToggleFlips(selected: seq<string>, id: string)
    requires NoDuplicates(selected)
    ensures NoDuplicates(Toggle(selected, id))
  {
    if id in selected {
      WithoutNoDuplicates(selected, id);
    } else {
      AppendNoDuplicates(selected, id);
    }
  }

  /** Toggling twice restores the set of selected ids; when the id was not
      selected the list itself comes back. */
  lemma ToggleTwice(selected: seq<string>, id: string)
    requires NoDuplicates(selected)
    ensures Elements(Toggle(Toggle(selected, id), id)) == Elements(selected)
    ensures id !in selected ==> Toggle(Toggle(selected, id), id) == selected
  {
    if id in selected {
      assert id !in Without(selected, id);
    } else {
      assert id in selected + [id];
      WithoutAppended(selected, id);
    }
  }

  // ---- the split into flagged and unflagged photos ----

  /** `photos.filter(photo => photo.isDuplicate)`: only flagged photos. */
  function DuplicatePhotos(ps: seq<Photo>): (r: seq<Photo>)
    ensures forall m :: 0 <= m < |r| ==> r[m].isDuplicate
    decreases |ps|
  {
    if |ps| == 0 then []
    else DuplicatePhotos(ps[..|ps| - 1]) + (if ps[|ps| - 1].isDuplicate then [ps[|ps| - 1]] else [])
  }

  /** `photos.filter(photo => !photo.isDuplicate)`: only unflagged photos. */
  function UniquePhotos(ps: seq<Photo>): (r: seq<Photo>)
    ensures forall m :: 0 <= m < |r| ==> !r[m].isDuplicate
    decreases |ps|
  {
    if |ps| == 0 then []
    else UniquePhotos(ps[..|ps| - 1]) + (if !ps[|ps| - 1].isDuplicate then [ps[|ps| - 1]] else [])
  }

  /** The positions of the flagged photos: `DuplicatePhotos` is `ps` at
      those positions, in order, and no flagged photo is missed. */
  ghost function DuplicatePositions(ps: seq<Photo>): (f: seq<nat>)
    ensures KeptAt(DuplicatePhotos(ps), ps, f)
    ensures forall k :: 0 <= k < |ps| && ps[k].isDuplicate ==> k in f
    decreases |ps|
  {
    if |ps| == 0 then []
    else
      var front, p := ps[..|ps| - 1], ps[|ps| - 1];
      var g := DuplicatePositions(front);
      KeptAtStep(DuplicatePhotos(front), front, g, p, p.isDuplicate);
      assert front + [p] == ps;
      g + (if p.isDuplicate then [|front|] else [])
  }

  /** The positions of the unflagged photos: `UniquePhotos` is `ps` at
      those positions, in order, and no unflagged photo is missed. */
  ghost function UniquePositions(ps: seq<Photo>): (f: seq<nat>)
    ensures KeptAt(UniquePhotos(ps), ps, f)
    ensures forall k :: 0 <= k < |ps| && !ps[k].isDuplicate ==> k in f
    decreases |ps|
  {
    if |ps| == 0 then []
    else
      var front, p := ps[..|ps| - 1], ps[|ps| - 1];
      var g := UniquePositions(front);
      KeptAtStep(UniquePhotos(front), front, g, p, !p.isDuplicate);
      assert front + [p] == ps;
      g + (if !p.isDuplicate then [|front|] else [])
  }

  /** The two lists split the photos: together they hold every photo exactly
      as often as the library does, so their lengths add up to its length. */
  lemma Partition(ps: seq<Photo>)
    ensures multiset(DuplicatePhotos(ps)) + multiset(UniquePhotos(ps)) == multiset(ps)
    ensures |DuplicatePhotos(ps)| + |UniquePhotos(ps)| == |ps|
  {
    PartitionCounts(ps);
    assert |multiset(DuplicatePhotos(ps))| == |DuplicatePhotos(ps)|;
    assert |multiset(UniquePhotos(ps))| == |UniquePhotos(ps)|;
  }

  lemma {:induction false} PartitionCounts(ps: seq<Photo>)
    ensures multiset(DuplicatePhotos(ps)) + multiset(UniquePhotos(ps)) == multiset(ps)
    decreases |ps|
  {
    if |ps| > 0 {
      var front, p := ps[..|ps| - 1], ps[|ps| - 1];
      PartitionCounts(front);
      PartitionStep(ps);
    }
  }

  /** The last photo goes to exactly one of the two lists. */
  lemma PartitionStep(ps: seq<Photo>)
    requires |ps| > 0
    ensures var front, p := ps[..|ps| - 1], ps[|ps| - 1];
      multiset(DuplicatePhotos(ps)) + multiset(UniquePhotos(ps))
      == multiset(DuplicatePhotos(front)) + multiset(UniquePhotos(front)) + multiset{p}
    ensures multiset(ps) == multiset(ps[..|ps| - 1]) + multiset{ps[|ps| - 1]}
  {
    var front, p := ps[..|ps| - 1], ps[|ps| - 1];
    assert ps == front + [p];
    var d, u := DuplicatePhotos(front), UniquePhotos(front);
    if p.isDuplicate {
      assert DuplicatePhotos(ps) == d + [p] && UniquePhotos(ps) == u;
      assert multiset(d + [p]) == multiset(d) + multiset{p};
    } else {
      assert DuplicatePhotos(ps) == d && UniquePhotos(ps) == u + [p];
      assert multiset(u + [p]) == multiset(u) + multiset{p};
    }
  }

  // ---- buckets by group id ----

  /** `photo.group || 'ungrouped'`: never the empty string. */
  function GroupKey(p: Photo): (k: string)
    ensures k != ""
  {
    if Truthy(p.group) then p.group.value else "ungrouped"
  }

  /** The photos of `ds` whose key is `key`, in order. */
  function WithKey(ds: seq<Photo>, key: string): (r: seq<Photo>)
    ensures |r| <= |ds|
    ensures forall m :: 0 <= m < |r| ==> GroupKey(r[m]) == key
    decreases |ds|
  {
    if |ds| == 0 then []
    else WithKey(ds[..|ds| - 1], key) + (if GroupKey(ds[|ds| - 1]) == key then [ds[|ds| - 1]] else [])
  }

  /** The positions of the photos with key `key`: the bucket is `ds` at
      those positions, in order, and no photo with that key is missed. */
  ghost function WithKeyPositions(ds: seq<Photo>, key: string): (f: seq<nat>)
    ensures KeptAt(WithKey(ds, key), ds, f)
    ensures forall k :: 0 <= k < |ds| && GroupKey(ds[k]) == key ==> k in f
    decreases |ds|
  {
    if |ds| == 0 then []
    else
      var front, p := ds[..|ds| - 1], ds[|ds| - 1];
      var g := WithKeyPositions(front, key);
      KeptAtStep(WithKey(front, key), front, g, p, GroupKey(p) == key);
      assert front + [p] == ds;
      g + (if GroupKey(p) == key then [|front|] else [])
  }

  /** Every flagged photo lands in the bucket of its own key. */
  lemma WithKeyMembers(ds: seq<Photo>, key: string)
    ensures forall m :: 0 <= m < |ds| && GroupKey(ds[m]) == key ==> ds[m] in WithKey(ds, key)
  {
    var f := WithKeyPositions(ds, key);
    forall m | 0 <= m < |ds| && GroupKey(ds[m]) == key ensures ds[m] in WithKey(ds, key) {
      var n :| 0 <= n < |f| && f[n] == m;
      assert WithKey(ds, key)[n] == ds[m];
    }
  }

  lemma {:induction false} WithKeyEmpty(ds: seq<Photo>, key: string)
    requires forall m :: 0 <= m < |ds| ==> GroupKey(ds[m]) != key
    ensures WithKey(ds, key) == []
    decreases |ds|
  {
    if |ds| > 0 {
      WithKeyEmpty(ds[..|ds| - 1], key);
    }
  }

  /** The reduce of `groupedPhotos` over the flagged photos `ds`. */
  method GroupedPhotos(ds: seq<Photo>) returns (acc: map<string, seq<Photo>>)
    ensures forall key :: key in acc <==> exists m :: 0 <= m < |ds| && GroupKey(ds[m]) == key
    ensures forall key :: key in acc ==> acc[key] == WithKey(ds, key)
  {
    acc := map[];
    var i := 0;
    while i < |ds|
      invariant 0 <= i <= |ds|
      invariant forall key :: key in acc <==> exists m :: 0 <= m < i && GroupKey(ds[m]) == key
      invariant forall key :: key in acc ==> acc[key] == WithKey(ds[..i], key)
    {
      var photo := ds[i];
      var group := GroupKey(photo);
      assert ds[..i + 1][..i] == ds[..i];
      if group !in acc {
        WithKeyEmpty(ds[..i], group);
        acc := acc[group := []];
      }
      acc := acc[group := acc[group] + [photo]];
      i := i + 1;
    }
    assert ds[..i] == ds;
  }

  /** The keys of `ds` in order of first appearance. */
  function Keys(ds: seq<Photo>): (keys: seq<string>)
    ensures forall key :: key in keys <==> exists m :: 0 <= m < |ds| && GroupKey(ds[m]) == key
    decreases |ds|
  {
    if |ds| == 0 then []
    else
      var keys := Keys(ds[..|ds| - 1]);
      var key := GroupKey(ds[|ds| - 1]);
      if key in keys then keys else keys + [key]
  }

  /** The bucket sizes of `keys` added up. */
  function BucketTotal(ds: seq<Photo>, keys: seq<string>): nat
    decreases |keys|
  {
    if |keys| == 0 then 0 else BucketTotal(ds, keys[..|keys| - 1]) + |WithKey(ds, keys[|keys| - 1])|
  }

  lemma {:induction false} KeysNoDuplicates(ds: seq<Photo>)
    ensures NoDuplicates(Keys(ds))
    decreases |ds|
  {
    if |ds| > 0 {
      KeysNoDuplicates(ds[..|ds| - 1]);
      var keys := Keys(ds[..|ds| - 1]);
      var key := GroupKey(ds[|ds| - 1]);
      if key !in keys {
        AppendNoDuplicates(keys, key);
      }
    }
  }

  /** Appending a photo grows its own bucket by one and no other. */
  lemma {:induction false} BucketTotalAppend(ds: seq<Photo>, p: Photo, keys: seq<string>)
    requires NoDuplicates(keys)
    ensures BucketTotal(ds + [p], keys) == BucketTotal(ds, keys) + (if GroupKey(p) in keys then 1 else 0)
    decreases |keys|
  {
    if |keys| > 0 {
      var front := keys[..|keys| - 1];
      var last := keys[|keys| - 1];
      assert NoDuplicates(front);
      assert keys == front + [last];
      assert GroupKey(p) in keys <==> GroupKey(p) in front || GroupKey(p) == last;
      assert last !in front;
      BucketTotalAppend(ds, p, front);
      assert (ds + [p])[..|ds|] == ds;
    }
  }

  /** The buckets hold the flagged photos exactly: their sizes add up to the
      number of flagged photos. */
  lemma {:induction false} BucketsCoverAll(ds: seq<Photo>)
    ensures BucketTotal(ds, Keys(ds)) == |ds|
    decreases |ds|
  {
    if |ds| > 0 {
      var front := ds[..|ds| - 1];
      var p := ds[|ds| - 1];
      assert ds == front + [p];
      BucketsCoverAll(front);
      KeysNoDuplicates(front);
      BucketTotalAppend(front, p, Keys(front));
      var keys := Keys(front);
      if GroupKey(p) !in keys {
        WithKeyEmpty(front, GroupKey(p));
        assert (keys + [GroupKey(p)])[..|keys|] == keys;
      }
    }
  }

  class Grid {
    var photos: seq<Photo>
    var selectedPhotos: seq<string>
    var showComparison: bool
    var comparisonPhotos: seq<Photo>
    /** The ids passed to `onPhotoDeleted` so far. */
    var reported: seq<string>

    ghost predicate Valid()
      reads this
    {
      NoDuplicates(selectedPhotos)
    }

    constructor (photos: seq<Photo>)
      ensures Valid() && this.photos == photos && selectedPhotos == [] && !showComparison
      ensures comparisonPhotos == [] && reported == []
    {
      this.photos := photos;
      selectedPhotos, showComparison, comparisonPhotos, reported := [], false, [], [];
    }

    method TogglePhotoSelection(photoId: string)
      requires Valid()
      modifies this
      ensures Valid() && selectedPhotos == Toggle(old(selectedPhotos), photoId)
      ensures photos == old(photos) && showComparison == old(showComparison)
      ensures comparisonPhotos == old(comparisonPhotos) && reported == old(reported)
    {
      ToggleFlips(selectedPhotos, photoId);
      if photoId in selectedPhotos {
        selectedPhotos := Without(selectedPhotos, photoId);
      } else {
        selectedPhotos := selectedPhotos + [photoId];
      }
    }

    /** `handleBatchDelete`: one report per selected id, in selection order,
        then an empty selection. */
    method HandleBatchDelete()
      requires Valid()
      modifies this
      ensures Valid() && reported == old(reported) + old(selectedPhotos) && selectedPhotos == []
      ensures photos == old(photos) && showComparison == old(showComparison)
      ensures comparisonPhotos == old(comparisonPhotos)
    {
      var i := 0;
      while i < |selectedPhotos|
        invariant 0 <= i <= |selectedPhotos| && selectedPhotos == old(selectedPhotos)
        invariant reported == old(reported) + selectedPhotos[..i]
        invariant photos == old(photos) && showComparison == old(showComparison)
        invariant comparisonPhotos == old(comparisonPhotos)
      {
        assert selectedPhotos[..i + 1] == selectedPhotos[..i] + [selectedPhotos[i]];
        reported := reported + [selectedPhotos[i]];
        i := i + 1;
      }
      assert selectedPhotos[..i] == selectedPhotos;
      selectedPhotos := [];
    }

    method HandleCompareGroup(groupPhotos: seq<Photo>)
      requires Valid()
      modifies this
      ensures Valid() && comparisonPhotos == groupPhotos && showComparison
      ensures photos == old(photos) && selectedPhotos == old(selectedPhotos) && reported == old(reported)
    {
      comparisonPhotos := groupPhotos;
      showComparison := true;
    }

    /** The buckets the duplicates view shows. */
    method Buckets() returns (groups: map<string, seq<Photo>>)
      ensures var ds := DuplicatePhotos(photos);
        (forall key :: key in groups <==> exists m :: 0 <= m < |ds| && GroupKey(ds[m]) == key)
        && forall key :: key in groups ==> groups[key] == WithKey(ds, key)
    {
      groups := GroupedPhotos(DuplicatePhotos(photos));
    }
  }
}
