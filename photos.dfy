/** The photo record shared by every part of the duplicate finder, and a few
    sequence helpers used throughout. */
module Photos {

  datatype Option<T> = None | Some(value: T)

  /** The fields of a photo record that the analysis reads or writes.
      `isDuplicate` models the optional boolean field: absent and `false`
      behave the same everywhere it is read. Sizes are byte counts. */
  datatype Photo = Photo(
    id: string,
    name: string,
    size: nat,
    isDuplicate: bool,
    group: Option<string>,
    similarityScore: Option<real>)

  /** A reference to a photo record: its position in the analysed collection.
      The passes annotate records in place and return references, so a
      record seen through any result list shows its latest annotation. */
  type Ref = nat

  /** Upstream ingestion promises that ids are unique within a session. */
  ghost predicate UniqueIds(ps: seq<Photo>) {
    forall a, b :: 0 <= a < b < |ps| ==> ps[a].id != ps[b].id
  }

  /** JavaScript truthiness of an optional string field. */
  predicate Truthy(s: Option<string>) {
    s.Some? && s.value != ""
  }

  /** The identifying metadata that annotation never changes. */
  predicate SameMetadata(p: Photo, q: Photo) {
    p.id == q.id && p.name == q.name && p.size == q.size
  }

  ghost predicate NoDuplicates<T>(s: seq<T>) {
    forall a, b :: 0 <= a < b < |s| ==> s[a] != s[b]
  }

  function Max(a: int, b: int): int {
    if a >= b then a else b
  }

  function Min(a: int, b: int): int {
    if a <= b then a else b
  }

  /** Appending an element not yet present keeps a list repeat-free. */
  lemma AppendNoDuplicates<T>(s: seq<T>, x: T)
    requires NoDuplicates(s) && x !in s
    ensures NoDuplicates(s + [x])
  {
    var t := s + [x];
    forall a, b | 0 <= a < b < |t| ensures t[a] != t[b] {
      if b == |s| {
        assert t[a] == s[a];
      } else {
        assert t[a] == s[a] && t[b] == s[b];
      }
    }
  }

  /** `r` is the sub-list of `s` at the strictly increasing positions `f`:
      a filter's result, in the order of its input. */
  ghost predicate KeptAt<T>(r: seq<T>, s: seq<T>, f: seq<nat>) {
    |f| == |r|
    && (forall m :: 0 <= m < |f| ==> f[m] < |s| && r[m] == s[f[m]])
    && (forall m, n :: 0 <= m < n < |f| ==> f[m] < f[n])
  }

  /** A filter step on `s + [x]`: the new element is either kept, at the
      last position, or dropped; the earlier positions stay valid. */
  lemma KeptAtStep<T>(r: seq<T>, s: seq<T>, f: seq<nat>, x: T, keep: bool)
    requires KeptAt(r, s, f)
    ensures KeptAt(r + (if keep then [x] else []), s + [x], f + (if keep then [|s|] else []))
  {
    var r', s', f' := r + (if keep then [x] else []), s + [x], f + (if keep then [|s|] else []);
    forall m | 0 <= m < |f'| ensures f'[m] < |s'| && r'[m] == s'[f'[m]] {
      if m < |f| {
        assert f'[m] == f[m] && r'[m] == r[m] && s'[f[m]] == s[f[m]];
      }
    }
  }

  /** `s` without any occurrence of `x`, order kept. */
  function Without(s: seq<string>, x: string): (r: seq<string>)
    ensures forall y :: y in r <==> y in s && y != x
    ensures |r| <= |s|
  {
    if s == [] then []
    else if s[0] == x then Without(s[1..], x)
    else [s[0]] + Without(s[1..], x)
  }

  lemma {:induction false} WithoutNoDuplicates(s: seq<string>, x: string)
    requires NoDuplicates(s)
    ensures NoDuplicates(Without(s, x))
    decreases |s|
  {
    if s != [] {
      var tail := s[1..];
      assert NoDuplicates(tail) by {
        forall a, b | 0 <= a < b < |tail| ensures tail[a] != tail[b] {
          assert tail[a] == s[a + 1] && tail[b] == s[b + 1];
        }
      }
      WithoutNoDuplicates(tail, x);
      if s[0] != x {
        var rest := Without(tail, x);
        assert s[0] !in tail by {
          forall b | 0 <= b < |tail| ensures tail[b] != s[0] {
            assert tail[b] == s[b + 1];
          }
        }
        var r := [s[0]] + rest;
        forall a, b | 0 <= a < b < |r| ensures r[a] != r[b] {
          if a == 0 {
            assert r[b] == rest[b - 1];
          } else {
            assert r[a] == rest[a - 1] && r[b] == rest[b - 1];
          }
        }
      }
    }
  }

  function Elements<T>(s: seq<T>): set<T> {
    set y | y in s
  }
}
