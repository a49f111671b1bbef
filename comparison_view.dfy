/** The comparison overlay of `PhotoComparison`: an index into the group
    being compared, the photo picked with Keep, whether the overlay is still
    open, and the delete reports sent to the page. The list of photos is the
    one the overlay was opened with. */
module ComparisonView {
  import opened Photos

  datatype Comparison = Comparison(index: int, selected: Option<Photo>, open: bool, reported: seq<string>)

  /** The state when the overlay opens. */
  function Opened(): Comparison {
    Comparison(0, None, true, [])
  }

  /** `handleNext` on a list of n photos: at most one step forward, never
      leaving the list. */
  function Next(n: nat, c: Comparison): (r: Comparison)
    ensures c.index <= r.index <= c.index + 1
    ensures 0 <= c.index < n ==> 0 <= r.index < n
  {
    if c.index < n - 1 then c.(index := c.index + 1) else c
  }

  /** `handlePrevious`: at most one step back, never below the first photo. */
  function Previous(c: Comparison): (r: Comparison)
    ensures c.index - 1 <= r.index <= c.index
    ensures 0 <= c.index ==> 0 <= r.index
  {
    if c.index > 0 then c.(index := c.index - 1) else c
  }

  /** `handleDelete` of `photo`, which the caller passed as the current or
      the next photo: the report, then the adjustment from the length alone. */
  function Delete(n: nat, c: Comparison, photo: Photo): (r: Comparison)
    ensures |r.reported| == |c.reported| + 1 && c.reported <= r.reported
    ensures 0 <= c.index < n ==> 0 <= r.index < n
  {
    var reported := c.(reported := c.reported + [photo.id]);
    if n == 1 then reported.(open := false)
    else if c.index == n - 1 then reported.(index := Max(0, c.index - 1))
    else reported
  }

  /** The Keep buttons: only the selection changes. */
  function Keep(c: Comparison, photo: Photo): (r: Comparison)
    ensures r.selected == Some(photo) && r.(selected := c.selected) == c
  {
    c.(selected := Some(photo))
  }

  /** The Cancel button of the keep dialog: only the selection is cleared. */
  function Cancel(c: Comparison): (r: Comparison)
    ensures r.selected == None && r.(selected := c.selected) == c
  {
    c.(selected := None)
  }

  /** The Continue button of the keep dialog: the selection is cleared and
      the index stays in the list. */
  function Continue(n: nat, c: Comparison): (r: Comparison)
    ensures r.selected == None
    ensures 0 <= c.index < n ==> 0 <= r.index < n
  {
    Next(n, Cancel(c))
  }

  /** The header's close button, which calls `onClose`: the overlay closes
      and nothing else changes. */
  function Close(c: Comparison): (r: Comparison)
    ensures !r.open && r.(open := c.open) == c
  {
    c.(open := false)
  }

  /** Next moves forward only from before the last photo; Previous moves
      back only from after the first; neither touches anything else. */
  lemma NavigationEffect(n: nat, c: Comparison)
    ensures Next(n, c).index == (if c.index < n - 1 then c.index + 1 else c.index)
    ensures Previous(c).index == (if c.index > 0 then c.index - 1 else c.index)
    ensures Next(n, c).(index := c.index) == c && Previous(c).(index := c.index) == c
  {
  }

  /** A delete always reports the photo it was given; with a single photo it
      closes the overlay, at the last position it steps back, and otherwise
      the index stays. */
  lemma DeleteEffect(n: nat, c: Comparison, photo: Photo)
    ensures Delete(n, c, photo).reported == c.reported + [photo.id]
    ensures !Delete(n, c, photo).open <==> n == 1 || !c.open
    ensures n != 1 && c.index == n - 1 ==> Delete(n, c, photo).index == Max(0, c.index - 1)
    ensures n != 1 && c.index != n - 1 ==> Delete(n, c, photo).index == c.index
    ensures Delete(n, c, photo).selected == c.selected
  {
  }

  /** Continue ends the keep dialog and then moves like Next; Cancel ends it
      without moving. */
  lemma KeepDialog(n: nat, c: Comparison, photo: Photo)
    ensures Keep(c, photo).selected == Some(photo) && Keep(c, photo).index == c.index
    ensures Cancel(Keep(c, photo)) == Cancel(c) && Cancel(c).index == c.index
    ensures Continue(n, Keep(c, photo)).selected == None
    ensures Continue(n, Keep(c, photo)).index == Next(n, c).index
  {
  }

  /** The handlers, for replaying a session. */
  datatype Action =
    | GoNext
    | GoPrevious
    | DeletePhoto(photo: Photo)
    | KeepPhoto(photo: Photo)
    | CancelKeep
    | ContinueKeep
    | CloseOverlay

  function Apply(n: nat, c: Comparison, a: Action): Comparison {
    match a
    case GoNext => Next(n, c)
    case GoPrevious => Previous(c)
    case DeletePhoto(p) => Delete(n, c, p)
    case KeepPhoto(p) => Keep(c, p)
    case CancelKeep => Cancel(c)
    case ContinueKeep => Continue(n, c)
    case CloseOverlay => Close(c)
  }

  function Replay(n: nat, c: Comparison, actions: seq<Action>): Comparison
    decreases |actions|
  {
    if |actions| == 0 then c else Apply(n, Replay(n, c, actions[..|actions| - 1]), actions[|actions| - 1])
  }

  /** Opened on a non-empty group, the index never leaves the group,
      whatever the user does. */
  lemma {:induction false} IndexStaysInGroup(n: nat, actions: seq<Action>)
    requires n >= 1
    ensures 0 <= Replay(n, Opened(), actions).index <= n - 1
    decreases |actions|
  {
    if |actions| > 0 {
      IndexStaysInGroup(n, actions[..|actions| - 1]);
    }
  }

  /** The ids the delete actions of a session name, in order. */
  function Deleted(actions: seq<Action>): seq<string>
    decreases |actions|
  {
    if |actions| == 0 then []
    else
      var a := actions[|actions| - 1];
      Deleted(actions[..|actions| - 1]) + (if a.DeletePhoto? then [a.photo.id] else [])
  }

  /** Each delete of a session reports once, in order. */
  lemma {:induction false} DeletesReported(n: nat, c: Comparison, actions: seq<Action>)
    ensures Replay(n, c, actions).reported == c.reported + Deleted(actions)
    decreases |actions|
  {
    if |actions| > 0 {
      DeletesReported(n, c, actions[..|actions| - 1]);
      var front := actions[..|actions| - 1];
      assert c.reported + Deleted(actions) == (c.reported + Deleted(front)) +
        (if actions[|actions| - 1].DeletePhoto? then [actions[|actions| - 1].photo.id] else []);
    }
  }

  class PhotoComparison {
    const photos: seq<Photo>
    var currentIndex: int
    var selectedPhoto: Option<Photo>
    /** False once `onClose` has been called: by the close button, or by
        deleting the only photo. */
    var open: bool
    /** The ids passed to `onPhotoDeleted` so far. */
    var reported: seq<string>

    function State(): Comparison
      reads this
    {
      Comparison(currentIndex, selectedPhoto, open, reported)
    }

    constructor (photos: seq<Photo>)
      ensures this.photos == photos && State() == Opened()
    {
      this.photos := photos;
      currentIndex, selectedPhoto, open, reported := 0, None, true, [];
    }

    method HandleNext()
      modifies this
      ensures State() == Next(|photos|, old(State()))
    {
      if currentIndex < |photos| - 1 {
        currentIndex := currentIndex + 1;
      }
    }

    method HandlePrevious()
      modifies this
      ensures State() == Previous(old(State()))
    {
      if currentIndex > 0 {
        currentIndex := currentIndex - 1;
      }
    }

    method HandleDelete(photo: Photo)
      modifies this
      ensures State() == Delete(|photos|, old(State()), photo)
    {
      reported := reported + [photo.id];
      if |photos| == 1 {
        open := false;
      } else if currentIndex == |photos| - 1 {
        currentIndex := Max(0, currentIndex - 1);
      }
    }

    method KeepPhoto(photo: Photo)
      modifies this
      ensures State() == Keep(old(State()), photo)
    {
      selectedPhoto := Some(photo);
    }

    method CancelKeep()
      modifies this
      ensures State() == Cancel(old(State()))
    {
      selectedPhoto := None;
    }

    method ContinueKeep()
      modifies this
      ensures State() == Continue(|photos|, old(State()))
    {
      selectedPhoto := None;
      HandleNext();
    }

    method CloseOverlay()
      modifies this
      ensures State() == Close(old(State()))
    {
      open := false;
    }
  }
}
