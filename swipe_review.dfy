/** The swipe review of `SwipeInterface`: a review index into the photo
    list, a bounded buffer of the photos swiped away, and the delete
    reports sent to the page. Each handler is one atomic transition; the
    300 ms delay before the index moves and the card animation are not
    part of the model. */
module SwipeReview {
  import opened Photos

  /** `slice(-10)` keeps the last ten photos swiped away. */
  const UndoCapacity: nat := 10
  /** Drag distance, in pixels, past which a drag counts as a swipe. */
  const DragThreshold: real := 100.0
  /** Drag speed, in pixels per second, past which a drag counts as a swipe. */
  const FlickThreshold: real := 500.0

  datatype Direction = Left | Right

  function Abs(x: real): real {
    if x < 0.0 then -x else x
  }

  /** `handleDragEnd`: the swipe a drag released at horizontal offset
      `offsetX` with speed `velocityX` triggers, if any. */
  function DragDecision(offsetX: real, velocityX: real): (d: Option<Direction>)
    ensures d.Some? ==> (d.value == Right <==> offsetX > 0.0)
  {
    if Abs(offsetX) > DragThreshold || Abs(velocityX) > FlickThreshold then
      if offsetX > 0.0 then Some(Right) else Some(Left)
    else None
  }

  /** A drag fires exactly when it is long or fast enough; it goes right
      exactly when it ends right of the start. */
  lemma DragDecisionCases(offsetX: real, velocityX: real)
    ensures DragDecision(offsetX, velocityX).Some? <==>
      offsetX > 100.0 || offsetX < -100.0 || velocityX > 500.0 || velocityX < -500.0
    ensures DragDecision(offsetX, velocityX) == Some(Right) <==>
      (offsetX > 100.0 || (0.0 < offsetX && (velocityX > 500.0 || velocityX < -500.0)))
    ensures DragDecision(offsetX, velocityX) == Some(Left) <==>
      (offsetX < -100.0 || (offsetX <= 0.0 && (velocityX > 500.0 || velocityX < -500.0)))
  {
  }

  /** JavaScript's `slice(-n)`: the last n elements, or all of them. */
  function LastN<T>(s: seq<T>, n: nat): (r: seq<T>)
    ensures |r| == if |s| <= n then |s| else n
    ensures r == s[|s| - |r|..]
  {
    if |s| <= n then s else s[|s| - n..]
  }

  /** The review state: the index, the buffer, and the ids passed to
      `onPhotoDeleted` so far. */
  datatype Review = Review(index: int, recentlyDeleted: seq<Photo>, reported: seq<string>)

  /** Whether `photos[currentIndex]` is a photo. */
  predicate HasCurrent(photos: seq<Photo>, r: Review) {
    0 <= r.index < |photos|
  }

  /** `handleSwipe`: reports are only appended, at most one, and the index
      moves one step exactly when there is a current photo. */
  function Swiped(photos: seq<Photo>, r: Review, direction: Direction): (r': Review)
    ensures r.reported <= r'.reported && |r'.reported| <= |r.reported| + 1
    ensures r'.index == if HasCurrent(photos, r) then r.index + 1 else r.index
  {
    if !HasCurrent(photos, r) then r
    else
      var p := photos[r.index];
      if direction == Left then
        Review(r.index + 1, LastN(r.recentlyDeleted + [p], UndoCapacity), r.reported + [p.id])
      else r.(index := r.index + 1)
  }

  /** `handleUndo`: the last buffered photo is forgotten and the index
      steps back; the photo itself is not restored. */
  function Undone(r: Review): (r': Review)
    ensures r'.reported == r.reported && r'.recentlyDeleted <= r.recentlyDeleted
  {
    if |r.recentlyDeleted| == 0 then r
    else r.(recentlyDeleted := r.recentlyDeleted[..|r.recentlyDeleted| - 1], index := Max(0, r.index - 1))
  }

  /** `goToPrevious`: the index is never negative afterwards; nothing else
      changes. */
  function Previous(r: Review): (r': Review)
    ensures 0 <= r'.index && r'.(index := r.index) == r
  {
    r.(index := Max(0, r.index - 1))
  }

  /** `goToNext`: the index never passes the last photo; nothing else
      changes. */
  function Next(photos: seq<Photo>, r: Review): (r': Review)
    ensures r'.index < |photos| && r'.(index := r.index) == r
  {
    r.(index := Min(|photos| - 1, r.index + 1))
  }

  /** The "All Done!" screen. */
  predicate Done(photos: seq<Photo>, r: Review) {
    r.index >= |photos|
  }

  /** The done screen's Start Over button: back to the first photo, the
      buffer and the reports kept. */
  function StartOver(r: Review): (r': Review)
    ensures r'.index == 0 && r'.(index := r.index) == r
  {
    r.(index := 0)
  }

  /** A swipe without a current photo does nothing; otherwise the index
      advances by one in either direction, and a left swipe reports the photo
      and buffers it as the newest entry, the buffer holding at most ten. */
  lemma SwipeEffect(photos: seq<Photo>, r: Review, direction: Direction)
    requires |r.recentlyDeleted| <= UndoCapacity
    ensures var r' := Swiped(photos, r, direction);
      if !HasCurrent(photos, r) then r' == r
      else
        r'.index == r.index + 1 && |r'.recentlyDeleted| <= UndoCapacity
        && (direction == Right ==> r'.recentlyDeleted == r.recentlyDeleted && r'.reported == r.reported)
        && (direction == Left ==>
              r'.reported == r.reported + [photos[r.index].id]
              && r'.recentlyDeleted[|r'.recentlyDeleted| - 1] == photos[r.index]
              && r'.recentlyDeleted[..|r'.recentlyDeleted| - 1]
                 == LastN(r.recentlyDeleted, UndoCapacity - 1))
  {
    if HasCurrent(photos, r) && direction == Left {
      var s := r.recentlyDeleted + [photos[r.index]];
      var b := LastN(s, UndoCapacity);
      assert b[..|b| - 1] == s[|s| - |b|..|s| - 1];
      assert s[..|s| - 1] == r.recentlyDeleted;
    }
  }

  /** Undoing a left swipe made with room in the buffer returns the index
      and the buffer to where they were; the delete report stays. */
  lemma UndoAfterLeftSwipe(photos: seq<Photo>, r: Review)
    requires HasCurrent(photos, r) && |r.recentlyDeleted| < UndoCapacity
    ensures Undone(Swiped(photos, r, Left)) == r.(reported := r.reported + [photos[r.index].id])
  {
    var s := r.recentlyDeleted + [photos[r.index]];
    assert s[..|s| - 1] == r.recentlyDeleted;
  }

  /** The handlers, for replaying a session. */
  datatype Action =
    | Swipe(direction: Direction)
    | Drag(offsetX: real, velocityX: real)
    | Undo
    | GoToPrevious
    | GoToNext
    | Restart

  function Apply(photos: seq<Photo>, r: Review, a: Action): Review {
    match a
    case Swipe(d) => Swiped(photos, r, d)
    case Drag(x, v) =>
      var d := DragDecision(x, v);
      if d.Some? then Swiped(photos, r, d.value) else r
    case Undo => Undone(r)
    case GoToPrevious => Previous(r)
    case GoToNext => Next(photos, r)
    case Restart => StartOver(r)
  }

  function Replay(photos: seq<Photo>, r: Review, actions: seq<Action>): Review
    decreases |actions|
  {
    if |actions| == 0 then r else Apply(photos, Replay(photos, r, actions[..|actions| - 1]), actions[|actions| - 1])
  }

  /** What every session keeps: the buffer holds at most ten photos, and the
      index stays between the first photo and the done state, except that
      `goToNext` on an empty list leaves it at -1. */
  ghost predicate Sane(photos: seq<Photo>, r: Review) {
    |r.recentlyDeleted| <= UndoCapacity
    && -1 <= r.index <= |photos|
    && (r.index == -1 ==> |photos| == 0)
  }

  lemma ApplySane(photos: seq<Photo>, r: Review, a: Action)
    requires Sane(photos, r)
    ensures Sane(photos, Apply(photos, r, a))
  {
  }

  /** Every session that starts at the first photo with an empty buffer
      stays sane. */
  lemma {:induction false} ReplaySane(photos: seq<Photo>, actions: seq<Action>)
    ensures Sane(photos, Replay(photos, Review(0, [], []), actions))
    decreases |actions|
  {
    if |actions| > 0 {
      ReplaySane(photos, actions[..|actions| - 1]);
      ApplySane(photos, Replay(photos, Review(0, [], []), actions[..|actions| - 1]), actions[|actions| - 1]);
    }
  }

  /** Reports are only ever appended, one per action at most: a session
      never takes back a delete it reported. */
  lemma {:induction false} ReportsOnlyGrow(photos: seq<Photo>, r: Review, actions: seq<Action>)
    ensures |r.reported| <= |Replay(photos, r, actions).reported| <= |r.reported| + |actions|
    ensures Replay(photos, r, actions).reported[..|r.reported|] == r.reported
    decreases |actions|
  {
    if |actions| > 0 {
      ReportsOnlyGrow(photos, r, actions[..|actions| - 1]);
      var mid := Replay(photos, r, actions[..|actions| - 1]);
      var r' := Replay(photos, r, actions);
      assert r' == Apply(photos, mid, actions[|actions| - 1]);
      if r'.reported != mid.reported {
        assert r'.reported == mid.reported + [photos[mid.index].id];
        assert r'.reported[..|r.reported|] == mid.reported[..|r.reported|];
      }
    }
  }

  class SwipeInterface {
    const photos: seq<Photo>
    var currentIndex: int
    var recentlyDeleted: seq<Photo>
    /** The ids passed to `onPhotoDeleted` so far. */
    var reported: seq<string>

    function State(): Review
      reads this
    {
      Review(currentIndex, recentlyDeleted, reported)
    }

    ghost predicate Valid()
      reads this
    {
      Sane(photos, State())
    }

    constructor (photos: seq<Photo>)
      ensures this.photos == photos && Valid() && State() == Review(0, [], [])
    {
      this.photos := photos;
      currentIndex, recentlyDeleted, reported := 0, [], [];
    }

    method HandleSwipe(direction: Direction)
      requires Valid()
      modifies this
      ensures Valid() && State() == Swiped(photos, old(State()), direction)
    {
      ApplySane(photos, State(), Swipe(direction));
      if !(0 <= currentIndex < |photos|) {
        return;
      }
      var currentPhoto := photos[currentIndex];
      if direction == Left {
        reported := reported + [currentPhoto.id];
        recentlyDeleted := LastN(recentlyDeleted + [currentPhoto], UndoCapacity);
      }
      currentIndex := currentIndex + 1;
    }

    method HandleDragEnd(offsetX: real, velocityX: real)
      requires Valid()
      modifies this
      ensures Valid() && State() == Apply(photos, old(State()), Drag(offsetX, velocityX))
    {
      if Abs(offsetX) > DragThreshold || Abs(velocityX) > FlickThreshold {
        if offsetX > 0.0 {
          HandleSwipe(Right);
        } else {
          HandleSwipe(Left);
        }
      }
    }

    method HandleUndo()
      requires Valid()
      modifies this
      ensures Valid() && State() == Undone(old(State()))
    {
      ApplySane(photos, State(), Undo);
      if |recentlyDeleted| == 0 {
        return;
      }
      recentlyDeleted := recentlyDeleted[..|recentlyDeleted| - 1];
      currentIndex := Max(0, currentIndex - 1);
    }

    method GoToPrevious()
      requires Valid()
      modifies this
      ensures Valid() && State() == Previous(old(State()))
    {
      ApplySane(photos, State(), Action.GoToPrevious);
      currentIndex := Max(0, currentIndex - 1);
    }

    method GoToNext()
      requires Valid()
      modifies this
      ensures Valid() && State() == Next(photos, old(State()))
    {
      ApplySane(photos, State(), Action.GoToNext);
      currentIndex := Min(|photos| - 1, currentIndex + 1);
    }

    method StartOverReview()
      requires Valid()
      modifies this
      ensures Valid() && State() == StartOver(old(State()))
    {
      currentIndex := 0;
    }

    /** Whether the "All Done!" screen shows. */
    function IsDone(): (done: bool)
      reads this
      requires Valid()
      ensures done ==> currentIndex == |photos|
      ensures !done ==> currentIndex < |photos|
    {
      currentIndex >= |photos|
    }
  }
}
