/**
 One row of the list: its swipe-to-delete gesture and its tap-to-toggle checkbox. Each row keeps
 where the touch began and how far the row is pushed to the left; a release far enough to the
 left asks the store to delete the row's task, any other release lets the row spring back.
 */
module TodoItem {
  import opened TodoStore

  /** A release must end more than 80 units left of where the touch began to delete the row. */
  const COMMIT_THRESHOLD: int := -80

  /** Idle: at rest; Dragging: a touch is in progress; Committing: the delete has been decided. */
  datatype Phase = Idle | Dragging | Committing

  /** The horizontal drag of the touch so far. */
  function Drag(pageX: int, panStartX: int): int {
    pageX - panStartX
  }

  /** A release at `pageX` deletes the row. */
  predicate Commits(pageX: int, panStartX: int) {
    Drag(pageX, panStartX) < COMMIT_THRESHOLD
  }

  /** The row's offset after a move to `pageX`: only a leftward drag moves it. */
  function MovedOffset(offset: int, pageX: int, panStartX: int): int {
    var dx := Drag(pageX, panStartX);
    if dx < 0 then dx else offset
  }

  /**
   A release commits exactly when it ends strictly more than 80 units to the left of the touch
   start: a drag of exactly -80 springs back. The decision reads only the two coordinates.
   */
  lemma CommitsIff(pageX: int, panStartX: int)
    ensures Commits(pageX, panStartX) <==> pageX < panStartX - 80
    ensures !Commits(panStartX - 80, panStartX) && Commits(panStartX - 81, panStartX)
  {
  }

  /** A move never pushes the row right of its resting place, and a non-leftward move does nothing. */
  lemma MoveKeepsOffsetNonPositive(offset: int, pageX: int, panStartX: int)
    requires offset <= 0
    ensures MovedOffset(offset, pageX, panStartX) <= 0
    ensures pageX >= panStartX ==> MovedOffset(offset, pageX, panStartX) == offset
    ensures pageX < panStartX ==> MovedOffset(offset, pageX, panStartX) == pageX - panStartX
  {
  }

  /**
   The gesture state of one row: the row's task id, the touch start `panStartX`, the row's
   horizontal `offset` and the phase. The invariant is that the row is never to the right of
   its resting place.
   */
  class SwipeRow {
    const id: TodoId
    var panStartX: int
    var offset: int
    var phase: Phase

    ghost predicate Valid()
      reads this
    {
      offset <= 0
    }

    /** A fresh row rests at offset 0 with the touch start at 0. */
    constructor (id: TodoId)
      ensures Valid()
      ensures this.id == id && panStartX == 0 && offset == 0 && phase == Idle
    {
      this.id := id;
      panStartX := 0;
      offset := 0;
      phase := Idle;
    }

    /** Touch start: records where it began, whatever an earlier touch recorded. */
    method Grant(pageX: int)
      requires Valid()
      modifies this
      ensures Valid()
      ensures panStartX == pageX && offset == old(offset) && phase == Dragging
    {
      panStartX := pageX;
      phase := Dragging;
    }

    /** Touch move: a leftward drag sets the offset to the drag; any other drag leaves it. */
    method Move(pageX: int)
      requires Valid()
      modifies this
      ensures Valid()
      ensures panStartX == old(panStartX) && phase == old(phase)
      ensures offset == MovedOffset(old(offset), pageX, panStartX)
      ensures pageX - panStartX < 0 ==> offset == pageX - panStartX
      ensures pageX - panStartX >= 0 ==> offset == old(offset)
    {
      MoveKeepsOffsetNonPositive(offset, pageX, panStartX);
      var dx := Drag(pageX, panStartX);
      if dx < 0 {
        offset := dx;
      }
    }

    /**
     Touch end: past the threshold the row commits and asks for exactly one delete, of its own
     id; otherwise it asks for nothing and returns to offset 0. The offset plays no part.
     */
    method Release(pageX: int) returns (deletes: seq<TodoId>)
      requires Valid()
      modifies this
      ensures Valid()
      ensures panStartX == old(panStartX)
      ensures Commits(pageX, panStartX) ==> deletes == [id] && phase == Committing && offset == old(offset)
      ensures !Commits(pageX, panStartX) ==> deletes == [] && phase == Idle && offset == 0
    {
      if Commits(pageX, panStartX) {
        phase := Committing;
        deletes := [id];
      } else {
        offset := 0;
        phase := Idle;
        deletes := [];
      }
    }

    /** Tapping the checkbox asks for exactly one toggle, of this row's id. */
    method Tap() returns (toggles: seq<TodoId>)
      ensures toggles == [id]
    {
      toggles := [id];
    }
  }
}
