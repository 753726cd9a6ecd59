/** A todo record and the rules by which update and toggle rewrite one record. */
module TodoModels {
  import opened Wrappers

  /** A point in time, in whole seconds of the store's (UTC) clock. */
  type Timestamp = int

  /** The offset the seed data subtracts from the current time: one hour. */
  const OneHour: int := 3600

  datatype TodoItem = TodoItem(
    id: int,
    title: string,
    description: string,
    isCompleted: bool,
    createdAt: Timestamp,
    completedAt: Option<Timestamp>)

  /** The record-level invariant: a completion time is present exactly when the record is completed. */
  predicate Consistent(t: TodoItem) {
    t.completedAt.Some? <==> t.isCompleted
  }

  /**
   * The record that an update leaves behind: the three editable fields are
   * overwritten; a completion time is stamped only if the record had none, an
   * existing one survives re-completion, and un-completing clears it.
   */
  function ApplyUpdate(t: TodoItem, title: string, description: string, isCompleted: bool, now: Timestamp): (r: TodoItem)
    ensures r.id == t.id && r.createdAt == t.createdAt
    ensures r.title == title && r.description == description && r.isCompleted == isCompleted
    ensures isCompleted && t.completedAt.None? ==> r.completedAt == Some(now)
    ensures isCompleted && t.completedAt.Some? ==> r.completedAt == t.completedAt
    ensures !isCompleted ==> r.completedAt == None
    ensures Consistent(r)
  {
    var edited := t.(title := title, description := description, isCompleted := isCompleted);
    if isCompleted && edited.completedAt.None? then
      edited.(completedAt := Some(now))
    else if !isCompleted then
      edited.(completedAt := None)
    else
      edited
  }

  /**
   * The record that a toggle leaves behind: the completion flag is flipped and
   * the completion time is recomputed from the new flag on every call.
   */
  function ApplyToggle(t: TodoItem, now: Timestamp): (r: TodoItem)
    ensures r.isCompleted == !t.isCompleted
    ensures r.isCompleted ==> r.completedAt == Some(now)
    ensures Consistent(r)
    ensures r.id == t.id && r.title == t.title && r.description == t.description && r.createdAt == t.createdAt
  {
    var flipped := t.(isCompleted := !t.isCompleted);
    flipped.(completedAt := if flipped.isCompleted then Some(now) else None)
  }

  /** Toggling an open, consistent record twice gives back that very record, whatever the two clock readings. */
  lemma ToggleTwiceRestoresOpen(t: TodoItem, first: Timestamp, second: Timestamp)
    requires !t.isCompleted && Consistent(t)
    ensures ApplyToggle(ApplyToggle(t, first), second) == t
  {
  }

  /** Two toggles always give back the original completion flag. */
  lemma ToggleTwiceRestoresFlag(t: TodoItem, first: Timestamp, second: Timestamp)
    ensures ApplyToggle(ApplyToggle(t, first), second).isCompleted == t.isCompleted
    ensures Consistent(ApplyToggle(ApplyToggle(t, first), second))
  {
  }

  /** Repeating an update is harmless: in particular re-completing does not refresh the completion time. */
  lemma UpdateIdempotent(t: TodoItem, title: string, description: string, isCompleted: bool, first: Timestamp, second: Timestamp)
    ensures var once := ApplyUpdate(t, title, description, isCompleted, first);
            ApplyUpdate(once, title, description, isCompleted, second) == once
  {
  }
}
