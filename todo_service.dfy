/**
 * The in-memory todo store: an ordered list of records and an id counter,
 * with list, get, create, update, toggle and delete.
 */
module TodoServices {
  import opened Wrappers
  import opened TodoModels

  // ---------------------------------------------------------------------------
  // The list of records, as a value
  // ---------------------------------------------------------------------------

  /** Ids grow strictly along the list, which is creation order. */
  ghost predicate IdsIncreasing(s: seq<TodoItem>) {
    forall i, j :: 0 <= i < j < |s| ==> s[i].id < s[j].id
  }

  /** Every id in the list is positive and below the next id the counter will hand out. */
  ghost predicate IdsBelow(s: seq<TodoItem>, nextId: int) {
    forall i :: 0 <= i < |s| ==> 1 <= s[i].id < nextId
  }

  /** Every record in the list keeps "completion time present iff completed". */
  ghost predicate AllConsistent(s: seq<TodoItem>) {
    forall i :: 0 <= i < |s| ==> Consistent(s[i])
  }

  /** The position of the first record with the given id, or None: what a first-match search finds. */
  function FirstIndex(s: seq<TodoItem>, id: int): (r: Option<nat>)
    ensures r.Some? ==> r.value < |s| && s[r.value].id == id
    ensures r.Some? ==> forall j :: 0 <= j < r.value ==> s[j].id != id
    ensures r.None? ==> forall j :: 0 <= j < |s| ==> s[j].id != id
  {
    if |s| == 0 then None
    else if s[0].id == id then Some(0)
    else match FirstIndex(s[1..], id)
      case None => None
      case Some(k) => Some(k + 1)
  }

  /** The list without the record at position i; the others keep their relative order. */
  function RemoveAt(s: seq<TodoItem>, i: nat): (r: seq<TodoItem>)
    requires i < |s|
    ensures |r| == |s| - 1
    ensures forall j :: 0 <= j < i ==> r[j] == s[j]
    ensures forall j :: i <= j < |r| ==> r[j] == s[j + 1]
    ensures multiset(r) + multiset{s[i]} == multiset(s)
  {
    assert s == s[..i] + [s[i]] + s[i + 1..];
    s[..i] + s[i + 1..]
  }

  /** The linear search behind every lookup: scans the list front to back and stops at the first match. */
  method IndexOf(s: seq<TodoItem>, id: int) returns (r: Option<nat>)
    ensures r == FirstIndex(s, id)
  {
    var i := 0;
    while i < |s|
      invariant 0 <= i <= |s|
      invariant forall j :: 0 <= j < i ==> s[j].id != id
    {
      if s[i].id == id {
        return Some(i);
      }
      i := i + 1;
    }
    return None;
  }

  // ---------------------------------------------------------------------------
  // Lemmas about the list
  // ---------------------------------------------------------------------------

  /** Strictly increasing ids are unique: two positions holding the same id are one position. */
  lemma IdsUnique(s: seq<TodoItem>, i: int, j: int)
    requires IdsIncreasing(s)
    requires 0 <= i < |s| && 0 <= j < |s| && s[i].id == s[j].id
    ensures i == j
  {
  }

  /** In a list of unique ids, the first match is the only match. */
  lemma FirstIndexIsOnly(s: seq<TodoItem>, id: int, j: int)
    requires IdsIncreasing(s)
    requires 0 <= j < |s| && s[j].id == id
    ensures FirstIndex(s, id) == Some(j)
  {
  }

  /** Appending a record stamped with the counter keeps the id invariant once the counter moves past it. */
  lemma AppendKeepsIds(s: seq<TodoItem>, nextId: int, t: TodoItem)
    requires IdsIncreasing(s) && IdsBelow(s, nextId) && 1 <= nextId
    requires t.id == nextId
    ensures IdsIncreasing(s + [t]) && IdsBelow(s + [t], nextId + 1)
  {
  }

  /** A freshly appended record is found at the end of the list under its new id. */
  lemma {:induction false} AppendedIsFound(s: seq<TodoItem>, nextId: int, t: TodoItem)
    requires IdsBelow(s, nextId) && t.id == nextId
    ensures FirstIndex(s + [t], nextId) == Some(|s|)
  {
    var s' := s + [t];
    assert forall j :: 0 <= j < |s| ==> s'[j] == s[j];
    var k := FirstIndex(s', nextId);
    assert s'[|s|] == t;
  }

  /** Replacing a record by one with the same id keeps the id invariant and every lookup's position. */
  lemma {:induction false} ReplaceKeepsIds(s: seq<TodoItem>, nextId: int, i: nat, t: TodoItem, id: int)
    requires i < |s| && t.id == s[i].id
    ensures IdsIncreasing(s) ==> IdsIncreasing(s[i := t])
    ensures IdsBelow(s, nextId) ==> IdsBelow(s[i := t], nextId)
    ensures FirstIndex(s[i := t], id) == FirstIndex(s, id)
  {
    var s' := s[i := t];
    assert forall j :: 0 <= j < |s| ==> s'[j].id == s[j].id;
    var a, b := FirstIndex(s', id), FirstIndex(s, id);
    if a.Some? && b.Some? {
      assert !(a.value < b.value) && !(b.value < a.value);
    }
  }

  /** Removing a record keeps the id invariant. */
  lemma RemoveKeepsIds(s: seq<TodoItem>, nextId: int, i: nat)
    requires i < |s|
    ensures IdsIncreasing(s) ==> IdsIncreasing(RemoveAt(s, i))
    ensures IdsBelow(s, nextId) ==> IdsBelow(RemoveAt(s, i), nextId)
  {
  }

  /** After the record at the first match of id is removed, id is no longer found; other ids still find their record. */
  lemma {:induction false} RemovedIsGone(s: seq<TodoItem>, id: int, i: nat, other: int)
    requires IdsIncreasing(s) && FirstIndex(s, id) == Some(i)
    ensures FirstIndex(RemoveAt(s, i), id) == None
    ensures other != id ==> match FirstIndex(s, other)
      case None => FirstIndex(RemoveAt(s, i), other) == None
      case Some(k) => FirstIndex(RemoveAt(s, i), other).Some? && RemoveAt(s, i)[FirstIndex(RemoveAt(s, i), other).value] == s[k]
  {
    var r := RemoveAt(s, i);
    forall j | 0 <= j < |r| ensures r[j].id != id {
      var j' := if j < i then j else j + 1;
      assert r[j] == s[j'];
      if s[j'].id == id { IdsUnique(s, i, j'); }
    }
    if other != id {
      match FirstIndex(s, other)
      case None =>
        forall j | 0 <= j < |r| ensures r[j].id != other {
          assert r[j] == s[if j < i then j else j + 1];
        }
      case Some(k) =>
        var k' := if k < i then k else k - 1;
        assert r[k'] == s[k];
        RemoveKeepsIds(s, 0, i);
        FirstIndexIsOnly(r, other, k');
    }
  }

  /** Updates and toggles keep the list consistent, whatever state the edited record was in. */
  lemma ReplaceKeepsConsistent(s: seq<TodoItem>, i: nat, t: TodoItem)
    requires i < |s| && AllConsistent(s) && Consistent(t)
    ensures AllConsistent(s[i := t])
  {
  }

  // ---------------------------------------------------------------------------
  // The store
  // ---------------------------------------------------------------------------

  /** The three records every new store starts with, ids 1 to 3 in that order; only the second is completed. */
  function SeedTodos(now: Timestamp): (r: seq<TodoItem>)
    ensures |r| == 3 && r[0].id == 1 && r[1].id == 2 && r[2].id == 3
    ensures !r[0].isCompleted && r[1].isCompleted && !r[2].isCompleted
    ensures r[1].completedAt.Some? && r[1].completedAt.value < now
    ensures IdsIncreasing(r) && IdsBelow(r, 4) && AllConsistent(r)
  {
    [ TodoItem(1, "Learn .NET Core", "Complete the .NET Core tutorial", false, now, None),
      TodoItem(2, "Set up DevContainer", "Configure development environment", true, now, Some(now - OneHour)),
      TodoItem(3, "Build Todo API", "Create a RESTful API for todo management", false, now, None) ]
  }

  class TodoService {
    /** The records, in creation order. */
    var todos: seq<TodoItem>
    /** The id the next create hands out; it only ever grows. */
    var nextId: int
    /** Every id this store has ever handed out, including those of deleted records. */
    ghost var issued: set<int>

    /**
     * The store invariant: ids are positive, strictly increasing in list order
     * and below the counter; every held id was issued, and every issued id is
     * below the counter, so the counter never hands out an id twice.
     */
    ghost predicate Valid()
      reads this
    {
      1 <= nextId && IdsIncreasing(todos) && IdsBelow(todos, nextId) &&
      (forall i :: 0 <= i < |todos| ==> todos[i].id in issued) &&
      (forall x :: x in issued ==> 1 <= x < nextId)
    }

    /** Builds a store holding the seed data, stamping each seed with the next id. */
    constructor (now: Timestamp)
      ensures Valid() && AllConsistent(todos)
      ensures todos == SeedTodos(now) && nextId == 4 && issued == {1, 2, 3}
    {
      todos := [];
      nextId := 1;
      issued := {};
      new;
      var learn := TodoItem(nextId, "Learn .NET Core", "Complete the .NET Core tutorial", false, now, None);
      nextId := nextId + 1;
      var setUp := TodoItem(nextId, "Set up DevContainer", "Configure development environment", true, now, Some(now - OneHour));
      nextId := nextId + 1;
      var build := TodoItem(nextId, "Build Todo API", "Create a RESTful API for todo management", false, now, None);
      nextId := nextId + 1;
      todos := todos + [learn, setUp, build];
      issued := {learn.id, setUp.id, build.id};
    }

    /** Every record, in creation order. */
    method GetAll() returns (r: seq<TodoItem>)
      ensures r == todos
    {
      r := todos;
    }

    /** The record with the given id, or None when no record has it. */
    method GetById(id: int) returns (r: Option<TodoItem>)
      ensures r.Some? <==> exists j :: 0 <= j < |todos| && todos[j].id == id
      ensures r.Some? ==> r.value.id == id && r.value in todos
      ensures r.Some? ==> r.value == todos[FirstIndex(todos, id).value]
    {
      var found := IndexOf(todos, id);
      match found
      case None => r := None;
      case Some(i) => r := Some(todos[i]);
    }

    /**
     * Stores the given record under the next id, stamped with the current time,
     * at the end of the list. The caller's completion fields are kept as given.
     */
    method Create(todo: TodoItem, now: Timestamp) returns (created: TodoItem)
      requires Valid()
      modifies this
      ensures Valid()
      ensures created.id == old(nextId) && nextId == old(nextId) + 1
      ensures created.id !in old(issued) && issued == old(issued) + {created.id}
      ensures created == todo.(id := created.id, createdAt := now)
      ensures todos == old(todos) + [created]
      ensures forall j :: 0 <= j < |old(todos)| ==> old(todos)[j].id < created.id
      ensures FirstIndex(todos, created.id) == Some(|old(todos)|)
      ensures AllConsistent(old(todos)) && Consistent(todo) ==> AllConsistent(todos)
    {
      var t := todo.(id := nextId);
      nextId := nextId + 1;
      t := t.(createdAt := now);
      AppendKeepsIds(todos, t.id, t);
      AppendedIsFound(todos, t.id, t);
      todos := todos + [t];
      issued := issued + {t.id};
      created := t;
    }

    /**
     * Overwrites title, description and completion flag of the record with the
     * given id and applies the completion-time rule; None when there is none.
     */
    method Update(id: int, title: string, description: string, isCompleted: bool, now: Timestamp)
      returns (r: Option<TodoItem>)
      requires Valid()
      modifies this`todos
      ensures Valid()
      ensures match FirstIndex(old(todos), id)
        case None => r == None && todos == old(todos)
        case Some(i) =>
          r == Some(ApplyUpdate(old(todos)[i], title, description, isCompleted, now)) &&
          todos == old(todos)[i := r.value]
      ensures forall x :: FirstIndex(todos, x) == FirstIndex(old(todos), x)
      ensures AllConsistent(old(todos)) ==> AllConsistent(todos)
    {
      var found := IndexOf(todos, id);
      if found.None? {
        return None;
      }
      var i := found.value;
      var existing := todos[i];
      existing := existing.(title := title, description := description, isCompleted := isCompleted);
      if isCompleted && existing.completedAt.None? {
        existing := existing.(completedAt := Some(now));
      } else if !isCompleted {
        existing := existing.(completedAt := None);
      }
      forall x { ReplaceKeepsIds(todos, nextId, i, existing, x); }
      if AllConsistent(todos) { ReplaceKeepsConsistent(todos, i, existing); }
      todos := todos[i := existing];
      r := Some(existing);
    }

    /**
     * Flips the completion flag of the record with the given id and recomputes
     * its completion time; None when there is none.
     */
    method Toggle(id: int, now: Timestamp) returns (r: Option<TodoItem>)
      requires Valid()
      modifies this`todos
      ensures Valid()
      ensures match FirstIndex(old(todos), id)
        case None => r == None && todos == old(todos)
        case Some(i) =>
          r == Some(ApplyToggle(old(todos)[i], now)) &&
          todos == old(todos)[i := r.value]
      ensures forall x :: FirstIndex(todos, x) == FirstIndex(old(todos), x)
      ensures AllConsistent(old(todos)) ==> AllConsistent(todos)
    {
      var found := IndexOf(todos, id);
      if found.None? {
        return None;
      }
      var i := found.value;
      var todo := todos[i];
      todo := todo.(isCompleted := !todo.isCompleted);
      todo := todo.(completedAt := if todo.isCompleted then Some(now) else None);
      forall x { ReplaceKeepsIds(todos, nextId, i, todo, x); }
      if AllConsistent(todos) { ReplaceKeepsConsistent(todos, i, todo); }
      todos := todos[i := todo];
      r := Some(todo);
    }

    /** Removes the record with the given id and reports whether there was one. */
    method Delete(id: int) returns (deleted: bool)
      requires Valid()
      modifies this`todos
      ensures Valid()
      ensures deleted <==> FirstIndex(old(todos), id).Some?
      ensures !deleted ==> todos == old(todos)
      ensures deleted ==> todos == RemoveAt(old(todos), FirstIndex(old(todos), id).value)
      ensures FirstIndex(todos, id) == None
      ensures AllConsistent(old(todos)) ==> AllConsistent(todos)
    {
      var found := IndexOf(todos, id);
      if found.None? {
        return false;
      }
      var i := found.value;
      RemoveKeepsIds(todos, nextId, i);
      RemovedIsGone(todos, id, i, id);
      todos := RemoveAt(todos, i);
      deleted := true;
    }
  }

  /**
   * A typical client session on a fresh store: one create, a
   * toggle, an update that un-completes, a delete, and a lookup that misses.
   */
  method Scenario(t0: Timestamp, t1: Timestamp, t2: Timestamp, t3: Timestamp)
  {
    var store := new TodoService(t0);
    var all := store.GetAll();
    assert |all| == 3 && all[1].isCompleted && all[1].completedAt.Some?;
    assert !all[0].isCompleted && !all[2].isCompleted;

    var milk := TodoItem(0, "Buy milk", "", false, 0, None);
    var created := store.Create(milk, t1);
    assert created.id == 4 && created.title == "Buy milk" && !created.isCompleted;

    var toggled := store.Toggle(4, t2);
    assert toggled == Some(created.(isCompleted := true, completedAt := Some(t2)));

    var updated := store.Update(4, "Buy milk", "2%", false, t3);
    assert updated.Some? && !updated.value.isCompleted && updated.value.completedAt == None;

    var deleted := store.Delete(4);
    assert deleted;
    var gone := store.GetById(4);
    assert gone == None;

    var again := store.Create(milk, t3);
    assert again.id == 5;
    var missing := store.Delete(999);
    assert !missing;
  }
}
