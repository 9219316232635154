/**
 * The todo list reducer used with `useReducer`: CREATE prepends a new item,
 * UPDATE rewrites the items with the target id, DELETE drops them, and any
 * other action leaves the list alone.
 */
module TodoReducer {
  import Lists

  datatype TodoItem = TodoItem(id: int, content: string, isDone: bool, createdDate: int)

  /** The dispatched actions; `Unknown` stands for any other `type` string. */
  datatype TodoAction =
    | Create(newItem: TodoItem)
    | Update(targetId: int, colname: string, value: string)
    | Delete(targetId: int)
    | Unknown(kind: string)

  /** The per-item step of UPDATE. */
  function UpdateItem(it: TodoItem, targetId: int, colname: string, value: string): TodoItem {
    if it.id == targetId then
      if colname == "isDone" then it.(isDone := !it.isDone) else it.(content := value)
    else it
  }

  /** The predicate DELETE filters with: the item's id differs from the target (JavaScript `!==`). */
  function Survives(t: int): TodoItem -> bool {
    (it: TodoItem) => it.id != t
  }

  function Updater(t: int, col: string, v: string): TodoItem -> TodoItem {
    (it: TodoItem) => UpdateItem(it, t, col, v)
  }

  function Reduce(state: seq<TodoItem>, action: TodoAction): seq<TodoItem> {
    match action
    case Create(item) => [item] + state
    case Update(t, col, v) => Lists.Map(state, Updater(t, col, v))
    case Delete(t) => Lists.Filter(state, Survives(t))
    case Unknown(_) => state
  }

  lemma CreatePrepends(state: seq<TodoItem>, item: TodoItem)
    ensures var r := Reduce(state, Create(item));
      |r| == |state| + 1 && r[0] == item && r[1..] == state
  {
  }

  /** UPDATE keeps length, order and every item whose id differs from the target. */
  lemma UpdateKeepsShape(state: seq<TodoItem>, t: int, col: string, v: string)
    ensures var r := Reduce(state, Update(t, col, v));
      && |r| == |state|
      && (forall i :: 0 <= i < |state| ==> r[i].id == state[i].id && r[i].createdDate == state[i].createdDate)
      && (forall i :: 0 <= i < |state| && state[i].id != t ==> r[i] == state[i])
  {
  }

  /** UPDATE with colname "isDone" negates `isDone` of the matching items and nothing else. */
  lemma UpdateIsDoneToggles(state: seq<TodoItem>, t: int, v: string)
    ensures var r := Reduce(state, Update(t, "isDone", v));
      forall i :: 0 <= i < |state| && state[i].id == t ==>
        r[i].isDone == !state[i].isDone && r[i].content == state[i].content
  {
  }

  /** UPDATE with any other colname overwrites `content` of the matching items, whatever the colname. */
  lemma UpdateOtherSetsContent(state: seq<TodoItem>, t: int, col: string, v: string)
    requires col != "isDone"
    ensures var r := Reduce(state, Update(t, col, v));
      forall i :: 0 <= i < |state| && state[i].id == t ==>
        r[i].content == v && r[i].isDone == state[i].isDone
  {
  }

  /** Toggling the same id twice restores the list, whatever values the two actions carry. */
  lemma ToggleTwiceIsIdentity(state: seq<TodoItem>, t: int, v1: string, v2: string)
    ensures Reduce(Reduce(state, Update(t, "isDone", v1)), Update(t, "isDone", v2)) == state
  {
    var r := Reduce(Reduce(state, Update(t, "isDone", v1)), Update(t, "isDone", v2));
    assert forall i :: 0 <= i < |state| ==> r[i] == state[i];
  }

  /**
   * DELETE removes exactly the items with the target id: what remains is the
   * input read at increasing positions, and those are the positions whose id differs.
   */
  lemma DeleteRemovesExactly(state: seq<TodoItem>, t: int)
    ensures var r := Reduce(state, Delete(t));
      var ks := Lists.KeptIndices(state, Survives(t));
      && (forall x :: x in r ==> x in state && x.id != t)
      && (forall x :: x in state && x.id != t ==> x in r)
      && |r| == |ks| && Lists.StrictlyIncreasing(ks)
      && (forall j :: 0 <= j < |ks| ==> ks[j] < |state| && r[j] == state[ks[j]])
      && (forall i :: 0 <= i < |state| ==> (i in ks <==> state[i].id != t))
  {
    var keep := Survives(t);
    Lists.FilterByIndices(state, keep);
    forall x ensures x in Reduce(state, Delete(t)) <==> x in state && x.id != t {
      Lists.FilterMembers(state, keep, x);
    }
  }

  /** DELETE of an id that no item carries returns the list unchanged. */
  lemma DeleteAbsentIsIdentity(state: seq<TodoItem>, t: int)
    requires forall i :: 0 <= i < |state| ==> state[i].id != t
    ensures Reduce(state, Delete(t)) == state
  {
    Lists.FilterKeepsAll(state, Survives(t));
  }

  lemma UnknownIsIdentity(state: seq<TodoItem>, kind: string)
    ensures Reduce(state, Unknown(kind)) == state
  {
  }
}
