/** The list helpers of js/utils.js: `findIndex` by id and `reorderById`, the move-before used by drag and drop. */
module Utils {
  import opened TaskModel

  /** `s.findIndex(t => t.id === id)`: the first position holding `id`, or -1. */
  function FirstIndex(s: seq<Task>, id: string): (r: int)
    ensures -1 <= r < |s|
    ensures r == -1 <==> forall i :: 0 <= i < |s| ==> s[i].id != id
    ensures 0 <= r ==> s[r].id == id && forall i :: 0 <= i < r ==> s[i].id != id
  {
    if s == [] then -1
    else if s[0].id == id then 0
    else
      var k := FirstIndex(s[1..], id);
      if k == -1 then -1 else k + 1
  }

  /** The linear search `findIndex` performs. */
  method FindIndex(s: seq<Task>, id: string) returns (r: int)
    ensures r == FirstIndex(s, id)
  {
    var i := 0;
    while i < |s|
      invariant 0 <= i <= |s|
      invariant forall k :: 0 <= k < i ==> s[k].id != id
    {
      if s[i].id == id {
        return i;
      }
      i := i + 1;
    }
    return -1;
  }

  /** `s.splice(k, 1)`: `s` without the element at `k`. */
  function RemoveAt(s: seq<Task>, k: nat): (r: seq<Task>)
    requires k < |s|
    ensures |r| == |s| - 1
    ensures forall i :: 0 <= i < k ==> r[i] == s[i]
    ensures forall i :: k <= i < |r| ==> r[i] == s[i + 1]
  {
    s[..k] + s[k + 1..]
  }

  /** `s.splice(k, 0, x)`: `x` inserted so that it sits at index `k`. */
  function InsertAt(s: seq<Task>, k: nat, x: Task): (r: seq<Task>)
    requires k <= |s|
    ensures |r| == |s| + 1 && r[k] == x
    ensures forall i :: 0 <= i < k ==> r[i] == s[i]
    ensures forall i :: k < i < |r| ==> r[i] == s[i - 1]
  {
    s[..k] + [x] + s[k..]
  }

  /** JavaScript's `!toId` for the drop target: no target, or an empty id. */
  predicate NoTarget(toId: Option<string>) {
    toId.None? || toId.value == ""
  }

  /** What `reorderById(list, fromId, toId)` returns: the first task with `fromId` taken out and put back
      immediately before the first remaining task with `toId`, or at the end when there is no such task.
      A `fromId` that no task has gives back `list` itself. */
  function Reordered(list: seq<Task>, fromId: string, toId: Option<string>): (r: seq<Task>)
    ensures |r| == |list|
    ensures multiset(r) == multiset(list)
  {
    var f := FirstIndex(list, fromId);
    if f == -1 then list
    else
      var item := list[f];
      var rest := RemoveAt(list, f);
      InsertAtMultiset(rest, f, item);
      assert InsertAt(rest, f, item) == list;
      if NoTarget(toId) then rest + [item]
      else
        var t := FirstIndex(rest, toId.value);
        if t == -1 then rest + [item]
        else
          InsertAtMultiset(rest, t, item);
          InsertAt(rest, t, item)
  }

  lemma InsertAtMultiset(s: seq<Task>, k: nat, x: Task)
    requires k <= |s|
    ensures multiset(InsertAt(s, k, x)) == multiset(s) + multiset{x}
  {
    assert s == s[..k] + s[k..];
  }

  /** The copy-and-splice algorithm of `reorderById`, step by step on a local copy: `Reordered` written as
      the source's sequence of statements, with the two `findIndex` searches done by the `FindIndex` loop. */
  method ReorderById(list: seq<Task>, fromId: string, toId: Option<string>) returns (r: seq<Task>)
    ensures r == Reordered(list, fromId, toId)
  {
    var copy := list;
    var fromIndex := FindIndex(copy, fromId);
    if fromIndex == -1 {
      return list;
    }
    var item := copy[fromIndex];
    copy := RemoveAt(copy, fromIndex);
    if NoTarget(toId) {
      copy := copy + [item];
      return copy;
    }
    var toIndex := FindIndex(copy, toId.value);
    if toIndex == -1 {
      copy := copy + [item];
      return copy;
    }
    copy := InsertAt(copy, toIndex, item);
    return copy;
  }

  /** When no task has `fromId`, the list comes back unchanged. */
  lemma ReorderedAbsent(list: seq<Task>, fromId: string, toId: Option<string>)
    requires forall i :: 0 <= i < |list| ==> list[i].id != fromId
    ensures Reordered(list, fromId, toId) == list
  {
  }

  /** Without a usable target the moved task ends up last, and the others keep their relative order. */
  lemma ReorderedToEnd(list: seq<Task>, fromId: string, toId: Option<string>)
    requires FirstIndex(list, fromId) >= 0
    requires NoTarget(toId) || FirstIndex(RemoveAt(list, FirstIndex(list, fromId)), toId.value) == -1
    ensures var r := Reordered(list, fromId, toId);
      && r[|r| - 1] == list[FirstIndex(list, fromId)]
      && r[|r| - 1].id == fromId
      && r[..|r| - 1] == RemoveAt(list, FirstIndex(list, fromId))
  {
    var r := Reordered(list, fromId, toId);
    var rest := RemoveAt(list, FirstIndex(list, fromId));
    assert r == rest + [list[FirstIndex(list, fromId)]];
    assert r[..|r| - 1] == rest;
  }

  /** With a target found among the remaining tasks, the moved task sits immediately before it,
      and removing it again gives the other tasks in their old relative order. */
  lemma ReorderedBeforeTarget(list: seq<Task>, fromId: string, target: string, f: nat, t: nat)
    requires FirstIndex(list, fromId) == f && target != ""
    requires FirstIndex(RemoveAt(list, f), target) == t
    ensures var r := Reordered(list, fromId, Some(target));
      && t + 1 < |r|
      && r[t] == list[f] && r[t].id == fromId
      && r[t + 1].id == target
      && RemoveAt(r, t) == RemoveAt(list, f)
  {
    var rest := RemoveAt(list, f);
    var r := Reordered(list, fromId, Some(target));
    assert r == InsertAt(rest, t, list[f]);
    assert r[t + 1] == rest[t];
    assert RemoveAt(r, t) == rest[..t] + rest[t..] == rest;
  }
}
