/** The controller of js/app.js: the shared `state` object as a class whose methods are the handlers that
    change the task list, the per-task transformations they are built from, and `getVisibleTasks`, the
    filtered, searched and sorted view of the list. */
module App {
  import opened TaskModel
  import opened Storage
  import opened Utils

  // ---------------------------------------------------------------------------------------------
  // Title input: String.prototype.trim

  /** The characters `trim` removes: ECMAScript WhiteSpace and LineTerminator. */
  predicate IsWhitespace(c: char) {
    || c == ' ' || ('\t' <= c <= '\r') || c == '\U{A0}' || c == '\U{1680}'
    || ('\U{2000}' <= c <= '\U{200A}') || c == '\U{2028}' || c == '\U{2029}'
    || c == '\U{202F}' || c == '\U{205F}' || c == '\U{3000}' || c == '\U{FEFF}'
  }

  function TrimStart(s: string): (r: string)
    ensures |r| <= |s| && r == s[|s| - |r|..]
    ensures forall i :: 0 <= i < |s| - |r| ==> IsWhitespace(s[i])
    ensures r != [] ==> !IsWhitespace(r[0])
  {
    if s != [] && IsWhitespace(s[0]) then TrimStart(s[1..]) else s
  }

  function TrimEnd(s: string): (r: string)
    ensures |r| <= |s| && r == s[..|r|]
    ensures forall i :: |r| <= i < |s| ==> IsWhitespace(s[i])
    ensures r != [] ==> !IsWhitespace(r[|r| - 1])
  {
    if s != [] && IsWhitespace(s[|s| - 1]) then TrimEnd(s[..|s| - 1]) else s
  }

  /** `r` is `s[a..b]` and everything of `s` outside that slice is whitespace. */
  predicate StripsTo(s: string, a: int, b: int, r: string) {
    && 0 <= a <= b <= |s| && r == s[a..b]
    && (forall i :: 0 <= i < a ==> IsWhitespace(s[i]))
    && (forall i :: b <= i < |s| ==> IsWhitespace(s[i]))
  }

  /** `s.trim()`: the slice of `s` left after removing its leading and trailing whitespace. It is empty
      exactly when `s` is all whitespace; otherwise it starts and ends with a visible character. */
  function Trim(s: string): (r: string)
    ensures exists a, b :: StripsTo(s, a, b, r)
    ensures r == [] <==> forall i :: 0 <= i < |s| ==> IsWhitespace(s[i])
    ensures r != [] ==> !IsWhitespace(r[0]) && !IsWhitespace(r[|r| - 1])
  {
    var u := TrimStart(s);
    var r := TrimEnd(u);
    StripsToParts(s, u, r);
    TrimParts(s);
    assert StripsTo(s, |s| - |u|, |s| - |u| + |r|, r);
    r
  }

  /** Removing a whitespace prefix and then a whitespace suffix leaves a slice bordered by whitespace. */
  lemma StripsToParts(s: string, u: string, r: string)
    requires |u| <= |s| && u == s[|s| - |u|..]
    requires forall i :: 0 <= i < |s| - |u| ==> IsWhitespace(s[i])
    requires |r| <= |u| && r == u[..|r|]
    requires forall i :: |r| <= i < |u| ==> IsWhitespace(u[i])
    ensures StripsTo(s, |s| - |u|, |s| - |u| + |r|, r)
  {
    var a := |s| - |u|;
    assert r == s[a..a + |r|];
    forall i | a + |r| <= i < |s| ensures IsWhitespace(s[i]) {
      assert s[i] == u[i - a];
    }
  }

  lemma TrimParts(s: string)
    ensures var r := TrimEnd(TrimStart(s));
      && (r == [] <==> forall i :: 0 <= i < |s| ==> IsWhitespace(s[i]))
      && (r != [] ==> !IsWhitespace(r[0]))
  {
    var u := TrimStart(s);
    var r := TrimEnd(u);
    if r == [] {
      assert u == [];
    } else {
      assert r[0] == u[0];
      assert u[0] == s[|s| - |u|];
    }
  }

  /** A title without surrounding whitespace is left as it is, so trimming twice is trimming once. */
  lemma TrimFixedPoint(s: string)
    requires s == [] || (!IsWhitespace(s[0]) && !IsWhitespace(s[|s| - 1]))
    ensures Trim(s) == s
  {
    var u := TrimStart(s);
    if s != [] {
      assert !IsWhitespace(s[|s| - 1]);
      assert u != [];
      assert |u| == |s|;
      var r := TrimEnd(u);
      assert !IsWhitespace(u[0]);
      assert r != [];
      assert |r| == |u|;
    }
  }

  lemma TrimIdempotent(s: string)
    ensures Trim(Trim(s)) == Trim(s)
  {
    TrimFixedPoint(Trim(s));
  }

  // ---------------------------------------------------------------------------------------------
  // Search: String.prototype.includes

  predicate OccursAt(hay: string, needle: string, i: nat) {
    i + |needle| <= |hay| && hay[i..i + |needle|] == needle
  }

  /** `hay.includes(needle)`. */
  predicate Contains(hay: string, needle: string)
    decreases |hay|
  {
    needle <= hay || (hay != [] && Contains(hay[1..], needle))
  }

  /** `includes` holds exactly when the needle occurs at some position of the haystack. */
  lemma {:induction false} ContainsIff(hay: string, needle: string)
    ensures Contains(hay, needle) <==> exists i: nat :: OccursAt(hay, needle, i)
    decreases |hay|
  {
    if needle <= hay {
      assert OccursAt(hay, needle, 0);
    } else if hay == [] {
      assert |needle| > 0;
    } else {
      ContainsIff(hay[1..], needle);
      if exists i: nat :: OccursAt(hay, needle, i) {
        var i: nat :| OccursAt(hay, needle, i);
        assert i != 0;
        assert hay[1..][i - 1..i - 1 + |needle|] == hay[i..i + |needle|];
        assert OccursAt(hay[1..], needle, i - 1);
      }
      if exists j: nat :: OccursAt(hay[1..], needle, j) {
        var j: nat :| OccursAt(hay[1..], needle, j);
        assert hay[1..][j..j + |needle|] == hay[j + 1..j + 1 + |needle|];
        assert OccursAt(hay, needle, j + 1);
      }
    }
  }

  // ---------------------------------------------------------------------------------------------
  // Building and updating tasks

  /** `Math.max(...tasks.map(t => t.order))`. */
  function MaxOrder(ts: seq<Task>): (m: int)
    requires ts != []
    ensures forall i :: 0 <= i < |ts| ==> ts[i].order <= m
    ensures exists i :: 0 <= i < |ts| && ts[i].order == m
  {
    if |ts| == 1 then ts[0].order
    else
      var rest := MaxOrder(ts[1..]);
      assert forall i :: 1 <= i < |ts| ==> ts[i] == ts[1..][i - 1];
      if ts[0].order >= rest then ts[0].order else rest
  }

  /** The `order` of a newly added task: 0 for an empty list, one more than the largest order otherwise. */
  function NextOrder(ts: seq<Task>): (o: int)
    ensures ts == [] ==> o == 0
    ensures forall i :: 0 <= i < |ts| ==> ts[i].order < o
    ensures ts != [] ==> exists i :: 0 <= i < |ts| && o == ts[i].order + 1
  {
    if ts == [] then 0 else MaxOrder(ts) + 1
  }

  /** The priority select's value, "medium" when it is empty (`value || "medium"`). */
  function ChosenPriority(value: string): (p: string)
    ensures value != "" ==> p == value
    ensures value == "" ==> p == DefaultPriority
  {
    if value == "" then DefaultPriority else value
  }

  /** `tasks.map(t => t.id === id ? { ...t, completed: done } : t)`. */
  function Toggled(ts: seq<Task>, id: string, done: bool): (r: seq<Task>)
    ensures |r| == |ts|
    ensures forall i :: 0 <= i < |ts| ==> r[i].(completed := ts[i].completed) == ts[i]
    ensures forall i :: 0 <= i < |ts| ==> r[i].completed == if ts[i].id == id then done else ts[i].completed
  {
    if ts == [] then []
    else [if ts[0].id == id then ts[0].(completed := done) else ts[0]] + Toggled(ts[1..], id, done)
  }

  /** The update of the edit dialog: matching tasks get the new title, due date, priority and completion
      and keep their identity, creation time and order; every other task is left alone. */
  function Edited(ts: seq<Task>, id: string, title: string, due: Option<int>, priority: string, done: bool): (r: seq<Task>)
    ensures |r| == |ts|
    ensures forall i :: 0 <= i < |ts| && ts[i].id != id ==> r[i] == ts[i]
    ensures forall i :: 0 <= i < |ts| && ts[i].id == id ==>
      && r[i].id == ts[i].id && r[i].createdAt == ts[i].createdAt && r[i].order == ts[i].order
      && r[i].title == title && r[i].dueDate == due && r[i].priority == priority && r[i].completed == done
  {
    if ts == [] then []
    else
      var head := if ts[0].id == id
        then ts[0].(title := title, dueDate := due, priority := priority, completed := done)
        else ts[0];
      [head] + Edited(ts[1..], id, title, due, priority, done)
  }

  /** `tasks.filter(t => t.id !== id)`. */
  function Remaining(ts: seq<Task>, id: string): (r: seq<Task>)
    ensures |r| <= |ts|
    ensures forall t :: t in r <==> t in ts && t.id != id
  {
    Filter(ts, (t: Task) => t.id != id)
  }

  /** Deleting removes exactly the tasks with that id and keeps the others, in their order. */
  lemma DeleteRemovesExactly(ts: seq<Task>, id: string)
    ensures forall t :: t in Remaining(ts, id) <==> t in ts && t.id != id
    ensures forall t: Task :: t.id != id ==> multiset(Remaining(ts, id))[t] == multiset(ts)[t]
    ensures IsSubsequence(Remaining(ts, id), ts)
    ensures (forall i :: 0 <= i < |ts| ==> ts[i].id != id) ==> Remaining(ts, id) == ts
  {
    forall t: Task | t.id != id ensures multiset(Remaining(ts, id))[t] == multiset(ts)[t] {
      FilterMultiset(ts, (t: Task) => t.id != id, t);
    }
    FilterIsSubsequence(ts, (t: Task) => t.id != id);
    if forall i :: 0 <= i < |ts| ==> ts[i].id != id {
      FilterAll(ts, (t: Task) => t.id != id);
    }
  }

  /** With unique identifiers, deleting an id that is present removes exactly one task. */
  lemma {:induction false} DeleteUniqueRemovesOne(ts: seq<Task>, id: string)
    requires forall i, j :: 0 <= i < j < |ts| ==> ts[i].id != ts[j].id
    requires exists k :: 0 <= k < |ts| && ts[k].id == id
    ensures |Remaining(ts, id)| == |ts| - 1
  {
    assert ts == [ts[0]] + ts[1..];
    if ts[0].id == id {
      assert forall i :: 0 <= i < |ts[1..]| ==> ts[1..][i].id != id by {
        forall i | 0 <= i < |ts[1..]| ensures ts[1..][i].id != id {
          assert ts[1..][i] == ts[i + 1];
        }
      }
      FilterAll(ts[1..], (t: Task) => t.id != id);
    } else {
      var k :| 0 <= k < |ts| && ts[k].id == id;
      assert ts[1..][k - 1] == ts[k];
      DeleteUniqueRemovesOne(ts[1..], id);
    }
  }

  lemma {:induction false} FilterAll(ts: seq<Task>, p: Task -> bool)
    requires forall i :: 0 <= i < |ts| ==> p(ts[i])
    ensures Filter(ts, p) == ts
  {
    if ts != [] {
      FilterAll(ts[1..], p);
    }
  }

  /** Clearing completed tasks keeps exactly the open ones, in their order. */
  lemma ClearCompletedKeepsOpen(ts: seq<Task>)
    ensures forall t :: t in Filter(ts, IsOpen) <==> t in ts && !t.completed
    ensures forall t: Task :: !t.completed ==> multiset(Filter(ts, IsOpen))[t] == multiset(ts)[t]
    ensures IsSubsequence(Filter(ts, IsOpen), ts)
  {
    forall t: Task | !t.completed ensures multiset(Filter(ts, IsOpen))[t] == multiset(ts)[t] {
      FilterMultiset(ts, IsOpen, t);
    }
    FilterIsSubsequence(ts, IsOpen);
  }

  // ---------------------------------------------------------------------------------------------
  // Drag and drop

  /** `tasks.map((t, idx) => ({ ...t, order: idx }))`. */
  function Renumbered(ts: seq<Task>): (r: seq<Task>)
    ensures |r| == |ts|
    ensures forall i :: 0 <= i < |ts| ==> r[i].order == i && r[i].(order := ts[i].order) == ts[i]
  {
    seq(|ts|, i requires 0 <= i < |ts| => ts[i].(order := i))
  }

  /** The task list after a drop of `fromId` onto the item `toId` (`None` when not dropped on an item). */
  function Dropped(ts: seq<Task>, fromId: string, toId: Option<string>): (r: seq<Task>)
    ensures |r| == |ts|
  {
    if fromId == "" || toId == Some(fromId) then ts
    else Renumbered(Reordered(ts, fromId, toId))
  }

  /** Inserting one task into a list adds it, with its order cleared, to the list's cleared multiset. */
  lemma ClearOrderInsert(a: seq<Task>, x: Task, b: seq<Task>)
    ensures multiset(ClearOrder(a + [x] + b)) == multiset(ClearOrder(a + b)) + multiset{x.(order := 0)}
  {
    ClearOrderAppend(a + [x], b);
    ClearOrderAppend(a, [x]);
    ClearOrderAppend(a, b);
  }

  /** Apart from the `order` fields, a reordered list holds the same tasks as the original. */
  lemma ReorderedSameTasks(ts: seq<Task>, fromId: string, toId: Option<string>)
    ensures multiset(ClearOrder(Reordered(ts, fromId, toId))) == multiset(ClearOrder(ts))
  {
    var f := FirstIndex(ts, fromId);
    if f != -1 {
      var item := ts[f];
      var rest := RemoveAt(ts, f);
      var r := Reordered(ts, fromId, toId);
      assert ts == ts[..f] + [item] + ts[f + 1..];
      ClearOrderInsert(ts[..f], item, ts[f + 1..]);
      if NoTarget(toId) || FirstIndex(rest, toId.value) == -1 {
        assert r == rest + [item] + [];
        assert rest + [] == rest;
        ClearOrderInsert(rest, item, []);
      } else {
        var t := FirstIndex(rest, toId.value);
        assert r == rest[..t] + [item] + rest[t..];
        assert rest[..t] + rest[t..] == rest;
        ClearOrderInsert(rest[..t], item, rest[t..]);
      }
    }
  }

  /** A drop with a dragged id that differs from the target yields the old tasks rearranged, each task's
      `order` set to its new index; otherwise nothing changes. */
  lemma DropRenumbers(ts: seq<Task>, fromId: string, toId: Option<string>)
    ensures fromId == "" || toId == Some(fromId) ==> Dropped(ts, fromId, toId) == ts
    ensures fromId != "" && toId != Some(fromId) ==>
      var r := Dropped(ts, fromId, toId);
      && |r| == |ts|
      && (forall i :: 0 <= i < |r| ==> r[i].order == i)
      && multiset(ClearOrder(r)) == multiset(ClearOrder(ts))
  {
    if fromId != "" && toId != Some(fromId) {
      var p := Reordered(ts, fromId, toId);
      assert ClearOrder(Renumbered(p)) == ClearOrder(p);
      ReorderedSameTasks(ts, fromId, toId);
    }
  }

  // ---------------------------------------------------------------------------------------------
  // Import

  /** The task list an import produces, or `None` when the import is refused: the text is not JSON, the
      value is not an array, or an element is `null`. `freshId(idx)` stands for `createId()`. */
  function ImportResult(payload: Payload, freshId: nat -> string, now: int): (r: Option<seq<Task>>)
    ensures !payload.ArrayOf? ==> r.None?
    ensures payload.ArrayOf? ==> r == NormalizeFrom(payload.elems, 0, freshId, now)
  {
    match payload
    case ArrayOf(elems) => NormalizeFrom(elems, 0, freshId, now)
    case _ => None
  }

  /** Importing an exported list gives back exactly that list. */
  lemma ExportImportRoundTrip(ts: seq<Task>, freshId: nat -> string, now: int)
    ensures ImportResult(ArrayOf(SerializeAll(ts)), freshId, now) == Some(ts)
  {
    NormalizeSerialized(ts, freshId, now);
  }

  // ---------------------------------------------------------------------------------------------
  // The visible set: filter, search, sort

  datatype SortMode = Manual | Newest | Oldest | DueDate | Priority

  /** The sort select's value; anything unknown sorts manually. */
  function ModeOf(sort: string): (m: SortMode)
    ensures m == Newest <==> sort == "newest"
    ensures m == Oldest <==> sort == "oldest"
    ensures m == DueDate <==> sort == "duedate"
    ensures m == Priority <==> sort == "priority"
  {
    if sort == "newest" then Newest
    else if sort == "oldest" then Oldest
    else if sort == "duedate" then DueDate
    else if sort == "priority" then Priority
    else Manual
  }

  /** `{ high: 0, medium: 1, low: 2 }[priority] ?? 1`. */
  function Rank(priority: string): (k: int)
    ensures 0 <= k <= 2
    ensures k == 0 <==> priority == "high"
    ensures k == 2 <==> priority == "low"
  {
    if priority == "high" then 0 else if priority == "low" then 2 else 1
  }

  /** A due time; undated tasks sort as `Infinity`. */
  datatype Time = Finite(ms: int) | Infinity

  function DueTime(t: Task): (d: Time)
    ensures d == Infinity <==> t.dueDate.None?
    ensures t.dueDate.Some? ==> d == Finite(t.dueDate.value)
  {
    match t.dueDate
    case Some(d) => Finite(d)
    case None => Infinity
  }

  /** `aTime - bTime` for distinct times; a difference with `Infinity` is represented by its sign. */
  function TimeDiff(x: Time, y: Time): (d: int)
    requires x != y
    ensures d != 0
    ensures x.Finite? && y.Finite? ==> d == x.ms - y.ms
    ensures x == Infinity ==> d > 0
    ensures y == Infinity ==> d < 0
  {
    match (x, y)
    case (Finite(a), Finite(b)) => a - b
    case (Finite(_), Infinity) => -1
    case (Infinity, _) => 1
  }

  /** The comparator passed to `filtered.sort(...)` for each sort mode; its sign is what the sort uses. */
  function Compare(mode: SortMode, a: Task, b: Task): int {
    match mode
    case Newest => b.createdAt - a.createdAt
    case Oldest => a.createdAt - b.createdAt
    case DueDate =>
      if DueTime(a) == DueTime(b) then a.order - b.order else TimeDiff(DueTime(a), DueTime(b))
    case Priority =>
      if Rank(a.priority) == Rank(b.priority) then a.order - b.order else Rank(a.priority) - Rank(b.priority)
    case Manual => a.order - b.order
  }

  /** `a` may stay before `b`. */
  predicate Le(mode: SortMode, a: Task, b: Task) {
    Compare(mode, a, b) <= 0
  }

  /** Each comparator is consistent: swapping its arguments flips its sign. */
  lemma CompareAntisymmetric(mode: SortMode, a: Task, b: Task)
    ensures Compare(mode, a, b) == -Compare(mode, b, a)
  {
  }

  /** Each comparator orders transitively. */
  lemma LeTransitive(mode: SortMode, a: Task, b: Task, c: Task)
    requires Le(mode, a, b) && Le(mode, b, c)
    ensures Le(mode, a, c)
  {
  }

  ghost predicate Sorted(mode: SortMode, s: seq<Task>) {
    forall i, j :: 0 <= i < j < |s| ==> Le(mode, s[i], s[j])
  }

  /** Exchanges `a[j - 1]` and `a[j]`. */
  method SwapDown(a: array<Task>, j: int)
    requires 0 < j < a.Length
    modifies a
    ensures a[j - 1] == old(a[j]) && a[j] == old(a[j - 1])
    ensures forall k :: 0 <= k < a.Length && k != j - 1 && k != j ==> a[k] == old(a[k])
    ensures multiset(a[..]) == multiset(old(a[..]))
  {
    a[j - 1], a[j] := a[j], a[j - 1];
  }

  /** One pass of insertion: `a[i]` sinks into the sorted prefix `a[..i]`, passing only elements that must
      come after it, so that `a[..i + 1]` is sorted. */
  method Insert(a: array<Task>, i: int, mode: SortMode)
    requires 0 < i < a.Length
    requires forall p, q :: 0 <= p < q < i ==> Le(mode, a[p], a[q])
    modifies a
    ensures forall p, q :: 0 <= p < q <= i ==> Le(mode, a[p], a[q])
    ensures multiset(a[..]) == multiset(old(a[..]))
  {
    var j := i;
    while j > 0 && Compare(mode, a[j - 1], a[j]) > 0
      invariant 0 <= j <= i
      invariant forall p, q :: 0 <= p < q <= i && p != j && q != j ==> Le(mode, a[p], a[q])
      invariant forall q :: j < q <= i ==> Le(mode, a[j], a[q])
      invariant multiset(a[..]) == multiset(old(a[..]))
    {
      CompareAntisymmetric(mode, a[j - 1], a[j]);
      SwapDown(a, j);
      j := j - 1;
    }
    forall p | 0 <= p < j - 1
      ensures Le(mode, a[p], a[j])
    {
      LeTransitive(mode, a[p], a[j - 1], a[j]);
    }
  }

  /** The in-place sort: an insertion sort by adjacent swaps, which, like `Array.prototype.sort`, is stable. */
  method SortTasks(a: array<Task>, mode: SortMode)
    modifies a
    ensures Sorted(mode, a[..])
    ensures multiset(a[..]) == multiset(old(a[..]))
  {
    if a.Length == 0 {
      return;
    }
    var i := 1;
    while i < a.Length
      invariant 1 <= i <= a.Length
      invariant forall p, q :: 0 <= p < q < i ==> Le(mode, a[p], a[q])
      invariant multiset(a[..]) == multiset(old(a[..]))
    {
      Insert(a, i, mode);
      i := i + 1;
    }
  }

  /** The filter callback of `getVisibleTasks`: the filter buttons, then the title search. */
  predicate Shown(filter: string, search: string, t: Task) {
    && !(filter == "active" && t.completed)
    && !(filter == "completed" && !t.completed)
    && (search == "" || Contains(t.title, search))
  }

  function Matching(ts: seq<Task>, filter: string, search: string): (r: seq<Task>)
    ensures |r| <= |ts|
    ensures forall t :: t in r <==> t in ts && Shown(filter, search, t)
  {
    Filter(ts, (t: Task) => Shown(filter, search, t))
  }

  /** A task appended to the list (as `handleSubmit` does) shows up last among the tasks on view before
      sorting, when it passes the filter and the search; the tasks already on view stay as they were. */
  lemma MatchingAppend(ts: seq<Task>, t: Task, filter: string, search: string)
    ensures Shown(filter, search, t) ==> Matching(ts + [t], filter, search) == Matching(ts, filter, search) + [t]
    ensures !Shown(filter, search, t) ==> Matching(ts + [t], filter, search) == Matching(ts, filter, search)
  {
    var p := (x: Task) => Shown(filter, search, x);
    FilterAppend(ts, [t], p);
    assert [t][1..] == [];
    assert Filter([t], p) == if p(t) then [t] else [];
  }

  /** Before sorting, the tasks on view are a subsequence of the task list. */
  lemma MatchingIsSubsequence(ts: seq<Task>, filter: string, search: string)
    ensures IsSubsequence(Matching(ts, filter, search), ts)
    ensures forall t :: t in Matching(ts, filter, search) <==> t in ts && Shown(filter, search, t)
  {
    FilterIsSubsequence(ts, (t: Task) => Shown(filter, search, t));
  }

  // ---------------------------------------------------------------------------------------------
  // The controller state

  /** What the edit dialog's save did. */
  datatype SaveOutcome = NoTaskOpen | EmptyTitle | Saved

  class TaskManager {
    var tasks: seq<Task>
    var filter: string
    var sort: string
    var search: string
    var theme: string
    var currentModalTaskId: Option<string>

    /** `init()`: the stored tasks and theme, the default filter, sort and search, no dialog open. */
    constructor (storedTasks: Option<string>, parsed: Payload, storedTheme: Option<string>, now: int)
      ensures tasks == LoadTasks(storedTasks, parsed, now)
      ensures theme == LoadTheme(storedTheme)
      ensures filter == "all" && sort == "manual" && search == "" && currentModalTaskId == None
    {
      tasks := LoadTasks(storedTasks, parsed, now);
      theme := LoadTheme(storedTheme);
      filter := "all";
      sort := "manual";
      search := "";
      currentModalTaskId := None;
    }

    /** `handleSubmit`: a blank title adds nothing; otherwise one open task is appended, its order above all others. */
    method Submit(input: string, due: Option<int>, priorityValue: string, newId: string, now: int)
      modifies this`tasks
      ensures Trim(input) == [] ==> tasks == old(tasks)
      ensures Trim(input) != [] ==>
        tasks == old(tasks) + [Task(newId, Trim(input), false, due, ChosenPriority(priorityValue), now, NextOrder(old(tasks)))]
    {
      var title := Trim(input);
      if title == [] {
        return;
      }
      var task := Task(newId, title, false, due, ChosenPriority(priorityValue), now, NextOrder(tasks));
      tasks := tasks + [task];
    }

    /** `toggleComplete(id, done)`. */
    method ToggleComplete(id: string, done: bool)
      modifies this`tasks
      ensures tasks == Toggled(old(tasks), id, done)
    {
      tasks := Toggled(tasks, id, done);
    }

    /** `deleteTask(id)`. */
    method DeleteTask(id: string)
      modifies this`tasks
      ensures tasks == Remaining(old(tasks), id)
    {
      tasks := Remaining(tasks, id);
    }

    /** The "clear completed" button. */
    method ClearCompleted()
      modifies this`tasks
      ensures tasks == Filter(old(tasks), IsOpen)
    {
      tasks := Filter(tasks, IsOpen);
    }

    /** `handleDrop`: the dragged id `fromId` (empty when nothing was dragged) dropped on `toId`. */
    method Drop(fromId: string, toId: Option<string>)
      modifies this`tasks
      ensures tasks == Dropped(old(tasks), fromId, toId)
    {
      if fromId == "" || toId == Some(fromId) {
        return;
      }
      var moved := ReorderById(tasks, fromId, toId);
      tasks := Renumbered(moved);
    }

    /** `handleModalSave` with the dialog's field values; a successful save also closes the dialog. */
    method ModalSave(titleInput: string, due: Option<int>, priorityValue: string, done: bool) returns (outcome: SaveOutcome)
      modifies this`tasks, this`currentModalTaskId
      ensures old(currentModalTaskId) in {None, Some("")} ==>
        outcome == NoTaskOpen && tasks == old(tasks) && currentModalTaskId == old(currentModalTaskId)
      ensures old(currentModalTaskId) !in {None, Some("")} && Trim(titleInput) == [] ==>
        outcome == EmptyTitle && tasks == old(tasks) && currentModalTaskId == old(currentModalTaskId)
      ensures old(currentModalTaskId) !in {None, Some("")} && Trim(titleInput) != [] ==>
        && outcome == Saved
        && tasks == Edited(old(tasks), old(currentModalTaskId).value, Trim(titleInput), due, ChosenPriority(priorityValue), done)
        && currentModalTaskId == None
    {
      if currentModalTaskId.None? || currentModalTaskId.value == "" {
        return NoTaskOpen;
      }
      var taskId := currentModalTaskId.value;
      var newTitle := Trim(titleInput);
      if newTitle == [] {
        return EmptyTitle;
      }
      tasks := Edited(tasks, taskId, newTitle, due, ChosenPriority(priorityValue), done);
      currentModalTaskId := None;
      return Saved;
    }

    /** The `onload` part of `handleImport`: a refused payload leaves the list as it was. */
    method Import(payload: Payload, freshId: nat -> string, now: int) returns (ok: bool)
      modifies this`tasks
      ensures ok <==> ImportResult(payload, freshId, now).Some?
      ensures ok ==> tasks == ImportResult(payload, freshId, now).value
      ensures !ok ==> tasks == old(tasks)
    {
      var result := ImportResult(payload, freshId, now);
      if result.None? {
        return false;
      }
      tasks := result.value;
      return true;
    }

    /** `getVisibleTasks()`: the tasks passing the filter and the search, sorted in place by the chosen mode. */
    method VisibleTasks() returns (visible: seq<Task>)
      ensures multiset(visible) == multiset(Matching(tasks, filter, search))
      ensures forall t :: t in visible <==> t in tasks && Shown(filter, search, t)
      ensures Sorted(ModeOf(sort), visible)
      ensures ModeOf(sort) == Manual ==>
        forall i, j :: 0 <= i < j < |visible| ==> visible[i].order <= visible[j].order
      ensures ModeOf(sort) == Newest ==>
        forall i, j :: 0 <= i < j < |visible| ==> visible[i].createdAt >= visible[j].createdAt
      ensures ModeOf(sort) == Oldest ==>
        forall i, j :: 0 <= i < j < |visible| ==> visible[i].createdAt <= visible[j].createdAt
      ensures ModeOf(sort) == Priority ==>
        forall i, j :: 0 <= i < j < |visible| ==>
          || Rank(visible[i].priority) < Rank(visible[j].priority)
          || (Rank(visible[i].priority) == Rank(visible[j].priority) && visible[i].order <= visible[j].order)
      ensures ModeOf(sort) == DueDate ==>
        forall i, j :: 0 <= i < j < |visible| ==>
          && (visible[i].dueDate.None? ==> visible[j].dueDate.None?)
          && (visible[i].dueDate.Some? && visible[j].dueDate.Some? ==>
                visible[i].dueDate.value <= visible[j].dueDate.value)
          && (visible[i].dueDate == visible[j].dueDate ==> visible[i].order <= visible[j].order)
    {
      var filtered := Matching(tasks, filter, search);
      var a := new Task[|filtered|](i requires 0 <= i < |filtered| => filtered[i]);
      assert a[..] == filtered;
      var mode := ModeOf(sort);
      SortTasks(a, mode);
      visible := a[..];
      assert forall t :: t in visible <==> t in filtered by {
        forall t ensures t in visible <==> t in filtered {
          assert t in visible <==> multiset(visible)[t] > 0;
          assert t in filtered <==> multiset(filtered)[t] > 0;
        }
      }
    }
  }
}
