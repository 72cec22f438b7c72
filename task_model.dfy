/** The task record shared by the controller, the storage layer and the view,
    and the sequence operations (filter, subsequence) the handlers are built from. */
module TaskModel {

  datatype Option<T> = None | Some(value: T) {
    /** The value, or `default` when absent (JavaScript's `x ?? default`). */
    function GetOr(default: T): T {
      match this
      case Some(v) => v
      case None => default
    }
  }

  /** One to-do item. `dueDate` is an epoch-millisecond timestamp, `None` when the task has no due date. */
  datatype Task = Task(
    id: string,
    title: string,
    completed: bool,
    dueDate: Option<int>,
    priority: string,
    createdAt: int,
    order: int)

  predicate IsDone(t: Task) { t.completed }

  predicate IsOpen(t: Task) { !t.completed }

  /** `s.filter(p)`: the elements of `s` satisfying `p`, in the order they have in `s`. */
  function Filter<T(!new)>(s: seq<T>, p: T -> bool): (r: seq<T>)
    ensures |r| <= |s|
    ensures forall x :: x in r <==> x in s && p(x)
  {
    if s == [] then [] else (if p(s[0]) then [s[0]] else []) + Filter(s[1..], p)
  }

  /** Each element occurs in the filtered list as often as in `s` when it is kept, and not at all otherwise. */
  lemma {:induction false} FilterMultiset<T(!new)>(s: seq<T>, p: T -> bool, x: T)
    ensures multiset(Filter(s, p))[x] == if p(x) then multiset(s)[x] else 0
  {
    if s != [] {
      assert s == [s[0]] + s[1..];
      FilterMultiset(s[1..], p, x);
    }
  }

  /** Filtering a concatenation filters each part: the kept elements stay in their relative order. */
  lemma {:induction false} FilterAppend<T(!new)>(a: seq<T>, b: seq<T>, p: T -> bool)
    ensures Filter(a + b, p) == Filter(a, p) + Filter(b, p)
  {
    if a != [] {
      var head := if p(a[0]) then [a[0]] else [];
      assert (a + b)[0] == a[0] && (a + b)[1..] == a[1..] + b;
      FilterAppend(a[1..], b, p);
      calc {
        Filter(a + b, p);
        head + Filter(a[1..] + b, p);
        head + (Filter(a[1..], p) + Filter(b, p));
        (head + Filter(a[1..], p)) + Filter(b, p);
      }
    } else {
      assert a + b == b;
    }
  }

  /** `r` can be obtained from `s` by deleting elements. */
  ghost predicate IsSubsequence<T>(r: seq<T>, s: seq<T>)
    decreases |s|
  {
    r == [] || (s != [] && ((r[0] == s[0] && IsSubsequence(r[1..], s[1..])) || IsSubsequence(r, s[1..])))
  }

  lemma {:induction false} FilterIsSubsequence<T(!new)>(s: seq<T>, p: T -> bool)
    ensures IsSubsequence(Filter(s, p), s)
    decreases |s|
  {
    if s != [] {
      FilterIsSubsequence(s[1..], p);
      var r := Filter(s, p);
      if p(s[0]) {
        assert r[0] == s[0] && r[1..] == Filter(s[1..], p);
      } else {
        assert r == Filter(s[1..], p);
      }
    }
  }

  /** Elements kept by `p` plus elements kept by its negation account for every element. */
  lemma {:induction false} FilterSplitCount<T(!new)>(s: seq<T>, p: T -> bool, q: T -> bool)
    requires forall x :: q(x) == !p(x)
    ensures |Filter(s, p)| + |Filter(s, q)| == |s|
  {
    if s != [] {
      FilterSplitCount(s[1..], p, q);
    }
  }

  /** Every task with its `order` field cleared: two lists that agree under this differ in `order` only. */
  function ClearOrder(s: seq<Task>): (r: seq<Task>)
  {
    seq(|s|, i requires 0 <= i < |s| => s[i].(order := 0))
  }

  lemma ClearOrderAppend(a: seq<Task>, b: seq<Task>)
    ensures ClearOrder(a + b) == ClearOrder(a) + ClearOrder(b)
  {
  }
}
