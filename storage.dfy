/** The persistence layer of js/storage.js, on already-parsed JSON: `loadTasks` turns the stored array into
    task records with defaults filled in, `loadTheme` reads the theme. The import handler of the controller
    reuses the same normalisation with generated identifiers. */
module Storage {
  import opened TaskModel

  /** The kinds of JSON value a stored field can hold, as far as `Boolean(...)` and `typeof` tell them apart. */
  datatype Scalar = Absent | Null | Bool(b: bool) | Num(n: int) | Str(s: string) | Composite

  /** One element of the parsed array. `NullElem` is a JSON `null`, on which reading a field throws; any other
      element is read field by field, with `None` for a field that is absent or `null`. */
  datatype RawElem =
    | NullElem
    | Record(
        id: Option<string>,
        title: Option<string>,
        completed: Scalar,
        dueDate: Option<int>,
        priority: Option<string>,
        createdAt: Option<int>,
        order: Scalar)

  /** The outcome of `JSON.parse` on the stored or imported text. */
  datatype Payload = Unparseable | NonArray | ArrayOf(elems: seq<RawElem>)

  const DefaultTitle: string := "Untitled task"
  const DefaultPriority: string := "medium"

  /** JavaScript's `Boolean(v)`. */
  predicate Truthy(v: Scalar) {
    match v
    case Absent => false
    case Null => false
    case Bool(b) => b
    case Num(n) => n != 0
    case Str(s) => s != ""
    case Composite => true
  }

  /** The record built for element `idx`: fields that are present are kept, `??` fills in the others. */
  function NormalizeElem(e: RawElem, idx: nat, fallbackId: string, now: int): (t: Task)
    requires e.Record?
    ensures e.id.Some? ==> t.id == e.id.value
    ensures e.id.None? ==> t.id == fallbackId
    ensures e.title.Some? ==> t.title == e.title.value
    ensures e.title.None? ==> t.title == DefaultTitle
    ensures t.completed <==> Truthy(e.completed)
    ensures t.dueDate == e.dueDate
    ensures e.priority.Some? ==> t.priority == e.priority.value
    ensures e.priority.None? ==> t.priority == DefaultPriority
    ensures e.createdAt.Some? ==> t.createdAt == e.createdAt.value
    ensures e.createdAt.None? ==> t.createdAt == now
    ensures e.order.Num? ==> t.order == e.order.n
    ensures !e.order.Num? ==> t.order == idx
  {
    Task(
      e.id.GetOr(fallbackId),
      e.title.GetOr(DefaultTitle),
      Truthy(e.completed),
      e.dueDate,
      e.priority.GetOr(DefaultPriority),
      e.createdAt.GetOr(now),
      if e.order.Num? then e.order.n else idx)
  }

  /** `elems.map((task, idx) => ...)` for the elements from index `base` on; `None` when an element is `null`
      (the map throws). `fallbackId(idx)` is the identifier given to element `idx` when it has none. */
  function NormalizeFrom(elems: seq<RawElem>, base: nat, fallbackId: nat -> string, now: int): (r: Option<seq<Task>>)
    ensures r.None? <==> exists i :: 0 <= i < |elems| && elems[i].NullElem?
    ensures r.Some? ==> |r.value| == |elems|
    ensures r.Some? ==> forall i :: 0 <= i < |elems| ==>
      elems[i].Record? && r.value[i] == NormalizeElem(elems[i], base + i, fallbackId(base + i), now)
    decreases |elems|
  {
    if elems == [] then Some([])
    else if elems[0].NullElem? then None
    else
      match NormalizeFrom(elems[1..], base + 1, fallbackId, now)
      case None => None
      case Some(rest) => Some([NormalizeElem(elems[0], base, fallbackId(base), now)] + rest)
  }

  /** The number a string of decimal digits denotes. */
  function DigitsValue(s: string): (v: nat)
    requires forall i :: 0 <= i < |s| ==> '0' <= s[i] <= '9'
  {
    if s == [] then 0 else DigitsValue(s[..|s| - 1]) * 10 + (s[|s| - 1] as int - '0' as int)
  }

  /** The decimal digits of `n`, as template literals print it: no leading zero, and they read back as `n`. */
  function NatToString(n: nat): (s: string)
    ensures |s| >= 1
    ensures n >= 10 ==> |s| >= 2
    ensures forall i :: 0 <= i < |s| ==> '0' <= s[i] <= '9'
    ensures DigitsValue(s) == n
    ensures n > 0 ==> s[0] != '0'
    ensures n == 0 ==> s == "0"
  {
    if n < 10 then [Digit(n)]
    else
      var prefix := NatToString(n / 10);
      var s := prefix + [Digit(n % 10)];
      assert s[..|s| - 1] == prefix && s[0] == prefix[0];
      s
  }

  function Digit(d: nat): (c: char)
    requires d < 10
    ensures '0' <= c <= '9' && c as int - '0' as int == d
  {
    ('0' as int + d) as char
  }

  /** Different indices render differently, since each rendering reads back as its index. */
  lemma NatToStringInjective(a: nat, b: nat)
    requires NatToString(a) == NatToString(b)
    ensures a == b
  {
    assert a == DigitsValue(NatToString(a)) == DigitsValue(NatToString(b)) == b;
  }

  /** The identifier `loadTasks` synthesises for element `idx`: `id-${idx}`. */
  function LoadId(idx: nat): (id: string)
    ensures |id| >= 4 && id[..3] == "id-" && id[3..] == NatToString(idx)
  {
    "id-" + NatToString(idx)
  }

  /** Synthesised identifiers of different elements never collide. */
  lemma LoadIdsDistinct(i: nat, j: nat)
    requires i != j
    ensures LoadId(i) != LoadId(j)
  {
    assert LoadId(i)[3..] == NatToString(i);
    assert LoadId(j)[3..] == NatToString(j);
  }

  /** `loadTasks()`: `raw` is the stored text (`None` when the key is missing), `parsed` what `JSON.parse`
      makes of it, `now` the clock reading used for a missing `createdAt`. Every failure yields `[]`. */
  function LoadTasks(raw: Option<string>, parsed: Payload, now: int): (r: seq<Task>)
    ensures raw.None? || raw == Some("") || !parsed.ArrayOf? ==> r == []
    ensures raw.Some? && raw.value != "" && parsed.ArrayOf? ==>
      var elems := parsed.elems;
      if exists i :: 0 <= i < |elems| && elems[i].NullElem? then r == []
      else |r| == |elems| && forall i :: 0 <= i < |elems| ==> r[i] == NormalizeElem(elems[i], i, LoadId(i), now)
  {
    if raw.None? || raw.value == "" then []
    else
      match parsed
      case ArrayOf(elems) => NormalizeFrom(elems, 0, LoadId, now).GetOr([])
      case _ => []
  }

  /** A task as `saveTasks` writes it and `JSON.parse` reads it back: every field present. */
  function Serialize(t: Task): (e: RawElem)
    ensures e.Record? && e.id.Some? && e.title.Some? && e.priority.Some? && e.createdAt.Some?
    ensures e.completed.Bool? && e.order.Num?
  {
    Record(Some(t.id), Some(t.title), Bool(t.completed), t.dueDate, Some(t.priority), Some(t.createdAt), Num(t.order))
  }

  function SerializeAll(ts: seq<Task>): (es: seq<RawElem>)
    ensures |es| == |ts|
    ensures forall i :: 0 <= i < |ts| ==> es[i] == Serialize(ts[i])
  {
    seq(|ts|, i requires 0 <= i < |ts| => Serialize(ts[i]))
  }

  /** Normalising what was saved gives back exactly the saved tasks, whatever identifiers and clock are on hand. */
  lemma NormalizeSerialized(ts: seq<Task>, fallbackId: nat -> string, now: int)
    ensures NormalizeFrom(SerializeAll(ts), 0, fallbackId, now) == Some(ts)
  {
    var r := NormalizeFrom(SerializeAll(ts), 0, fallbackId, now);
    assert r.Some?;
    forall i | 0 <= i < |ts|
      ensures r.value[i] == ts[i]
    {
      assert r.value[i] == NormalizeElem(Serialize(ts[i]), i, fallbackId(i), now);
    }
    assert r.value == ts;
  }

  /** Saving and then loading is the identity: the stored JSON text of a task list is never empty. */
  lemma SaveLoadRoundTrip(ts: seq<Task>, text: string, now: int)
    requires text != ""
    ensures LoadTasks(Some(text), ArrayOf(SerializeAll(ts)), now) == ts
  {
    NormalizeSerialized(ts, LoadId, now);
  }

  /** `loadTheme()`: "dark" exactly when the stored value is "dark". */
  function LoadTheme(stored: Option<string>): (theme: string)
    ensures theme == "dark" <==> stored == Some("dark")
    ensures theme == "light" <==> stored != Some("dark")
  {
    if stored == Some("dark") then "dark" else "light"
  }
}
