/** The computations inside the view of js/ui.js: the counters of `updateStats` and the rule by which
    `setFilterActive` highlights a filter button. Writing them into the page is not modelled. */
module Ui {
  import opened TaskModel

  datatype Counts = Counts(total: int, active: int, completed: int)

  /** `updateStats`: total, completed by `filter(...).length`, active by subtraction. */
  function UpdateStats(tasks: seq<Task>): (c: Counts)
    ensures c.total == |tasks|
    ensures c.completed == |Filter(tasks, IsDone)|
    ensures c.active == |Filter(tasks, IsOpen)|
    ensures 0 <= c.completed <= c.total
    ensures 0 <= c.active && c.active + c.completed == c.total
  {
    FilterSplitCount(tasks, IsDone, IsOpen);
    var total := |tasks|;
    var completed := |Filter(tasks, IsDone)|;
    Counts(total, total - completed, completed)
  }

  /** The `active` class state of each button, given each button's `data-filter` name. */
  function FilterButtonStates(buttons: seq<string>, filter: string): (active: seq<bool>)
    ensures |active| == |buttons|
    ensures forall i :: 0 <= i < |buttons| ==> (active[i] <==> buttons[i] == filter)
  {
    if buttons == [] then []
    else [buttons[0] == filter] + FilterButtonStates(buttons[1..], filter)
  }

  /** With distinct button names at most one button is highlighted, and one is when the filter names a button. */
  lemma SingleActiveButton(buttons: seq<string>, filter: string)
    requires forall i, j :: 0 <= i < j < |buttons| ==> buttons[i] != buttons[j]
    ensures forall i, j ::
      (0 <= i < |buttons| && 0 <= j < |buttons| &&
       FilterButtonStates(buttons, filter)[i] && FilterButtonStates(buttons, filter)[j]) ==> i == j
    ensures filter in buttons ==> exists i :: 0 <= i < |buttons| && FilterButtonStates(buttons, filter)[i]
  {
    if filter in buttons {
      var k :| 0 <= k < |buttons| && buttons[k] == filter;
      assert FilterButtonStates(buttons, filter)[k];
    }
  }
}
