/**
 * Marathon discovery feeding the pen backend: the snapshot `_parse` produces
 * is what `update` reconciles.
 */
module Pipeline {
  import opened Wrappers
  import opened Services
  import opened Marathon
  import opened Pen

  /** The services of a parsed snapshot, in any iteration order, have distinct `(port, protocol)` keys. */
  lemma SnapshotKeysUnique(
    source: string, tasks: seq<Task>, fetch: string -> Option<nat>, resolve: string -> Option<string>,
    order: seq<string>)
    requires ParseTasks(source, tasks, fetch, resolve).Ok?
    requires Enumerates(order, ParseTasks(source, tasks, fetch, resolve).value.Keys)
    ensures UniqueKeys(ValuesInOrder(ParseTasks(source, tasks, fetch, resolve).value, order))
  {
    var m := ParseTasks(source, tasks, fetch, resolve).value;
    ParseUniquePorts(source, tasks, fetch, resolve);
    var values := ValuesInOrder(m, order);
    forall i, j | 0 <= i < j < |values|
      ensures KeyOf(values[i]) != KeyOf(values[j])
    {
      assert order[i] != order[j];
    }
  }

  /**
   * Feeding the same parsed snapshot to the pen backend twice: when the
   * processes of the first update are alive, the second keeps the state,
   * drops no key, and performs no write, signal or spawn.
   */
  lemma RepeatedSnapshotQuiet(
    cfg: Settings, render: Render,
    source: string, tasks: seq<Task>, fetch: string -> Option<nat>, resolve: string -> Option<string>,
    order: seq<string>, prior: State, alive1: string -> bool, alive2: string -> bool, hangup: string -> bool)
    requires ParseTasks(source, tasks, fetch, resolve).Ok?
    requires Enumerates(order, ParseTasks(source, tasks, fetch, resolve).value.Keys)
    requires var values := ValuesInOrder(ParseTasks(source, tasks, fetch, resolve).value, order);
      var st := ConvergeState(values, prior, alive1);
      forall k :: k in st ==> alive2(st[k].pidfile)
    ensures var values := ValuesInOrder(ParseTasks(source, tasks, fetch, resolve).value, order);
      var st := ConvergeState(values, prior, alive1);
      && ConvergeState(values, st, alive2) == st
      && ConvergeEffects(cfg, render, values, st, alive2, hangup) == []
  {
    SnapshotKeysUnique(source, tasks, fetch, resolve, order);
    var values := ValuesInOrder(ParseTasks(source, tasks, fetch, resolve).value, order);
    SecondUpdateQuiet(cfg, render, values, prior, alive1, alive2, hangup);
  }
}
