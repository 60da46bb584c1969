/** The most-recently-used lists (control-panel-django/core/settings.py). */
module RecentValues {
  import opened Text

  type Recent = map<string, seq<string>>

  /** `list.remove(value)`: the first occurrence. */
  function RemoveFirst(list: seq<string>, value: string): seq<string> {
    if list == [] then []
    else if list[0] == value then list[1..]
    else [list[0]] + RemoveFirst(list[1..], value)
  }

  /** `del list[keep:]` */
  function Take(list: seq<string>, keep: nat): seq<string> {
    if |list| <= keep then list else list[..keep]
  }

  function Listed(recent: Recent, arg: string): seq<string> {
    if arg in recent then recent[arg] else []
  }

  function Push(list: seq<string>, value: string, keep: nat): seq<string> {
    Take([value] + RemoveFirst(list, value), keep)
  }

  function Remember(recent: Recent, arg: string, value: string, keep: nat): Recent {
    recent[arg := Push(Listed(recent, arg), value, keep)]
  }

  datatype Call = Call(arg: string, value: string)

  function After(calls: seq<Call>, keep: nat): Recent {
    if calls == [] then map[]
    else
      var last := calls[|calls| - 1];
      Remember(After(calls[..|calls| - 1], keep), last.arg, last.value, keep)
  }

  /** A dictionary object of lists, shared by whoever holds it. */
  class Dict {
    var lists: Recent

    constructor (lists: Recent)
      ensures this.lists == lists
    {
      this.lists := lists;
    }
  }

  /** The settings table's `recent_values` row, and the dictionary in DEFAULTS. */
  class Store {
    var row: Option<Recent>
    const defaults: Dict

    constructor ()
      ensures fresh(defaults) && row == None && defaults.lists == map[]
    {
      row := None;
      defaults := new Dict(map[]);
    }

    function Loaded(): Recent
      reads this, defaults
    {
      if row.Some? then row.value else defaults.lists
    }

    /** `_load()["recent_values"]`: parsed from the row, or, as long as there is none,
        the very dictionary in DEFAULTS. */
    method Load() returns (data: Dict)
      ensures data.lists == Loaded()
      ensures if row.Some? then fresh(data) else data == defaults
    {
      if row.Some? {
        data := new Dict(row.value);
      } else {
        data := defaults;
      }
    }

    method RememberValue(arg: string, value: string, keep: nat)
      modifies this, defaults
      ensures row == Some(Remember(old(Loaded()), arg, value, keep))
      ensures defaults.lists == if old(row).None? then row.value else old(defaults.lists)
    {
      var data := Load();
      if arg !in data.lists {
        data.lists := data.lists[arg := []];
      }
      var recent := data.lists[arg];
      if value in recent {
        recent := RemoveFirst(recent, value);
      } else {
        NothingToRemove(recent, value);
      }
      recent := [value] + recent;
      if |recent| > keep {
        recent := recent[..keep];
      }
      data.lists := data.lists[arg := recent];
      assert data.lists == Remember(old(Loaded()), arg, value, keep);
      row := Some(data.lists);
    }
  }

  /** A session on an empty table. The first call also leaves its list in DEFAULTS. */
  method Session(calls: seq<Call>, keep: nat) returns (s: Store)
    requires calls != []
    ensures s.row == Some(After(calls, keep))
    ensures s.defaults.lists == After(calls[..1], keep)
  {
    s := new Store();
    for i := 0 to |calls|
      invariant fresh(s) && fresh(s.defaults)
      invariant i == 0 ==> s.row == None && s.defaults.lists == map[]
      invariant i > 0 ==> s.row == Some(After(calls[..i], keep)) && s.defaults.lists == After(calls[..1], keep)
    {
      assert calls[..i + 1][..i] == calls[..i];
      s.RememberValue(calls[i].arg, calls[i].value, keep);
    }
    assert calls[..|calls|] == calls;
  }

  // ------------------------------------------------------------ what the lists are

  lemma {:induction false} NothingToRemove(list: seq<string>, value: string)
    requires value !in list
    ensures RemoveFirst(list, value) == list
  {
    if list != [] {
      NothingToRemove(list[1..], value);
    }
  }

  /** All values an argument was ever given, the most recent first, without repeats. */
  function NewestFirst(calls: seq<Call>, arg: string): seq<string> {
    if calls == [] then []
    else
      var before, last := NewestFirst(calls[..|calls| - 1], arg), calls[|calls| - 1];
      if last.arg == arg then [last.value] + RemoveFirst(before, last.value) else before
  }

  /** Cutting a list before a push loses nothing that the next cut would keep. */
  lemma {:induction false} CutThenRemove(list: seq<string>, value: string, keep: nat)
    requires keep > 0
    ensures Take(RemoveFirst(Take(list, keep), value), keep - 1) == Take(RemoveFirst(list, value), keep - 1)
  {
    if list != [] && list[0] != value && keep > 1 {
      CutThenRemove(list[1..], value, keep - 1);
      assert Take(list, keep) == [list[0]] + Take(list[1..], keep - 1);
      TakeCons(list[0], RemoveFirst(Take(list[1..], keep - 1), value), keep - 1);
      TakeCons(list[0], RemoveFirst(list[1..], value), keep - 1);
    }
  }

  lemma TakeCons(head: string, tail: seq<string>, keep: nat)
    requires keep > 0
    ensures Take([head] + tail, keep) == [head] + Take(tail, keep - 1)
  {
  }

  lemma PushAfterCut(list: seq<string>, value: string, keep: nat)
    ensures Push(Take(list, keep), value, keep) == Push(list, value, keep)
  {
    if keep > 0 {
      CutThenRemove(list, value, keep);
      TakeCons(value, RemoveFirst(Take(list, keep), value), keep);
      TakeCons(value, RemoveFirst(list, value), keep);
    }
  }

  /** After any calls with one `keep`, every argument's list is the first `keep`
      values of its history, newest first. */
  lemma {:induction false} ListsAreNewest(calls: seq<Call>, keep: nat, arg: string)
    ensures Listed(After(calls, keep), arg) == Take(NewestFirst(calls, arg), keep)
  {
    if calls != [] {
      var init, last := calls[..|calls| - 1], calls[|calls| - 1];
      ListsAreNewest(init, keep, arg);
      if last.arg == arg {
        PushAfterCut(NewestFirst(init, arg), last.value, keep);
      }
    }
  }

  /** The last call that gave `value` to `arg`; -1 when there is none. */
  function LastUse(calls: seq<Call>, arg: string, value: string): int {
    if calls == [] then -1
    else if calls[|calls| - 1] == Call(arg, value) then |calls| - 1
    else LastUse(calls[..|calls| - 1], arg, value)
  }

  lemma {:induction false} LastUseRange(calls: seq<Call>, arg: string, value: string)
    ensures -1 <= LastUse(calls, arg, value) < |calls|
  {
    if calls != [] {
      LastUseRange(calls[..|calls| - 1], arg, value);
    }
  }

  lemma {:induction false} RemoveFirstKeeps(list: seq<string>, value: string)
    requires Distinct(list)
    ensures forall v :: v in RemoveFirst(list, value) <==> v in list && v != value
    ensures Distinct(RemoveFirst(list, value))
  {
    if list != [] {
      var tail := list[1..];
      assert list == [list[0]] + tail;
      assert list[0] !in tail by {
        assert forall j | 0 <= j < |tail| :: tail[j] == list[j + 1];
      }
      RemoveFirstKeeps(tail, value);
      assert list[0] !in RemoveFirst(tail, value);
    }
  }

  ghost predicate ByRecency(calls: seq<Call>, arg: string, list: seq<string>) {
    forall i, j | 0 <= i < j < |list| :: LastUse(calls, arg, list[i]) > LastUse(calls, arg, list[j])
  }

  lemma {:induction false} RemoveKeepsOrder(calls: seq<Call>, arg: string, list: seq<string>, value: string)
    requires ByRecency(calls, arg, list)
    ensures ByRecency(calls, arg, RemoveFirst(list, value))
    ensures forall v | v in RemoveFirst(list, value) :: v in list
  {
    if list != [] {
      RemoveKeepsOrder(calls, arg, list[1..], value);
      var rest := RemoveFirst(list[1..], value);
      if list[0] != value {
        forall j | 0 <= j < |rest| ensures LastUse(calls, arg, list[0]) > LastUse(calls, arg, rest[j]) {
          assert rest[j] in list[1..];
          var k :| 0 <= k < |list[1..]| && list[1..][k] == rest[j];
          assert list[k + 1] == rest[j];
        }
      }
    }
  }

  /** `NewestFirst` holds each value once, exactly the values that were used, in the
      order of their last use. */
  lemma {:induction false} NewestFirstIsByRecency(calls: seq<Call>, arg: string)
    ensures var list := NewestFirst(calls, arg);
            && Distinct(list)
            && (forall v :: v in list <==> LastUse(calls, arg, v) >= 0)
            && ByRecency(calls, arg, list)
  {
    if calls != [] {
      var init, last := calls[..|calls| - 1], calls[|calls| - 1];
      NewestFirstIsByRecency(init, arg);
      var before := NewestFirst(init, arg);
      if last.arg == arg {
        RemoveFirstKeeps(before, last.value);
        RemoveKeepsOrder(init, arg, before, last.value);
        var rest := RemoveFirst(before, last.value);
        forall i | 0 <= i < |rest| ensures rest[i] != last.value && LastUse(calls, arg, rest[i]) < |calls| - 1 {
          assert rest[i] in rest;
          LastUseRange(init, arg, rest[i]);
        }
        forall i, j | 0 <= i < j < |rest|
          ensures LastUse(calls, arg, rest[i]) > LastUse(calls, arg, rest[j])
        {
          assert LastUse(init, arg, rest[i]) > LastUse(init, arg, rest[j]);
        }
        forall v ensures v in [last.value] + rest <==> LastUse(calls, arg, v) >= 0 {
        }
      } else {
        forall v ensures LastUse(calls, arg, v) == LastUse(init, arg, v) {
        }
      }
    }
  }

  // ------------------------------------------------------------ the stored lists, from the calls

  /** Call `i` is the last that gave the value to the argument. */
  ghost predicate LastAt(calls: seq<Call>, i: nat, arg: string, value: string) {
    i < |calls| && calls[i] == Call(arg, value) && forall j | i < j < |calls| :: calls[j] != Call(arg, value)
  }

  lemma {:induction false} LastUseIff(calls: seq<Call>, i: nat, arg: string, value: string)
    ensures LastUse(calls, arg, value) == i <==> LastAt(calls, i, arg, value)
  {
    if calls != [] {
      var init := calls[..|calls| - 1];
      LastUseIff(init, i, arg, value);
      LastUseRange(init, arg, value);
      assert i < |init| ==> init[i] == calls[i];
    }
  }

  /** `at` names for each entry of the list the call that last used it, later calls first; no
      entry is missing but those beyond the first `keep`, which were used before all of them. */
  ghost predicate Recalls(calls: seq<Call>, keep: nat, arg: string, list: seq<string>, at: seq<nat>) {
    && |at| == |list| && |list| <= keep
    && (forall k | 0 <= k < |at| :: LastAt(calls, at[k], arg, list[k]))
    && (forall k, l | 0 <= k < l < |at| :: at[k] > at[l])
    && (forall i, v | LastAt(calls, i, arg, v) :: i in at || (|list| == keep && forall k | 0 <= k < |at| :: i < at[k]))
  }

  /** What is stored for an argument after any calls with one `keep`. */
  lemma StoredIsRecalled(calls: seq<Call>, keep: nat, arg: string) returns (at: seq<nat>)
    ensures Recalls(calls, keep, arg, Listed(After(calls, keep), arg), at)
  {
    var all, list := NewestFirst(calls, arg), Listed(After(calls, keep), arg);
    ListsAreNewest(calls, keep, arg);
    NewestFirstIsByRecency(calls, arg);
    assert forall k | 0 <= k < |list| :: list[k] == all[k] && all[k] in all;
    at := seq(|list|, k requires 0 <= k < |list| => LastUse(calls, arg, list[k]));
    forall k | 0 <= k < |at| ensures LastAt(calls, at[k], arg, list[k]) {
      LastUseIff(calls, at[k], arg, list[k]);
    }
    forall i, v | LastAt(calls, i, arg, v)
      ensures i in at || (|list| == keep && forall k | 0 <= k < |at| :: i < at[k])
    {
      LastUseIff(calls, i, arg, v);
      var m :| 0 <= m < |all| && all[m] == v;
      assert m < |list| ==> at[m] == i;
    }
  }

  lemma {:induction false} StoredArguments(calls: seq<Call>, keep: nat, arg: string)
    ensures arg in After(calls, keep) <==> exists c | c in calls :: c.arg == arg
  {
    if calls != [] {
      var init, last := calls[..|calls| - 1], calls[|calls| - 1];
      StoredArguments(init, keep, arg);
      assert calls == init + [last];
    }
  }
}
