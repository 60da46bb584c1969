/** Blocklisting queue items and searching again (control-panel-django/core/arr_client.py).

    One turn holds what the network does while one item is handled: the answer to the
    monitored lookup and the fate of up to two delete requests. A delete may be carried
    out although its reply is lost. */
module ArrBlocklist {
  import opened Text
  import opened Selection

  datatype Reply = Status(code: int) | TimedOut | Failed

  predicate IsSuccess(reply: Reply) {
    reply.Status? && 200 <= reply.code < 300
  }

  /** Replies after which the item counts as deleted. */
  predicate Accepted(reply: Reply) {
    IsSuccess(reply) || reply == Status(404)
  }

  /** `title` is the queue entry's title, or its id when it has none; `embedded` the
      monitored flag of the movie or episode object inside the entry. */
  datatype Item = Item(id: int, title: string, embedded: Option<bool>, target: Option<int>)

  datatype Attempt = Attempt(reply: Reply, applied: bool)

  datatype Turn = Turn(item: Item, lookup: Option<bool>, first: Attempt, second: Attempt)

  datatype Problem = ItemTimedOut(title: string) | ItemFailed(title: string, reply: Reply) | SearchFailed(count: nat)

  datatype Call = Delete(id: int, skipRedownload: bool) | Search(ids: seq<int>)

  /** `item_is_monitored` */
  function Monitored(turn: Turn): bool {
    if turn.item.embedded.Some? then turn.item.embedded.value
    else if turn.item.target.None? || turn.lookup.None? then true
    else turn.lookup.value
  }

  predicate Retried(turn: Turn) {
    turn.first.reply.TimedOut?
  }

  /** The attempt whose reply decides. */
  function Last(turn: Turn): Attempt {
    if Retried(turn) then turn.second else turn.first
  }

  predicate Deleted(turn: Turn) {
    Accepted(Last(turn).reply)
  }

  function Title(turn: Turn): string {
    turn.item.title
  }

  function ProblemOf(turn: Turn): Problem {
    if Last(turn).reply.TimedOut? then ItemTimedOut(turn.item.title)
    else ItemFailed(turn.item.title, Last(turn).reply)
  }

  predicate Searched(turn: Turn) {
    Deleted(turn) && Monitored(turn) && turn.item.target.Some?
  }

  function Target(turn: Turn): int {
    if turn.item.target.Some? then turn.item.target.value else 0
  }

  function DeletesOf(turn: Turn): seq<Call> {
    var delete := Delete(turn.item.id, !Monitored(turn));
    if Retried(turn) then [delete, delete] else [delete]
  }

  function Deletes(turns: seq<Turn>): seq<Call> {
    if turns == [] then [] else Deletes(turns[..|turns| - 1]) + DeletesOf(turns[|turns| - 1])
  }

  function SearchIds(turns: seq<Turn>): seq<int> {
    Pick(turns, Searched, Target)
  }

  /** The delete loop for one item. */
  method DeleteItem(turn: Turn) returns (ok: bool, problems: seq<Problem>, calls: seq<Call>)
    ensures ok == Deleted(turn) && calls == DeletesOf(turn)
    ensures problems == if ok then [] else [ProblemOf(turn)]
  {
    var delete := Delete(turn.item.id, !Monitored(turn));
    ok, problems, calls := false, [], [];
    for attempt := 0 to 2
      invariant !ok && problems == []
      invariant calls == if attempt == 0 then [] else [delete]
      invariant attempt > 0 ==> Retried(turn) && attempt == 1
    {
      var reply := (if attempt == 0 then turn.first else turn.second).reply;
      calls := calls + [delete];
      if reply.TimedOut? {
        if attempt == 0 {
          continue;
        }
        problems := problems + [ItemTimedOut(turn.item.title)];
        break;
      } else if !Accepted(reply) {
        problems := problems + [ItemFailed(turn.item.title, reply)];
        break;
      } else {
        ok := true;
        break;
      }
    }
  }

  /** `blocklist_and_research`; `post` is the reply to the search command, if sent. */
  method BlocklistAndResearch(turns: seq<Turn>, post: Reply)
    returns (fixed: seq<string>, errors: seq<Problem>, calls: seq<Call>)
    ensures fixed == Pick(turns, Deleted, Title)
    ensures errors == Pick(turns, Not(Deleted), ProblemOf)
                    + if SearchIds(turns) != [] && !IsSuccess(post) then [SearchFailed(|SearchIds(turns)|)] else []
    ensures calls == Deletes(turns) + if SearchIds(turns) != [] then [Search(SearchIds(turns))] else []
  {
    fixed, errors, calls := [], [], [];
    var searchIds := [];
    for i := 0 to |turns|
      invariant fixed == Pick(turns[..i], Deleted, Title)
      invariant errors == Pick(turns[..i], Not(Deleted), ProblemOf)
      invariant calls == Deletes(turns[..i])
      invariant searchIds == SearchIds(turns[..i])
    {
      var turn := turns[i];
      assert turns[..i + 1][..i] == turns[..i];
      var ok, problems, deletes := DeleteItem(turn);
      errors, calls := errors + problems, calls + deletes;
      if !ok {
        continue;
      }
      fixed := fixed + [turn.item.title];
      if Monitored(turn) && turn.item.target.Some? {
        searchIds := searchIds + [turn.item.target.value];
      }
    }
    assert turns[..|turns|] == turns;
    if searchIds != [] {
      calls := calls + [Search(searchIds)];
      if !IsSuccess(post) {
        errors := errors + [SearchFailed(|searchIds|)];
      }
    }
  }

  // ------------------------------------------------------------ one item

  /** The flag inside the entry decides; without one, an item with a target is unmonitored
      only if the lookup says so. */
  predicate IsMonitored(turn: Turn) {
    || turn.item.embedded == Some(true)
    || (turn.item.embedded == None && !(turn.item.target.Some? && turn.lookup == Some(false)))
  }

  lemma MonitoredIff(turn: Turn)
    ensures Monitored(turn) <==> IsMonitored(turn)
  {
  }

  /** Only the 200s count as success of the search command. */
  lemma SuccessIff(reply: Reply)
    ensures IsSuccess(reply) <==> reply.Status? && 200 <= reply.code <= 299
  {
  }

  /** The server has removed the entry, or does not know it. */
  predicate SaysGone(reply: Reply) {
    reply.Status? && (200 <= reply.code <= 299 || reply.code == 404)
  }

  /** The first reply says so, or it timed out and the second one does. */
  predicate IsFixed(turn: Turn) {
    SaysGone(turn.first.reply) || (turn.first.reply == TimedOut && SaysGone(turn.second.reply))
  }

  lemma FixedIff(turn: Turn)
    ensures Deleted(turn) <==> IsFixed(turn)
  {
  }

  /** What an item that is not fixed is reported with. */
  predicate IsBlame(turn: Turn, problem: Problem) {
    if turn.first.reply != TimedOut then problem == ItemFailed(turn.item.title, turn.first.reply)
    else if turn.second.reply != TimedOut then problem == ItemFailed(turn.item.title, turn.second.reply)
    else problem == ItemTimedOut(turn.item.title)
  }

  // ------------------------------------------------------------ accounting

  function Blamed(turn: Turn): string {
    ProblemOf(turn).title
  }

  lemma {:induction false} SamePick(turns: seq<Turn>, keep: Turn -> bool)
    ensures Pick(turns, keep, Blamed) == Pick(turns, keep, Title)
  {
    if turns != [] {
      SamePick(turns[..|turns| - 1], keep);
    }
  }

  /** Every item is reported once: as fixed, or in one error that names it. */
  lemma {:induction false} EachReportedOnce(turns: seq<Turn>)
    ensures multiset(Pick(turns, Deleted, Title)) + multiset(Pick(turns, Not(Deleted), Blamed))
         == multiset(Pick(turns, Any, Title))
  {
    PickSplits(turns, Deleted, Title);
    SamePick(turns, Not(Deleted));
  }

  /** One delete per item, and one more for each whose first reply timed out. */
  lemma {:induction false} DeleteCount(turns: seq<Turn>)
    ensures |Deletes(turns)| == |turns| + |Pick(turns, Retried, Title)|
    ensures |Deletes(turns)| <= 2 * |turns|
  {
    if turns != [] {
      DeleteCount(turns[..|turns| - 1]);
    }
  }

  /** For each delete of a run, the position of the item it is for. */
  function Owners(turns: seq<Turn>): seq<nat> {
    if turns == [] then []
    else
      var n := |turns| - 1;
      Owners(turns[..n]) + Once(n, Retried(turns[n]))
  }

  /** The position once, or twice. */
  function Once(n: nat, again: bool): seq<nat> {
    if again then [n, n] else [n]
  }

  lemma OnceCounts(n: nat, again: bool, i: nat)
    ensures multiset(Once(n, again))[i] == if i != n then 0 else if again then 2 else 1
  {
  }

  lemma {:induction false} OwnersInOrder(turns: seq<Turn>)
    ensures forall k | 0 <= k < |Owners(turns)| :: Owners(turns)[k] < |turns|
    ensures forall k, l | 0 <= k < l < |Owners(turns)| :: Owners(turns)[k] <= Owners(turns)[l]
  {
    if turns != [] {
      OwnersInOrder(turns[..|turns| - 1]);
    }
  }

  lemma OneMoreOwner(rest: seq<nat>, n: nat, again: bool, i: nat)
    requires forall k | 0 <= k < |rest| :: rest[k] < n
    ensures multiset(rest + Once(n, again))[i]
         == if i != n then multiset(rest)[i] else if again then 2 else 1
  {
    OnceCounts(n, again, i);
    NotIn(rest, n);
    assert multiset(rest + Once(n, again)) == multiset(rest) + multiset(Once(n, again));
  }

  lemma {:induction false} OwnerCount(turns: seq<Turn>, i: nat)
    requires i < |turns|
    ensures multiset(Owners(turns))[i] == if Retried(turns[i]) then 2 else 1
  {
    var n := |turns| - 1;
    var init := turns[..n];
    assert Owners(turns) == Owners(init) + Once(n, Retried(turns[n]));
    OwnersInOrder(init);
    OneMoreOwner(Owners(init), n, Retried(turns[n]), i);
    if i < n {
      OwnerCount(init, i);
      assert init[i] == turns[i];
    }
  }

  lemma {:induction false} OwnersFit(turns: seq<Turn>)
    ensures |Owners(turns)| == |Deletes(turns)|
    ensures forall k | 0 <= k < |Owners(turns)| ::
              && Owners(turns)[k] < |turns|
              && Deletes(turns)[k] == Delete(turns[Owners(turns)[k]].item.id, !Monitored(turns[Owners(turns)[k]]))
  {
    if turns != [] {
      var init, n := turns[..|turns| - 1], |turns| - 1;
      OwnersFit(init);
      var rest, added := Owners(init), Once(n, Retried(turns[n]));
      assert Owners(turns) == rest + added && Deletes(turns) == Deletes(init) + DeletesOf(turns[n]);
      forall k | 0 <= k < |Owners(turns)|
        ensures Owners(turns)[k] < |turns|
        ensures Deletes(turns)[k] == Delete(turns[Owners(turns)[k]].item.id, !Monitored(turns[Owners(turns)[k]]))
      {
        assert k >= |rest| ==> added[k - |rest|] == n;
      }
    }
  }

  /** Every delete belongs to one item, in the order of the items: one for each, two if its
      first reply timed out. It leaves the new search to the server exactly when the item
      is monitored. */
  lemma DeletesFitItems(turns: seq<Turn>) returns (owner: seq<nat>)
    ensures |owner| == |Deletes(turns)|
    ensures forall k | 0 <= k < |owner| ::
              && owner[k] < |turns|
              && Deletes(turns)[k] == Delete(turns[owner[k]].item.id, !IsMonitored(turns[owner[k]]))
    ensures forall k, l | 0 <= k < l < |owner| :: owner[k] <= owner[l]
    ensures forall i: nat | i < |turns| ::
              multiset(owner)[i] == if turns[i].first.reply == TimedOut then 2 else 1
  {
    owner := Owners(turns);
    OwnersFit(turns);
    OwnersInOrder(turns);
    forall k | 0 <= k < |owner| ensures Monitored(turns[owner[k]]) <==> IsMonitored(turns[owner[k]]) {
      MonitoredIff(turns[owner[k]]);
    }
    forall i: nat | i < |turns| ensures multiset(owner)[i] == if turns[i].first.reply == TimedOut then 2 else 1 {
      OwnerCount(turns, i);
    }
  }

  lemma NotIn(s: seq<nat>, n: nat)
    requires forall k | 0 <= k < |s| :: s[k] < n
    ensures multiset(s)[n] == 0
  {
    assert n !in s;
  }

  /** The search command lists the targets of exactly the fixed, monitored items that
      have one, in the order of the items. */
  lemma SearchesExactly(turns: seq<Turn>) returns (at: seq<nat>)
    ensures |at| == |SearchIds(turns)|
    ensures forall k, l | 0 <= k < l < |at| :: at[k] < at[l]
    ensures forall k | 0 <= k < |at| :: at[k] < |turns| && turns[at[k]].item.target == Some(SearchIds(turns)[k])
    ensures forall i: nat | i < |turns| ::
              i in at <==> IsFixed(turns[i]) && IsMonitored(turns[i]) && turns[i].item.target.Some?
  {
    at := PickedAt(turns, Searched, Target);
    forall i: nat | i < |turns|
      ensures i in at <==> IsFixed(turns[i]) && IsMonitored(turns[i]) && turns[i].item.target.Some?
    {
      FixedIff(turns[i]);
      MonitoredIff(turns[i]);
    }
    forall k | 0 <= k < |at| ensures turns[at[k]].item.target == Some(SearchIds(turns)[k]) {
      assert at[k] in at;
    }
  }

  /** The fixed titles are those of the fixed items, in their order. */
  lemma FixedExactly(turns: seq<Turn>) returns (at: seq<nat>)
    ensures |at| == |Pick(turns, Deleted, Title)|
    ensures forall k, l | 0 <= k < l < |at| :: at[k] < at[l]
    ensures forall k | 0 <= k < |at| ::
              at[k] < |turns| && Pick(turns, Deleted, Title)[k] == turns[at[k]].item.title
    ensures forall i: nat | i < |turns| :: i in at <==> IsFixed(turns[i])
  {
    at := PickedAt(turns, Deleted, Title);
    forall i: nat | i < |turns| ensures i in at <==> IsFixed(turns[i]) {
      FixedIff(turns[i]);
    }
  }

  /** Each other item has one error, in the order of the items: two timeouts, or the reply
      that ended its turn. */
  lemma BlamedExactly(turns: seq<Turn>) returns (at: seq<nat>)
    ensures |at| == |Pick(turns, Not(Deleted), ProblemOf)|
    ensures forall k, l | 0 <= k < l < |at| :: at[k] < at[l]
    ensures forall k | 0 <= k < |at| ::
              at[k] < |turns| && IsBlame(turns[at[k]], Pick(turns, Not(Deleted), ProblemOf)[k])
    ensures forall i: nat | i < |turns| :: i in at <==> !IsFixed(turns[i])
  {
    at := PickedAt(turns, Not(Deleted), ProblemOf);
    forall i: nat | i < |turns| ensures i in at <==> !IsFixed(turns[i]) {
      FixedIff(turns[i]);
    }
    forall k | 0 <= k < |at| ensures IsBlame(turns[at[k]], Pick(turns, Not(Deleted), ProblemOf)[k]) {
      assert at[k] in at;
      FixedIff(turns[at[k]]);
    }
  }

  // ------------------------------------------------------------ the server's queue

  function AfterAttempt(queue: set<int>, id: int, attempt: Attempt): set<int> {
    if attempt.applied then queue - {id} else queue
  }

  function AfterTurn(queue: set<int>, turn: Turn): set<int> {
    var once := AfterAttempt(queue, turn.item.id, turn.first);
    if Retried(turn) then AfterAttempt(once, turn.item.id, turn.second) else once
  }

  function Remaining(queue: set<int>, turns: seq<Turn>): set<int> {
    if turns == [] then queue else AfterTurn(Remaining(queue, turns[..|turns| - 1]), turns[|turns| - 1])
  }

  /** A server that answers truthfully when it answers: 404 for an unknown entry, a
      success when it removed the entry, another status when it did not. */
  predicate Truthful(queue: set<int>, id: int, attempt: Attempt) {
    && (attempt.applied ==> id in queue)
    && (attempt.reply.Status? ==>
          && (attempt.reply.code == 404 <==> id !in queue)
          && (IsSuccess(attempt.reply) <==> attempt.applied))
  }

  predicate TruthfulTurn(queue: set<int>, turn: Turn) {
    && Truthful(queue, turn.item.id, turn.first)
    && (Retried(turn) ==> Truthful(AfterAttempt(queue, turn.item.id, turn.first), turn.item.id, turn.second))
  }

  ghost predicate TruthfulServer(queue: set<int>, turns: seq<Turn>) {
    forall i: nat | i < |turns| :: TruthfulTurn(Remaining(queue, turns[..i]), turns[i])
  }

  lemma {:induction false} QueueShrinks(queue: set<int>, turns: seq<Turn>, n: nat)
    requires n <= |turns|
    ensures Remaining(queue, turns) <= Remaining(queue, turns[..n])
  {
    if n < |turns| {
      QueueShrinks(queue, turns[..|turns| - 1], n);
      assert turns[..|turns| - 1][..n] == turns[..n];
    } else {
      assert turns[..n] == turns;
    }
  }

  /** When the deciding delete was answered, an item is reported fixed exactly when it
      has left the queue, even if the reply to a first, successful delete was lost. */
  lemma AnsweredTurn(queue: set<int>, turn: Turn)
    requires TruthfulTurn(queue, turn) && Last(turn).reply.Status?
    ensures Deleted(turn) <==> turn.item.id !in AfterTurn(queue, turn)
  {
  }

  /** Whatever the timeouts and errors, a fixed item is gone from the queue at the end. */
  lemma FixedMeansGone(queue: set<int>, turns: seq<Turn>, i: nat)
    requires i < |turns| && TruthfulServer(queue, turns) && Deleted(turns[i])
    ensures turns[i].item.id !in Remaining(queue, turns)
  {
    AnsweredTurn(Remaining(queue, turns[..i]), turns[i]);
    QueueShrinks(queue, turns, i + 1);
    assert turns[..i + 1][..i] == turns[..i];
  }

  /** A delete for the item was carried out during its turn. */
  predicate Removes(turn: Turn) {
    turn.first.applied || (Retried(turn) && turn.second.applied)
  }

  ghost predicate RemovedBy(turns: seq<Turn>, id: int) {
    exists t | t in turns :: t.item.id == id && Removes(t)
  }

  /** Entries leave the queue only because a delete for them was carried out: an entry is
      absent at the end exactly when it was absent at the start or was removed by one. */
  lemma {:induction false} OnlyListedLeave(queue: set<int>, turns: seq<Turn>, id: int)
    ensures id !in Remaining(queue, turns) <==> id !in queue || RemovedBy(turns, id)
  {
    if turns != [] {
      var init, last := turns[..|turns| - 1], turns[|turns| - 1];
      assert turns == init + [last];
      OnlyListedLeave(queue, init, id);
      if RemovedBy(init, id) {
        var t :| t in init && t.item.id == id && Removes(t);
        assert t in turns;
      }
      assert last in turns;
    }
  }

  /** When an item is reported as an error although its entry is gone at the end of the
      run: its deciding request got no answer and the entry was missing or removed by
      then, or a later item of the list has the same entry removed. */
  lemma ReportedButGoneIff(queue: set<int>, turns: seq<Turn>, i: nat)
    requires i < |turns| && TruthfulServer(queue, turns) && !Deleted(turns[i])
    ensures var id := turns[i].item.id;
            id !in Remaining(queue, turns)
            <==> || RemovedBy(turns[i + 1..], id)
                 || (!Last(turns[i]).reply.Status? && (id !in queue || RemovedBy(turns[..i + 1], id)))
  {
    var id := turns[i].item.id;
    assert turns == turns[..i + 1] + turns[i + 1..];
    OnlyListedLeave(queue, turns, id);
    OnlyListedLeave(queue, turns[..i + 1], id);
    RemovedBySplit(turns[..i + 1], turns[i + 1..], id);
    if Last(turns[i]).reply.Status? {
      StillThere(queue, turns, i);
    }
  }

  lemma StillThere(queue: set<int>, turns: seq<Turn>, i: nat)
    requires i < |turns| && TruthfulServer(queue, turns) && !Deleted(turns[i]) && Last(turns[i]).reply.Status?
    ensures turns[i].item.id in Remaining(queue, turns[..i + 1])
  {
    assert turns[..i + 1][..i] == turns[..i];
    AnsweredTurn(Remaining(queue, turns[..i]), turns[i]);
  }

  lemma RemovedBySplit(a: seq<Turn>, b: seq<Turn>, id: int)
    ensures RemovedBy(a + b, id) <==> RemovedBy(a, id) || RemovedBy(b, id)
  {
    forall t ensures t in a + b <==> t in a || t in b {
    }
  }

  /** It does happen: the first delete works but its reply is lost, and so is the second. */
  lemma LostRepliesExample(item: Item)
    requires item.id == 7
    ensures var turns := [Turn(item, None, Attempt(TimedOut, true), Attempt(TimedOut, false))];
            && TruthfulServer({7}, turns)
            && !Deleted(turns[0])
            && item.id !in Remaining({7}, turns)
  {
    var turn := Turn(item, None, Attempt(TimedOut, true), Attempt(TimedOut, false));
    assert [turn][..0] == [];
    assert Remaining({7}, [turn]) == AfterTurn({7}, turn);
  }
}
