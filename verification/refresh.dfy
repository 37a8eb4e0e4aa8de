/**
 * `refresh_monitors` of src/command/train.rs: after a train changes, every
 * monitor message of that train is fetched and re-rendered. A message that is
 * gone (404) or no longer visible (403) is stale and its row is deleted; a
 * failed delete is only logged. Any other failure, of the query that lists
 * the monitors, of the fetch or of the edit, ends the whole refresh with that
 * error, leaving later monitors as they were.
 */
module Refresh {
  import opened Base
  import opened Trains
  import opened Store
  import opened Channel
  import opened Publish

  /** Why a refresh stopped: listing the train's monitors, or fetching or editing one message. */
  datatype RefreshError = ListFailed | FetchFailed | EditFailed

  /** What the refresh does with one monitor. */
  datatype Disposition = Prune | Rerender | Stop(error: RefreshError)

  function Ref(m: Monitor): MessageRef {
    MessageRef(m.channelId, m.messageId)
  }

  function Classify(ch: Channel, m: Monitor): (d: Disposition)
    ensures d == Prune <==> Fetch(ch, Ref(m)) in {Fail(NotFound), Fail(Forbidden)}
    ensures d == Rerender <==> Ref(m) in ch.posts && Ref(m) !in ch.fetchFaults && Ref(m) !in ch.editFaults
  {
    match Fetch(ch, Ref(m))
    case Fail(NotFound) => Prune
    case Fail(Forbidden) => Prune
    case Fail(Other) => Stop(FetchFailed)
    case Pass => if EditFails(ch, Ref(m)) then Stop(EditFailed) else Rerender
  }

  /** Two channels with the same messages and the same injected faults; only contents may differ. */
  predicate SameShape(a: Channel, b: Channel) {
    a.posts.Keys == b.posts.Keys && a.fetchFaults == b.fetchFaults && a.editFaults == b.editFaults
    && a.nextMessage == b.nextMessage
  }

  lemma ClassifyDependsOnShape(a: Channel, b: Channel, m: Monitor)
    requires SameShape(a, b)
    ensures Classify(a, m) == Classify(b, m)
  {
  }

  /** The number of monitors the refresh gets through before one stops it. */
  function FirstStop(ch: Channel, ms: seq<Monitor>): (n: nat)
    ensures n <= |ms|
    ensures forall k | 0 <= k < n :: !Classify(ch, ms[k]).Stop?
    ensures n < |ms| ==> Classify(ch, ms[n]).Stop?
  {
    if |ms| == 0 then 0
    else if Classify(ch, ms[0]).Stop? then 0
    else 1 + FirstStop(ch, ms[1..])
  }

  /** Ids of the rows the refresh deletes: stale monitors before the stop whose delete does not fail. */
  function PrunedIds(ch: Channel, ms: seq<Monitor>, deleteFaults: set<int>): (ids: set<int>)
    ensures forall id | id in ids :: exists k | 0 <= k < FirstStop(ch, ms) :: ms[k].id == id
  {
    if |ms| == 0 || Classify(ch, ms[0]).Stop? then {}
    else if Classify(ch, ms[0]) == Prune && ms[0].id !in deleteFaults then {ms[0].id} + PrunedIds(ch, ms[1..], deleteFaults)
    else PrunedIds(ch, ms[1..], deleteFaults)
  }

  /** Messages the refresh re-renders: live monitors before the stop. */
  function RerenderedRefs(ch: Channel, ms: seq<Monitor>): (refs: set<MessageRef>)
    ensures refs <= ch.posts.Keys
  {
    if |ms| == 0 || Classify(ch, ms[0]).Stop? then {}
    else if Classify(ch, ms[0]) == Rerender then {Ref(ms[0])} + RerenderedRefs(ch, ms[1..])
    else RerenderedRefs(ch, ms[1..])
  }

  datatype Refreshed = Refreshed(db: Db, chan: Channel, result: Outcome<RefreshError>)

  /**
   * The refresh of the monitors `ms`, one after another, as a recursive
   * reference. Its contract is the behaviour in terms of the channel it
   * started from: it fails iff some monitor stops it, it deletes exactly the
   * pruned rows, it re-renders exactly the live messages before the stop,
   * and it never touches trains, dashboards or the set of messages.
   */
  function RefreshAll(db: Db, ch: Channel, ms: seq<Monitor>, content: Content, deleteFaults: set<int>): (r: Refreshed)
    requires WellFormed(db)
    ensures WellFormed(r.db) && SameShape(r.chan, ch)
    ensures r.result.Pass? <==> FirstStop(ch, ms) == |ms|
    ensures !r.result.Pass? ==> r.result == Fail(Classify(ch, ms[FirstStop(ch, ms)]).error)
    ensures r.db.trains == db.trains && r.db.dashboards == db.dashboards
    ensures r.db.monitors.Keys == db.monitors.Keys - PrunedIds(ch, ms, deleteFaults)
    ensures forall id | id in r.db.monitors :: r.db.monitors[id] == db.monitors[id]
    ensures forall m | m in ch.posts ::
      r.chan.posts[m] == if m in RerenderedRefs(ch, ms) then content else ch.posts[m]
    decreases |ms|
  {
    if |ms| == 0 then Refreshed(db, ch, Pass)
    else if Classify(ch, ms[0]).Stop? then Refreshed(db, ch, Fail(Classify(ch, ms[0]).error))
    else
      var (db1, ch1) := Visit(db, ch, ms[0], content, deleteFaults);
      ClassifyAfterEdit(ch, ch1, ms[1..], deleteFaults);
      RefreshAll(db1, ch1, ms[1..], content, deleteFaults)
  }

  /** One monitor that does not stop the refresh: its stale row is deleted, or its live message re-rendered. */
  function Visit(db: Db, ch: Channel, m: Monitor, content: Content, deleteFaults: set<int>): (r: (Db, Channel))
    requires WellFormed(db) && !Classify(ch, m).Stop?
    ensures WellFormed(r.0) && SameShape(r.1, ch)
    ensures r.0.trains == db.trains && r.0.dashboards == db.dashboards
    ensures r.0.monitors.Keys == if Classify(ch, m) == Prune && m.id !in deleteFaults then db.monitors.Keys - {m.id} else db.monitors.Keys
    ensures forall id | id in r.0.monitors :: r.0.monitors[id] == db.monitors[id]
    ensures r.1.posts == if Classify(ch, m) == Rerender then ch.posts[Ref(m) := content] else ch.posts
  {
    if Classify(ch, m) == Rerender then (db, Edit(ch, Ref(m), content))
    else if m.id in deleteFaults then (db, ch)
    else (DeleteMonitor(db, m.id), ch)
  }

  /** Re-rendering a message changes no monitor's disposition. */
  lemma {:induction false} ClassifyAfterEdit(a: Channel, b: Channel, ms: seq<Monitor>, deleteFaults: set<int>)
    requires SameShape(a, b)
    ensures FirstStop(a, ms) == FirstStop(b, ms)
    ensures PrunedIds(a, ms, deleteFaults) == PrunedIds(b, ms, deleteFaults)
    ensures RerenderedRefs(a, ms) == RerenderedRefs(b, ms)
    decreases |ms|
  {
    if |ms| > 0 {
      ClassifyDependsOnShape(a, b, ms[0]);
      ClassifyAfterEdit(a, b, ms[1..], deleteFaults);
    }
  }

  /**
   * `refresh_monitors` itself: list the train's monitors (a query that fails
   * when `listFails`), then loop over them in id order, re-rendering each
   * live one with the train's current view.
   */
  method RefreshMonitors(db: Db, ch: Channel, t: Train, content: Content, listFails: bool, deleteFaults: set<int>)
    returns (db': Db, ch': Channel, result: Outcome<RefreshError>)
    requires WellFormed(db)
    ensures listFails ==> db' == db && ch' == ch && result == Fail(ListFailed)
    ensures !listFails ==> Refreshed(db', ch', result) == RefreshAll(db, ch, MonitorsOf(db, t.id), content, deleteFaults)
    ensures db'.trains == db.trains && db'.dashboards == db.dashboards
    ensures result.Pass? <==> !listFails && FirstStop(ch, MonitorsOf(db, t.id)) == |MonitorsOf(db, t.id)|
  {
    if listFails {
      return db, ch, Fail(ListFailed);
    }
    db', ch', result := RefreshEach(db, ch, MonitorsOf(db, t.id), content, deleteFaults);
  }

  /** The loop of `refresh_monitors` over a given list of monitors. */
  method RefreshEach(db: Db, ch: Channel, ms: seq<Monitor>, content: Content, deleteFaults: set<int>)
    returns (db': Db, ch': Channel, result: Outcome<RefreshError>)
    requires WellFormed(db)
    ensures Refreshed(db', ch', result) == RefreshAll(db, ch, ms, content, deleteFaults)
  {
    db', ch' := db, ch;
    var i := 0;
    while i < |ms|
      invariant 0 <= i <= |ms| && WellFormed(db')
      invariant RefreshAll(db', ch', ms[i..], content, deleteFaults) == RefreshAll(db, ch, ms, content, deleteFaults)
    {
      var m := ms[i];
      assert ms[i..][0] == m && ms[i..][1..] == ms[i + 1..];
      if Classify(ch', m).Stop? {
        return db', ch', Fail(Classify(ch', m).error);
      }
      db', ch' := Visit(db', ch', m, content, deleteFaults).0, Visit(db', ch', m, content, deleteFaults).1;
      i := i + 1;
    }
    result := Pass;
  }

  /** The deleted rows are exactly the stale monitors before the stop whose delete succeeds. */
  lemma {:induction false} PrunedIdsExact(ch: Channel, ms: seq<Monitor>, deleteFaults: set<int>)
    ensures forall k | 0 <= k < FirstStop(ch, ms) && Classify(ch, ms[k]) == Prune && ms[k].id !in deleteFaults ::
      ms[k].id in PrunedIds(ch, ms, deleteFaults)
    ensures forall id | id in PrunedIds(ch, ms, deleteFaults) :: exists k | 0 <= k < FirstStop(ch, ms) ::
      Classify(ch, ms[k]) == Prune && ms[k].id !in deleteFaults && ms[k].id == id
    decreases |ms|
  {
    if |ms| > 0 && !Classify(ch, ms[0]).Stop? {
      PrunedIdsExact(ch, ms[1..], deleteFaults);
      forall k | 0 < k < FirstStop(ch, ms) ensures ms[k] == ms[1..][k - 1] { }
      forall id | id in PrunedIds(ch, ms[1..], deleteFaults)
        ensures exists k | 0 <= k < FirstStop(ch, ms) :: Classify(ch, ms[k]) == Prune && ms[k].id !in deleteFaults && ms[k].id == id
      {
        var k :| 0 <= k < FirstStop(ch, ms[1..]) && Classify(ch, ms[1..][k]) == Prune && ms[1..][k].id !in deleteFaults && ms[1..][k].id == id;
        assert ms[k + 1] == ms[1..][k];
      }
    }
  }

  /** The re-rendered messages are exactly those of the live monitors before the stop. */
  lemma {:induction false} RerenderedRefsExact(ch: Channel, ms: seq<Monitor>)
    ensures forall k | 0 <= k < FirstStop(ch, ms) && Classify(ch, ms[k]) == Rerender :: Ref(ms[k]) in RerenderedRefs(ch, ms)
    ensures forall m | m in RerenderedRefs(ch, ms) :: exists k | 0 <= k < FirstStop(ch, ms) ::
      Classify(ch, ms[k]) == Rerender && Ref(ms[k]) == m
    decreases |ms|
  {
    if |ms| > 0 && !Classify(ch, ms[0]).Stop? {
      RerenderedRefsExact(ch, ms[1..]);
      forall k | 0 < k < FirstStop(ch, ms) ensures ms[k] == ms[1..][k - 1] { }
      forall m | m in RerenderedRefs(ch, ms[1..])
        ensures exists k | 0 <= k < FirstStop(ch, ms) :: Classify(ch, ms[k]) == Rerender && Ref(ms[k]) == m
      {
        var k :| 0 <= k < FirstStop(ch, ms[1..]) && Classify(ch, ms[1..][k]) == Rerender && Ref(ms[1..][k]) == m;
        assert ms[k + 1] == ms[1..][k];
      }
    }
  }

  /**
   * One monitor's message was deleted and every other one is live: the
   * refresh succeeds, removes exactly that row, and re-renders every other
   * message.
   */
  lemma OneStaleMonitor(db: Db, ch: Channel, ms: seq<Monitor>, j: int, content: Content, deleteFaults: set<int>)
    requires WellFormed(db) && 0 <= j < |ms|
    requires forall a, b | 0 <= a < b < |ms| :: ms[a].id < ms[b].id
    requires Ref(ms[j]) !in ch.posts && ms[j].id !in deleteFaults
    requires forall k | 0 <= k < |ms| && k != j :: Classify(ch, ms[k]) == Rerender
    ensures var r := RefreshAll(db, ch, ms, content, deleteFaults);
      && r.result == Pass
      && r.db.monitors.Keys == db.monitors.Keys - {ms[j].id}
      && forall k | 0 <= k < |ms| && k != j :: r.chan.posts[Ref(ms[k])] == content
  {
    assert Classify(ch, ms[j]) == Prune;
    assert FirstStop(ch, ms) == |ms|;
    PrunedIdsExact(ch, ms, deleteFaults);
    RerenderedRefsExact(ch, ms);
    assert PrunedIds(ch, ms, deleteFaults) == {ms[j].id};
  }
}
