/**
 * The publish protocol that creates a monitor or a dashboard: check the
 * guild, open a transaction, send a placeholder message, insert the record
 * that points at it, commit, and only then fill the message in. Every store
 * and channel call may fail; which ones do is an input (`faults`).
 */
module Publish {
  import opened Base
  import opened Enums
  import opened Trains
  import opened Render
  import opened Store
  import opened Channel

  /**
   * The fallible calls of the creation commands, in the order they happen.
   * `SendStep` posts the placeholder (`send_message`, or `ctx.say` in the
   * newer snapshot); `IntoMessageStep` is the newer snapshot's second call,
   * `into_message`, which fetches the message `say` already posted.
   */
  datatype Step = BeginStep | FindOrCreateStep | SendStep | IntoMessageStep | InsertStep | ListStep | CommitStep | FinishStep | ReplyStep

  /** What a run did, in order. */
  datatype Event =
    | Began
    | Sent(msg: MessageRef)
    | Inserted(recordId: int)
    | Listed(trains: seq<Train>)
    | Committed
    | Edited(msg: MessageRef)
    | RefreshedMonitor(monitorId: int)
    | RefreshedDashboard(dashboardId: int, trains: seq<Train>)
    | Replied(text: string)

  datatype CommandError = NotAllowed | Failed(step: Step)

  /** Where the command was invoked, and the one guild the train commands are allowed in. */
  datatype Invocation = Invocation(guild: Option<int>, channelId: int, trainGuild: int)

  /** The store and the channel after a command, what it did, and how it ended. */
  datatype Effect = Effect(db: Db, chan: Channel, trace: seq<Event>, result: Outcome<CommandError>)

  const NotAllowedText: string := "Not allowed in this guild/in DM"

  predicate Allowed(inv: Invocation) {
    inv.guild == Some(inv.trainGuild)
  }

  /** Every record points at a message id the channel has already handed out. */
  predicate Linked(db: Db, ch: Channel) {
    && (forall id | id in db.monitors :: db.monitors[id].messageId < ch.nextMessage)
    && (forall id | id in db.dashboards :: db.dashboards[id].messageId < ch.nextMessage)
  }

  /** The setting every command runs in: a well-formed store whose records point at sent messages. */
  predicate Sound(db: Db, ch: Channel) {
    WellFormed(db) && FreshIds(ch) && Linked(db, ch)
  }

  /** Nothing that shows a record's content happens before the commit. */
  predicate CommitBeforeFinish(trace: seq<Event>) {
    forall i, j | 0 <= i < |trace| && 0 <= j < |trace| && trace[i] == Committed
      && (trace[j].Edited? || trace[j].RefreshedMonitor? || trace[j].RefreshedDashboard?) :: i < j
  }

  // ---------------------------------------------------------------------
  // create_monitor, up to the commit

  /** A monitor creation either stopped before its commit, or committed the new record. */
  datatype Staged =
    | Aborted(effect: Effect)
    | Ready(db: Db, chan: Channel, msg: MessageRef, monitor: Monitor, train: Train)

  /**
   * The shared first half of both `create_monitor` versions: guild check,
   * transaction, `find_or_create` inside it, the placeholder message, the
   * monitor row, commit. With `intoMessage` (the newer snapshot) the posted
   * placeholder must still be resolved into a message, a call that can fail
   * after the placeholder is already in the channel.
   */
  function StageMonitor(db: Db, ch: Channel, inv: Invocation, world: World, expac: Expac,
                        placeholder: string, intoMessage: bool, faults: set<Step>): (s: Staged)
    requires Sound(db, ch)
    ensures !Allowed(inv) ==> s == Aborted(Effect(db, ch, [], Fail(NotAllowed)))
    ensures s.Aborted? && s.effect.result == Fail(Failed(SendStep)) ==> s.effect.chan == ch
    ensures s.Aborted? && s.effect.result == Fail(Failed(IntoMessageStep)) ==>
      && intoMessage
      && |s.effect.trace| == 2 && s.effect.trace[0] == Began && s.effect.trace[1].Sent?
      && s.effect.chan.posts == ch.posts[s.effect.trace[1].msg := Placeholder(placeholder)]
      && s.effect.trace[1].msg !in ch.posts
      && forall id | id in db.monitors :: db.monitors[id].messageId != s.effect.trace[1].msg.messageId
    ensures s.Aborted? ==>
      && s.effect.db == db && s.effect.result.Fail? && Committed !in s.effect.trace
      && Sound(s.effect.db, s.effect.chan) && s.effect.chan.posts.Keys >= ch.posts.Keys
    ensures s.Aborted? && s.effect.result == Fail(Failed(CommitStep)) ==>
      && |s.effect.trace| == 3 && s.effect.trace[0] == Began && s.effect.trace[1].Sent? && s.effect.trace[2].Inserted?
      && s.effect.chan.posts == ch.posts[s.effect.trace[1].msg := Placeholder(placeholder)]
      && s.effect.trace[1].msg !in ch.posts
      && forall id | id in db.monitors :: db.monitors[id].messageId != s.effect.trace[1].msg.messageId
    ensures s.Ready? ==>
      var (db1, t) := FindOrCreate(db, world, expac);
      && Allowed(inv) && s.train == t
      && s.monitor == Monitor(s.monitor.id, s.msg.messageId, inv.channelId, t.id) && s.monitor.id !in db.monitors
      && s.db == db1.(monitors := db.monitors[s.monitor.id := s.monitor], nextMonitor := db.nextMonitor + 1)
      && s.msg.channelId == inv.channelId && s.msg !in ch.posts
      && (forall id | id in db.monitors :: db.monitors[id].messageId != s.msg.messageId)
      && s.chan.posts == ch.posts[s.msg := Placeholder(placeholder)]
      && s.chan.editFaults == ch.editFaults && s.chan.fetchFaults == ch.fetchFaults
      && Sound(s.db, s.chan)
  {
    if !Allowed(inv) then Aborted(Effect(db, ch, [], Fail(NotAllowed)))
    else if BeginStep in faults then Aborted(Effect(db, ch, [], Fail(Failed(BeginStep))))
    else if FindOrCreateStep in faults then Aborted(Effect(db, ch, [Began], Fail(Failed(FindOrCreateStep))))
    else
      var (pending, t) := FindOrCreate(db, world, expac);
      if SendStep in faults then Aborted(Effect(db, ch, [Began], Fail(Failed(SendStep))))
      else
        var (ch1, msg) := Send(ch, inv.channelId, Placeholder(placeholder));
        if intoMessage && IntoMessageStep in faults then Aborted(Effect(db, ch1, [Began, Sent(msg)], Fail(Failed(IntoMessageStep))))
        else if InsertStep in faults then Aborted(Effect(db, ch1, [Began, Sent(msg)], Fail(Failed(InsertStep))))
        else
          var (pending2, m) := InsertMonitor(pending, inv.channelId, msg.messageId, t.id);
          if CommitStep in faults then Aborted(Effect(db, ch1, [Began, Sent(msg), Inserted(m.id)], Fail(Failed(CommitStep))))
          else Ready(Commit(Tx(db, pending2), true), ch1, msg, m, t)
  }

  /** Events of a staged run up to and including the commit. */
  function Prefix(s: Staged): seq<Event>
    requires s.Ready?
  {
    [Began, Sent(s.msg), Inserted(s.monitor.id), Committed]
  }

  /** A failed commit leaves the placeholder behind as an orphan that no record points at. */
  lemma CommitFailureLeavesOrphanMessage(db: Db, ch: Channel, inv: Invocation, world: World, expac: Expac,
                                         placeholder: string, faults: set<Step>)
    requires Sound(db, ch) && Allowed(inv)
    requires BeginStep !in faults && FindOrCreateStep !in faults && SendStep !in faults && InsertStep !in faults
    requires CommitStep in faults
    ensures var s := StageMonitor(db, ch, inv, world, expac, placeholder, false, faults);
      && s.Aborted? && s.effect.db == db && s.effect.result == Fail(Failed(CommitStep))
      && s.effect.chan.posts[s.effect.trace[1].msg] == Placeholder(placeholder)
      && forall id | id in s.effect.db.monitors :: s.effect.db.monitors[id].messageId != s.effect.trace[1].msg.messageId
  {
    var s := StageMonitor(db, ch, inv, world, expac, placeholder, false, faults);
    assert s.Aborted?;
  }

  // ---------------------------------------------------------------------
  // create_monitor, src/command/train.rs: edit in place, then reply

  function EditPlaceholder(world: World, expac: Expac): string {
    "Initializing " + WorldName(world) + " " + ExpacName(expac) + " Train..."
  }

  function MonitorCreatedText(world: World, expac: Expac): string {
    "Success! A monitor for the " + ExpacName(expac) + " train on " + WorldName(world) + " has been created!"
  }

  /** What a monitor message of this version shows; the embed reads the clock. */
  function SnapshotContent(t: Train, now: Instant): Content {
    Rendered(FormatEmbedAt(t.world, t.expac, t.progress, now), FormatComponentsWithButtons(t.progress))
  }

  /** After the commit: edit the placeholder into the train's view, then confirm to the invoker. */
  function FinishInPlace(s: Staged, world: World, expac: Expac, now: Instant, faults: set<Step>): (r: Effect)
    requires s.Ready? && Sound(s.db, s.chan)
    ensures Sound(r.db, r.chan) && r.db == s.db
    ensures 4 <= |r.trace| <= 6 && r.trace[..4] == Prefix(s) && Committed !in r.trace[4..]
    ensures CommitBeforeFinish(r.trace)
    ensures r.result.Pass? ==>
      && |r.trace| == 6 && r.trace[4] == Edited(s.msg) && r.trace[5] == Replied(MonitorCreatedText(world, expac))
      && s.msg in r.chan.posts && r.chan.posts[s.msg] == SnapshotContent(s.train, now)
  {
    var committed := Prefix(s);
    if FinishStep in faults || EditFails(s.chan, s.msg) then Effect(s.db, s.chan, committed, Fail(Failed(FinishStep)))
    else
      var ch2 := Edit(s.chan, s.msg, SnapshotContent(s.train, now));
      var edited := committed + [Edited(s.msg)];
      if ReplyStep in faults then Effect(s.db, ch2, edited, Fail(Failed(ReplyStep)))
      else Effect(s.db, ch2, edited + [Replied(MonitorCreatedText(world, expac))], Pass)
  }

  /**
   * `create_monitor` of src/command/train.rs. Committed means exactly one new
   * monitor row, bound to the placeholder's id and to the train
   * `find_or_create` gave; success means that message now shows the train.
   */
  function CreateMonitorInPlace(db: Db, ch: Channel, inv: Invocation, world: World, expac: Expac,
                                now: Instant, faults: set<Step>): (r: Effect)
    requires Sound(db, ch)
    ensures Sound(r.db, r.chan)
    ensures !Allowed(inv) ==> r == Effect(db, ch, [], Fail(NotAllowed))
    ensures Committed !in r.trace ==> r.db == db && r.result.Fail?
    ensures Committed in r.trace ==>
      && |r.trace| >= 4 && r.trace[1].Sent? && r.trace[2].Inserted? && r.trace[3] == Committed
      && r.trace[2].recordId in r.db.monitors
      && r.db.monitors[r.trace[2].recordId]
         == Monitor(r.trace[2].recordId, r.trace[1].msg.messageId, inv.channelId, FindOrCreate(db, world, expac).1.id)
      && r.db.trains == FindOrCreate(db, world, expac).0.trains
      && r.db.monitors.Keys == db.monitors.Keys + {r.trace[2].recordId}
    ensures CommitBeforeFinish(r.trace)
    ensures r.result != Fail(Failed(IntoMessageStep))
    ensures r.result.Pass? ==>
      && |r.trace| == 6 && r.trace[4] == Edited(r.trace[1].msg)
      && r.trace[1].msg in r.chan.posts && r.chan.posts[r.trace[1].msg] == SnapshotContent(FindOrCreate(db, world, expac).1, now)
      && r.trace[5] == Replied(MonitorCreatedText(world, expac))
  {
    var s := StageMonitor(db, ch, inv, world, expac, EditPlaceholder(world, expac), false, faults);
    if s.Aborted? then s.effect
    else
      var r := FinishInPlace(s, world, expac, now, faults);
      assert r.trace[..4] == Prefix(s);
      assert r.trace[1] == Sent(s.msg) && r.trace[2] == Inserted(s.monitor.id);
      r
  }

  // ---------------------------------------------------------------------
  // create_monitor and create_dashboard, src/train/command.rs: hand over to a refresh

  function RefreshPlaceholder(world: World, expac: Expac): string {
    "Initializing monitor for " + WorldName(world) + " " + ExpacName(expac) + " Train..."
  }

  /**
   * `create_monitor` of src/train/command.rs. After the commit the new
   * monitor is handed to `refresh_monitor`, whose own work is not part of
   * this model: whether it fails is the `FinishStep` fault.
   */
  function CreateMonitor(db: Db, ch: Channel, inv: Invocation, world: World, expac: Expac,
                         faults: set<Step>): (r: Effect)
    requires Sound(db, ch)
    ensures Sound(r.db, r.chan)
    ensures !Allowed(inv) ==> r == Effect(db, ch, [], Fail(NotAllowed))
    ensures Committed !in r.trace ==> r.db == db && r.result.Fail?
    ensures Committed in r.trace ==>
      && |r.trace| == 5 && r.trace[1].Sent? && r.trace[2].Inserted? && r.trace[3] == Committed
      && r.trace[4] == RefreshedMonitor(r.trace[2].recordId)
      && r.trace[2].recordId in r.db.monitors
      && r.db.monitors[r.trace[2].recordId]
         == Monitor(r.trace[2].recordId, r.trace[1].msg.messageId, inv.channelId, FindOrCreate(db, world, expac).1.id)
      && r.db.trains == FindOrCreate(db, world, expac).0.trains
      && r.db.monitors.Keys == db.monitors.Keys + {r.trace[2].recordId}
      && r.trace[1].msg in r.chan.posts && r.chan.posts[r.trace[1].msg] == Placeholder(RefreshPlaceholder(world, expac))
    ensures r.result == Fail(Failed(IntoMessageStep)) ==>
      && r.db == db && |r.trace| == 2 && r.trace[1].Sent? && r.trace[1].msg !in ch.posts
      && r.chan.posts == ch.posts[r.trace[1].msg := Placeholder(RefreshPlaceholder(world, expac))]
    ensures CommitBeforeFinish(r.trace)
    ensures r.result.Pass? <==> Committed in r.trace && FinishStep !in faults
  {
    var s := StageMonitor(db, ch, inv, world, expac, RefreshPlaceholder(world, expac), true, faults);
    if s.Aborted? then s.effect
    else
      var r := FinishRefresh(s, faults);
      assert r.trace[1] == Sent(s.msg) && r.trace[2] == Inserted(s.monitor.id);
      r
  }

  /** After the commit: hand the new monitor to `refresh_monitor`. */
  function FinishRefresh(s: Staged, faults: set<Step>): (r: Effect)
    requires s.Ready? && Sound(s.db, s.chan) && s.msg in s.chan.posts
    ensures r.db == s.db && r.chan == s.chan
    ensures r.trace == Prefix(s) + [RefreshedMonitor(s.monitor.id)]
    ensures CommitBeforeFinish(r.trace)
    ensures r.result.Pass? <==> FinishStep !in faults
  {
    Effect(s.db, s.chan, Prefix(s) + [RefreshedMonitor(s.monitor.id)],
           if FinishStep in faults then Fail(Failed(FinishStep)) else Pass)
  }

  const DashboardPlaceholder: string := "Initializing dashboard..."

  /**
   * `create_dashboard`. The trains listed inside the transaction, every one
   * outside the test world `testing`, are what the dashboard is first
   * rendered from; `refresh_dashboard` itself is not part of this model.
   */
  function CreateDashboard(db: Db, ch: Channel, inv: Invocation, testing: World, faults: set<Step>): (r: Effect)
    requires Sound(db, ch)
    ensures Sound(r.db, r.chan)
    ensures !Allowed(inv) ==> r == Effect(db, ch, [], Fail(NotAllowed))
    ensures r.db.trains == db.trains && r.db.monitors == db.monitors
    ensures Committed !in r.trace ==> r.db == db && r.result.Fail?
    ensures Committed in r.trace ==>
      && |r.trace| == 6 && r.trace[1].Sent? && r.trace[2].Inserted? && r.trace[3].Listed? && r.trace[4] == Committed
      && r.trace[5] == RefreshedDashboard(r.trace[2].recordId, r.trace[3].trains)
      && r.trace[2].recordId in r.db.dashboards
      && r.db.dashboards[r.trace[2].recordId] == Dashboard(r.trace[2].recordId, r.trace[1].msg.messageId, inv.channelId)
      && r.db.dashboards.Keys == db.dashboards.Keys + {r.trace[2].recordId}
      && (forall k | 0 <= k < |r.trace[3].trains| :: r.trace[3].trains[k] in db.trains.Values && r.trace[3].trains[k].world != testing)
      && (forall t | t in db.trains.Values && t.world != testing :: t in r.trace[3].trains)
    ensures r.result == Fail(Failed(SendStep)) ==> r.chan == ch
    ensures r.result == Fail(Failed(IntoMessageStep)) ==>
      && r.db == db && |r.trace| == 2 && r.trace[1].Sent? && r.trace[1].msg !in ch.posts
      && r.chan.posts == ch.posts[r.trace[1].msg := Placeholder(DashboardPlaceholder)]
    ensures CommitBeforeFinish(r.trace)
    ensures r.result.Pass? <==> Committed in r.trace && FinishStep !in faults
  {
    if !Allowed(inv) then Effect(db, ch, [], Fail(NotAllowed))
    else if BeginStep in faults then Effect(db, ch, [], Fail(Failed(BeginStep)))
    else if SendStep in faults then Effect(db, ch, [Began], Fail(Failed(SendStep)))
    else
      var (ch1, msg) := Send(ch, inv.channelId, Placeholder(DashboardPlaceholder));
      if IntoMessageStep in faults then Effect(db, ch1, [Began, Sent(msg)], Fail(Failed(IntoMessageStep)))
      else if InsertStep in faults then Effect(db, ch1, [Began, Sent(msg)], Fail(Failed(InsertStep)))
      else
        var (pending, d) := InsertDashboard(db, inv.channelId, msg.messageId);
        if ListStep in faults then Effect(db, ch1, [Began, Sent(msg), Inserted(d.id)], Fail(Failed(ListStep)))
        else
          var trains := TrainsExcept(pending, testing);
          var listed := [Began, Sent(msg), Inserted(d.id), Listed(trains)];
          if CommitStep in faults then Effect(db, ch1, listed, Fail(Failed(CommitStep)))
          else
            Effect(Commit(Tx(db, pending), true), ch1, listed + [Committed, RefreshedDashboard(d.id, trains)],
                   if FinishStep in faults then Fail(Failed(FinishStep)) else Pass)
  }

  /**
   * In the newer snapshot, when `say` posts the placeholder and
   * `into_message` then fails, the transaction is dropped: the store is as it
   * was, and the placeholder stays in the channel with no record pointing at
   * it.
   */
  lemma IntoMessageFailureLeavesOrphanMessage(db: Db, ch: Channel, inv: Invocation, world: World, expac: Expac,
                                              testing: World, faults: set<Step>)
    requires Sound(db, ch) && Allowed(inv)
    requires BeginStep !in faults && FindOrCreateStep !in faults && SendStep !in faults
    requires IntoMessageStep in faults
    ensures var r := CreateMonitor(db, ch, inv, world, expac, faults);
      && r.result == Fail(Failed(IntoMessageStep)) && r.db == db
      && r.chan.posts[r.trace[1].msg] == Placeholder(RefreshPlaceholder(world, expac))
      && forall id | id in r.db.monitors :: r.db.monitors[id].messageId != r.trace[1].msg.messageId
    ensures var r := CreateDashboard(db, ch, inv, testing, faults);
      && r.result == Fail(Failed(IntoMessageStep)) && r.db == db
      && r.chan.posts[r.trace[1].msg] == Placeholder(DashboardPlaceholder)
      && forall id | id in r.db.dashboards :: r.db.dashboards[id].messageId != r.trace[1].msg.messageId
  {
    var s := StageMonitor(db, ch, inv, world, expac, RefreshPlaceholder(world, expac), true, faults);
    assert s.Aborted?;
  }
}
