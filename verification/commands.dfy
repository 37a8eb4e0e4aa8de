/**
 * The `scout`, `start` and `done` slash commands, in both versions: the
 * older one (src/command/train.rs) refreshes the train's monitors itself and
 * edits one ephemeral reply; the newer one (src/train/command.rs) refreshes
 * monitors and dashboards through calls whose results are inputs here and
 * replies once with a text that says whether every post was updated. The
 * newer commands are modelled twice: as written, where the update writes no
 * column, and corrected, where it writes the changed train.
 *
 * Both run `find_or_create` and the update on the connection itself, not in
 * a transaction, so a train created by `find_or_create` stays even when the
 * update after it fails.
 */
module Commands {
  import opened Base
  import opened Enums
  import opened Trains
  import opened Render
  import opened Store
  import opened Channel
  import opened Refresh
  import opened Publish
  import Timestamp

  /**
   * The store and reply steps that can fail, by the fault set given to a run:
   * `find_or_create`, the update, `ctx.defer()` (newer), the query listing
   * the train's monitors (older), `ctx.say` and the edit of the reply (older).
   */
  datatype CmdStep = FindStep | UpdateStep | DeferStep | ListMonitorsStep | SayStep | EditReplyStep

  datatype CmdError =
    | InvalidUrl
    | BothTimes
    | StoreFailed(step: CmdStep)
    | RefreshFailed(error: RefreshError)
    | ReplyFailed(step: CmdStep)

  /**
   * A command's effect: the store and channel after it, the text of its
   * ephemeral reply if one was sent, and whether the dashboards were refreshed.
   */
  datatype CmdRun = CmdRun(db: Db, chan: Channel, reply: Option<string>, dashboardsRefreshed: bool, result: Outcome<CmdError>)

  const BothTimesText: string := "Cannot provide both completion_time and force_time"

  // ---------------------------------------------------------------------
  // Decision logic of src/train/command.rs

  /**
   * The completion instant `done` records: the given completion time, or six
   * hours before the given force time, or the clock; both at once is an error.
   */
  function ResolveCompletion(completion: Option<Instant>, force: Option<Instant>, now: Instant): (r: Result<Instant, string>)
    ensures r.Err? <==> completion.Some? && force.Some?
    ensures r.Err? ==> r.error == BothTimesText
    ensures r.Ok? && completion.Some? ==> r.value == completion.value
    ensures r.Ok? && force.Some? ==> r.value + ForceWindow == force.value
    ensures completion.None? && force.None? ==> r == Ok(now)
  {
    match (completion, force)
    case (Some(_), Some(_)) => Err(BothTimesText)
    case (Some(c), None) => Ok(c)
    case (None, Some(f)) => Ok(f - ForceWindow)
    case (None, None) => Ok(now)
  }

  /** Given a force time F, the monitors announce exactly F as the forced instant. */
  lemma ForceTimeIsShownForced(world: World, expac: Expac, p: Progress, force: Instant, now: Instant)
    ensures var at := ResolveCompletion(None, Some(force), now).value;
      && ForcedInstant(FormatEmbed(world, expac, Done(p, at))) == Some(force)
      && ForcedInstant(FormatEmbedAt(world, expac, Done(p, at), now)) == Some(force)
  {
  }

  const PartialSuffix: string := ", but not all monitor posts could be updated."

  /** `monitor_msg`: the acknowledgement, or an error that names what was done. */
  function MonitorMsg(base: string, success: bool): (r: string)
    ensures success ==> |r| == |base| + 1 && r[..|base|] == base && r[|base|] == '.'
    ensures !success ==> (|r| == 7 + |base| + |PartialSuffix| && StartsWith(r, "Error: ")
      && r[7..7 + |base|] == base && r[7 + |base|..] == PartialSuffix)
  {
    if success then base + "." else "Error: " + base + PartialSuffix
  }

  /** For an acknowledgement that is not itself an error text, the reply reads as an error iff some post was not updated. */
  lemma MonitorMsgReportsFailure(base: string, success: bool)
    requires !StartsWith(base, "Error: ")
    ensures StartsWith(MonitorMsg(base, success), "Error: ") <==> !success
  {
    var r := MonitorMsg(base, success);
    if success && |base| >= 7 {
      assert r[..7] == base[..7];
    } else if success && |r| == 7 {
      assert r[6] == '.';
    }
  }

  /**
   * `refresh_monitors(..).await && refresh_dashboards(..).await`: the
   * dashboards are refreshed only after the monitors were, and the command
   * succeeds only if both were.
   */
  function CombineRefresh(monitorsOk: bool, dashboardsOk: bool): (r: (bool, bool))
    ensures r.1 <==> monitorsOk
    ensures r.0 <==> monitorsOk && dashboardsOk
  {
    if monitorsOk then (dashboardsOk, true) else (false, false)
  }

  /** How the scout acknowledgement names the new state: a Markdown link when a map is set. */
  function ScoutText(scoutMap: Option<string>): (r: string)
    ensures scoutMap.None? ==> r == "scouted"
    ensures scoutMap.Some? ==> (|r| == |scoutMap.value| + 11 && StartsWith(r, "[scouted](")
      && r[10..|r| - 1] == scoutMap.value && r[|r| - 1] == ')')
  {
    match scoutMap
    case Some(url) => "[scouted](" + url + ")"
    case None => "scouted"
  }

  // ---------------------------------------------------------------------
  // The shared store work

  /** The outcome of `find_or_create` followed by the update of the train it gave. */
  datatype Updated = Updated(db: Db, train: Train) | NotUpdated(db: Db, step: CmdStep)

  /**
   * `find_or_create` then `update` with `change` applied to the train's state.
   * The train with that key ends in state `change(p)`, where `p` is its state
   * before (or the fresh state if there was none), and no other train changes.
   */
  function UpdateKeyed(db: Db, world: World, expac: Expac, change: Progress -> Progress, faults: set<CmdStep>): (r: Updated)
    requires WellFormed(db) && UniqueTrains(db)
    ensures WellFormed(r.db) && UniqueTrains(r.db)
    ensures r.db.monitors == db.monitors && r.db.dashboards == db.dashboards
    ensures r.NotUpdated? ==> r.db == db || r.db == FindOrCreate(db, world, expac).0
    ensures r.Updated? ==>
      var (db1, t) := FindOrCreate(db, world, expac);
      && r.train == t.(progress := change(t.progress))
      && r.db.trains == db1.trains[t.id := r.train]
      && (forall id | id in db.trains && id != t.id :: id in r.db.trains && r.db.trains[id] == db.trains[id])
      && FindTrain(r.db, world, expac) == Some(r.train)
  {
    if FindStep in faults then NotUpdated(db, FindStep)
    else
      var (db1, t) := FindOrCreate(db, world, expac);
      if UpdateStep in faults then NotUpdated(db1, UpdateStep)
      else
        var t2 := t.(progress := change(t.progress));
        var db2 := UpdateTrain(db1, t2);
        assert UniqueTrains(db2) by {
          forall a, b | a in db2.trains && b in db2.trains && a != b
            ensures !(db2.trains[a].world == db2.trains[b].world && db2.trains[a].expac == db2.trains[b].expac)
          {
            assert db1.trains[a].world == db2.trains[a].world && db1.trains[a].expac == db2.trains[a].expac;
            assert db1.trains[b].world == db2.trains[b].world && db1.trains[b].expac == db2.trains[b].expac;
          }
        }
        FindTrainUnique(db2, t2);
        Updated(db2, t2)
  }

  // ---------------------------------------------------------------------
  // src/train/command.rs

  /**
   * The newer commands after the update: `ctx.defer()`, the monitor and
   * dashboard refresh, then `ctx.say` of `monitor_msg` of the
   * acknowledgement, which is built from the train the update gave back.
   */
  function Acknowledge(u: Updated, ch: Channel, ack: Train -> string, faults: set<CmdStep>,
                       monitorsOk: bool, dashboardsOk: bool): (r: CmdRun)
    ensures r.db == u.db && r.chan == ch
    ensures r.result.Pass? <==> u.Updated? && DeferStep !in faults && SayStep !in faults
    ensures r.result.Fail? ==> r.reply == None
    ensures r.dashboardsRefreshed <==> u.Updated? && DeferStep !in faults && monitorsOk
    ensures r.result.Pass? ==> r.reply == Some(MonitorMsg(ack(u.train), monitorsOk && dashboardsOk))
  {
    match u
    case NotUpdated(db1, step) => CmdRun(db1, ch, None, false, Fail(StoreFailed(step)))
    case Updated(db2, t) =>
      if DeferStep in faults then CmdRun(db2, ch, None, false, Fail(ReplyFailed(DeferStep)))
      else
        var (success, dashboards) := CombineRefresh(monitorsOk, dashboardsOk);
        if SayStep in faults then CmdRun(db2, ch, None, dashboards, Fail(ReplyFailed(SayStep)))
        else CmdRun(db2, ch, Some(MonitorMsg(ack(t), success)), dashboards, Pass)
  }

  /**
   * The common shape of the newer commands after their argument checks, with
   * the update writing the changed train: update, defer, refresh, reply with
   * `monitor_msg` of the acknowledgement.
   */
  function NewerCommand(db: Db, ch: Channel, world: World, expac: Expac, change: Progress -> Progress,
                        ack: Train -> string, faults: set<CmdStep>, monitorsOk: bool, dashboardsOk: bool): (r: CmdRun)
    requires WellFormed(db) && UniqueTrains(db)
    ensures WellFormed(r.db) && UniqueTrains(r.db) && r.chan == ch
    ensures r.dashboardsRefreshed ==> monitorsOk
    ensures r.result.Pass? <==> UpdateKeyed(db, world, expac, change, faults).Updated? && DeferStep !in faults && SayStep !in faults
    ensures r.result.Pass? ==>
      var u := UpdateKeyed(db, world, expac, change, faults);
      r.db == u.db && r.reply == Some(MonitorMsg(ack(u.train), monitorsOk && dashboardsOk))
      && (r.dashboardsRefreshed <==> monitorsOk)
  {
    Acknowledge(UpdateKeyed(db, world, expac, change, faults), ch, ack, faults, monitorsOk, dashboardsOk)
  }

  /**
   * `find_or_create`, then `ActiveModel::from(train).update(db)` as written:
   * an active model built from a model marks every column unchanged, so the
   * update sets no column and gives back the stored row. (Where the library
   * instead refuses an update with nothing to set, that is the `UpdateStep`
   * fault.)
   */
  function UpdateNothing(db: Db, world: World, expac: Expac, faults: set<CmdStep>): (r: Updated)
    requires WellFormed(db) && UniqueTrains(db)
    ensures WellFormed(r.db) && UniqueTrains(r.db)
    ensures r.db == db || r.db == FindOrCreate(db, world, expac).0
    ensures r.Updated? <==> FindStep !in faults && UpdateStep !in faults
    ensures r.Updated? ==>
      && r.db == FindOrCreate(db, world, expac).0
      && FindTrain(r.db, world, expac) == Some(r.train)
      && r.train.progress == PriorProgress(db, world, expac)
  {
    if FindStep in faults then NotUpdated(db, FindStep)
    else
      var (db1, t) := FindOrCreate(db, world, expac);
      if UpdateStep in faults then NotUpdated(db1, UpdateStep)
      else
        FindTrainUnique(db1, t);
        Updated(db1, t)
  }

  /** The update as written is the update of the corrected commands with a change that keeps every field. */
  lemma UpdateNothingKeepsEverything(db: Db, world: World, expac: Expac, faults: set<CmdStep>)
    requires WellFormed(db) && UniqueTrains(db)
    ensures UpdateNothing(db, world, expac, faults) == UpdateKeyed(db, world, expac, (p: Progress) => p, faults)
  {
    if FindStep !in faults && UpdateStep !in faults {
      var (db1, t) := FindOrCreate(db, world, expac);
      assert db1.trains[t.id := t] == db1.trains;
    }
  }

  /**
   * The newer commands as written (src/train/command.rs): the update writes
   * nothing, and the reply and the refresh use the row as it was.
   */
  function NewerCommandAsWritten(db: Db, ch: Channel, world: World, expac: Expac, ack: Train -> string,
                                 faults: set<CmdStep>, monitorsOk: bool, dashboardsOk: bool): (r: CmdRun)
    requires WellFormed(db) && UniqueTrains(db)
    ensures WellFormed(r.db) && UniqueTrains(r.db) && r.chan == ch
    ensures r.db == db || r.db == FindOrCreate(db, world, expac).0
    ensures r.result.Pass? <==> FindStep !in faults && UpdateStep !in faults && DeferStep !in faults && SayStep !in faults
    ensures r.result.Pass? ==>
      var t := FindOrCreate(db, world, expac).1;
      && FindTrain(r.db, world, expac) == Some(t)
      && t.progress == PriorProgress(db, world, expac)
      && r.reply == Some(MonitorMsg(ack(t), monitorsOk && dashboardsOk))
  {
    Acknowledge(UpdateNothing(db, world, expac, faults), ch, ack, faults, monitorsOk, dashboardsOk)
  }

  /** `scout` (newer): a map link that is not a URL is refused before the store is touched. */
  function ScoutNewer(db: Db, ch: Channel, world: World, expac: Expac, mapLink: Option<string>, isUrl: string -> bool,
                      faults: set<CmdStep>, monitorsOk: bool, dashboardsOk: bool): (r: CmdRun)
    requires WellFormed(db) && UniqueTrains(db)
    ensures WellFormed(r.db) && UniqueTrains(r.db)
    ensures mapLink.Some? && !isUrl(mapLink.value) ==> r == CmdRun(db, ch, None, false, Fail(InvalidUrl))
    ensures r.result.Pass? ==>
      && (mapLink.Some? ==> isUrl(mapLink.value))
      && FindTrain(r.db, world, expac).Some?
      && FindTrain(r.db, world, expac).value.progress == Scout(PriorProgress(db, world, expac), mapLink)
      && r.reply == Some(MonitorMsg(Title(world, expac) + " has been " + ScoutText(mapLink), monitorsOk && dashboardsOk))
  {
    if mapLink.Some? && !isUrl(mapLink.value) then CmdRun(db, ch, None, false, Fail(InvalidUrl))
    else
      NewerCommand(db, ch, world, expac, (p: Progress) => Scout(p, mapLink),
                   (t: Train) => Title(world, expac) + " has been " + ScoutText(t.progress.scoutMap), faults, monitorsOk, dashboardsOk)
  }

  /** The state of the train with that key before a command: the stored one, or the state a new train starts in. */
  function PriorProgress(db: Db, world: World, expac: Expac): (p: Progress)
    requires WellFormed(db)
    ensures p == FindOrCreate(db, world, expac).1.progress
    ensures !HasTrain(db, world, expac) ==> p == Fresh
  {
    match FindTrain(db, world, expac)
    case Some(t) => t.progress
    case None => Fresh
  }

  /** `start` (newer): running; a given map link replaces the stored one, none keeps it. */
  function StartNewer(db: Db, ch: Channel, world: World, expac: Expac, mapLink: Option<string>, isUrl: string -> bool,
                      faults: set<CmdStep>, monitorsOk: bool, dashboardsOk: bool): (r: CmdRun)
    requires WellFormed(db) && UniqueTrains(db)
    ensures WellFormed(r.db) && UniqueTrains(r.db)
    ensures mapLink.Some? && !isUrl(mapLink.value) ==> r == CmdRun(db, ch, None, false, Fail(InvalidUrl))
    ensures r.result.Pass? ==>
      && FindTrain(r.db, world, expac).Some?
      && FindTrain(r.db, world, expac).value.progress == Start(PriorProgress(db, world, expac), mapLink)
      && r.reply == Some(MonitorMsg(Title(world, expac) + " is now running", monitorsOk && dashboardsOk))
  {
    if mapLink.Some? && !isUrl(mapLink.value) then CmdRun(db, ch, None, false, Fail(InvalidUrl))
    else
      NewerCommand(db, ch, world, expac, (p: Progress) => Start(p, mapLink),
                   (t: Train) => Title(world, expac) + " is now running", faults, monitorsOk, dashboardsOk)
  }

  /** `done` (newer): both times at once is refused before the store is touched. */
  function DoneNewer(db: Db, ch: Channel, world: World, expac: Expac, completion: Option<Instant>, force: Option<Instant>,
                     now: Instant, faults: set<CmdStep>, monitorsOk: bool, dashboardsOk: bool): (r: CmdRun)
    requires WellFormed(db) && UniqueTrains(db)
    ensures WellFormed(r.db) && UniqueTrains(r.db)
    ensures completion.Some? && force.Some? ==> r == CmdRun(db, ch, None, false, Fail(BothTimes))
    ensures r.result.Pass? ==>
      var at := ResolveCompletion(completion, force, now).value;
      && FindTrain(r.db, world, expac).Some?
      && FindTrain(r.db, world, expac).value.progress == Done(PriorProgress(db, world, expac), at)
      && r.reply == Some(MonitorMsg(Title(world, expac) + " completed at " + Stamp(at, 'f'), monitorsOk && dashboardsOk))
  {
    match ResolveCompletion(completion, force, now)
    case Err(_) => CmdRun(db, ch, None, false, Fail(BothTimes))
    case Ok(at) =>
      NewerCommand(db, ch, world, expac, (p: Progress) => Done(p, at),
                   (t: Train) => Title(world, expac) + " completed at " + Stamp(at, 'f'), faults, monitorsOk, dashboardsOk)
  }

  /** `scout` (newer) as written: the train keeps its state and the reply names the stored map. */
  function ScoutNewerAsWritten(db: Db, ch: Channel, world: World, expac: Expac, mapLink: Option<string>, isUrl: string -> bool,
                               faults: set<CmdStep>, monitorsOk: bool, dashboardsOk: bool): (r: CmdRun)
    requires WellFormed(db) && UniqueTrains(db)
    ensures WellFormed(r.db) && UniqueTrains(r.db)
    ensures mapLink.Some? && !isUrl(mapLink.value) ==> r == CmdRun(db, ch, None, false, Fail(InvalidUrl))
    ensures r.result.Pass? ==>
      && FindTrain(r.db, world, expac).Some?
      && FindTrain(r.db, world, expac).value.progress == PriorProgress(db, world, expac)
      && r.reply == Some(MonitorMsg(Title(world, expac) + " has been " + ScoutText(PriorProgress(db, world, expac).scoutMap),
                                    monitorsOk && dashboardsOk))
  {
    if mapLink.Some? && !isUrl(mapLink.value) then CmdRun(db, ch, None, false, Fail(InvalidUrl))
    else
      NewerCommandAsWritten(db, ch, world, expac,
                            (t: Train) => Title(world, expac) + " has been " + ScoutText(t.progress.scoutMap), faults, monitorsOk, dashboardsOk)
  }

  /** `start` (newer) as written: the train keeps its state. */
  function StartNewerAsWritten(db: Db, ch: Channel, world: World, expac: Expac, mapLink: Option<string>, isUrl: string -> bool,
                               faults: set<CmdStep>, monitorsOk: bool, dashboardsOk: bool): (r: CmdRun)
    requires WellFormed(db) && UniqueTrains(db)
    ensures WellFormed(r.db) && UniqueTrains(r.db)
    ensures mapLink.Some? && !isUrl(mapLink.value) ==> r == CmdRun(db, ch, None, false, Fail(InvalidUrl))
    ensures r.result.Pass? ==>
      && FindTrain(r.db, world, expac).Some?
      && FindTrain(r.db, world, expac).value.progress == PriorProgress(db, world, expac)
      && r.reply == Some(MonitorMsg(Title(world, expac) + " is now running", monitorsOk && dashboardsOk))
  {
    if mapLink.Some? && !isUrl(mapLink.value) then CmdRun(db, ch, None, false, Fail(InvalidUrl))
    else
      NewerCommandAsWritten(db, ch, world, expac, (t: Train) => Title(world, expac) + " is now running",
                            faults, monitorsOk, dashboardsOk)
  }

  /** `done` (newer) as written: the train keeps its state, though the reply names the resolved instant. */
  function DoneNewerAsWritten(db: Db, ch: Channel, world: World, expac: Expac, completion: Option<Instant>, force: Option<Instant>,
                              now: Instant, faults: set<CmdStep>, monitorsOk: bool, dashboardsOk: bool): (r: CmdRun)
    requires WellFormed(db) && UniqueTrains(db)
    ensures WellFormed(r.db) && UniqueTrains(r.db)
    ensures completion.Some? && force.Some? ==> r == CmdRun(db, ch, None, false, Fail(BothTimes))
    ensures r.result.Pass? ==>
      var at := ResolveCompletion(completion, force, now).value;
      && FindTrain(r.db, world, expac).Some?
      && FindTrain(r.db, world, expac).value.progress == PriorProgress(db, world, expac)
      && r.reply == Some(MonitorMsg(Title(world, expac) + " completed at " + Stamp(at, 'f'), monitorsOk && dashboardsOk))
  {
    match ResolveCompletion(completion, force, now)
    case Err(_) => CmdRun(db, ch, None, false, Fail(BothTimes))
    case Ok(at) =>
      NewerCommandAsWritten(db, ch, world, expac, (t: Train) => Title(world, expac) + " completed at " + Stamp(at, 'f'),
                            faults, monitorsOk, dashboardsOk)
  }

  /**
   * `/train scout Seraph Stormblood map_link:<url>` on a store without that
   * train, as written: it succeeds, leaves a new train Unknown with no map,
   * and replies "scouted" without the link.
   */
  lemma ScoutNewerIsLost(ch: Channel, url: string, isUrl: string -> bool)
    requires isUrl(url)
    ensures var r := ScoutNewerAsWritten(EmptyDb, ch, Seraph, StB, Some(url), isUrl, {}, true, true);
      && r.result.Pass?
      && FindTrain(r.db, Seraph, StB).value.progress == Fresh
      && r.reply == Some("Seraph Stormblood Train has been scouted.")
  {
    EmptyDbWellFormed();
    var ack := (t: Train) => Title(Seraph, StB) + " has been " + ScoutText(t.progress.scoutMap);
    var r := NewerCommandAsWritten(EmptyDb, ch, Seraph, StB, ack, {}, true, true);
    assert r == ScoutNewerAsWritten(EmptyDb, ch, Seraph, StB, Some(url), isUrl, {}, true, true);
    var t := FindOrCreate(EmptyDb, Seraph, StB).1;
    assert t.progress == Fresh;
    assert Title(Seraph, StB) == "Seraph Stormblood Train";
    assert ScoutText(t.progress.scoutMap) == "scouted";
    assert ack(t) == "Seraph Stormblood Train has been scouted";
    assert r.reply == Some(MonitorMsg(ack(t), true));
    assert MonitorMsg(ack(t), true) == "Seraph Stormblood Train has been scouted.";
  }

  /** The same command, corrected: the new train is Scouted with the link. */
  lemma ScoutNewerKeepsLink(ch: Channel, url: string, isUrl: string -> bool)
    requires isUrl(url)
    ensures var r := ScoutNewer(EmptyDb, ch, Seraph, StB, Some(url), isUrl, {}, true, true);
      && r.result.Pass?
      && FindTrain(r.db, Seraph, StB).value.progress == Progress(Scouted, Some(url), None)
  {
    EmptyDbWellFormed();
    assert PriorProgress(EmptyDb, Seraph, StB) == Fresh;
  }

  // ---------------------------------------------------------------------
  // src/command/train.rs

  function ReverseKeyText(world: World, expac: Expac): string {
    ExpacName(expac) + " " + WorldName(world) + " Train"
  }

  /**
   * The common shape of the older commands after their argument checks:
   * update the train, reply that monitors are being updated, list the
   * train's monitors and refresh each with the train's new view, then edit
   * the reply into the success text. A refresh failure, of the listing query
   * or of one message, leaves the first reply standing.
   */
  function OlderCommand(db: Db, ch: Channel, world: World, expac: Expac, change: Progress -> Progress,
                        pending: string, done: string, now: Instant, faults: set<CmdStep>, deleteFaults: set<int>): (r: CmdRun)
    requires WellFormed(db) && UniqueTrains(db)
    ensures WellFormed(r.db) && UniqueTrains(r.db) && !r.dashboardsRefreshed
    ensures r.result.Pass? <==>
      && UpdateKeyed(db, world, expac, change, faults).Updated? && SayStep !in faults && ListMonitorsStep !in faults
      && EditReplyStep !in faults
      && var u := UpdateKeyed(db, world, expac, change, faults);
         RefreshAll(u.db, ch, MonitorsOf(u.db, u.train.id), SnapshotContent(u.train, now), deleteFaults).result.Pass?
    ensures r.result.Pass? ==> r.reply == Some(done)
    ensures r.result.Fail? && r.result.error.RefreshFailed? ==> r.reply == Some(pending)
    ensures UpdateKeyed(db, world, expac, change, faults).Updated? && SayStep !in faults && ListMonitorsStep in faults ==>
      && r.result == Fail(RefreshFailed(ListFailed)) && r.reply == Some(pending)
      && r.db == UpdateKeyed(db, world, expac, change, faults).db && r.chan == ch
    ensures UpdateKeyed(db, world, expac, change, faults).Updated? ==>
      var u := UpdateKeyed(db, world, expac, change, faults);
      r.db.trains == u.db.trains && r.db.dashboards == u.db.dashboards && r.db.monitors.Keys <= u.db.monitors.Keys
  {
    match UpdateKeyed(db, world, expac, change, faults)
    case NotUpdated(db1, step) => CmdRun(db1, ch, None, false, Fail(StoreFailed(step)))
    case Updated(db2, t) =>
      if SayStep in faults then CmdRun(db2, ch, None, false, Fail(ReplyFailed(SayStep)))
      else if ListMonitorsStep in faults then CmdRun(db2, ch, Some(pending), false, Fail(RefreshFailed(ListFailed)))
      else
        var rr := RefreshAll(db2, ch, MonitorsOf(db2, t.id), SnapshotContent(t, now), deleteFaults);
        if rr.result.Fail? then CmdRun(rr.db, rr.chan, Some(pending), false, Fail(RefreshFailed(rr.result.error)))
        else if EditReplyStep in faults then CmdRun(rr.db, rr.chan, Some(pending), false, Fail(ReplyFailed(EditReplyStep)))
        else CmdRun(rr.db, rr.chan, Some(done), false, Pass)
  }

  /** After a successful older command every live monitor of the train shows its new state. */
  lemma OlderSuccessShowsTrain(db: Db, ch: Channel, world: World, expac: Expac, change: Progress -> Progress,
                               pending: string, done: string, now: Instant, faults: set<CmdStep>, deleteFaults: set<int>)
    requires WellFormed(db) && UniqueTrains(db)
    requires OlderCommand(db, ch, world, expac, change, pending, done, now, faults, deleteFaults).result.Pass?
    ensures var u := UpdateKeyed(db, world, expac, change, faults);
      var r := OlderCommand(db, ch, world, expac, change, pending, done, now, faults, deleteFaults);
      && u.Updated?
      && forall m | m in MonitorsOf(u.db, u.train.id) && Ref(m) in ch.posts && Ref(m) !in ch.fetchFaults ::
           r.chan.posts[Ref(m)] == SnapshotContent(u.train, now)
  {
    var u := UpdateKeyed(db, world, expac, change, faults);
    var ms := MonitorsOf(u.db, u.train.id);
    RerenderedRefsExact(ch, ms);
    forall m | m in ms && Ref(m) in ch.posts && Ref(m) !in ch.fetchFaults
      ensures Ref(m) in RerenderedRefs(ch, ms)
    {
      var k :| 0 <= k < |ms| && ms[k] == m;
      assert Classify(ch, ms[k]) == Rerender;
    }
  }

  /** `scout` (older): the map link is checked before the store is touched, then written as given. */
  function ScoutOlder(db: Db, ch: Channel, world: World, expac: Expac, mapLink: Option<string>, isUrl: string -> bool,
                      now: Instant, faults: set<CmdStep>, deleteFaults: set<int>): (r: CmdRun)
    requires WellFormed(db) && UniqueTrains(db)
    ensures WellFormed(r.db) && UniqueTrains(r.db)
    ensures mapLink.Some? && !isUrl(mapLink.value) ==> r == CmdRun(db, ch, None, false, Fail(InvalidUrl))
    ensures r.result.Pass? ==>
      && FindTrain(r.db, world, expac).Some?
      && FindTrain(r.db, world, expac).value.progress == Scout(PriorProgress(db, world, expac), mapLink)
      && r.reply == Some("Success! " + Title(world, expac) + " marked as scouted!")
  {
    if mapLink.Some? && !isUrl(mapLink.value) then CmdRun(db, ch, None, false, Fail(InvalidUrl))
    else
      OlderCommand(db, ch, world, expac, (p: Progress) => Scout(p, mapLink),
                   ReverseKeyText(world, expac) + " marked as scouted. Updating monitors...",
                   "Success! " + Title(world, expac) + " marked as scouted!", now, faults, deleteFaults)
  }

  /** `start` (older): running with no completion; a given map link replaces the stored one, none keeps it. */
  function StartOlder(db: Db, ch: Channel, world: World, expac: Expac, mapLink: Option<string>, isUrl: string -> bool,
                      now: Instant, faults: set<CmdStep>, deleteFaults: set<int>): (r: CmdRun)
    requires WellFormed(db) && UniqueTrains(db)
    ensures WellFormed(r.db) && UniqueTrains(r.db)
    ensures mapLink.Some? && !isUrl(mapLink.value) ==> r == CmdRun(db, ch, None, false, Fail(InvalidUrl))
    ensures r.result.Pass? ==>
      && FindTrain(r.db, world, expac).Some?
      && FindTrain(r.db, world, expac).value.progress == Start(PriorProgress(db, world, expac), mapLink)
      && r.reply == Some("Success! " + ReverseKeyText(world, expac) + " marked as running!")
  {
    if mapLink.Some? && !isUrl(mapLink.value) then CmdRun(db, ch, None, false, Fail(InvalidUrl))
    else
      OlderCommand(db, ch, world, expac, (p: Progress) => Start(p, mapLink),
                   ReverseKeyText(world, expac) + " marked as running. Updating monitors...",
                   "Success! " + ReverseKeyText(world, expac) + " marked as running!", now, faults, deleteFaults)
  }

  /** `done` (older): waiting, map cleared, completed at the given time or else at `now`. */
  function DoneOlder(db: Db, ch: Channel, world: World, expac: Expac, completion: Option<Timestamp.Timestamp>,
                     now: Instant, faults: set<CmdStep>, deleteFaults: set<int>): (r: CmdRun)
    requires WellFormed(db) && UniqueTrains(db)
    ensures WellFormed(r.db) && UniqueTrains(r.db)
    ensures r.result.Pass? ==>
      var at := if completion.Some? then completion.value.seconds else now;
      && FindTrain(r.db, world, expac).Some?
      && FindTrain(r.db, world, expac).value.progress == Done(PriorProgress(db, world, expac), at)
      && r.reply == Some("Success! " + ReverseKeyText(world, expac) + " marked as complete at "
                         + Timestamp.Display(Timestamp.Timestamp(at)) + "!")
  {
    var at := completion.GetOr(Timestamp.Timestamp(now));
    OlderCommand(db, ch, world, expac, (p: Progress) => Done(p, at.seconds),
                 ReverseKeyText(world, expac) + " marked as complete at " + Timestamp.Display(at) + ". Updating monitors...",
                 "Success! " + ReverseKeyText(world, expac) + " marked as complete at " + Timestamp.Display(at) + "!",
                 now, faults, deleteFaults)
  }
}
