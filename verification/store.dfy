/**
 * The relational store, abstracted to one map from id to record per table
 * with SQLite-style increasing ids, and a transaction as a pending copy of
 * the store that `commit` publishes and a rollback drops.
 *
 * No unique constraint on (world, expac) is declared in the schema, so the
 * one-train-per-key property is an invariant that `find_or_create` keeps
 * under sequential calls, not a guarantee of the database.
 */
module Store {
  import opened Base
  import opened Enums
  import opened Trains

  /** A `monitors` row: one message bound to one train (entity/src/monitor.rs). */
  datatype Monitor = Monitor(id: int, messageId: int, channelId: int, trainId: int)

  /** A `dashboards` row: one message summarising every train (entity/src/dashboard.rs). */
  datatype Dashboard = Dashboard(id: int, messageId: int, channelId: int)

  datatype Db = Db(
    trains: map<int, Train>, nextTrain: int,
    monitors: map<int, Monitor>, nextMonitor: int,
    dashboards: map<int, Dashboard>, nextDashboard: int)

  const EmptyDb: Db := Db(map[], 1, map[], 1, map[], 1)

  /** Every row is stored under its own id, and ids already handed out lie below the counter. */
  predicate WellFormed(db: Db) {
    && 1 <= db.nextTrain && 1 <= db.nextMonitor && 1 <= db.nextDashboard
    && (forall id | id in db.trains :: db.trains[id].id == id && 1 <= id < db.nextTrain)
    && (forall id | id in db.monitors :: db.monitors[id].id == id && 1 <= id < db.nextMonitor)
    && (forall id | id in db.dashboards :: db.dashboards[id].id == id && 1 <= id < db.nextDashboard)
  }

  /** At most one train per (world, expac). */
  predicate UniqueTrains(db: Db) {
    forall a, b | a in db.trains && b in db.trains && a != b ::
      !(db.trains[a].world == db.trains[b].world && db.trains[a].expac == db.trains[b].expac)
  }

  predicate HasTrain(db: Db, world: World, expac: Expac) {
    exists id | id in db.trains :: SameKey(db.trains[id], world, expac)
  }

  lemma EmptyDbWellFormed()
    ensures WellFormed(EmptyDb) && UniqueTrains(EmptyDb)
  {
  }

  // ---------------------------------------------------------------------
  // Transactions

  /** An open transaction: the store as last committed and the pending writes on top. */
  datatype Tx = Tx(committed: Db, pending: Db)

  function Begin(db: Db): Tx {
    Tx(db, db)
  }

  /** `commit`: publishes the pending store when it succeeds; otherwise the transaction rolls back. */
  function Commit(tx: Tx, succeeds: bool): (db: Db)
    ensures succeeds ==> db == tx.pending
    ensures !succeeds ==> db == tx.committed
  {
    if succeeds then tx.pending else tx.committed
  }

  // ---------------------------------------------------------------------
  // Queries

  /** The first train with key (world, expac) among the ids `lo` up to `hi`, scanning upwards. */
  function FindFrom(trains: map<int, Train>, world: World, expac: Expac, lo: int, hi: int): (r: Option<Train>)
    requires forall id | id in trains :: trains[id].id == id
    ensures r.Some? ==> r.value.id in trains && trains[r.value.id] == r.value && SameKey(r.value, world, expac)
    ensures r.Some? ==> forall id | lo <= id < r.value.id && id in trains :: !SameKey(trains[id], world, expac)
    ensures r.None? ==> (forall id | lo <= id < hi && id in trains :: !SameKey(trains[id], world, expac))
    decreases hi - lo
  {
    if lo >= hi then None
    else if lo in trains && SameKey(trains[lo], world, expac) then Some(trains[lo])
    else FindFrom(trains, world, expac, lo + 1, hi)
  }

  /** `Entity::find().filter(world = .. and expac = ..).one(..)`. */
  function FindTrain(db: Db, world: World, expac: Expac): (r: Option<Train>)
    requires WellFormed(db)
    ensures r.Some? ==> r.value.id in db.trains && db.trains[r.value.id] == r.value && SameKey(r.value, world, expac)
    ensures r.None? <==> !HasTrain(db, world, expac)
  {
    FindFrom(db.trains, world, expac, 1, db.nextTrain)
  }

  /** Under the uniqueness invariant the match is the one train with that key. */
  lemma FindTrainUnique(db: Db, t: Train)
    requires WellFormed(db) && UniqueTrains(db)
    requires t.id in db.trains && db.trains[t.id] == t
    ensures FindTrain(db, t.world, t.expac) == Some(t)
  {
  }

  /** `find_or_create`: the existing train with that key, or a new Unknown one inserted. */
  function FindOrCreate(db: Db, world: World, expac: Expac): (r: (Db, Train))
    requires WellFormed(db)
    ensures WellFormed(r.0)
    ensures SameKey(r.1, world, expac) && r.1.id in r.0.trains && r.0.trains[r.1.id] == r.1
    ensures HasTrain(db, world, expac) ==> r.0 == db
    ensures !HasTrain(db, world, expac) ==>
      && r.1.id !in db.trains && r.1.progress == Fresh
      && r.0 == db.(trains := db.trains[r.1.id := r.1], nextTrain := db.nextTrain + 1)
    ensures UniqueTrains(db) ==> UniqueTrains(r.0)
  {
    match FindTrain(db, world, expac)
    case Some(t) => (db, t)
    case None =>
      var t := Train(db.nextTrain, world, expac, Fresh);
      (db.(trains := db.trains[t.id := t], nextTrain := db.nextTrain + 1), t)
  }

  /** A second `find_or_create` for the same key finds what the first one returned and inserts nothing. */
  lemma FindOrCreateTwice(db: Db, world: World, expac: Expac)
    requires WellFormed(db) && UniqueTrains(db)
    ensures var (db1, t1) := FindOrCreate(db, world, expac);
            FindOrCreate(db1, world, expac) == (db1, t1)
    ensures |FindOrCreate(db, world, expac).0.trains| <= |db.trains| + 1
  {
    var (db1, t1) := FindOrCreate(db, world, expac);
    FindTrainUnique(db1, t1);
  }

  /** The rows of a table with ids in `lo` up to `hi`, in id order, that satisfy `keep`. */
  function TrainsFrom(trains: map<int, Train>, keep: Train -> bool, lo: int, hi: int): (ts: seq<Train>)
    ensures forall i | 0 <= i < |ts| :: ts[i] in trains.Values && keep(ts[i])
    ensures (forall id | lo <= id < hi && id in trains && keep(trains[id]) :: trains[id] in ts)
    decreases hi - lo
  {
    if lo >= hi then []
    else if lo in trains && keep(trains[lo]) then [trains[lo]] + TrainsFrom(trains, keep, lo + 1, hi)
    else TrainsFrom(trains, keep, lo + 1, hi)
  }

  /** `train::Entity::find().filter(world != excluded).all(..)`: every train outside one world. */
  function TrainsExcept(db: Db, excluded: World): (ts: seq<Train>)
    requires WellFormed(db)
    ensures forall i | 0 <= i < |ts| :: ts[i] in db.trains.Values && ts[i].world != excluded
    ensures forall t | t in db.trains.Values && t.world != excluded :: t in ts
  {
    TrainsFrom(db.trains, (t: Train) => t.world != excluded, 1, db.nextTrain)
  }

  function MonitorsFrom(monitors: map<int, Monitor>, trainId: int, lo: int, hi: int): (ms: seq<Monitor>)
    requires forall id | id in monitors :: monitors[id].id == id
    ensures forall i | 0 <= i < |ms| :: ms[i].id in monitors && monitors[ms[i].id] == ms[i] && ms[i].trainId == trainId
    ensures forall i | 0 <= i < |ms| :: lo <= ms[i].id < hi
    ensures forall i, j | 0 <= i < j < |ms| :: ms[i].id < ms[j].id
    ensures (forall id | lo <= id < hi && id in monitors && monitors[id].trainId == trainId :: monitors[id] in ms)
    decreases hi - lo
  {
    if lo >= hi then []
    else if lo in monitors && monitors[lo].trainId == trainId then
      [monitors[lo]] + MonitorsFrom(monitors, trainId, lo + 1, hi)
    else MonitorsFrom(monitors, trainId, lo + 1, hi)
  }

  /** `train.find_related(monitor::Entity).all(..)`: the train's monitors in id order. */
  function MonitorsOf(db: Db, trainId: int): (ms: seq<Monitor>)
    requires WellFormed(db)
    ensures forall i | 0 <= i < |ms| :: ms[i].id in db.monitors && db.monitors[ms[i].id] == ms[i] && ms[i].trainId == trainId
    ensures forall i, j | 0 <= i < j < |ms| :: ms[i].id < ms[j].id
    ensures forall id | id in db.monitors && db.monitors[id].trainId == trainId :: db.monitors[id] in ms
  {
    MonitorsFrom(db.monitors, trainId, 1, db.nextMonitor)
  }

  // ---------------------------------------------------------------------
  // Writes

  /** `ActiveModel::update` of a train: its row takes the new state, nothing else changes. */
  function UpdateTrain(db: Db, t: Train): (db': Db)
    requires t.id in db.trains
    ensures db'.trains == db.trains[t.id := t] && db'.trains.Keys == db.trains.Keys
    ensures db'.monitors == db.monitors && db'.dashboards == db.dashboards
  {
    db.(trains := db.trains[t.id := t])
  }

  function InsertMonitor(db: Db, channelId: int, messageId: int, trainId: int): (r: (Db, Monitor))
    requires WellFormed(db)
    ensures WellFormed(r.0)
    ensures r.1 == Monitor(r.1.id, messageId, channelId, trainId) && r.1.id !in db.monitors
    ensures r.0.monitors == db.monitors[r.1.id := r.1] && r.0.trains == db.trains && r.0.dashboards == db.dashboards
  {
    var m := Monitor(db.nextMonitor, messageId, channelId, trainId);
    (db.(monitors := db.monitors[m.id := m], nextMonitor := db.nextMonitor + 1), m)
  }

  function InsertDashboard(db: Db, channelId: int, messageId: int): (r: (Db, Dashboard))
    requires WellFormed(db)
    ensures WellFormed(r.0)
    ensures r.1 == Dashboard(r.1.id, messageId, channelId) && r.1.id !in db.dashboards
    ensures r.0.dashboards == db.dashboards[r.1.id := r.1] && r.0.trains == db.trains && r.0.monitors == db.monitors
  {
    var d := Dashboard(db.nextDashboard, messageId, channelId);
    (db.(dashboards := db.dashboards[d.id := d], nextDashboard := db.nextDashboard + 1), d)
  }

  /** `monitor.delete(..)`: the one row goes; trains are never touched. */
  function DeleteMonitor(db: Db, id: int): (db': Db)
    requires WellFormed(db)
    ensures WellFormed(db')
    ensures db'.monitors.Keys == db.monitors.Keys - {id}
    ensures forall k | k in db'.monitors :: db'.monitors[k] == db.monitors[k]
    ensures db'.trains == db.trains && db'.dashboards == db.dashboards
  {
    db.(monitors := db.monitors - {id})
  }
}
