/**
 * The first version of the bot (src/train.rs and src/train/model.rs): one
 * `/train add|remove` command over a `trains` table written with raw SQL
 * through sqlx, keyed by guild, world and expansion.
 *
 * sqlx stores an enum that derives `sqlx::Type` as the text of its variant
 * name, unless the enum has `#[repr(i8)]`, in which case it stores the
 * integer discriminant. `World` and `Status` are therefore stored as text and
 * `Expac` as an integer. The add and remove queries, however, bind the
 * expansion as the string the user picked.
 */
module Legacy {
  import opened Base
  import opened Enums
  import opened Trains
  import opened Render
  import opened Channel

  // ---------------------------------------------------------------------
  // Enums of src/train/model.rs

  /** strum `EnumString` without options: the exact variant name. */
  function LegacyParseWorld(s: string): (r: Result<World, string>)
    ensures forall w: World :: r == Ok(w) <==> WorldName(w) == s
    ensures r.Err? ==> r.error == VariantNotFound
  {
    if s == "Halicarnassus" then Ok(Halicarnassus)
    else if s == "Maduin" then Ok(Maduin)
    else if s == "Marilith" then Ok(Marilith)
    else if s == "Seraph" then Ok(Seraph)
    else
      assert forall w: World :: WorldName(w) != s by {
        forall w: World ensures WorldName(w) != s { }
      }
      Err(VariantNotFound)
  }

  /** strum `EnumString` with `to_string`: exactly the display name, so "StB" or "stormblood" are refused. */
  function LegacyParseExpac(s: string): (r: Result<Expac, string>)
    ensures forall e: Expac :: r == Ok(e) <==> ExpacName(e) == s
    ensures r.Err? ==> r.error == VariantNotFound
  {
    if s == "A Realm Reborn" then Ok(ARR)
    else if s == "Heavensward" then Ok(HW)
    else if s == "Stormblood" then Ok(StB)
    else if s == "Shadowbringers" then Ok(ShB)
    else if s == "Endwalker" then Ok(EW)
    else
      assert forall e: Expac :: ExpacName(e) != s by {
        forall e: Expac ensures ExpacName(e) != s { }
      }
      Err(VariantNotFound)
  }

  lemma LegacyParseRoundTrip(w: World, e: Expac)
    ensures LegacyParseWorld(WorldName(w)) == Ok(w)
    ensures LegacyParseExpac(ExpacName(e)) == Ok(e)
  {
  }

  /** The `#[repr(i8)]` discriminants of this snapshot: the numbering skips 4. */
  function LegacyExpacValue(e: Expac): (v: int)
    ensures v in {2, 3, 5, 6, 7}
    ensures e == ARR <==> v == 2
    ensures e == HW <==> v == 3
    ensures e == StB <==> v == 5
    ensures e == ShB <==> v == 6
    ensures e == EW <==> v == 7
  {
    match e
    case ARR => 2
    case HW => 3
    case StB => 5
    case ShB => 6
    case EW => 7
  }

  lemma LegacyExpacValueInjective(a: Expac, b: Expac)
    ensures LegacyExpacValue(a) == LegacyExpacValue(b) ==> a == b
  {
  }

  // ---------------------------------------------------------------------
  // The trains table

  /** An SQLite value: text and integers never compare equal. */
  datatype SqlValue = SqlText(text: string) | SqlInt(n: int)

  function WorldCell(w: World): SqlValue {
    SqlText(WorldName(w))
  }

  function ExpacCell(e: Expac): SqlValue {
    SqlInt(LegacyExpacValue(e))
  }

  datatype RowKey = RowKey(guild: int, world: SqlValue, expac: SqlValue)

  datatype Row = Row(channelId: int, messageId: int, status: SqlValue, scoutMap: Option<string>, lastRun: Option<Instant>)

  type Table = map<RowKey, Row>

  /** Every row points at a message that was posted in the channel. */
  predicate RowsPosted(table: Table, ch: Channel) {
    forall k | k in table :: MessageRef(table[k].channelId, table[k].messageId) in ch.posts
  }

  /** `Train` of src/train/model.rs. */
  datatype LegacyTrain = LegacyTrain(guild: int, world: World, expac: Expac, channelId: int, messageId: int,
                                     status: Status, scoutMap: Option<Url>, lastRun: Option<Instant>)

  function KeyOf(guild: int, world: World, expac: Expac): RowKey {
    RowKey(guild, WorldCell(world), ExpacCell(expac))
  }

  /** The status column: the variant name as text. */
  function StatusFromText(v: SqlValue): (r: Option<Status>)
    ensures r.Some? ==> v == SqlText(StatusName(r.value))
  {
    if v == SqlText("Unknown") then Some(Unknown)
    else if v == SqlText("Waiting") then Some(Waiting)
    else if v == SqlText("Scouted") then Some(Scouted)
    else if v == SqlText("Running") then Some(Running)
    else None
  }

  /** `write_to_db`: `REPLACE INTO`, so the row under the train's key is overwritten. */
  function WriteToDb(table: Table, t: LegacyTrain): (table': Table)
    ensures KeyOf(t.guild, t.world, t.expac) in table'
    ensures table'.Keys == table.Keys + {KeyOf(t.guild, t.world, t.expac)}
    ensures forall k | k in table && k != KeyOf(t.guild, t.world, t.expac) :: table'[k] == table[k]
  {
    table[KeyOf(t.guild, t.world, t.expac) := Row(t.channelId, t.messageId, SqlText(StatusName(t.status)),
      if t.scoutMap.Some? then Some(t.scoutMap.value.serialization) else None, t.lastRun)]
  }

  datatype FromDbError = RowNotFound | BadStatus | BadScoutMap

  /**
   * `from_db`: the row under the key, with its scout map parsed back into a
   * URL by `parseUrl` (the url crate, not part of this model). A stored map
   * that does not parse is an error; an absent one stays absent.
   */
  function FromDb(table: Table, guild: int, world: World, expac: Expac, parseUrl: string -> Option<Url>): (r: Result<LegacyTrain, FromDbError>)
    ensures KeyOf(guild, world, expac) !in table ==> r == Err(RowNotFound)
    ensures r.Ok? ==> r.value.guild == guild && r.value.world == world && r.value.expac == expac
    ensures r.Ok? ==> (KeyOf(guild, world, expac) in table
      && (r.value.scoutMap.None? <==> table[KeyOf(guild, world, expac)].scoutMap.None?))
    ensures (KeyOf(guild, world, expac) in table && table[KeyOf(guild, world, expac)].scoutMap.Some?
      && parseUrl(table[KeyOf(guild, world, expac)].scoutMap.value).None?) ==> r.Err?
  {
    var k := KeyOf(guild, world, expac);
    if k !in table then Err(RowNotFound)
    else
      var row := table[k];
      match StatusFromText(row.status)
      case None => Err(BadStatus)
      case Some(status) =>
        if row.scoutMap.Some? && parseUrl(row.scoutMap.value).None? then Err(BadScoutMap)
        else
          var url := if row.scoutMap.Some? then Some(parseUrl(row.scoutMap.value).value) else None;
          Ok(LegacyTrain(guild, world, expac, row.channelId, row.messageId, status, url, row.lastRun))
  }

  /** Reading back what was written gives the same train, as long as a URL's serialization parses back to it. */
  lemma WriteThenRead(table: Table, t: LegacyTrain, parseUrl: string -> Option<Url>)
    requires t.scoutMap.Some? ==> parseUrl(t.scoutMap.value.serialization) == Some(t.scoutMap.value)
    ensures FromDb(WriteToDb(table, t), t.guild, t.world, t.expac, parseUrl) == Ok(t)
  {
    var row := WriteToDb(table, t)[KeyOf(t.guild, t.world, t.expac)];
    assert StatusFromText(row.status) == Some(t.status);
  }

  /** Every row sits under the key `write_to_db` gives it: world as text, expansion as an integer. */
  predicate Encoded(table: Table) {
    forall k | k in table :: k.world.SqlText? && k.expac.SqlInt?
  }

  lemma WriteKeepsEncoded(table: Table, t: LegacyTrain)
    requires Encoded(table)
    ensures Encoded(WriteToDb(table, t))
  {
  }

  // ---------------------------------------------------------------------
  // add_train and remove_train

  datatype LegacyStep = BeginTx | CountQuery | SendEmbed | WriteRow | CommitTx | DeleteQuery

  datatype LegacyError =
    | WrongOptionCount
    | NotSubCommand
    | UnexpectedName(name: string)
    | InvalidWorld
    | InvalidExpac
    | NotInServer
    | AlreadyExists(expac: string, world: string)
    | ParseFailed
    | NoKnownTrain(expac: string, world: string)
    | StepFailed(step: LegacyStep)

  /** The fixed error texts. */
  function ErrorText(e: LegacyError): string {
    match e
    case WrongOptionCount => "Expected command to have 1 option"
    case NotSubCommand => "Expected command option to be a SubCommand"
    case UnexpectedName(n) => "Unexpected SubCommand name: " + n
    case InvalidWorld => "Invalid world"
    case InvalidExpac => "Invalid expac"
    case NotInServer => "Command must be inside a server"
    case AlreadyExists(e, w) => "A " + e + " train on " + w + " already exists."
    case ParseFailed => VariantNotFound
    case NoKnownTrain(e, w) => "No known " + e + " train on " + w
    case StepFailed(_) => "database or Discord error"
  }

  function AddedText(expac: string, world: string): string {
    "Success! A " + expac + " train on " + world + " has been created!"
  }

  function RemovedText(expac: string, world: string): string {
    "Success! The " + expac + " train on " + world
      + " has been deleted.\n\nYou may now delete the message that contained the train."
  }

  /** The table, channel and reply after an add or a remove. */
  datatype LegacyRun = LegacyRun(table: Table, chan: Channel, result: Result<string, LegacyError>)

  /** The train `add_train` creates: Unknown, no map, no completion, posted in the invoking channel. */
  function InitialTrain(guild: int, world: World, expac: Expac, channelId: int): LegacyTrain {
    LegacyTrain(guild, world, expac, channelId, 0, Unknown, None, None)
  }

  /** The embed the new train is announced with; the buttons are not sent. */
  function Announcement(t: LegacyTrain, now: Instant): Content {
    Rendered(FormatEmbedAt(t.world, t.expac, Progress(t.status, None, t.lastRun), now), [])
  }

  /**
   * `add_train` as written: the duplicate check counts rows whose expansion
   * column equals the raw choice string, which no row written by
   * `write_to_db` has.
   */
  function AddTrainAsWritten(table: Table, ch: Channel, guild: int, channelId: int, expac: string, world: string,
                             now: Instant, faults: set<LegacyStep>): (r: LegacyRun)
    requires FreshIds(ch)
    ensures FreshIds(r.chan)
    ensures r.result.Err? ==> r.table == table
    ensures CountQuery !in faults && RowKey(guild, SqlText(world), SqlText(expac)) in table ==>
      r == LegacyRun(table, ch, Err(AlreadyExists(expac, world)))
    ensures CountQuery !in faults && RowKey(guild, SqlText(world), SqlText(expac)) !in table ==>
      r == CreateTrain(table, ch, guild, channelId, expac, world, now, faults)
    ensures r.result.Ok? ==>
      && CountQuery !in faults && RowKey(guild, SqlText(world), SqlText(expac)) !in table
      && LegacyParseWorld(world).Ok? && LegacyParseExpac(expac).Ok?
      && r.result.value == AddedText(expac, world)
      && r.table == WriteToDb(table, InitialTrain(guild, LegacyParseWorld(world).value, LegacyParseExpac(expac).value, channelId)
                                       .(messageId := ch.nextMessage))
  {
    if CountQuery in faults then LegacyRun(table, ch, Err(StepFailed(CountQuery)))
    else if RowKey(guild, SqlText(world), SqlText(expac)) in table then LegacyRun(table, ch, Err(AlreadyExists(expac, world)))
    else CreateTrain(table, ch, guild, channelId, expac, world, now, faults)
  }

  /** The part of `add_train` after the duplicate check: parse, announce, write. */
  function CreateTrain(table: Table, ch: Channel, guild: int, channelId: int, expac: string, world: string,
                       now: Instant, faults: set<LegacyStep>): (r: LegacyRun)
    requires FreshIds(ch)
    ensures FreshIds(r.chan)
    ensures r.result.Err? ==> r.table == table
    ensures r.result.Ok? ==>
      && LegacyParseWorld(world).Ok? && LegacyParseExpac(expac).Ok?
      && var (w, e) := (LegacyParseWorld(world).value, LegacyParseExpac(expac).value);
         && r.result.value == AddedText(expac, world)
         && var t := InitialTrain(guild, w, e, channelId).(messageId := ch.nextMessage);
         && r.chan.posts == ch.posts[MessageRef(channelId, ch.nextMessage) := Announcement(t, now)]
         && r.table == WriteToDb(table, t)
    ensures r.result.Err? && r.result != Err(StepFailed(WriteRow)) ==> r.chan == ch
    ensures r.result == Err(StepFailed(WriteRow)) ==>
      && SendEmbed !in faults && LegacyParseWorld(world).Ok? && LegacyParseExpac(expac).Ok?
      && var t := InitialTrain(guild, LegacyParseWorld(world).value, LegacyParseExpac(expac).value, channelId);
         r.chan.posts == ch.posts[MessageRef(channelId, ch.nextMessage) := Announcement(t, now)]
  {
    match (LegacyParseWorld(world), LegacyParseExpac(expac))
    case (Ok(w), Ok(e)) =>
      var t := InitialTrain(guild, w, e, channelId);
      if SendEmbed in faults then LegacyRun(table, ch, Err(StepFailed(SendEmbed)))
      else
        var (ch1, msg) := Send(ch, channelId, Announcement(t, now));
        if WriteRow in faults then LegacyRun(table, ch1, Err(StepFailed(WriteRow)))
        else LegacyRun(WriteToDb(table, t.(messageId := msg.messageId)), ch1, Ok(AddedText(expac, world)))
    case _ => LegacyRun(table, ch, Err(ParseFailed))
  }

  /** `remove_train` as written: deletes the rows whose expansion column equals the raw choice string. */
  function RemoveTrainAsWritten(table: Table, guild: int, world: string, expac: string, faults: set<LegacyStep>): (r: Result<(Table, string), LegacyError>)
    ensures r.Ok? <==> DeleteQuery !in faults && RowKey(guild, SqlText(world), SqlText(expac)) in table
    ensures r.Ok? ==> r.value.0 == table - {RowKey(guild, SqlText(world), SqlText(expac))}
  {
    var k := RowKey(guild, SqlText(world), SqlText(expac));
    if DeleteQuery in faults then Err(StepFailed(DeleteQuery))
    else if k !in table then Err(NoKnownTrain(expac, world))
    else Ok((table - {k}, RemovedText(expac, world)))
  }

  /** On a table `write_to_db` wrote, the as-written duplicate check never fires and the as-written remove never matches. */
  lemma AsWrittenNeverMatches(table: Table, guild: int, world: string, expac: string, faults: set<LegacyStep>)
    requires Encoded(table)
    ensures RowKey(guild, SqlText(world), SqlText(expac)) !in table
    ensures RemoveTrainAsWritten(table, guild, world, expac, faults).Err?
  {
  }

  /**
   * The counterexample: on an empty table, adding the Stormblood train on
   * Seraph succeeds twice, and removing it afterwards reports that there is
   * no such train.
   */
  lemma AddTwiceThenRemoveAsWritten(ch: Channel, guild: int, channelId: int, now: Instant)
    requires FreshIds(ch)
    ensures var first := AddTrainAsWritten(map[], ch, guild, channelId, "Stormblood", "Seraph", now, {});
      && first.result.Ok?
      && var second := AddTrainAsWritten(first.table, first.chan, guild, channelId, "Stormblood", "Seraph", now, {});
      && second.result.Ok?
      && RemoveTrainAsWritten(second.table, guild, "Seraph", "Stormblood", {}) == Err(NoKnownTrain("Stormblood", "Seraph"))
  {
    var first := AddTrainAsWritten(map[], ch, guild, channelId, "Stormblood", "Seraph", now, {});
    WriteKeepsEncoded(map[], InitialTrain(guild, Seraph, StB, channelId).(messageId := ch.nextMessage));
    AsWrittenNeverMatches(first.table, guild, "Seraph", "Stormblood", {});
    var second := AddTrainAsWritten(first.table, first.chan, guild, channelId, "Stormblood", "Seraph", now, {});
    WriteKeepsEncoded(first.table, InitialTrain(guild, Seraph, StB, channelId).(messageId := first.chan.nextMessage));
    AsWrittenNeverMatches(second.table, guild, "Seraph", "Stormblood", {});
  }

  /** The key a choice pair denotes, if both strings name a variant. */
  function ChoiceKey(guild: int, world: string, expac: string): (k: Option<RowKey>)
    ensures k.Some? <==> LegacyParseWorld(world).Ok? && LegacyParseExpac(expac).Ok?
    ensures k.Some? ==> k.value == KeyOf(guild, LegacyParseWorld(world).value, LegacyParseExpac(expac).value)
  {
    match (LegacyParseWorld(world), LegacyParseExpac(expac))
    case (Ok(w), Ok(e)) => Some(KeyOf(guild, w, e))
    case _ => None
  }

  /** `add_train` with the duplicate check on the key the row is written under. */
  function AddTrain(table: Table, ch: Channel, guild: int, channelId: int, expac: string, world: string,
                    now: Instant, faults: set<LegacyStep>): (r: LegacyRun)
    requires FreshIds(ch)
    ensures FreshIds(r.chan)
    ensures r.result.Err? ==> r.table == table
    ensures CountQuery !in faults && ChoiceKey(guild, world, expac).Some? && ChoiceKey(guild, world, expac).value in table ==>
      r == LegacyRun(table, ch, Err(AlreadyExists(expac, world)))
    ensures r.result.Ok? ==>
      && ChoiceKey(guild, world, expac).Some? && ChoiceKey(guild, world, expac).value !in table
      && r.table.Keys == table.Keys + {ChoiceKey(guild, world, expac).value}
      && (forall k | k in table :: r.table[k] == table[k])
      && r.result.value == AddedText(expac, world)
  {
    if CountQuery in faults then LegacyRun(table, ch, Err(StepFailed(CountQuery)))
    else if ChoiceKey(guild, world, expac).Some? && ChoiceKey(guild, world, expac).value in table then
      LegacyRun(table, ch, Err(AlreadyExists(expac, world)))
    else CreateTrain(table, ch, guild, channelId, expac, world, now, faults)
  }

  /** `remove_train` deleting by the key the row is written under: it succeeds iff that train exists. */
  function RemoveTrain(table: Table, guild: int, world: string, expac: string, faults: set<LegacyStep>): (r: Result<(Table, string), LegacyError>)
    ensures r.Ok? <==> DeleteQuery !in faults && ChoiceKey(guild, world, expac).Some? && ChoiceKey(guild, world, expac).value in table
    ensures r.Ok? ==> r.value.0 == table - {ChoiceKey(guild, world, expac).value} && r.value.1 == RemovedText(expac, world)
    ensures r.Err? && DeleteQuery !in faults ==> r.error == NoKnownTrain(expac, world)
  {
    if DeleteQuery in faults then Err(StepFailed(DeleteQuery))
    else match ChoiceKey(guild, world, expac)
      case Some(k) => if k in table then Ok((table - {k}, RemovedText(expac, world))) else Err(NoKnownTrain(expac, world))
      case None => Err(NoKnownTrain(expac, world))
  }

  /** With the corrected check, a second add of the same train is refused, and a remove after an add succeeds. */
  lemma AddTwiceThenRemove(table: Table, ch: Channel, guild: int, channelId: int, w: World, e: Expac, now: Instant)
    requires FreshIds(ch)
    requires KeyOf(guild, w, e) !in table
    ensures var first := AddTrain(table, ch, guild, channelId, ExpacName(e), WorldName(w), now, {});
      && first.result.Ok?
      && AddTrain(first.table, first.chan, guild, channelId, ExpacName(e), WorldName(w), now, {}).result
         == Err(AlreadyExists(ExpacName(e), WorldName(w)))
      && RemoveTrain(first.table, guild, WorldName(w), ExpacName(e), {}) == Ok((table, RemovedText(ExpacName(e), WorldName(w))))
  {
    LegacyParseRoundTrip(w, e);
    var k := KeyOf(guild, w, e);
    assert ChoiceKey(guild, WorldName(w), ExpacName(e)) == Some(k);
    var first := AddTrain(table, ch, guild, channelId, ExpacName(e), WorldName(w), now, {});
    assert first.result.Ok? && first.table.Keys == table.Keys + {k};
    assert first.table - {k} == table;
  }

  // ---------------------------------------------------------------------
  // handle_command, handle_add, handle_remove

  datatype OptionKind = SubCommandKind | StringKind | OtherKind

  /** A resolved option value: only strings matter here. */
  datatype OptValue = StrValue(s: string) | OtherValue

  datatype SubOption = SubOption(name: string, resolved: Option<OptValue>)

  datatype CmdOption = CmdOption(name: string, kind: OptionKind, options: seq<SubOption>)

  /**
   * The option named `name`, as `params.get(name)` finds it after the
   * options were collected into a `HashMap`: a later duplicate replaces an
   * earlier one, so the last one wins.
   */
  function Param(opts: seq<SubOption>, name: string): (r: Option<SubOption>)
    ensures r.None? <==> forall i | 0 <= i < |opts| :: opts[i].name != name
    ensures r.Some? ==> exists i | 0 <= i < |opts| :: (opts[i] == r.value && r.value.name == name
      && forall j | i < j < |opts| :: opts[j].name != name)
  {
    var i := LastIndexBelow(opts, name, |opts|);
    if i < 0 then None else Some(opts[i])
  }

  /** The position of the last option named `name` among the first `n`, or -1 when there is none. */
  function LastIndexBelow(opts: seq<SubOption>, name: string, n: nat): (i: int)
    requires n <= |opts|
    ensures -1 <= i < n
    ensures i >= 0 ==> opts[i].name == name
    ensures forall j | i < j < n :: opts[j].name != name
  {
    if n == 0 then -1
    else if opts[n - 1].name == name then n - 1
    else LastIndexBelow(opts, name, n - 1)
  }

  /** The string a parameter resolved to, if it is present and is a string. */
  function StringParam(opts: seq<SubOption>, name: string): (r: Option<string>)
    ensures r.Some? <==> Param(opts, name).Some? && Param(opts, name).value.resolved.Some?
                         && Param(opts, name).value.resolved.value.StrValue?
    ensures r.Some? ==> r.value == Param(opts, name).value.resolved.value.s
  {
    match Param(opts, name)
    case Some(SubOption(_, Some(StrValue(v)))) => Some(v)
    case _ => None
  }

  /** The world and expansion strings and the guild of a subcommand, once every one is present. */
  function AddArgs(sub: CmdOption, guild: Option<int>): (r: Result<(string, string, int), LegacyError>)
    ensures StringParam(sub.options, "world").None? ==> r == Err(InvalidWorld)
    ensures StringParam(sub.options, "world").Some? && StringParam(sub.options, "expac").None? ==> r == Err(InvalidExpac)
    ensures r.Ok? <==> StringParam(sub.options, "world").Some? && StringParam(sub.options, "expac").Some? && guild.Some?
    ensures r.Ok? ==> r.value == (StringParam(sub.options, "world").value, StringParam(sub.options, "expac").value, guild.value)
    ensures r.Err? ==> r.error in {InvalidWorld, InvalidExpac, NotInServer}
  {
    match (StringParam(sub.options, "world"), StringParam(sub.options, "expac"), guild)
    case (None, _, _) => Err(InvalidWorld)
    case (Some(_), None, _) => Err(InvalidExpac)
    case (Some(_), Some(_), None) => Err(NotInServer)
    case (Some(world), Some(expac), Some(g)) => Ok((world, expac, g))
  }

  /**
   * `handle_add`: world and expansion must be string options and the command
   * must come from a guild; `add_train` as written runs in a transaction that
   * is committed only if it succeeds, so a failed add leaves the table as it
   * was.
   */
  function HandleAdd(table: Table, ch: Channel, sub: CmdOption, guild: Option<int>, channelId: int,
                     now: Instant, faults: set<LegacyStep>): (r: LegacyRun)
    requires FreshIds(ch)
    ensures FreshIds(r.chan)
    ensures r.result.Err? ==> r.table == table
    ensures AddArgs(sub, guild).Err? ==> r == LegacyRun(table, ch, Err(AddArgs(sub, guild).error))
    ensures AddArgs(sub, guild).Ok? && BeginTx !in faults && CommitTx !in faults ==>
      var (world, expac, g) := AddArgs(sub, guild).value;
      r == AddTrainAsWritten(table, ch, g, channelId, expac, world, now, faults)
    ensures r.result.Ok? ==>
      var (world, expac, g) := AddArgs(sub, guild).value;
      && ChoiceKey(g, world, expac).Some?
      && RowKey(g, SqlText(world), SqlText(expac)) !in table
      && r.table == WriteToDb(table, InitialTrain(g, LegacyParseWorld(world).value, LegacyParseExpac(expac).value, channelId)
                                       .(messageId := ch.nextMessage))
      && r.table.Keys == table.Keys + {ChoiceKey(g, world, expac).value}
      && r.result.value == AddedText(expac, world)
  {
    match AddArgs(sub, guild)
    case Err(e) => LegacyRun(table, ch, Err(e))
    case Ok((world, expac, g)) =>
      if BeginTx in faults then LegacyRun(table, ch, Err(StepFailed(BeginTx)))
      else
        var added := AddTrainAsWritten(table, ch, g, channelId, expac, world, now, faults);
        if added.result.Err? then LegacyRun(table, added.chan, added.result)
        else if CommitTx in faults then LegacyRun(table, added.chan, Err(StepFailed(CommitTx)))
        else added
  }

  /** `handle_remove`: the same argument checks, then `remove_train` as written, outside any transaction. */
  function HandleRemove(table: Table, ch: Channel, sub: CmdOption, guild: Option<int>, faults: set<LegacyStep>): (r: LegacyRun)
    ensures r.chan == ch
    ensures r.result.Err? ==> r.table == table
    ensures AddArgs(sub, guild).Err? ==> r.result == Err(AddArgs(sub, guild).error)
    ensures r.result.Ok? <==>
      && AddArgs(sub, guild).Ok? && DeleteQuery !in faults
      && var (world, expac, g) := AddArgs(sub, guild).value;
         RowKey(g, SqlText(world), SqlText(expac)) in table
    ensures r.result.Ok? ==>
      var (world, expac, g) := AddArgs(sub, guild).value;
      && r.table == table - {RowKey(g, SqlText(world), SqlText(expac))}
      && r.result.value == RemovedText(expac, world)
  {
    match AddArgs(sub, guild)
    case Err(e) => LegacyRun(table, ch, Err(e))
    case Ok((world, expac, g)) =>
      match RemoveTrainAsWritten(table, g, world, expac, faults)
      case Ok((t, text)) => LegacyRun(t, ch, Ok(text))
      case Err(e) => LegacyRun(table, ch, Err(e))
  }

  /**
   * On a table that `write_to_db` wrote, the handlers as written never see a
   * duplicate and never delete: an add is never refused as already existing,
   * the table stays encoded, and a remove always fails and changes nothing.
   */
  lemma HandlersAsWrittenOnEncoded(table: Table, ch: Channel, sub: CmdOption, guild: Option<int>, channelId: int,
                                   now: Instant, faults: set<LegacyStep>)
    requires FreshIds(ch) && Encoded(table)
    ensures var r := HandleAdd(table, ch, sub, guild, channelId, now, faults);
      && Encoded(r.table)
      && !(r.result.Err? && r.result.error.AlreadyExists?)
    ensures var r := HandleRemove(table, ch, sub, guild, faults);
      && r.result.Err? && r.table == table
  {
    var r := HandleAdd(table, ch, sub, guild, channelId, now, faults);
    if AddArgs(sub, guild).Ok? {
      var (world, expac, g) := AddArgs(sub, guild).value;
      AsWrittenNeverMatches(table, g, world, expac, faults);
      if r.result.Ok? {
        WriteKeepsEncoded(table, InitialTrain(g, LegacyParseWorld(world).value, LegacyParseExpac(expac).value, channelId)
                                   .(messageId := ch.nextMessage));
      }
    }
  }

  /** `handle_add` over the corrected `add_train`: the duplicate check uses the key the row is written under. */
  function HandleAddCorrected(table: Table, ch: Channel, sub: CmdOption, guild: Option<int>, channelId: int,
                              now: Instant, faults: set<LegacyStep>): (r: LegacyRun)
    requires FreshIds(ch)
    ensures FreshIds(r.chan)
    ensures r.result.Err? ==> r.table == table
    ensures AddArgs(sub, guild).Err? ==> r == LegacyRun(table, ch, Err(AddArgs(sub, guild).error))
    ensures r.result.Ok? ==>
      var (world, expac, g) := AddArgs(sub, guild).value;
      && ChoiceKey(g, world, expac).Some?
      && ChoiceKey(g, world, expac).value !in table
      && r.table.Keys == table.Keys + {ChoiceKey(g, world, expac).value}
      && (forall k | k in table :: r.table[k] == table[k])
      && r.result.value == AddedText(expac, world)
    ensures AddArgs(sub, guild).Ok? && BeginTx !in faults && CountQuery !in faults ==>
      var (world, expac, g) := AddArgs(sub, guild).value;
      ChoiceKey(g, world, expac).Some? && ChoiceKey(g, world, expac).value in table ==>
        r == LegacyRun(table, ch, Err(AlreadyExists(expac, world)))
  {
    match AddArgs(sub, guild)
    case Err(e) => LegacyRun(table, ch, Err(e))
    case Ok((world, expac, g)) =>
      if BeginTx in faults then LegacyRun(table, ch, Err(StepFailed(BeginTx)))
      else
        var added := AddTrain(table, ch, g, channelId, expac, world, now, faults);
        if added.result.Err? then LegacyRun(table, added.chan, added.result)
        else if CommitTx in faults then LegacyRun(table, added.chan, Err(StepFailed(CommitTx)))
        else added
  }

  /** `handle_remove` over the corrected `remove_train`: success deletes exactly the named train's row. */
  function HandleRemoveCorrected(table: Table, ch: Channel, sub: CmdOption, guild: Option<int>, faults: set<LegacyStep>): (r: LegacyRun)
    ensures r.chan == ch
    ensures r.result.Err? ==> r.table == table
    ensures AddArgs(sub, guild).Err? ==> r.result == Err(AddArgs(sub, guild).error)
    ensures r.result.Ok? <==>
      && AddArgs(sub, guild).Ok? && DeleteQuery !in faults
      && var (world, expac, g) := AddArgs(sub, guild).value;
         ChoiceKey(g, world, expac).Some? && ChoiceKey(g, world, expac).value in table
    ensures r.result.Ok? ==>
      var (world, expac, g) := AddArgs(sub, guild).value;
      r.table == table - {ChoiceKey(g, world, expac).value}
  {
    match AddArgs(sub, guild)
    case Err(e) => LegacyRun(table, ch, Err(e))
    case Ok((world, expac, g)) =>
      match RemoveTrain(table, g, world, expac, faults)
      case Ok((t, text)) => LegacyRun(t, ch, Ok(text))
      case Err(e) => LegacyRun(table, ch, Err(e))
  }

  /** With the corrected handlers, a remove right after a successful add takes the table back to where it was. */
  lemma CorrectedAddThenRemove(table: Table, ch: Channel, sub: CmdOption, guild: Option<int>, channelId: int,
                               now: Instant, faults: set<LegacyStep>)
    requires FreshIds(ch) && DeleteQuery !in faults
    requires HandleAddCorrected(table, ch, sub, guild, channelId, now, faults).result.Ok?
    ensures var added := HandleAddCorrected(table, ch, sub, guild, channelId, now, faults);
      && HandleRemoveCorrected(added.table, added.chan, sub, guild, faults).result.Ok?
      && HandleRemoveCorrected(added.table, added.chan, sub, guild, faults).table == table
  {
    var added := HandleAddCorrected(table, ch, sub, guild, channelId, now, faults);
    var (world, expac, g) := AddArgs(sub, guild).value;
    var k := ChoiceKey(g, world, expac).value;
    var removed := HandleRemoveCorrected(added.table, added.chan, sub, guild, faults);
    assert removed.result.Ok?;
    assert removed.table == added.table - {k};
    assert (added.table - {k}).Keys == table.Keys;
  }

  /** `handle_command`: exactly one option, a subcommand, named "add" or "remove". */
  function HandleCommand(table: Table, ch: Channel, options: seq<CmdOption>, guild: Option<int>, channelId: int,
                         now: Instant, faults: set<LegacyStep>): (r: LegacyRun)
    requires FreshIds(ch)
    ensures FreshIds(r.chan)
    ensures r.result.Err? ==> r.table == table
    ensures |options| != 1 ==> r == LegacyRun(table, ch, Err(WrongOptionCount))
    ensures |options| == 1 && options[0].kind != SubCommandKind ==> r == LegacyRun(table, ch, Err(NotSubCommand))
    ensures |options| == 1 && options[0].kind == SubCommandKind ==>
      && (options[0].name == "add" ==> r == HandleAdd(table, ch, options[0], guild, channelId, now, faults))
      && (options[0].name == "remove" ==> r == HandleRemove(table, ch, options[0], guild, faults))
      && (options[0].name !in {"add", "remove"} ==> r == LegacyRun(table, ch, Err(UnexpectedName(options[0].name))))
  {
    if |options| != 1 then LegacyRun(table, ch, Err(WrongOptionCount))
    else if options[0].kind != SubCommandKind then LegacyRun(table, ch, Err(NotSubCommand))
    else if options[0].name == "add" then HandleAdd(table, ch, options[0], guild, channelId, now, faults)
    else if options[0].name == "remove" then HandleRemove(table, ch, options[0], guild, faults)
    else LegacyRun(table, ch, Err(UnexpectedName(options[0].name)))
  }

  /**
   * `add_train` announces the train before `write_to_db`, and `handle_add`
   * commits only afterwards. So when the row write or the commit fails, the
   * transaction rolls the table back but the announcement stays posted, in a
   * new message no row points at. This holds for the handler as written and
   * for the corrected one.
   */
  lemma AddFailureLeavesAnnouncement(table: Table, ch: Channel, sub: CmdOption, guild: Option<int>, channelId: int,
                                     now: Instant, faults: set<LegacyStep>)
    requires FreshIds(ch) && RowsPosted(table, ch)
    requires AddArgs(sub, guild).Ok?
    requires BeginTx !in faults && CountQuery !in faults && SendEmbed !in faults
    requires WriteRow in faults || CommitTx in faults
    requires var (world, expac, g) := AddArgs(sub, guild).value;
      && ChoiceKey(g, world, expac).Some? && ChoiceKey(g, world, expac).value !in table
      && RowKey(g, SqlText(world), SqlText(expac)) !in table
    ensures var r := HandleAdd(table, ch, sub, guild, channelId, now, faults);
      var m := MessageRef(channelId, ch.nextMessage);
      && r.result.Err? && r.table == table
      && m !in ch.posts && m in r.chan.posts && r.chan.posts.Keys == ch.posts.Keys + {m}
      && forall k | k in r.table :: MessageRef(r.table[k].channelId, r.table[k].messageId) != m
    ensures var r := HandleAddCorrected(table, ch, sub, guild, channelId, now, faults);
      var m := MessageRef(channelId, ch.nextMessage);
      && r.result.Err? && r.table == table
      && m !in ch.posts && m in r.chan.posts && r.chan.posts.Keys == ch.posts.Keys + {m}
      && forall k | k in r.table :: MessageRef(r.table[k].channelId, r.table[k].messageId) != m
  {
  }
}
