# Hunt-train bookkeeping of starbot, in Dafny

starbot is a Discord bot that tracks hunt trains for Final Fantasy XIV. A hunt
train is identified by a world and an expansion, and it moves through four
states: Unknown, Waiting, Scouted and Running. Slash commands move a train
between these states. Monitor posts show one train's state. Dashboard posts
list every train. After each change the bot re-renders the posts.

This project models three snapshots of that core:

- **The sea-orm snapshot.**
  - Code: `src/command/train.rs` and `src/model/train.rs`; the newer commands in `src/train/command.rs` over `entity/src/train.rs`.
  - Data: a `trains` table, plus `monitors` and `dashboards` tables that point at Discord messages.
  - Operations:
    - `find_or_create` by (world, expac);
    - `create_monitor` and `create_dashboard`, each under the "send a placeholder, insert, commit, then fill in" protocol;
    - `scout`, `start` and `done`, which update the train and then refresh its posts. As written, the newer versions write no column (see Findings); the model has them both as written and corrected;
    - `refresh_monitors`, which prunes stale posts and re-renders live ones.
- **The argument parsers** (`src/model.rs`, `src/command/argument.rs`).
  - `World` and `Expac` are slash-command choices and case-insensitive strum enums.
  - `Timestamp` is a bare seconds count or a Discord `<t:N:style>`.
- **The first, sqlx snapshot** (`src/train.rs`, `src/train/model.rs`). It has one `/train add|remove` command over a `trains` table keyed by guild, world and expansion.

Modules, one per file:

| module | file | what it holds |
|---|---|---|
| `Base` | base.dfy | `Option`, `Result`, `Outcome` and a string prefix test |
| `Decimal` | decimal.dfy | Rust's integer `Display` and `str::parse::<i64>` |
| `Enums` | enums.dfy | `Status`, `World`, `Expac`: strum parsing, `ActiveEnum` codecs, slash-command choices |
| `Timestamp` | timestamp.dfy | the `Timestamp` argument: extraction and display |
| `Trains` | train.dfy | the train record and its state machine, in method form and in command form |
| `Render` | render.dfy | embeds and button rows of every snapshot, as pure functions of the train and the clock |
| `Store` | store.dfy | the tables as id-keyed maps, transactions, queries and writes |
| `Channel` | channel.dfy | a Discord channel as the set of live messages, with failures given as inputs |
| `Publish` | publish.dfy | `create_monitor` (both versions) and `create_dashboard` |
| `Refresh` | refresh.dfy | `refresh_monitors` of the sea-orm snapshot |
| `Commands` | commands.dfy | `scout`, `start` and `done`, in both versions |
| `Legacy` | legacy.dfy | the sqlx snapshot: its enums, `from_db`/`write_to_db`, `add_train`/`remove_train` and the handlers |

Modelling conventions:

- **Faults as inputs.** Every database or Discord call of the modelled commands that can fail does so according to an input set of steps. This includes the query that lists a train's monitors and the newer commands' `ctx.defer()`. Each command is modelled along every failure path as well as the happy one. In the newer snapshot the placeholder is posted by `ctx.say` and then fetched by `into_message`, two fallible calls; a failure of the second leaves the placeholder posted. Calls into code outside this model (the newer refreshes) are represented by their outcomes.
- **Clock as a parameter.** The clock (`Utc::now()`) is a parameter `now`.
- **URL validity as an oracle.** URL validity is a predicate parameter, because the url crate is not part of this model.
- **Code over documentation.** Where the code and the documented behaviour disagree, the model follows the code:
  - `refresh_monitors` stops at the first fetch or edit failure that is not a stale message. It does not attempt the remaining monitors.
  - The `scout`, `start` and `done` commands run `find_or_create` and the update on the plain connection, not in a transaction. A train that `find_or_create` inserts therefore stays even when the update fails.

## Model

| member | source | states |
|---|---|---|
| Decimal.IntToString | src/command/argument.rs:72-75 | an integer is written as digits, with a `-` before negative values |
| Decimal.ParseI64 | src/command/argument.rs:47-51 | the empty string is `Empty`; the text parses exactly when it is an optional sign and a non-empty run of digits whose magnitude fits the `i64` of that sign, and the value is that magnitude with the sign; it is the overflow error of its sign exactly when some run of digits at the front of the magnitude already exceeds the bound, even if a non-digit follows; every other input, a lone sign included, is `InvalidDigit` |
| Decimal.Scan | src/command/argument.rs:47-51 | the per-digit loop of the integer parser succeeds exactly when every remaining character is a digit and the whole magnitude is within the bound, with that magnitude; it stops with overflow exactly when some all-digit prefix passes the bound; otherwise with `InvalidDigit` |
| Decimal.OverflowBeforeBadDigit | src/command/argument.rs:47-51 | twenty nines followed by `x` is a positive overflow, not an invalid digit |
| Decimal.ParseI64OfIntToString | src/command/argument.rs:47-75 | parsing the decimal spelling of any `i64` gives it back |
| Decimal.DigitsValueOfNatToString | src/command/argument.rs:72-75 | the digits written for a natural number have that value |
| Enums.Lookup | src/model.rs:11-18 | a lookup finds a variant one of whose names matches ignoring ASCII case, and fails only when no variant matches |
| Enums.LookupIgnoresCase | src/model.rs:12 | two spellings equal up to ASCII case look up the same variant |
| Enums.AsU64 | src/model.rs:27-31 | an option value is a choice index exactly when it is a JSON integer in the `u64` range |
| Enums.ExtractChoice | src/model.rs:22-38 | a non-integer is "expected u64", an index past the variants is "argument out of range", and any other index selects that variant in declaration order |
| Enums.Choices | src/model.rs:44-54 | one choice per variant, in declaration order, named by the variant's display string |
| Enums.ChoiceSelectsVariant | src/model.rs:32-54 | the i-th offered choice is named after exactly the variant that extracting index i returns |
| Enums.StatusToValue | entity/src/train.rs:177-184 | the stored discriminant is 0 exactly for Unknown, 1 for Waiting, 2 for Scouted and 3 for Running |
| Enums.StatusFromValue | entity/src/train.rs:212-214 | decoding succeeds exactly on 0 to 3 and inverts the encoding; anything else is "invalid Status value: v" |
| Enums.StatusRoundTrip | entity/src/train.rs:208-214 | decoding an encoded status gives it back |
| Enums.WorldNamesDistinct | src/model.rs:13-18 | no world name is a case variant of another |
| Enums.ParseWorld | src/model.rs:11-18 | parsing accepts a string only if it equals some world's name up to ASCII case, and otherwise fails with "Matching variant not found" |
| Enums.ParseWorldName | src/model.rs:11-18 | every case variant of a world's name parses to that world |
| Enums.WorldRoundTrip | src/model.rs:67-73 | the text column a world is stored as reads back as that world |
| Enums.WorldParseIgnoresCase | src/model.rs:12 | parsing is insensitive to ASCII case |
| Enums.WorldChoicesComplete | src/model.rs:32-54 | every world is offered exactly once, and its index extracts it |
| Enums.ExpacNames | src/model.rs:121-131 | an expansion is named first by its display name, then by its aliases |
| Enums.ExpacNamesDistinct | src/model.rs:121-131 | no name or alias of one expansion is a case variant of a name of another |
| Enums.ParseExpac | src/model.rs:116-132 | parsing accepts exactly the display names and aliases, in any ASCII case, and otherwise fails with "Matching variant not found" |
| Enums.ParseExpacName | src/model.rs:121-131 | every name and alias of an expansion, in any case, parses to it |
| Enums.ExpacParseIgnoresCase | src/model.rs:120 | parsing is insensitive to ASCII case |
| Enums.StormbloodAliases | src/model.rs:126-127 | "SB", "StB" and "Stormblood" all name Stormblood |
| Enums.ExpacToValue | src/model.rs:181-183 | the stored discriminant is 2 exactly for A Realm Reborn, 3 for Heavensward, 4 for Stormblood, 5 for Shadowbringers and 6 for Endwalker |
| Enums.ExpacFromValue | src/model.rs:185-187 | decoding succeeds exactly on 2 to 6 and inverts the encoding; anything else is "invalid Expac value: v" |
| Enums.ExpacRoundTrip | src/model.rs:174-187 | decoding an encoded expansion gives it back |
| Enums.ExpacChoicesComplete | src/model.rs:149-171 | every expansion is offered exactly once, and its index extracts it |
| Timestamp.Split | src/command/argument.rs:36-37 | splitting at colons gives one more piece than there are colons, the pieces hold no colon, and joining them back gives the input |
| Timestamp.ParseSeconds | src/command/argument.rs:47-60 | the segment is accepted exactly when it parses as an `i64` within chrono's representable range, and the instant is that many seconds; an out-of-range value is "timestamp out of range" |
| Timestamp.Extract | src/command/argument.rs:24-61 | a non-string is "expected string"; a colon-free string is parsed whole; any colon count but 0 or 2 is "expected Discord timestamp" |
| Timestamp.ExtractTwoColons | src/command/argument.rs:34-39 | with exactly two colons, only the text between them is parsed |
| Timestamp.DisplayRoundTrip | src/command/argument.rs:24-75 | `Timestamp.Display`, the `<t:N:f>` form that `impl Display for Timestamp` (lines 72-75) writes, is inverted by `extract`: extracting the displayed form of any representable instant gives it back |
| Trains.Begin | entity/src/train.rs:26-28 | `begin` makes the train Running and keeps its map and completion time |
| Trains.ScoutedWith | entity/src/train.rs:29-32 | `scouted` makes the train Scouted and holds a map exactly when one is given, keeping the completion time |
| Trains.Done | entity/src/train.rs:33-37 | `done` makes the train Waiting, clears the map and records the completion instant (the `done` commands write the same fields) |
| Trains.Reset | entity/src/train.rs:38-42 | `reset` clears status, map and completion time |
| Trains.SetScoutMap | entity/src/train.rs:43-45 | only the map changes, to the URL given |
| Trains.ClearScoutMap | entity/src/train.rs:46-48 | only the map changes, to none |
| Trains.SetLastRun | entity/src/train.rs:49-51 | only the completion time changes, to the instant given |
| Trains.ClearLastRun | entity/src/train.rs:52-54 | only the completion time changes, to none |
| Trains.ResetIdempotent | entity/src/train.rs:38-42 | resetting twice is resetting once, and gives the state a new train is created in |
| Trains.Scout | src/command/train.rs:122-126 | `scout` sets Scouted and stores the given map link (none clears it), keeping the completion time |
| Trains.Start | src/command/train.rs:161-168 | `start` sets Running and clears the completion time; a given map link replaces the stored one, and none keeps it |
| Trains.CommandFormMatchesMethodForm | entity/src/train.rs:26-54 | the commands' field updates equal compositions of the record's methods |
| Trains.ApplyKeepsConsistent | src/command/train.rs:122-209 | each command keeps the invariant: a map only while Scouted or Running, and a completion time never while Unknown |
| Trains.RunKeepsConsistent | src/command/train.rs:122-209 | every sequence of commands keeps that invariant |
| Trains.RunConcat | src/command/train.rs:122-209 | running two command sequences in turn is running their concatenation |
| Trains.ForgetfulCommands | src/command/train.rs:204-209 | after a completion, the history before it makes no difference |
| Trains.StartCarriesScoutMap | src/command/train.rs:161-168 | a train scouted with a map and then started without one is Running with that map and no completion time |
| Render.StatusGlyph | entity/src/train.rs:186-195 | `Status::emoji` as the source literals stand, two to five non-ASCII characters with no space |
| Render.GlyphStatusLineIdentifies | entity/src/train.rs:57 | the entity status line "{glyph} {status}" is the same for two statuses exactly when they are the same status |
| Render.FormatEmbed | entity/src/train.rs:56-73 | the title names world and expansion; the status line comes first; a completion line appears exactly when there is a completion time; a relative force line, six hours later, appears exactly when the train is also Waiting; there are no other lines |
| Render.FormatEmbedAt | src/model/train.rs:69-85 | the same facts with the older wording, and no other lines; the force line reads "Force at:" once the force instant is past and "**Forced at:**" before it |
| Render.EmbedSnapshotsAgree | src/model/train.rs:69-85 | the older and newer embeds have the same lines and announce the same force instant |
| Render.CompletionLineUsesTimestampDisplay | entity/src/train.rs:58-64 | the completion line writes its instant exactly as the `Timestamp` argument displays it |
| Render.StatusButtons | src/model/train.rs:89-108 | the status row holds exactly the actions that make sense in that state (Scout if Waiting or Unknown; Start unless Running; Complete if Running or Unknown), in Scout, Start, Complete order |
| Render.StatusButtonsIdentified | src/model/train.rs:117-134 | every action button of a status row carries an interaction id, and no two buttons of a row share an id or a label |
| Render.FormatComponents | entity/src/train.rs:75-107 | with the status row commented out, there is one row exactly when there is a map, holding only the link button |
| Render.FormatComponentsWithButtons | src/model/train.rs:87-115 | the status row first, then a link row exactly when there is a map |
| Render.LinkShownIffScoutMap | src/model/train.rs:109-113 | in both versions a link button appears exactly when the train holds a map |
| Render.NoLinkWhileIdle | entity/src/train.rs:101-105 | a consistent train that is Waiting or Unknown shows no components |
| Store.Commit | src/command/train.rs:34-54 | a commit publishes the pending writes, and a failed one leaves the store as it was |
| Store.FindTrain | entity/src/train.rs:158-161 | the query returns a stored train with the key, and returns none exactly when no train has that key |
| Store.FindTrainUnique | entity/src/train.rs:158-163 | with one train per key, the query returns that train |
| Store.FindOrCreate | entity/src/train.rs:153-175 | the result has the key and is stored; an existing train leaves the store unchanged; otherwise one new Unknown train is inserted under a fresh id; one-train-per-key is kept |
| Store.FindOrCreateTwice | entity/src/train.rs:153-175 | a second call for the same key finds the same train and inserts nothing |
| Store.TrainsExcept | src/train/command.rs:46-49 | the listed trains are exactly the stored trains outside the excluded world |
| Store.MonitorsOf | src/command/train.rs:77 | the listed monitors are exactly the stored monitors of the train, in id order |
| Store.UpdateTrain | src/command/train.rs:127 | only the updated train's row changes |
| Store.InsertMonitor | src/command/train.rs:45-52 | one new monitor row, under a fresh id, binds message, channel and train; nothing else changes |
| Store.InsertDashboard | src/train/command.rs:39-45 | one new dashboard row, under a fresh id, binds message and channel; nothing else changes |
| Store.DeleteMonitor | src/command/train.rs:93 | exactly that monitor row goes; trains and dashboards are untouched |
| Channel.Send | src/command/train.rs:39-44 | a new message with a fresh id appears with the given content; no existing message changes |
| Channel.Fetch | src/command/train.rs:80 | a fetch succeeds exactly on a live message without an injected fault, and a deleted message is 404 |
| Channel.Edit | src/command/train.rs:99-103 | a successful edit changes that message's content only |
| Publish.StageMonitor | src/command/train.rs:31-54 | outside the train guild nothing happens; any failure before the commit leaves the store unchanged; a failed post leaves the channel as it was; in the newer form, a failed `into_message` leaves a new placeholder posted that no monitor points at; a failed commit leaves a sent placeholder that no record points at; a commit stores exactly one new monitor bound to the placeholder's message and to the train `find_or_create` gave |
| Publish.CommitFailureLeavesOrphanMessage | src/command/train.rs:37-54 | when only the commit fails, the store is unchanged, but the placeholder message remains and no monitor refers to it |
| Publish.IntoMessageFailureLeavesOrphanMessage | src/train/command.rs:33-82 | when `say` succeeds and `into_message` fails, in either newer creation command, the store is unchanged and the placeholder remains posted with no monitor or dashboard pointing at it |
| Publish.FinishInPlace | src/command/train.rs:56-69 | after the commit, success means the placeholder was edited into the train's view and the confirmation was sent, in that order |
| Publish.CreateMonitorInPlace | src/command/train.rs:25-72 | without a commit the store is unchanged and the command fails; with one, exactly one monitor row is added for the new message and the found or created train; the message is filled in only after the commit; success means it shows the train |
| Publish.CreateMonitor | src/train/command.rs:61-97 | the same protocol, with the post split into `say` and `into_message` (a failure of the latter leaves the store unchanged and the placeholder posted), ending in a hand-over of the new monitor to `refresh_monitor` after the commit; success exactly when the commit and that refresh succeed |
| Publish.CreateDashboard | src/train/command.rs:24-55 | trains and monitors never change; a failed `say` leaves the channel as it was, and a failed `into_message` leaves the store unchanged and the placeholder posted; a commit adds exactly one dashboard row for the new message; the trains it is first rendered from are exactly those outside the test world; the refresh comes after the commit |
| Refresh.Classify | src/command/train.rs:80-99 | a monitor is pruned exactly when its fetch is 404 or 403, and re-rendered exactly when its message is live and neither fetch nor edit fails; otherwise the refresh stops |
| Refresh.ClassifyDependsOnShape | src/command/train.rs:80-99 | re-rendering messages does not change how any monitor is treated |
| Refresh.FirstStop | src/command/train.rs:77-104 | the refresh gets through exactly the monitors before the first one that stops it |
| Refresh.PrunedIdsExact | src/command/train.rs:91-96 | the deleted rows are exactly the stale monitors before the stop whose delete succeeds |
| Refresh.RerenderedRefsExact | src/command/train.rs:99-103 | the re-rendered messages are exactly those of the live monitors before the stop |
| Refresh.RefreshAll | src/command/train.rs:75-106 | the refresh fails exactly when some monitor stops it, with that monitor's error; it deletes exactly the pruned rows; it re-renders exactly the live messages before the stop; trains, dashboards and the set of messages are untouched |
| Refresh.Visit | src/command/train.rs:78-103 | one monitor that does not stop the refresh either loses its row, keeps it when the delete fails, or has its message re-rendered |
| Refresh.RefreshMonitors | src/command/train.rs:75-106 | a failed listing query stops the refresh with nothing changed; otherwise the loop over the train's monitors computes the reference refresh; it succeeds exactly when the listing succeeds and no monitor stops it; trains and dashboards are untouched |
| Refresh.RefreshEach | src/command/train.rs:77-104 | the loop computes the reference refresh over the given monitors |
| Refresh.OneStaleMonitor | src/command/train.rs:80-103 | when one message is gone and the others are live, the refresh succeeds, removes exactly that row and re-renders every other message |
| Commands.ResolveCompletion | src/train/command.rs:187-192 | both times at once is the error "Cannot provide both completion_time and force_time"; otherwise the result is the completion time, or six hours before the force time, or the clock |
| Commands.ForceTimeIsShownForced | src/train/command.rs:187-192 | given a force time, the monitors of either version announce exactly that instant as forced |
| Commands.MonitorMsg | src/train/command.rs:99-108 | on success the acknowledgement gets a full stop; otherwise it is wrapped as "Error: …, but not all monitor posts could be updated." |
| Commands.MonitorMsgReportsFailure | src/train/command.rs:99-108 | for an acknowledgement that does not itself start with "Error: ", the reply starts with "Error: " exactly when some post was not updated |
| Commands.CombineRefresh | src/train/command.rs:128 | dashboards are refreshed only after the monitors were refreshed, and the command reports success only if both were |
| Commands.ScoutText | src/train/command.rs:129-132 | with a map, the acknowledgement is a Markdown link to it; without one, the word "scouted" |
| Commands.UpdateKeyed | src/command/train.rs:120-127 | the train with the key ends in the changed state of its prior state (the fresh state if it was new); no other train, monitor or dashboard changes; a failed update may still leave the train `find_or_create` inserted |
| Commands.PriorProgress | entity/src/train.rs:153-175 | the state a command starts from is the stored train's, or the fresh state when there is none |
| Commands.Acknowledge | src/train/command.rs:127-137 | after the update, a failed `defer` ends the command before any refresh; otherwise the dashboards are refreshed exactly when the monitors were, and success, exactly when the update, `defer` and `say` succeed, replies with the acknowledgement of the train the update gave back, marked by whether every post was updated |
| Commands.UpdateNothing | src/train/command.rs:123-125 | as written, the update of an active model built from the found row sets no column: when it succeeds, the store is as `find_or_create` left it and the train keeps its prior state |
| Commands.UpdateNothingKeepsEverything | src/train/command.rs:123-125 | the update as written equals the corrected update with a change that keeps every field |
| Commands.NewerCommandAsWritten | src/train/command.rs:122-137 | as written: success exactly when `find_or_create`, the update, `defer` and `say` succeed; the stored train keeps its prior state and the reply is built from it |
| Commands.ScoutNewerAsWritten | src/train/command.rs:111-140 | as written: a map link that is not a URL is refused with nothing changed; success leaves the train in its prior state and replies with the stored map, not the given one |
| Commands.StartNewerAsWritten | src/train/command.rs:143-174 | as written: a bad map link is refused; success leaves the train in its prior state |
| Commands.DoneNewerAsWritten | src/train/command.rs:177-213 | as written: both times at once is refused; success leaves the train in its prior state, although the reply names the resolved completion instant |
| Commands.ScoutNewerIsLost | src/train/command.rs:118-132 | scouting a train that did not exist, with a map link, succeeds but leaves it Unknown without a map and replies "Seraph Stormblood Train has been scouted." |
| Commands.ScoutNewerKeepsLink | src/train/command.rs:118-132 | corrected: the same command leaves the train Scouted with the link |
| Commands.NewerCommand | src/train/command.rs:122-137 | corrected: success exactly when the update, `defer` and the reply succeed; the reply is the acknowledgement of the updated train, marked by whether every post was updated; dashboards are refreshed exactly when the monitors were |
| Commands.ScoutNewer | src/train/command.rs:111-140 | corrected: a map link that is not a URL is refused with nothing changed; success leaves the train scouted with that link and replies "{world} {expac} Train has been scouted", with the link |
| Commands.StartNewer | src/train/command.rs:143-174 | corrected: a map link that is not a URL is refused with nothing changed; success leaves the train running with no completion and the link given, or the stored one |
| Commands.DoneNewer | src/train/command.rs:177-213 | corrected: both times at once is refused with nothing changed; success leaves the train waiting with the resolved completion instant and replies with that instant as `<t:N:f>` |
| Commands.OlderCommand | src/command/train.rs:120-144 | success exactly when the update, the first reply, the listing of the train's monitors, the refresh of every monitor with the train's new view, and the reply edit all succeed; a failed listing or refresh leaves the "Updating monitors..." reply, and a failed listing changes nothing after the update; trains are as updated and monitors only lose rows |
| Commands.OlderSuccessShowsTrain | src/command/train.rs:127-135 | after success every live monitor message of the train shows its new state |
| Commands.ScoutOlder | src/command/train.rs:109-145 | a map link that is not a URL is refused with nothing changed; success leaves the train scouted with the link as given and replies "Success! {world} {expac} Train marked as scouted!" |
| Commands.StartOlder | src/command/train.rs:148-189 | a bad map link is refused; success leaves the train running with no completion, and with the new link or the stored one |
| Commands.DoneOlder | src/command/train.rs:192-230 | success leaves the train waiting with the map cleared, completed at the given time or else the clock, and replies with that instant as the `Timestamp` argument displays it |
| Legacy.LegacyParseWorld | src/train/model.rs:206-214 | a world parses from exactly its variant name, case-sensitively |
| Legacy.LegacyParseExpac | src/train/model.rs:216-231 | an expansion parses from exactly its display name, so abbreviations and other cases are refused |
| Legacy.LegacyParseRoundTrip | src/train/model.rs:206-231 | the display names offered as choices parse back to their variants |
| Legacy.LegacyExpacValue | src/train/model.rs:219-231 | this snapshot stores 2 exactly for A Realm Reborn, 3 for Heavensward, 5 for Stormblood, 6 for Shadowbringers and 7 for Endwalker; 4 is skipped |
| Legacy.LegacyExpacValueInjective | src/train/model.rs:219-231 | distinct expansions are stored as distinct integers |
| Legacy.StatusFromText | src/train/model.rs:198-204 | a status column decodes only from the text of a variant name |
| Legacy.WriteToDb | src/train/model.rs:102-121 | `REPLACE INTO` leaves exactly one row under the train's key and no other row changes |
| Legacy.FromDb | src/train/model.rs:64-100 | a missing row is an error; a read train has the requested key; a stored map that does not parse as a URL is an error |
| Legacy.WriteThenRead | src/train/model.rs:64-121 | reading back what was written gives the same train |
| Legacy.WriteKeepsEncoded | src/train/model.rs:102-121 | every written row has its world stored as text and its expansion as an integer |
| Legacy.AddTrainAsWritten | src/train.rs:152-205 | the duplicate check refuses an add exactly when a row's expansion column holds the raw choice string; otherwise the add is the creation of the train; success writes the new train, pointing at the announcement, under its key; a failure leaves the table unchanged; a failed row write leaves the announcement posted with no row pointing at it |
| Legacy.CreateTrain | src/train.rs:181-204 | on success both choices parsed, the announcement was posted in a new message, and the row written under the train's key points at that message; a parse or send failure leaves the channel as it was; a failed row write leaves the table unchanged and the announcement posted |
| Legacy.RemoveTrainAsWritten | src/train.rs:207-231 | the delete matches only a row whose expansion column holds the raw choice string |
| Legacy.AsWrittenNeverMatches | src/train.rs:164-179 | on any table that `write_to_db` produced, the duplicate check never fires and the remove never matches |
| Legacy.AddTwiceThenRemoveAsWritten | src/train.rs:164-226 | on an empty table the same train is added twice, and removing it then reports that no such train exists |
| Legacy.ChoiceKey | src/train.rs:184-185 | a pair of choices names a key exactly when both parse |
| Legacy.AddTrain | src/train.rs:152-205 | corrected: an existing train refuses the add with "A … train on … already exists."; a successful add inserts exactly the new key; a failure leaves the table unchanged; a failed row write leaves the announcement posted with no row pointing at it |
| Legacy.RemoveTrain | src/train.rs:207-231 | corrected: remove succeeds exactly when the train exists, and deletes exactly its row; otherwise "No known … train on …" |
| Legacy.AddTwiceThenRemove | src/train.rs:152-231 | corrected: a second add of the same train is refused, and a remove after an add restores the table |
| Legacy.Param | src/train.rs:100-106 | an option is found exactly when some option has the name, and it is the last one with that name |
| Legacy.StringParam | src/train.rs:105-114 | a parameter is read exactly when it is present and resolved to a string |
| Legacy.AddArgs | src/train.rs:100-118 | a missing world is refused first, then a missing expansion, then a missing guild; otherwise the two strings and the guild |
| Legacy.HandleAdd | src/train.rs:94-123 | the argument checks come first; with the transaction's begin and commit working, the handler is `add_train` as written; a failed add rolls back; success writes the new train under its key, which was not there before |
| Legacy.AddFailureLeavesAnnouncement | src/train.rs:94-123 | in both the as-written and the corrected handler, a failed row write or commit rolls the table back, but the announcement `add_train` posted (src/train.rs:192-199) stays in the channel as a new message that no row points at |
| Legacy.HandleRemove | src/train.rs:125-151 | the same argument checks, then `remove_train` as written: success exactly when a row's expansion column holds the raw choice string, and it deletes that row |
| Legacy.HandlersAsWrittenOnEncoded | src/train.rs:119-150 | on a table `write_to_db` wrote, the add handler never reports a duplicate and keeps the table encoded, and the remove handler always fails and changes nothing |
| Legacy.HandleAddCorrected | src/train.rs:94-123 | corrected: an existing train is refused as a duplicate; success inserts exactly the new key and changes no other row |
| Legacy.HandleRemoveCorrected | src/train.rs:125-151 | corrected: success exactly when the named train exists, and it deletes exactly its row |
| Legacy.CorrectedAddThenRemove | src/train.rs:94-151 | corrected: a remove right after a successful add gives back the table from before the add |
| Legacy.HandleCommand | src/train.rs:72-92 | exactly one option, a subcommand named "add" or "remove", is dispatched; anything else is refused with its message and changes nothing |

## Left out

- The intended status emoji are not modelled. The entity's status glyphs are modelled as the literals stand in entity/src/train.rs:190-193. Those literals are mojibake: the UTF-8 bytes of the intended emoji (❓, 🕑, ☑️, ➡️) were read as Windows-1252 and encoded again, which also dropped the bytes Windows-1252 leaves undefined. The model does not claim that Discord shows an emoji.
- Nanoseconds are not modelled: every instant is a whole number of seconds. The source keeps sub-second precision wherever it takes `Utc::now()`. The six-hour offset is not range-checked against chrono's overflow.
- Commands.DoneOlder: a completion taken from the clock is a whole-second instant, while the source stores `Utc::now()` with its nanoseconds in `last_run` (src/command/train.rs:203, :207).
- Commands.DoneNewer: likewise, the clock completion is truncated to whole seconds, while the source keeps nanoseconds (src/train/command.rs:191).
- Render.FormatEmbedAt: the "Force at" / "Forced at" choice compares whole-second instants, while the source compares against `Utc::now()` at full precision (src/model/train.rs:75), so the wording can differ from the source within the second of the force time.
- The sqlx snapshot's `format_embed` makes the same full-precision comparison (src/train/model.rs:129). Its model reuses the whole-second comparison, but a train that was just added has no completion time, so it shows no force line either way.
- Integer widths of ids are not modelled: the `u64` to `i64` casts of guild, channel and message ids, and the 32-bit `usize` caveat of `extract`.
- `World::Testing` is a parameter of `create_dashboard`: `entity/src/lib.rs`, which declares that world, is not part of this model. The newer scout, start and done commands take `entity::World` (src/train/command.rs:9-12), so the test world reaches them too; the model treats it as one more world value and does not single it out.
- `refresh_monitor`, `refresh_dashboard` and `refresh_dashboards` of the newer snapshot are not part of this model. Their outcomes are inputs: the `FinishStep` fault, and `monitorsOk`/`dashboardsOk`. How a dashboard is rendered is left out with them.
- Commands.NewerCommand: the newer refresh is given by its outcome, not modelled, because its definition is not part of this model.
- Publish.CreateMonitor: after the commit, only the hand-over to `refresh_monitor` is modelled, not what that refresh writes.
- Publish.CreateDashboard: after the commit, only the hand-over to `refresh_dashboard` is modelled, not the dashboard's content.
- Commands.ScoutNewer: `train.scout`, `train.start` and `train.done(t)`, called by the newer commands, are not defined in the record shown. The corrected commands give them the field effects of the older commands.
- Commands.StartNewer: as for ScoutNewer.
- Commands.DoneNewer: as for ScoutNewer.
- Commands.UpdateNothing: the sea-orm behaviour it encodes is that `ActiveModel::from` marks every column unchanged and that `update` writes only set columns. sea-orm itself is not part of this model. Versions that refuse an update with nothing to set are covered by the `UpdateStep` fault.
- Store.MonitorsOf: the monitors come in id order, which is SQLite's rowid scan order. The query itself has no `ORDER BY`, so that order is not guaranteed.
- Render.FormatComponentsWithButtons: src/model/train.rs declares `format_components(&self)`, but src/command/train.rs:58 and :101 call `format_components(c)` with a builder. The model takes the row layout from the body and ignores the mismatch.
- URL validity (`url::Url::parse`) is an oracle parameter, and a URL is represented by its serialization.
- Legacy.FromDb: parsing a stored map back into a URL is the same oracle.
- Concurrency is not modelled: commands run one at a time. That sequencing is what keeps one train per key, since the schema declares no unique constraint.
- The migrations, `main.rs`, `command.rs` and `init` are left out. `init` registers the legacy command; the model uses its string choices, the display names, as the option values.
- The legacy `REPLACE INTO` is modelled as an upsert on the key (guild, world, expac). The table's migration is not part of this model.
- Legacy.ErrorText: a failing database or Discord call gets one generic text, and "Invalid world"/"Invalid expac" leave out the debug dump of the option.
- The `Forbidden` and `NotFound` classes stand for the HTTP status codes 403 and 404 inside `serenity::Error::Http`. Every other error is one class.

## Findings

| source | as written | input that shows it | evidently intended | confidence | as-written member | corrected member |
|---|---|---|---|---|---|---|
| src/train.rs:164-179 | `add_train` counts existing rows with `expac = ?` bound to the choice string (e.g. "Stormblood"). But `write_to_db` (src/train/model.rs:107-117) stores `Expac`, which has `#[repr(i8)]`, as its integer discriminant (5). The duplicate check never matches. `remove_train` (src/train.rs:216-226) has the same flaw, so it never deletes | on an empty table, `/train add` world "Seraph", expac "Stormblood" twice, then `/train remove` with the same choices | the second add fails with "A Stormblood train on Seraph already exists.", and the remove deletes the train | medium, not executed | Legacy.AddTrainAsWritten, Legacy.RemoveTrainAsWritten, Legacy.AddTwiceThenRemoveAsWritten, Legacy.HandlersAsWrittenOnEncoded | Legacy.AddTrain, Legacy.RemoveTrain, Legacy.AddTwiceThenRemove, Legacy.HandleAddCorrected, Legacy.HandleRemoveCorrected, Legacy.CorrectedAddThenRemove |
| src/train/command.rs:123-125 | The newer `scout`, `start` and `done` change the found `Model`, then write it with `train::ActiveModel::from(train).update(db)`. `From<Model>` marks every column unchanged, and `update` writes only set columns, so no column is written. The same applies at lines 155-163 and 195-197. The command succeeds, and its reply and refresh use the unchanged row | on a store without the train, `/train scout` world Seraph, expac Stormblood, `map_link` a URL | the train ends Scouted with the link, and the reply links the map | medium, not executed | Commands.UpdateNothing, Commands.NewerCommandAsWritten, Commands.ScoutNewerAsWritten, Commands.StartNewerAsWritten, Commands.DoneNewerAsWritten, Commands.ScoutNewerIsLost | Commands.UpdateKeyed, Commands.NewerCommand, Commands.ScoutNewer, Commands.StartNewer, Commands.DoneNewer, Commands.ScoutNewerKeepsLink |
