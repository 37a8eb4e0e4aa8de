/**
 * The train record and its state machine.
 *
 * The method form (`begin`, `scouted`, `done`, `reset` and the single-field
 * setters) is the same in all three snapshots of the record; the command
 * form (`Scout`, `Start`) is what the slash commands write
 * through an `ActiveModel`.
 */
module Trains {
  import opened Base
  import opened Enums

  /** A `DateTime<Utc>`, by whole seconds since the Unix epoch. */
  type Instant = int

  /** `Duration::hours(6)`, in seconds: how long after a completion a train is forced. */
  const ForceWindow: int := 21600

  /** A parsed `url::Url`, by its serialization. */
  datatype Url = Url(serialization: string)

  /** The mutable part of a train: what the state machine changes. */
  datatype Progress = Progress(status: Status, scoutMap: Option<string>, lastRun: Option<Instant>)

  /** The state a train is created in. */
  const Fresh: Progress := Progress(Unknown, None, None)

  /** A row of the `trains` table (entity/src/train.rs `Model`). */
  datatype Train = Train(id: int, world: World, expac: Expac, progress: Progress)

  predicate SameKey(t: Train, world: World, expac: Expac) {
    t.world == world && t.expac == expac
  }

  // ---------------------------------------------------------------------
  // Method form

  /** `begin`: the train is running. */
  function Begin(p: Progress): (q: Progress)
    ensures q.status == Running
    ensures q.scoutMap == p.scoutMap && q.lastRun == p.lastRun
  {
    p.(status := Running)
  }

  /** `scouted(map)`: the train is scouted, with the given map or none. */
  function ScoutedWith(p: Progress, url: Option<Url>): (q: Progress)
    ensures q.status == Scouted
    ensures q.scoutMap.Some? <==> url.Some?
    ensures url.Some? ==> q.scoutMap.value == url.value.serialization
    ensures q.lastRun == p.lastRun
  {
    p.(status := Scouted, scoutMap := if url.Some? then Some(url.value.serialization) else None)
  }

  /**
   * `done`: the run finished at `now` (the caller's clock reading). The
   * `done` commands write the same three fields with the instant they resolved.
   */
  function Done(p: Progress, now: Instant): (q: Progress)
    ensures q.status == Waiting && q.scoutMap.None? && q.lastRun == Some(now)
  {
    Progress(Waiting, None, Some(now))
  }

  /** `reset`: back to the state a train is created in. */
  function Reset(p: Progress): (q: Progress)
    ensures q.status == Unknown && q.scoutMap.None? && q.lastRun.None?
  {
    Fresh
  }

  function SetScoutMap(p: Progress, url: Url): (q: Progress)
    ensures q.scoutMap == Some(url.serialization)
    ensures q.status == p.status && q.lastRun == p.lastRun
  {
    p.(scoutMap := Some(url.serialization))
  }

  function ClearScoutMap(p: Progress): (q: Progress)
    ensures q.scoutMap.None?
    ensures q.status == p.status && q.lastRun == p.lastRun
  {
    p.(scoutMap := None)
  }

  function SetLastRun(p: Progress, time: Instant): (q: Progress)
    ensures q.lastRun == Some(time)
    ensures q.status == p.status && q.scoutMap == p.scoutMap
  {
    p.(lastRun := Some(time))
  }

  function ClearLastRun(p: Progress): (q: Progress)
    ensures q.lastRun.None?
    ensures q.status == p.status && q.scoutMap == p.scoutMap
  {
    p.(lastRun := None)
  }

  lemma ResetIdempotent(p: Progress)
    ensures Reset(Reset(p)) == Reset(p)
    ensures Reset(p) == Fresh
  {
  }

  // ---------------------------------------------------------------------
  // Command form (the fields the `scout`, `start` and `done` commands set)

  /** `scout`: status Scouted and the map link as given, `None` clearing it. */
  function Scout(p: Progress, mapLink: Option<string>): (q: Progress)
    ensures q.status == Scouted && q.scoutMap == mapLink && q.lastRun == p.lastRun
  {
    p.(status := Scouted, scoutMap := mapLink)
  }

  /** `start`: running, no completion yet; a given map link replaces the old one, none keeps it. */
  function Start(p: Progress, mapLink: Option<string>): (q: Progress)
    ensures q.status == Running && q.lastRun.None?
    ensures q.scoutMap == (if mapLink.Some? then mapLink else p.scoutMap)
  {
    Progress(Running, if mapLink.Some? then mapLink else p.scoutMap, None)
  }

  /** The command form agrees with the method form where both exist. */
  lemma CommandFormMatchesMethodForm(p: Progress, url: Url, at: Instant)
    ensures Start(p, None) == ClearLastRun(Begin(p))
    ensures Start(p, Some(url.serialization)) == ClearLastRun(Begin(SetScoutMap(p, url)))
    ensures Scout(p, Some(url.serialization)) == ScoutedWith(p, Some(url))
    ensures Scout(p, None) == ScoutedWith(p, None)
  {
  }

  // ---------------------------------------------------------------------
  // Runs of commands

  datatype Command = ScoutCmd(mapLink: Option<string>) | StartCmd(mapLink: Option<string>) | CompleteCmd(at: Instant) | ResetCmd

  function Apply(p: Progress, c: Command): Progress {
    match c
    case ScoutCmd(m) => Scout(p, m)
    case StartCmd(m) => Start(p, m)
    case CompleteCmd(at) => Done(p, at)
    case ResetCmd => Reset(p)
  }

  function Run(p: Progress, cs: seq<Command>): Progress
    decreases |cs|
  {
    if |cs| == 0 then p else Run(Apply(p, cs[0]), cs[1..])
  }

  /**
   * A scout map is only held while the train is scouted or running, and a
   * completion time only once the train has left the Unknown state.
   */
  predicate Consistent(p: Progress) {
    && (p.scoutMap.Some? ==> p.status in {Scouted, Running})
    && (p.lastRun.Some? ==> p.status != Unknown)
  }

  lemma ApplyKeepsConsistent(p: Progress, c: Command)
    requires Consistent(p)
    ensures Consistent(Apply(p, c))
  {
  }

  /** Every run of commands from a fresh train keeps `Consistent`. */
  lemma {:induction false} RunKeepsConsistent(p: Progress, cs: seq<Command>)
    requires Consistent(p)
    ensures Consistent(Run(p, cs))
    decreases |cs|
  {
    if |cs| > 0 {
      ApplyKeepsConsistent(p, cs[0]);
      RunKeepsConsistent(Apply(p, cs[0]), cs[1..]);
    }
  }

  /** Running commands one after another is running their concatenation. */
  lemma {:induction false} RunConcat(p: Progress, xs: seq<Command>, ys: seq<Command>)
    ensures Run(p, xs + ys) == Run(Run(p, xs), ys)
    decreases |xs|
  {
    if |xs| == 0 {
      assert xs + ys == ys;
    } else {
      assert (xs + ys)[1..] == xs[1..] + ys;
      RunConcat(Apply(p, xs[0]), xs[1..], ys);
    }
  }

  /** A completion or reset forgets everything that came before it. */
  lemma ForgetfulCommands(p: Progress, q: Progress, xs: seq<Command>, ys: seq<Command>, c: Command)
    requires c.CompleteCmd? || c.ResetCmd?
    ensures Run(p, xs + [c]) == Run(q, ys + [c])
  {
    RunConcat(p, xs, [c]);
    RunConcat(q, ys, [c]);
  }

  /** A scouted map survives a later `start` given no map of its own. */
  lemma StartCarriesScoutMap(p: Progress, url: string)
    ensures Run(p, [ScoutCmd(Some(url)), StartCmd(None)]) == Progress(Running, Some(url), None)
  {
    var scouted := Scout(p, Some(url));
    assert [ScoutCmd(Some(url)), StartCmd(None)][1..] == [StartCmd(None)];
    assert Run(scouted, [StartCmd(None)]) == Run(Start(scouted, None), []);
  }
}
