/**
 * Rendering a train into a Discord embed and its component rows. Pure: the
 * clock reading the older snapshots compare against is a parameter.
 */
module Render {
  import opened Base
  import opened Enums
  import opened Trains
  import Decimal
  import Timestamp

  // ---------------------------------------------------------------------
  // Embed

  /** The two labels the older snapshots give the force line. */
  datatype ForceLabel = ForceAt | ForcedAtBold

  /** One line of the embed description. */
  datatype Line =
    | GlyphStatus(status: Status)                 // "{glyph} {status}" (entity)
    | StatusLabel(status: Status)                 // "Status: {status}" (older snapshots)
    | Completed(at: Instant, style: char)         // "Last run completed at: <t:N:style>"
    | ForcedRelative(at: Instant)                 // "Forced <t:N:R>" (entity)
    | Forced(at: Instant, wording: ForceLabel)      // "Force at: <t:N:F>" or "**Forced at:** <t:N:F>"

  datatype Embed = Embed(title: string, lines: seq<Line>)

  function Title(world: World, expac: Expac): string {
    WorldName(world) + " " + ExpacName(expac) + " Train"
  }

  function Stamp(at: Instant, style: char): string {
    "<t:" + Decimal.IntToString(at) + ":" + [style] + ">"
  }

  /**
   * `Status::emoji` of entity/src/train.rs. The literals there are not the
   * intended emoji but their UTF-8 bytes read back as Windows-1252 and
   * encoded again (with the bytes Windows-1252 leaves undefined dropped), so
   * these are the characters a message actually carries.
   */
  function StatusGlyph(s: Status): (g: string)
    ensures 2 <= |g| <= 5
    ensures forall i | 0 <= i < |g| :: g[i] != ' ' && g[i] > '\U{7F}'
  {
    match s
    case Unknown => "\U{E2}\U{201C}"
    case Waiting => "\U{F0}\U{178}\U{2022}\U{2018}"
    case Scouted => "\U{E2}\U{2DC}\U{2018}\U{EF}\U{B8}"
    case Running => "\U{E2}\U{17E}\U{A1}\U{EF}\U{B8}"
  }

  /** The entity status line names its status unambiguously: distinct statuses give distinct lines. */
  lemma GlyphStatusLineIdentifies(a: Status, b: Status)
    ensures LineText(GlyphStatus(a)) == LineText(GlyphStatus(b)) <==> a == b
  {
    // The glyphs' second characters already tell the four statuses apart.
    assert LineText(GlyphStatus(a))[1] == StatusGlyph(a)[1];
    assert LineText(GlyphStatus(b))[1] == StatusGlyph(b)[1];
  }

  /** The text of a line. */
  function LineText(l: Line): string {
    match l
    case GlyphStatus(s) => StatusGlyph(s) + " " + StatusName(s)
    case StatusLabel(s) => "Status: " + StatusName(s)
    case Completed(at, style) => "Last run completed at: " + Stamp(at, style)
    case ForcedRelative(at) => "Forced " + Stamp(at, 'R')
    case Forced(at, ForceAt) => "Force at: " + Stamp(at, 'F')
    case Forced(at, ForcedAtBold) => "**Forced at:** " + Stamp(at, 'F')
  }

  predicate ShowsCompletion(e: Embed) {
    exists i | 0 <= i < |e.lines| :: e.lines[i].Completed?
  }

  predicate ShowsForce(e: Embed) {
    exists i | 0 <= i < |e.lines| :: e.lines[i].ForcedRelative? || e.lines[i].Forced?
  }

  /** The instant the force line shows, if there is one. */
  function ForcedInstant(e: Embed): Option<Instant> {
    if |e.lines| == 3 && (e.lines[2].ForcedRelative? || e.lines[2].Forced?) then Some(e.lines[2].at) else None
  }

  /** entity/src/train.rs `format_embed`. */
  function FormatEmbed(world: World, expac: Expac, p: Progress): (e: Embed)
    ensures e.title == WorldName(world) + " " + ExpacName(expac) + " Train"
    ensures |e.lines| > 0 && e.lines[0] == GlyphStatus(p.status)
    ensures |e.lines| == 1 + (if p.lastRun.Some? then 1 else 0) + (if ShowsForce(e) then 1 else 0)
    ensures ShowsCompletion(e) <==> p.lastRun.Some?
    ensures ShowsForce(e) <==> p.lastRun.Some? && p.status == Waiting
    ensures forall i | 0 <= i < |e.lines| :: e.lines[i].Completed? ==> e.lines[i] == Completed(p.lastRun.value, 'f')
    ensures ForcedInstant(e).Some? <==> ShowsForce(e)
    ensures ShowsForce(e) ==> ForcedInstant(e) == Some(p.lastRun.value + ForceWindow)
  {
    if p.lastRun.None? then Embed(Title(world, expac), [GlyphStatus(p.status)])
    else
      var end := p.lastRun.value;
      var lines := [GlyphStatus(p.status), Completed(end, 'f')]
        + (if p.status == Waiting then [ForcedRelative(end + ForceWindow)] else []);
      assert lines[1].Completed?;
      assert p.status == Waiting ==> lines[2].ForcedRelative?;
      Embed(Title(world, expac), lines)
  }

  /** src/model/train.rs and src/train/model.rs `format_embed`, read against the clock `now`. */
  function FormatEmbedAt(world: World, expac: Expac, p: Progress, now: Instant): (e: Embed)
    ensures e.title == WorldName(world) + " " + ExpacName(expac) + " Train"
    ensures |e.lines| > 0 && e.lines[0] == StatusLabel(p.status)
    ensures |e.lines| == 1 + (if p.lastRun.Some? then 1 else 0) + (if ShowsForce(e) then 1 else 0)
    ensures ShowsCompletion(e) <==> p.lastRun.Some?
    ensures ShowsForce(e) <==> p.lastRun.Some? && p.status == Waiting
    ensures forall i | 0 <= i < |e.lines| :: e.lines[i].Completed? ==> e.lines[i] == Completed(p.lastRun.value, 'F')
    ensures ForcedInstant(e).Some? <==> ShowsForce(e)
    ensures ShowsForce(e) ==> ForcedInstant(e) == Some(p.lastRun.value + ForceWindow)
    ensures ShowsForce(e) ==> e.lines[2].Forced? && e.lines[2].wording == (if p.lastRun.value + ForceWindow < now then ForceAt else ForcedAtBold)
  {
    if p.lastRun.None? then Embed(Title(world, expac), [StatusLabel(p.status)])
    else
      var end := p.lastRun.value;
      var force := end + ForceWindow;
      var lines := [StatusLabel(p.status), Completed(end, 'F')]
        + (if p.status == Waiting then [Forced(force, if force < now then ForceAt else ForcedAtBold)] else []);
      assert lines[1].Completed?;
      assert p.status == Waiting ==> lines[2].Forced?;
      Embed(Title(world, expac), lines)
  }

  /** The older and newer embeds show the same facts; only the wording differs. */
  lemma EmbedSnapshotsAgree(world: World, expac: Expac, p: Progress, now: Instant)
    ensures |FormatEmbed(world, expac, p).lines| == |FormatEmbedAt(world, expac, p, now).lines|
    ensures ForcedInstant(FormatEmbed(world, expac, p)) == ForcedInstant(FormatEmbedAt(world, expac, p, now))
  {
  }

  /** The completion line writes its instant exactly as the `Timestamp` argument displays it. */
  lemma CompletionLineUsesTimestampDisplay(at: Instant)
    ensures LineText(Completed(at, 'f')) == "Last run completed at: " + Timestamp.Display(Timestamp.Timestamp(at))
  {
  }

  // ---------------------------------------------------------------------
  // Components

  datatype ButtonStyle = Primary | SuccessStyle | LinkStyle

  datatype Button = ScoutButton | StartButton | CompleteButton | ScoutLink(url: string)

  function Style(b: Button): ButtonStyle {
    match b
    case ScoutButton => Primary
    case StartButton => Primary
    case CompleteButton => SuccessStyle
    case ScoutLink(_) => LinkStyle
  }

  function Label(b: Button): string {
    match b
    case ScoutButton => "Scout"
    case StartButton => "Start"
    case CompleteButton => "Complete"
    case ScoutLink(_) => "Scouted Map"
  }

  /** The interaction id of an action button; a link button has none. */
  function CustomId(b: Button): Option<string> {
    match b
    case ScoutButton => Some("scout")
    case StartButton => Some("run")
    case CompleteButton => Some("done")
    case ScoutLink(_) => None
  }

  /** Where a button sits in a row: Scout, then Start, then Complete. */
  function Rank(b: Button): nat {
    match b
    case ScoutButton => 0
    case StartButton => 1
    case CompleteButton => 2
    case ScoutLink(_) => 3
  }

  /** Which actions the status row offers: what can sensibly happen next. */
  predicate Offers(s: Status, b: Button) {
    match b
    case ScoutButton => s == Waiting || s == Unknown
    case StartButton => s != Running
    case CompleteButton => s == Running || s == Unknown
    case ScoutLink(_) => false
  }

  /** The status row: exactly the offered buttons, in rank order. */
  function StatusButtons(s: Status): (row: seq<Button>)
    ensures forall b :: b in row <==> Offers(s, b)
    ensures forall i, j | 0 <= i < j < |row| :: Rank(row[i]) < Rank(row[j])
  {
    match s
    case Waiting => [ScoutButton, StartButton]
    case Scouted => [StartButton]
    case Running => [CompleteButton]
    case Unknown => [ScoutButton, StartButton, CompleteButton]
  }

  /**
   * A press is routed back by the button's interaction id: every action
   * button of a status row has one, and no two buttons of a row share an id
   * or a label.
   */
  lemma StatusButtonsIdentified(s: Status)
    ensures forall i | 0 <= i < |StatusButtons(s)| :: CustomId(StatusButtons(s)[i]).Some?
    ensures forall i, j | 0 <= i < j < |StatusButtons(s)| ::
      CustomId(StatusButtons(s)[i]) != CustomId(StatusButtons(s)[j]) && Label(StatusButtons(s)[i]) != Label(StatusButtons(s)[j])
  {
  }

  function LinkRows(p: Progress): seq<seq<Button>> {
    if p.scoutMap.Some? then [[ScoutLink(p.scoutMap.value)]] else []
  }

  predicate HasLinkRow(rows: seq<seq<Button>>) {
    exists i, j | 0 <= i < |rows| && 0 <= j < |rows[i]| :: rows[i][j].ScoutLink?
  }

  /**
   * entity/src/train.rs `format_components`: the status row is commented
   * out, so only the map link remains.
   */
  function FormatComponents(p: Progress): (rows: seq<seq<Button>>)
    ensures |rows| <= 1
    ensures |rows| == 1 <==> p.scoutMap.Some?
    ensures |rows| == 1 ==> rows[0] == [ScoutLink(p.scoutMap.value)] && Style(rows[0][0]) == LinkStyle
  {
    LinkRows(p)
  }

  /** src/model/train.rs and src/train/model.rs `format_components`. */
  function FormatComponentsWithButtons(p: Progress): (rows: seq<seq<Button>>)
    ensures |rows| > 0 && rows[0] == StatusButtons(p.status)
    ensures |rows| == 2 <==> p.scoutMap.Some?
    ensures |rows| <= 2
    ensures |rows| == 2 ==> rows[1] == [ScoutLink(p.scoutMap.value)]
  {
    [StatusButtons(p.status)] + LinkRows(p)
  }

  /** Either way a link button appears exactly when the train holds a map. */
  lemma LinkShownIffScoutMap(p: Progress)
    ensures HasLinkRow(FormatComponents(p)) <==> p.scoutMap.Some?
    ensures HasLinkRow(FormatComponentsWithButtons(p)) <==> p.scoutMap.Some?
  {
    var rows: seq<seq<Button>> := FormatComponentsWithButtons(p);
    if p.scoutMap.Some? {
      assert FormatComponents(p)[0][0].ScoutLink?;
      assert rows[1][0].ScoutLink?;
    } else {
      assert forall j | 0 <= j < |rows[0]| :: Offers(p.status, rows[0][j]);
    }
  }

  /** Along any run of commands, a train never shows a link while it waits or is unknown. */
  lemma NoLinkWhileIdle(p: Progress)
    requires Consistent(p) && p.status in {Waiting, Unknown}
    ensures FormatComponents(p) == []
  {
  }
}
