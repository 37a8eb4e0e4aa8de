/**
 * The closed enums of the train bookkeeping: `Status`, `World`, `Expac`,
 * their storage codecs (`to_value` / `try_from_value`), their display and
 * parse strings, and the slash-command choice codec that picks a variant
 * by its index in declaration order.
 */
module Enums {
  import opened Base
  import Decimal

  /** A Rust `i8`. */
  type I8 = x: int | -128 <= x < 128

  // ---------------------------------------------------------------------
  // ASCII case folding, as `str::eq_ignore_ascii_case` compares

  function AsciiLower(c: char): char {
    if 'A' <= c <= 'Z' then (c as int + 32) as char else c
  }

  /** `a.eq_ignore_ascii_case(b)`. */
  predicate EqIgnoreCase(a: string, b: string) {
    |a| == |b| && forall i | 0 <= i < |a| :: AsciiLower(a[i]) == AsciiLower(b[i])
  }

  lemma EqIgnoreCaseSymmetric(a: string, b: string)
    requires EqIgnoreCase(a, b)
    ensures EqIgnoreCase(b, a)
  {
  }

  lemma EqIgnoreCaseTransitive(a: string, b: string, c: string)
    requires EqIgnoreCase(a, b) && EqIgnoreCase(b, c)
    ensures EqIgnoreCase(a, c)
  {
  }

  lemma EqIgnoreCaseReflexive(a: string)
    ensures EqIgnoreCase(a, a)
  {
  }

  /** A cheap witness that two spellings differ: length, or one of the first two letters. */
  predicate Differs(a: string, b: string) {
    |a| != |b|
    || (|a| > 0 && AsciiLower(a[0]) != AsciiLower(b[0]))
    || (|a| > 1 && AsciiLower(a[1]) != AsciiLower(b[1]))
  }

  lemma DiffersNotEq(a: string, b: string)
    requires Differs(a, b)
    ensures !EqIgnoreCase(a, b)
  {
  }

  // ---------------------------------------------------------------------
  // strum's `EnumString` with `ascii_case_insensitive`

  /** strum's `ParseError::VariantNotFound`. */
  const VariantNotFound: string := "Matching variant not found"

  predicate NamedBy<T>(names: T -> seq<string>, v: T, s: string) {
    exists n | n in names(v) :: EqIgnoreCase(s, n)
  }

  /**
   * The first variant of `vs` one of whose strings equals `s` up to ASCII
   * case, the way the derived `FromStr` tries its match arms in order.
   */
  function Lookup<T>(vs: seq<T>, names: T -> seq<string>, s: string): (r: Option<T>)
    ensures r.Some? ==> r.value in vs && NamedBy(names, r.value, s)
    ensures r.None? ==> forall v | v in vs :: !NamedBy(names, v, s)
  {
    if |vs| == 0 then None
    else if NamedBy(names, vs[0], s) then Some(vs[0])
    else Lookup(vs[1..], names, s)
  }

  /** Two spellings equal up to ASCII case are looked up alike. */
  lemma {:induction false} LookupIgnoresCase<T>(vs: seq<T>, names: T -> seq<string>, s: string, t: string)
    requires EqIgnoreCase(s, t)
    ensures Lookup(vs, names, s) == Lookup(vs, names, t)
  {
    if |vs| > 0 {
      LookupIgnoresCase(vs[1..], names, s, t);
    }
  }

  /** A variant named by `s` is found when no earlier variant is also named by `s`. */
  lemma {:induction false} LookupFinds<T>(vs: seq<T>, names: T -> seq<string>, i: nat, s: string)
    requires i < |vs| && NamedBy(names, vs[i], s)
    requires forall j | 0 <= j < i :: !NamedBy(names, vs[j], s)
    ensures Lookup(vs, names, s) == Some(vs[i])
  {
    if i > 0 {
      LookupFinds(vs[1..], names, i - 1, s);
    }
  }

  // ---------------------------------------------------------------------
  // Slash-command choices (poise `SlashArgument::{extract, choices}`)

  /** The JSON value Discord sends for an option. */
  datatype Json = JInteger(n: int) | JString(s: string) | JOther

  /** `Value::as_u64`: a non-negative integer that fits in 64 bits. */
  function AsU64(j: Json): (r: Option<nat>)
    ensures r.Some? <==> j.JInteger? && 0 <= j.n < 0x1_0000_0000_0000_0000
    ensures r.Some? ==> r.value == j.n
  {
    if j.JInteger? && 0 <= j.n < 0x1_0000_0000_0000_0000 then Some(j.n) else None
  }

  /** poise's `SlashArgError`. */
  datatype SlashArgError =
    | CommandStructureMismatch(description: string)
    | ParseError(input: string, reason: string)

  /**
   * `extract`: the value must be a `u64`; index `n` picks the `n`-th
   * variant in declaration order (`Self::iter().nth(n)`).
   */
  function ExtractChoice<T>(vs: seq<T>, j: Json): (r: Result<T, SlashArgError>)
    ensures AsU64(j).None? ==> r == Err(CommandStructureMismatch("expected u64"))
    ensures AsU64(j).Some? && j.n < |vs| ==> r == Ok(vs[j.n])
    ensures AsU64(j).Some? && j.n >= |vs| ==> r == Err(CommandStructureMismatch("argument out of range"))
  {
    match AsU64(j)
    case None => Err(CommandStructureMismatch("expected u64"))
    case Some(n) => if n < |vs| then Ok(vs[n]) else Err(CommandStructureMismatch("argument out of range"))
  }

  /** `choices()`: every variant in declaration order, named by its display string. */
  function Choices<T>(vs: seq<T>, display: T -> string): (cs: seq<string>)
    ensures |cs| == |vs|
    ensures forall i | 0 <= i < |vs| :: cs[i] == display(vs[i])
  {
    seq(|vs|, i requires 0 <= i < |vs| => display(vs[i]))
  }

  /** The `i`-th choice offered is the variant `extract(i)` returns. */
  lemma ChoiceSelectsVariant<T>(vs: seq<T>, display: T -> string, i: nat)
    requires i < |vs| && i < 0x1_0000_0000_0000_0000
    ensures ExtractChoice(vs, JInteger(i)) == Ok(vs[i])
    ensures Choices(vs, display)[i] == display(ExtractChoice(vs, JInteger(i)).value)
  {
  }

  // ---------------------------------------------------------------------
  // Status (entity/src/train.rs)

  datatype Status = Unknown | Waiting | Scouted | Running

  /** strum `Display`: the variant name. */
  function StatusName(s: Status): string {
    match s
    case Unknown => "Unknown"
    case Waiting => "Waiting"
    case Scouted => "Scouted"
    case Running => "Running"
  }

  /** `to_value`: the `#[repr(i8)]` discriminant. */
  function StatusToValue(s: Status): (v: I8)
    ensures 0 <= v <= 3
    ensures s == Unknown <==> v == 0
    ensures s == Waiting <==> v == 1
    ensures s == Scouted <==> v == 2
    ensures s == Running <==> v == 3
  {
    match s
    case Unknown => 0
    case Waiting => 1
    case Scouted => 2
    case Running => 3
  }

  /** `try_from_value`: `from_repr`, or a `DbErr::Type` naming the value. */
  function StatusFromValue(v: I8): (r: Result<Status, string>)
    ensures r.Ok? <==> 0 <= v <= 3
    ensures r.Ok? ==> StatusToValue(r.value) == v
    ensures r.Err? ==> r.error == "invalid Status value: " + Decimal.IntToString(v)
  {
    if v == 0 then Ok(Unknown)
    else if v == 1 then Ok(Waiting)
    else if v == 2 then Ok(Scouted)
    else if v == 3 then Ok(Running)
    else Err("invalid Status value: " + Decimal.IntToString(v))
  }

  lemma StatusRoundTrip(s: Status)
    ensures StatusFromValue(StatusToValue(s)) == Ok(s)
  {
  }

  // ---------------------------------------------------------------------
  // World (src/model.rs)

  datatype World = Halicarnassus | Maduin | Marilith | Seraph

  /** Declaration order, as `World::iter()` yields it. */
  const Worlds: seq<World> := [Halicarnassus, Maduin, Marilith, Seraph]

  /** The position of `w` in declaration order. */
  function WorldIndex(w: World): (i: nat)
    ensures i < |Worlds| && Worlds[i] == w
  {
    match w
    case Halicarnassus => 0
    case Maduin => 1
    case Marilith => 2
    case Seraph => 3
  }

  /** strum `Display`: the variant name. */
  function WorldName(w: World): string {
    match w
    case Halicarnassus => "Halicarnassus"
    case Maduin => "Maduin"
    case Marilith => "Marilith"
    case Seraph => "Seraph"
  }

  function WorldNames(w: World): seq<string> {
    [WorldName(w)]
  }

  /** No world's name is a case variant of another world's name. */
  lemma WorldNamesDistinct(a: World, b: World)
    requires a != b
    ensures !EqIgnoreCase(WorldName(a), WorldName(b))
  {
    assert Differs(WorldName(a), WorldName(b));
    DiffersNotEq(WorldName(a), WorldName(b));
  }

  /** `World::from_str`, ASCII case-insensitive. */
  function ParseWorld(s: string): (r: Result<World, string>)
    ensures r.Ok? ==> EqIgnoreCase(s, WorldName(r.value))
    ensures r.Err? ==> r.error == VariantNotFound && forall w: World :: !EqIgnoreCase(s, WorldName(w))
  {
    match Lookup(Worlds, WorldNames, s)
    case Some(w) => Ok(w)
    case None =>
      assert forall w: World :: !EqIgnoreCase(s, WorldName(w)) by {
        forall w: World
          ensures !EqIgnoreCase(s, WorldName(w))
        {
          assert Worlds[WorldIndex(w)] in Worlds;
          assert WorldName(w) in WorldNames(w);
        }
      }
      Err(VariantNotFound)
  }

  /** `to_value`: the display string (the database column is text). */
  function WorldToValue(w: World): string {
    WorldName(w)
  }

  /** `try_from_value`: parse the stored text back. */
  function WorldFromValue(v: string): Result<World, string> {
    ParseWorld(v)
  }

  /** A world's name, in any ASCII case, parses to that world. */
  lemma ParseWorldName(w: World, s: string)
    requires EqIgnoreCase(s, WorldName(w))
    ensures ParseWorld(s) == Ok(w)
  {
    var i := WorldIndex(w);
    forall j | 0 <= j < i
      ensures !NamedBy(WorldNames, Worlds[j], s)
    {
      if EqIgnoreCase(s, WorldName(Worlds[j])) {
        EqIgnoreCaseSymmetric(s, WorldName(w));
        EqIgnoreCaseTransitive(WorldName(w), s, WorldName(Worlds[j]));
        WorldNamesDistinct(w, Worlds[j]);
      }
    }
    LookupFinds(Worlds, WorldNames, i, s);
  }

  lemma WorldRoundTrip(w: World)
    ensures WorldFromValue(WorldToValue(w)) == Ok(w)
  {
    ParseWorldName(w, WorldName(w));
  }

  lemma WorldParseIgnoresCase(s: string, t: string)
    requires EqIgnoreCase(s, t)
    ensures ParseWorld(s) == ParseWorld(t)
  {
    LookupIgnoresCase(Worlds, WorldNames, s, t);
  }

  function ExtractWorld(j: Json): Result<World, SlashArgError> {
    ExtractChoice(Worlds, j)
  }

  function WorldChoices(): seq<string> {
    Choices(Worlds, WorldName)
  }

  /** Every world is offered exactly once, and its choice index selects it. */
  lemma WorldChoicesComplete(w: World)
    ensures exists i | 0 <= i < |WorldChoices()| ::
      WorldChoices()[i] == WorldName(w) && ExtractWorld(JInteger(i)) == Ok(w)
    ensures forall i, j | 0 <= i < j < |Worlds| :: Worlds[i] != Worlds[j]
  {
    var i := WorldIndex(w);
    ChoiceSelectsVariant(Worlds, WorldName, i);
  }

  // ---------------------------------------------------------------------
  // Expac (src/model.rs)

  datatype Expac = ARR | HW | StB | ShB | EW

  const Expacs: seq<Expac> := [ARR, HW, StB, ShB, EW]

  function ExpacIndex(e: Expac): (i: nat)
    ensures i < |Expacs| && Expacs[i] == e
  {
    match e
    case ARR => 0
    case HW => 1
    case StB => 2
    case ShB => 3
    case EW => 4
  }

  /** strum `Display` (`to_string`). */
  function ExpacName(e: Expac): string {
    match e
    case ARR => "A Realm Reborn"
    case HW => "Heavensward"
    case StB => "Stormblood"
    case ShB => "Shadowbringers"
    case EW => "Endwalker"
  }

  /** Every string `from_str` accepts for `e`: the display name, then the `serialize` aliases. */
  function ExpacNames(e: Expac): (ns: seq<string>)
    ensures |ns| > 0 && ns[0] == ExpacName(e)
  {
    match e
    case ARR => ["A Realm Reborn", "ARR"]
    case HW => ["Heavensward", "HW"]
    case StB => ["Stormblood", "SB", "StB"]
    case ShB => ["Shadowbringers", "ShB"]
    case EW => ["Endwalker", "EW"]
  }

  /** No string of one expac is a case variant of a string of another. */
  lemma ExpacNamesDistinct(a: Expac, b: Expac, n: string, m: string)
    requires a != b && n in ExpacNames(a) && m in ExpacNames(b)
    ensures !EqIgnoreCase(n, m)
  {
    assert Differs(n, m);
    DiffersNotEq(n, m);
  }

  /** `Expac::from_str`, ASCII case-insensitive, display name or alias. */
  function ParseExpac(s: string): (r: Result<Expac, string>)
    ensures r.Ok? ==> NamedBy(ExpacNames, r.value, s)
    ensures r.Err? ==> r.error == VariantNotFound && forall e: Expac :: !NamedBy(ExpacNames, e, s)
  {
    match Lookup(Expacs, ExpacNames, s)
    case Some(e) => Ok(e)
    case None =>
      assert forall e: Expac :: Expacs[ExpacIndex(e)] == e;
      Err(VariantNotFound)
  }

  /** Each string listed for an expac parses to it, whatever its ASCII case. */
  lemma ParseExpacName(e: Expac, n: string, s: string)
    requires n in ExpacNames(e) && EqIgnoreCase(s, n)
    ensures ParseExpac(s) == Ok(e)
  {
    var i := ExpacIndex(e);
    forall j | 0 <= j < i
      ensures !NamedBy(ExpacNames, Expacs[j], s)
    {
      if NamedBy(ExpacNames, Expacs[j], s) {
        var m :| m in ExpacNames(Expacs[j]) && EqIgnoreCase(s, m);
        EqIgnoreCaseSymmetric(s, n);
        EqIgnoreCaseTransitive(n, s, m);
        ExpacNamesDistinct(e, Expacs[j], n, m);
      }
    }
    LookupFinds(Expacs, ExpacNames, i, s);
  }

  lemma ExpacParseIgnoresCase(s: string, t: string)
    requires EqIgnoreCase(s, t)
    ensures ParseExpac(s) == ParseExpac(t)
  {
    LookupIgnoresCase(Expacs, ExpacNames, s, t);
  }

  /** Both "SB" and "StB" name Stormblood, as does its display name. */
  lemma StormbloodAliases()
    ensures ParseExpac("SB") == Ok(StB) && ParseExpac("StB") == Ok(StB)
    ensures ParseExpac("Stormblood") == Ok(StB)
  {
    ParseExpacName(StB, "SB", "SB");
    ParseExpacName(StB, "StB", "StB");
    ParseExpacName(StB, "Stormblood", "Stormblood");
  }

  /** `to_value`: the `#[repr(i8)]` discriminant, 2 through 6. */
  function ExpacToValue(e: Expac): (v: I8)
    ensures 2 <= v <= 6
    ensures e == ARR <==> v == 2
    ensures e == HW <==> v == 3
    ensures e == StB <==> v == 4
    ensures e == ShB <==> v == 5
    ensures e == EW <==> v == 6
  {
    match e
    case ARR => 2
    case HW => 3
    case StB => 4
    case ShB => 5
    case EW => 6
  }

  /** `try_from_value`: `from_repr`, or a `DbErr::Type` naming the value. */
  function ExpacFromValue(v: I8): (r: Result<Expac, string>)
    ensures r.Ok? <==> 2 <= v <= 6
    ensures r.Ok? ==> ExpacToValue(r.value) == v
    ensures r.Err? ==> r.error == "invalid Expac value: " + Decimal.IntToString(v)
  {
    if v == 2 then Ok(ARR)
    else if v == 3 then Ok(HW)
    else if v == 4 then Ok(StB)
    else if v == 5 then Ok(ShB)
    else if v == 6 then Ok(EW)
    else Err("invalid Expac value: " + Decimal.IntToString(v))
  }

  lemma ExpacRoundTrip(e: Expac)
    ensures ExpacFromValue(ExpacToValue(e)) == Ok(e)
  {
  }

  function ExtractExpac(j: Json): Result<Expac, SlashArgError> {
    ExtractChoice(Expacs, j)
  }

  function ExpacChoices(): seq<string> {
    Choices(Expacs, ExpacName)
  }

  lemma ExpacChoicesComplete(e: Expac)
    ensures exists i | 0 <= i < |ExpacChoices()| ::
      ExpacChoices()[i] == ExpacName(e) && ExtractExpac(JInteger(i)) == Ok(e)
    ensures forall i, j | 0 <= i < j < |Expacs| :: Expacs[i] != Expacs[j]
  {
    var i := ExpacIndex(e);
    ChoiceSelectsVariant(Expacs, ExpacName, i);
  }
}
