/** The command-line parser for the route mutation commands: the flag loop, the long-flag
    reader, the route flag tables, and the printer that is its inverse. */
module RouteArgs {
  import opened Prelude
  import opened NumberText

  // ----- Flags -----

  datatype BoolFlag = Json | Stdin | ClearTimeoutMs

  datatype TextFlag = ConfigPath | JsonInput | Model | ServiceProvider | ProviderModelId | DisplayName

  datatype CostFlag = CostInput | CostOutput | CostCacheRead | CostCacheWrite

  datatype Flag = BoolF(b: BoolFlag) | TextF(t: TextFlag) | TimeoutF | CostF(c: CostFlag) | ClearCostF

  function Name(f: Flag): string {
    match f
    case BoolF(Json) => "--json"
    case BoolF(Stdin) => "--stdin"
    case BoolF(ClearTimeoutMs) => "--clear-timeout-ms"
    case TextF(ConfigPath) => "--config"
    case TextF(JsonInput) => "--json-input"
    case TextF(Model) => "--model"
    case TextF(ServiceProvider) => "--service-provider"
    case TextF(ProviderModelId) => "--provider-model-id"
    case TextF(DisplayName) => "--display-name"
    case TimeoutF => "--timeout-ms"
    case CostF(CostInput) => "--cost-input"
    case CostF(CostOutput) => "--cost-output"
    case CostF(CostCacheRead) => "--cost-cache-read"
    case CostF(CostCacheWrite) => "--cost-cache-write"
    case ClearCostF => "--clear-cost"
  }

  const BOOLEAN_FLAGS := [Json, Stdin, ClearTimeoutMs]
  const LONG_FLAGS := [ConfigPath, JsonInput, Model, ServiceProvider, ProviderModelId, DisplayName]
  const COST_FLAGS := [CostInput, CostOutput, CostCacheRead, CostCacheWrite]

  /** What a path flag or a value flag says when its value is missing. */
  function MissingMessage(f: Flag): string {
    "Flag '" + Name(f) + "' requires a "
    + (if f == TextF(ConfigPath) || f == TextF(JsonInput) then "path value" else "value")
  }

  // ----- State -----

  /** The fields of the route state and of the cost state. A field that is not in a map is undefined. */
  datatype RouteState = RouteState(
    flags: set<BoolFlag>, text: map<TextFlag, string>, timeoutMs: Option<nat>,
    cost: map<CostFlag, real>, clearCost: bool, name: Option<string>)

  const EMPTY := RouteState({}, map[], None, map[], false, None)

  datatype ParseResult = ParseResult(state: RouteState, error: Option<string>)

  // ----- Parsing -----

  datatype FlagRead = NoMatch | Missing | Value(value: string, consumed: nat)

  /** `readLongFlagValue` on the arguments from the current one on. */
  function ReadLongFlagValue(args: seq<string>, flagName: string): FlagRead {
    if args == [] then NoMatch
    else if args[0] == flagName then if |args| == 1 then Missing else Value(args[1], 1)
    else if flagName + "=" <= args[0] then
      var value := args[0][|flagName| + 1..];
      if value == "" then Missing else Value(value, 0)
    else NoMatch
  }

  /** What the parser does with the current argument: fail, or go on after `count` arguments. */
  datatype Step = Pass | Failed(message: string) | Took(count: nat, state: RouteState)

  function BooleanStep(specs: seq<BoolFlag>, args: seq<string>, st: RouteState): Step
    requires args != []
  {
    if specs == [] then Pass
    else if args[0] == Name(BoolF(specs[0])) then Took(1, st.(flags := st.flags + {specs[0]}))
    else BooleanStep(specs[1..], args, st)
  }

  function LongStep(specs: seq<TextFlag>, args: seq<string>, st: RouteState): Step
    requires args != []
  {
    if specs == [] then Pass
    else
      match ReadLongFlagValue(args, Name(TextF(specs[0])))
      case NoMatch => LongStep(specs[1..], args, st)
      case Missing => Failed(MissingMessage(TextF(specs[0])))
      case Value(value, consumed) => Took(1 + consumed, st.(text := st.text[specs[0] := value]))
  }

  function TimeoutStep(args: seq<string>, st: RouteState): Step
    requires args != []
  {
    match ReadLongFlagValue(args, Name(TimeoutF))
    case NoMatch => Pass
    case Missing => Failed(MissingMessage(TimeoutF))
    case Value(value, consumed) =>
      match ParseCanonicalPositiveInteger(value)
      case None => Failed("Flag '" + Name(TimeoutF) + "' requires a positive integer value")
      case Some(n) => Took(1 + consumed, st.(timeoutMs := Some(n)))
  }

  /** The numeric cost flags match by their bare name only. `num` is `Number`, without NaN and infinity. */
  function CostStep(specs: seq<CostFlag>, args: seq<string>, st: RouteState, num: string -> Option<real>): Step
    requires args != []
  {
    if specs == [] then Pass
    else if args[0] != Name(CostF(specs[0])) then CostStep(specs[1..], args, st, num)
    else if |args| == 1 then Failed(MissingMessage(CostF(specs[0])))
    else if num(args[1]).None? || num(args[1]).value < 0.0 then
      Failed("Flag '" + Name(CostF(specs[0])) + "' requires a non-negative numeric value")
    else Took(2, st.(cost := st.cost[specs[0] := num(args[1]).value]))
  }

  function PositionalStep(args: seq<string>, st: RouteState): Step
    requires args != []
  {
    if "-" <= args[0] then Failed("Unknown flag '" + args[0] + "'")
    else if st.name.GetOr("") == "" then Took(1, st.(name := Some(args[0])))
    else Failed("Unexpected argument '" + args[0] + "'")
  }

  function OrElse(first: Step, second: Step): Step {
    if first.Pass? then second else first
  }

  /** One round of the flag loop: boolean flags, long flags, timeout, cost flags, positional. */
  function RouteStep(args: seq<string>, st: RouteState, num: string -> Option<real>): (r: Step)
    requires args != []
    ensures !r.Pass? && (r.Took? ==> r.count > 0)
  {
    BooleanTakes(BOOLEAN_FLAGS, args, st);
    LongTakes(LONG_FLAGS, args, st);
    CostTakes(COST_FLAGS, args, st, num);
    OrElse(BooleanStep(BOOLEAN_FLAGS, args, st),
    OrElse(LongStep(LONG_FLAGS, args, st),
    OrElse(TimeoutStep(args, st),
    OrElse(if args[0] == Name(ClearCostF) then Took(1, st.(clearCost := true)) else CostStep(COST_FLAGS, args, st, num),
      PositionalStep(args, st)))))
  }

  lemma BooleanTakes(specs: seq<BoolFlag>, args: seq<string>, st: RouteState)
    requires args != []
    ensures var r := BooleanStep(specs, args, st); r.Took? ==> r.count > 0
  {
  }

  lemma LongTakes(specs: seq<TextFlag>, args: seq<string>, st: RouteState)
    requires args != []
    ensures var r := LongStep(specs, args, st); r.Took? ==> r.count > 0
  {
  }

  lemma CostTakes(specs: seq<CostFlag>, args: seq<string>, st: RouteState, num: string -> Option<real>)
    requires args != []
    ensures var r := CostStep(specs, args, st, num); r.Took? ==> r.count > 0
  {
  }

  function Parse(args: seq<string>, st: RouteState, num: string -> Option<real>): ParseResult
    decreases |args|
  {
    if args == [] then ParseResult(st, None)
    else
      match RouteStep(args, st, num)
      case Failed(message) => ParseResult(st, Some(message))
      case Took(count, next) => Parse(args[Min(count, |args|)..], next, num)
  }

  /** `parseRoutesCreateArgs` with the loop of `parseFlagArgv`. */
  method ParseRoutesCreateArgs(argv: seq<string>, num: string -> Option<real>) returns (r: ParseResult)
    ensures r == Parse(argv, EMPTY, num)
  {
    hide RouteStep;
    var st, index := EMPTY, 0;
    while index < |argv|
      invariant 0 <= index
      invariant Parse(argv, EMPTY, num) == Parse(argv[Min(index, |argv|)..], st, num)
      decreases |argv| - index
    {
      var args := argv[index..];
      var step := RouteStep(args, st, num);
      if step.Failed? {
        return ParseResult(st, Some(step.message));
      }
      assert args[Min(step.count, |args|)..] == argv[Min(index + step.count, |argv|)..];
      st, index := step.state, index + step.count;
    }
    return ParseResult(st, None);
  }

  // ----- Flag names -----

  /** A name is told from all others by its length and two of its letters. */
  lemma NameFacts(f: Flag)
    ensures |Name(f)| >= 6 && Name(f)[0] == '-' && forall i :: 0 <= i < |Name(f)| ==> Name(f)[i] != '='
  {
    match f
    case BoolF(_) => BoolNameFacts(f);
    case TextF(_) => TextNameFacts(f);
    case _ =>
  }

  lemma BoolNameFacts(f: Flag)
    requires f.BoolF?
    ensures |Name(f)| >= 6 && Name(f)[0] == '-' && forall i :: 0 <= i < |Name(f)| ==> Name(f)[i] != '='
  {
  }

  lemma TextNameFacts(f: Flag)
    requires f.TextF?
    ensures |Name(f)| >= 6 && Name(f)[0] == '-' && forall i :: 0 <= i < |Name(f)| ==> Name(f)[i] != '='
  {
  }

  lemma NamesDiffer(f: Flag, g: Flag)
    requires f != g
    ensures |Name(f)| != |Name(g)| || Name(f)[2] != Name(g)[2] || Name(f)[3] != Name(g)[3]
    ensures Name(f) != Name(g)
  {
  }

  /** `arg` is the flag on its own or with a value joined to it. */
  ghost predicate Spells(arg: string, f: Flag) {
    arg == Name(f) || Name(f) + "=" <= arg
  }

  /** Up to its end or its first '=', a spelled flag is the flag's name. */
  lemma SpellingShape(arg: string, f: Flag)
    ensures Spells(arg, f) ==>
      && |Name(f)| <= |arg| && (forall i :: 0 <= i < |Name(f)| ==> arg[i] == Name(f)[i])
      && (|arg| == |Name(f)| || arg[|Name(f)|] == '=')
  {
    hide Name;
    var joined := Name(f) + "=";
    assert joined <= arg ==>
      arg[|Name(f)|] == joined[|Name(f)|] && forall i :: 0 <= i < |Name(f)| ==> arg[i] == joined[i];
  }

  lemma SpellsOnlyOne(arg: string, f: Flag, g: Flag)
    requires Spells(arg, f) && f != g
    ensures !Spells(arg, g)
  {
    hide Name, Spells;
    NameFacts(f);
    NameFacts(g);
    NamesDiffer(f, g);
    SpellingShape(arg, f);
    SpellingShape(arg, g);
  }

  lemma NotAFlag(arg: string, f: Flag)
    requires !("-" <= arg)
    ensures !Spells(arg, f)
  {
    hide Name, Spells;
    NameFacts(f);
    SpellingShape(arg, f);
  }

  /** A reader passes over an argument that does not spell its flag. */
  lemma UnspelledNoMatch(args: seq<string>, f: Flag)
    requires args != [] && !Spells(args[0], f)
    ensures ReadLongFlagValue(args, Name(f)) == NoMatch
  {
  }

  lemma {:induction false} BooleanPasses(specs: seq<BoolFlag>, args: seq<string>, st: RouteState)
    requires args != [] && forall i :: 0 <= i < |specs| ==> args[0] != Name(BoolF(specs[i]))
    ensures BooleanStep(specs, args, st) == Pass
  {
    if specs != [] {
      BooleanPasses(specs[1..], args, st);
    }
  }

  lemma {:induction false} BooleanHits(specs: seq<BoolFlag>, b: BoolFlag, args: seq<string>, st: RouteState)
    requires args != [] && b in specs && args[0] == Name(BoolF(b))
    ensures BooleanStep(specs, args, st) == Took(1, st.(flags := st.flags + {b}))
  {
    if specs[0] != b {
      SpellsOnlyOne(args[0], BoolF(b), BoolF(specs[0]));
      BooleanHits(specs[1..], b, args, st);
    }
  }

  lemma {:induction false} LongPasses(specs: seq<TextFlag>, args: seq<string>, st: RouteState)
    requires args != [] && forall i :: 0 <= i < |specs| ==> !Spells(args[0], TextF(specs[i]))
    ensures LongStep(specs, args, st) == Pass
  {
    if specs != [] {
      UnspelledNoMatch(args, TextF(specs[0]));
      LongPasses(specs[1..], args, st);
    }
  }

  lemma {:induction false} LongHits(
    specs: seq<TextFlag>, t: TextFlag, args: seq<string>, st: RouteState, value: string, consumed: nat)
    requires args != [] && t in specs && Spells(args[0], TextF(t))
    requires ReadLongFlagValue(args, Name(TextF(t))) == Value(value, consumed)
    ensures LongStep(specs, args, st) == Took(1 + consumed, st.(text := st.text[t := value]))
  {
    hide ReadLongFlagValue, Name;
    if specs[0] != t {
      SpellsOnlyOne(args[0], TextF(t), TextF(specs[0]));
      UnspelledNoMatch(args, TextF(specs[0]));
      LongHits(specs[1..], t, args, st, value, consumed);
    }
  }

  lemma {:induction false} CostPasses(
    specs: seq<CostFlag>, args: seq<string>, st: RouteState, num: string -> Option<real>)
    requires args != [] && forall i :: 0 <= i < |specs| ==> args[0] != Name(CostF(specs[i]))
    ensures CostStep(specs, args, st, num) == Pass
  {
    if specs != [] {
      CostPasses(specs[1..], args, st, num);
    }
  }

  lemma {:induction false} CostHits(
    specs: seq<CostFlag>, c: CostFlag, args: seq<string>, st: RouteState, num: string -> Option<real>)
    requires |args| >= 2 && c in specs && args[0] == Name(CostF(c)) && num(args[1]).Some? && num(args[1]).value >= 0.0
    ensures CostStep(specs, args, st, num) == Took(2, st.(cost := st.cost[c := num(args[1]).value]))
  {
    hide Name;
    if specs[0] != c {
      SpellsOnlyOne(args[0], CostF(c), CostF(specs[0]));
      CostHits(specs[1..], c, args, st, num);
    }
  }

  // ----- Printing -----

  /** A piece of a command line. `joined` chooses the spelling `--flag=value`. */
  datatype Item =
    | SetFlag(b: BoolFlag)
    | SetText(t: TextFlag, value: string, joined: bool)
    | SetTimeout(ms: nat, joined: bool)
    | SetCost(c: CostFlag, digits: string)
    | SetClearCost
    | SetName(name: string)

  function Spelled(f: Flag, value: string, joined: bool): seq<string> {
    if joined then [Name(f) + "=" + value] else [Name(f), value]
  }

  function PrintItem(item: Item): seq<string> {
    match item
    case SetFlag(b) => [Name(BoolF(b))]
    case SetText(t, value, joined) => Spelled(TextF(t), value, joined)
    case SetTimeout(ms, joined) => Spelled(TimeoutF, Decimal(ms), joined)
    case SetCost(c, digits) => [Name(CostF(c)), digits]
    case SetClearCost => [Name(ClearCostF)]
    case SetName(name) => [name]
  }

  function Print(items: seq<Item>): seq<string> {
    if items == [] then [] else PrintItem(items[0]) + Print(items[1..])
  }

  ghost predicate ValidItem(item: Item, num: string -> Option<real>) {
    match item
    case SetText(_, value, joined) => joined ==> value != ""
    case SetTimeout(ms, _) => 1 <= ms <= MAX_SAFE_INTEGER
    case SetCost(_, digits) => num(digits).Some? && num(digits).value >= 0.0
    case SetName(name) => !("-" <= name)
    case _ => true
  }

  function ApplyItem(item: Item, st: RouteState, num: string -> Option<real>): RouteState {
    match item
    case SetFlag(b) => st.(flags := st.flags + {b})
    case SetText(t, value, _) => st.(text := st.text[t := value])
    case SetTimeout(ms, _) => st.(timeoutMs := Some(ms))
    case SetCost(c, digits) => if num(digits).Some? then st.(cost := st.cost[c := num(digits).value]) else st
    case SetClearCost => st.(clearCost := true)
    case SetName(name) => st.(name := Some(name))
  }

  lemma SpelledReads(f: Flag, value: string, joined: bool, rest: seq<string>)
    requires joined ==> value != ""
    ensures var args := Spelled(f, value, joined) + rest;
      Spells(args[0], f) && ReadLongFlagValue(args, Name(f)) == Value(value, if joined then 0 else 1)
  {
    hide Name;
    NameFacts(f);
    if joined {
      var arg := Name(f) + "=" + value;
      assert arg == (Name(f) + "=") + value;
      assert arg[|Name(f)| + 1..] == value;
      assert arg[|Name(f)|] == '=';
    }
  }

  /** The parser takes a printed item for what it says. */
  lemma ItemStep(item: Item, rest: seq<string>, st: RouteState, num: string -> Option<real>)
    requires ValidItem(item, num) && (item.SetName? ==> st.name.GetOr("") == "")
    ensures RouteStep(PrintItem(item) + rest, st, num) == Took(|PrintItem(item)|, ApplyItem(item, st, num))
  {
    hide Name, BooleanStep, LongStep, CostStep, ReadLongFlagValue, ParseCanonicalPositiveInteger;
    var args := PrintItem(item) + rest;
    match item
    case SetFlag(b) =>
      assert b in BOOLEAN_FLAGS by { BoolListed(b); }
      BooleanHits(BOOLEAN_FLAGS, b, args, st);
    case SetText(t, value, joined) =>
      SpelledReads(TextF(t), value, joined, rest);
      OthersPass(args, TextF(t), st, num);
      assert t in LONG_FLAGS by { TextListed(t); }
      LongHits(LONG_FLAGS, t, args, st, value, if joined then 0 else 1);
    case SetTimeout(ms, joined) =>
      PositiveIntegerRoundTrip(Decimal(ms), ms);
      DecimalIsCanonical(ms);
      SpelledReads(TimeoutF, Decimal(ms), joined, rest);
      OthersPass(args, TimeoutF, st, num);
    case SetCost(c, digits) =>
      OthersPass(args, CostF(c), st, num);
      assert c in COST_FLAGS by { CostListed(c); }
      CostHits(COST_FLAGS, c, args, st, num);
    case SetClearCost =>
      OthersPass(args, ClearCostF, st, num);
    case SetName(name) =>
      NothingMatches(args, st, num);
  }

  lemma BoolListed(b: BoolFlag)
    ensures b in BOOLEAN_FLAGS
  {
    assert BOOLEAN_FLAGS[0] == Json && BOOLEAN_FLAGS[1] == Stdin && BOOLEAN_FLAGS[2] == ClearTimeoutMs;
  }

  lemma TextListed(t: TextFlag)
    ensures t in LONG_FLAGS
  {
    assert LONG_FLAGS[0] == ConfigPath && LONG_FLAGS[1] == JsonInput && LONG_FLAGS[2] == Model
        && LONG_FLAGS[3] == ServiceProvider && LONG_FLAGS[4] == ProviderModelId && LONG_FLAGS[5] == DisplayName;
  }

  lemma CostListed(c: CostFlag)
    ensures c in COST_FLAGS
  {
    assert COST_FLAGS[0] == CostInput && COST_FLAGS[1] == CostOutput
        && COST_FLAGS[2] == CostCacheRead && COST_FLAGS[3] == CostCacheWrite;
  }

  /** An argument that spells `f` passes the tables that come before the one of `f`. */
  lemma OthersPass(args: seq<string>, f: Flag, st: RouteState, num: string -> Option<real>)
    requires args != [] && Spells(args[0], f)
    ensures !f.BoolF? ==> BooleanStep(BOOLEAN_FLAGS, args, st) == Pass
    ensures !f.TextF? ==> LongStep(LONG_FLAGS, args, st) == Pass
    ensures f != TimeoutF ==> TimeoutStep(args, st) == Pass
    ensures f != ClearCostF ==> args[0] != Name(ClearCostF)
    ensures !f.CostF? ==> CostStep(COST_FLAGS, args, st, num) == Pass
  {
    hide Name;
    forall g: Flag | g != f ensures !Spells(args[0], g) {
      SpellsOnlyOne(args[0], f, g);
    }
    PassAll(args, f, st, num);
  }

  lemma PassAll(args: seq<string>, f: Flag, st: RouteState, num: string -> Option<real>)
    requires args != [] && forall g: Flag :: g != f ==> !Spells(args[0], g)
    ensures !f.BoolF? ==> BooleanStep(BOOLEAN_FLAGS, args, st) == Pass
    ensures !f.TextF? ==> LongStep(LONG_FLAGS, args, st) == Pass
    ensures f != TimeoutF ==> TimeoutStep(args, st) == Pass
    ensures f != ClearCostF ==> args[0] != Name(ClearCostF)
    ensures !f.CostF? ==> CostStep(COST_FLAGS, args, st, num) == Pass
  {
    hide Name, BooleanStep, LongStep, CostStep, ReadLongFlagValue;
    assert f != ClearCostF ==> !Spells(args[0], ClearCostF);
    if !f.BoolF? {
      assert forall i :: 0 <= i < |BOOLEAN_FLAGS| ==> !Spells(args[0], BoolF(BOOLEAN_FLAGS[i]));
      BooleanPasses(BOOLEAN_FLAGS, args, st);
    }
    if !f.TextF? {
      LongPasses(LONG_FLAGS, args, st);
    }
    if f != TimeoutF {
      UnspelledNoMatch(args, TimeoutF);
    }
    if !f.CostF? {
      assert forall i :: 0 <= i < |COST_FLAGS| ==> !Spells(args[0], CostF(COST_FLAGS[i]));
      CostPasses(COST_FLAGS, args, st, num);
    }
  }

  lemma NothingMatches(args: seq<string>, st: RouteState, num: string -> Option<real>)
    requires args != [] && !("-" <= args[0])
    ensures BooleanStep(BOOLEAN_FLAGS, args, st) == Pass && LongStep(LONG_FLAGS, args, st) == Pass
    ensures TimeoutStep(args, st) == Pass
    ensures args[0] != Name(ClearCostF) && CostStep(COST_FLAGS, args, st, num) == Pass
  {
    hide Name;
    forall g: Flag ensures !Spells(args[0], g) {
      NotAFlag(args[0], g);
    }
    PassAll(args, TimeoutF, st, num);
    PassAll(args, ClearCostF, st, num);
  }

  // ----- Parsing what was printed -----

  function ApplyAll(items: seq<Item>, st: RouteState, num: string -> Option<real>): RouteState {
    if items == [] then st else ApplyAll(items[1..], ApplyItem(items[0], st, num), num)
  }

  /** No name follows a name that is not empty; the parser lets an empty one be replaced. */
  ghost predicate OneName(items: seq<Item>, named: bool) {
    || items == []
    || ((items[0].SetName? ==> !named) && OneName(items[1..], named || (items[0].SetName? && items[0].name != "")))
  }

  ghost predicate AllValid(items: seq<Item>, num: string -> Option<real>) {
    forall i :: 0 <= i < |items| ==> ValidItem(items[i], num)
  }

  lemma ParseItem(item: Item, rest: seq<string>, st: RouteState, num: string -> Option<real>)
    requires ValidItem(item, num) && (item.SetName? ==> st.name.GetOr("") == "")
    ensures Parse(PrintItem(item) + rest, st, num) == Parse(rest, ApplyItem(item, st, num), num)
  {
    hide RouteStep, Name;
    var args, n := PrintItem(item) + rest, |PrintItem(item)|;
    ItemStep(item, rest, st, num);
    assert args[n..] == rest;
  }

  /** Printed items followed by anything: the parser reaches the rest with the items applied in order. */
  lemma {:induction false} ParsePrinted(
    items: seq<Item>, rest: seq<string>, st: RouteState, num: string -> Option<real>)
    requires AllValid(items, num) && OneName(items, st.name.GetOr("") != "")
    ensures Parse(Print(items) + rest, st, num) == Parse(rest, ApplyAll(items, st, num), num)
    decreases |items|
  {
    hide Parse, PrintItem;
    if items == [] {
      assert Print(items) + rest == rest;
    } else {
      var more := Print(items[1..]) + rest;
      assert Print(items) + rest == PrintItem(items[0]) + more;
      ParseItem(items[0], more, st, num);
      ParsePrinted(items[1..], rest, ApplyItem(items[0], st, num), num);
    }
  }

  // ----- The flags by name -----

  lemma OneItem(item: Item, num: string -> Option<real>)
    requires ValidItem(item, num)
    ensures Parse(PrintItem(item), EMPTY, num) == ParseResult(ApplyItem(item, EMPTY, num), None)
  {
    hide PrintItem, ApplyItem, RouteStep;
    ParseItem(item, [], EMPTY, num);
    assert PrintItem(item) + [] == PrintItem(item);
  }

  /** Which field each flag of the command line sets. */
  lemma BooleanFlagNames(num: string -> Option<real>)
    ensures Parse(["--json"], EMPTY, num) == ParseResult(EMPTY.(flags := {Json}), None)
    ensures Parse(["--stdin"], EMPTY, num) == ParseResult(EMPTY.(flags := {Stdin}), None)
    ensures Parse(["--clear-timeout-ms"], EMPTY, num) == ParseResult(EMPTY.(flags := {ClearTimeoutMs}), None)
    ensures Parse(["--clear-cost"], EMPTY, num) == ParseResult(EMPTY.(clearCost := true), None)
  {
    hide Parse;
    OneItem(SetFlag(Json), num);
    OneItem(SetFlag(Stdin), num);
    OneItem(SetFlag(ClearTimeoutMs), num);
    OneItem(SetClearCost, num);
  }

  lemma TextFlagNames(value: string, num: string -> Option<real>)
    ensures Parse(["--config", value], EMPTY, num) == ParseResult(EMPTY.(text := map[ConfigPath := value]), None)
    ensures Parse(["--json-input", value], EMPTY, num) == ParseResult(EMPTY.(text := map[JsonInput := value]), None)
    ensures Parse(["--model", value], EMPTY, num) == ParseResult(EMPTY.(text := map[Model := value]), None)
    ensures Parse(["--service-provider", value], EMPTY, num)
         == ParseResult(EMPTY.(text := map[ServiceProvider := value]), None)
    ensures Parse(["--provider-model-id", value], EMPTY, num)
         == ParseResult(EMPTY.(text := map[ProviderModelId := value]), None)
    ensures Parse(["--display-name", value], EMPTY, num) == ParseResult(EMPTY.(text := map[DisplayName := value]), None)
  {
    hide Parse;
    OneItem(SetText(ConfigPath, value, false), num);
    OneItem(SetText(JsonInput, value, false), num);
    OneItem(SetText(Model, value, false), num);
    OneItem(SetText(ServiceProvider, value, false), num);
    OneItem(SetText(ProviderModelId, value, false), num);
    OneItem(SetText(DisplayName, value, false), num);
  }

  lemma NumberFlagNames(ms: nat, digits: string, num: string -> Option<real>)
    requires 1 <= ms <= MAX_SAFE_INTEGER && num(digits).Some? && num(digits).value >= 0.0
    ensures Parse(["--timeout-ms", Decimal(ms)], EMPTY, num) == ParseResult(EMPTY.(timeoutMs := Some(ms)), None)
    ensures Parse(["--cost-input", digits], EMPTY, num)
         == ParseResult(EMPTY.(cost := map[CostInput := num(digits).value]), None)
    ensures Parse(["--cost-output", digits], EMPTY, num)
         == ParseResult(EMPTY.(cost := map[CostOutput := num(digits).value]), None)
    ensures Parse(["--cost-cache-read", digits], EMPTY, num)
         == ParseResult(EMPTY.(cost := map[CostCacheRead := num(digits).value]), None)
    ensures Parse(["--cost-cache-write", digits], EMPTY, num)
         == ParseResult(EMPTY.(cost := map[CostCacheWrite := num(digits).value]), None)
  {
    hide Parse, Decimal;
    OneItem(SetTimeout(ms, false), num);
    OneItem(SetCost(CostInput, digits), num);
    OneItem(SetCost(CostOutput, digits), num);
    OneItem(SetCost(CostCacheRead, digits), num);
    OneItem(SetCost(CostCacheWrite, digits), num);
  }

  // ----- What is accepted -----

  /** `r` takes `item` from the front of the arguments. */
  ghost predicate TakesItem(r: Step, item: Item, args: seq<string>, st: RouteState, num: string -> Option<real>) {
    var printed := PrintItem(item);
    && ValidItem(item, num) && (item.SetName? ==> st.name.GetOr("") == "")
    && printed <= args && r == Took(|printed|, ApplyItem(item, st, num))
  }

  lemma {:induction false} BooleanTookItem(
    specs: seq<BoolFlag>, args: seq<string>, st: RouteState, num: string -> Option<real>)
    requires args != [] && !BooleanStep(specs, args, st).Pass?
    ensures exists b :: TakesItem(BooleanStep(specs, args, st), SetFlag(b), args, st, num)
  {
    hide Name;
    if args[0] == Name(BoolF(specs[0])) {
      assert TakesItem(BooleanStep(specs, args, st), SetFlag(specs[0]), args, st, num);
    } else {
      BooleanTookItem(specs[1..], args, st, num);
    }
  }

  /** A value that was read was spelled in one of the two ways. */
  lemma ReadIsSpelled(args: seq<string>, f: Flag)
    requires ReadLongFlagValue(args, Name(f)).Value?
    ensures var r := ReadLongFlagValue(args, Name(f));
      && r.consumed <= 1 && (r.consumed == 0 ==> r.value != "")
      && Spelled(f, r.value, r.consumed == 0) <= args && |Spelled(f, r.value, r.consumed == 0)| == 1 + r.consumed
  {
    hide Name;
    var r := ReadLongFlagValue(args, Name(f));
    if r.consumed == 0 {
      assert Name(f) + "=" == args[0][..|Name(f) + "="|];
      assert args[0] == Name(f) + "=" + r.value;
    }
  }

  lemma {:induction false} LongTookItem(
    specs: seq<TextFlag>, args: seq<string>, st: RouteState, num: string -> Option<real>)
    requires args != [] && LongStep(specs, args, st).Took?
    ensures exists t, value, joined :: TakesItem(LongStep(specs, args, st), SetText(t, value, joined), args, st, num)
  {
    hide Name, ReadLongFlagValue, Spelled;
    var r := ReadLongFlagValue(args, Name(TextF(specs[0])));
    if r.Value? {
      ReadIsSpelled(args, TextF(specs[0]));
      assert TakesItem(LongStep(specs, args, st), SetText(specs[0], r.value, r.consumed == 0), args, st, num);
    } else {
      LongTookItem(specs[1..], args, st, num);
    }
  }

  lemma TimeoutTookItem(args: seq<string>, st: RouteState, num: string -> Option<real>)
    requires args != [] && TimeoutStep(args, st).Took?
    ensures exists ms, joined :: TakesItem(TimeoutStep(args, st), SetTimeout(ms, joined), args, st, num)
  {
    hide Name, ReadLongFlagValue, Spelled, ParseCanonicalPositiveInteger, Decimal;
    var r := ReadLongFlagValue(args, Name(TimeoutF));
    ReadIsSpelled(args, TimeoutF);
    var ms := ParseCanonicalPositiveInteger(r.value).value;
    PositiveIntegerRoundTrip(r.value, ms);
    assert TakesItem(TimeoutStep(args, st), SetTimeout(ms, r.consumed == 0), args, st, num);
  }

  lemma {:induction false} CostTookItem(
    specs: seq<CostFlag>, args: seq<string>, st: RouteState, num: string -> Option<real>)
    requires args != [] && CostStep(specs, args, st, num).Took?
    ensures exists c, digits :: TakesItem(CostStep(specs, args, st, num), SetCost(c, digits), args, st, num)
  {
    hide Name;
    if args[0] == Name(CostF(specs[0])) {
      assert TakesItem(CostStep(specs, args, st, num), SetCost(specs[0], args[1]), args, st, num);
    } else {
      CostTookItem(specs[1..], args, st, num);
    }
  }

  /** A round of the loop that does not fail takes a printed item. */
  lemma StepTookItem(args: seq<string>, st: RouteState, num: string -> Option<real>) returns (item: Item)
    requires args != [] && RouteStep(args, st, num).Took?
    ensures TakesItem(RouteStep(args, st, num), item, args, st, num)
  {
    hide Name, BooleanStep, LongStep, TimeoutStep, CostStep;
    if !BooleanStep(BOOLEAN_FLAGS, args, st).Pass? {
      BooleanTookItem(BOOLEAN_FLAGS, args, st, num);
      var b :| TakesItem(BooleanStep(BOOLEAN_FLAGS, args, st), SetFlag(b), args, st, num);
      item := SetFlag(b);
    } else if !LongStep(LONG_FLAGS, args, st).Pass? {
      LongTookItem(LONG_FLAGS, args, st, num);
      var t, value, joined :| TakesItem(LongStep(LONG_FLAGS, args, st), SetText(t, value, joined), args, st, num);
      item := SetText(t, value, joined);
    } else if !TimeoutStep(args, st).Pass? {
      TimeoutTookItem(args, st, num);
      var ms, joined :| TakesItem(TimeoutStep(args, st), SetTimeout(ms, joined), args, st, num);
      item := SetTimeout(ms, joined);
    } else if args[0] == Name(ClearCostF) {
      item := SetClearCost;
    } else if !CostStep(COST_FLAGS, args, st, num).Pass? {
      CostTookItem(COST_FLAGS, args, st, num);
      var c, digits :| TakesItem(CostStep(COST_FLAGS, args, st, num), SetCost(c, digits), args, st, num);
      item := SetCost(c, digits);
    } else {
      item := SetName(args[0]);
    }
  }

  lemma {:induction false} AcceptedIsPrinted(args: seq<string>, st: RouteState, num: string -> Option<real>)
    returns (items: seq<Item>)
    requires Parse(args, st, num).error.None?
    ensures AllValid(items, num) && OneName(items, st.name.GetOr("") != "") && args == Print(items)
    decreases |args|
  {
    hide RouteStep, PrintItem, Print, OneName, AllValid;
    if args == [] {
      items := [];
      NoItems(st.name.GetOr("") != "", num);
    } else {
      var item := StepTookItem(args, st, num);
      var rest := args[|PrintItem(item)|..];
      assert Parse(args, st, num) == Parse(rest, ApplyItem(item, st, num), num);
      var more := AcceptedIsPrinted(rest, ApplyItem(item, st, num), num);
      items := [item] + more;
      FirstItem(item, more, st, num);
    }
  }

  lemma NoItems(named: bool, num: string -> Option<real>)
    ensures AllValid([], num) && OneName([], named) && Print([]) == []
  {
  }

  lemma FirstItem(item: Item, more: seq<Item>, st: RouteState, num: string -> Option<real>)
    requires ValidItem(item, num) && (item.SetName? ==> st.name.GetOr("") == "")
    requires AllValid(more, num) && OneName(more, ApplyItem(item, st, num).name.GetOr("") != "")
    ensures AllValid([item] + more, num) && OneName([item] + more, st.name.GetOr("") != "")
    ensures Print([item] + more) == PrintItem(item) + Print(more)
  {
    hide PrintItem;
    assert ([item] + more)[1..] == more;
  }

  /** The language of the parser: an argument list is accepted exactly when it is the printing of
      valid items, in any order and spelling, with at most one name that is not empty. */
  lemma AcceptsExactlyPrinted(argv: seq<string>, num: string -> Option<real>)
    ensures Parse(argv, EMPTY, num).error.None? <==>
      exists items :: AllValid(items, num) && OneName(items, false) && argv == Print(items)
  {
    hide Print;
    if Parse(argv, EMPTY, num).error.None? {
      var items := AcceptedIsPrinted(argv, EMPTY, num);
    }
    forall items | AllValid(items, num) && OneName(items, false) && argv == Print(items)
      ensures Parse(argv, EMPTY, num).error.None?
    {
      assert argv + [] == argv;
      ParsePrinted(items, [], EMPTY, num);
    }
  }

  // ----- What is rejected, and how -----

  predicate TakesText(f: Flag) {
    f.TextF? || f == TimeoutF
  }

  /** The arguments start with the flag, without a value: at the end, or with nothing after `=`. */
  ghost predicate LacksValue(args: seq<string>, f: Flag) {
    args != [] && (args == [Name(f)] || (TakesText(f) && args[0] == Name(f) + "="))
  }

  /** The arguments start with the flag and this value. */
  ghost predicate HasValue(args: seq<string>, f: Flag, value: string) {
    Spelled(f, value, false) <= args || (value != "" && Spelled(f, value, true) <= args)
  }

  /** No flag of the tables takes the argument. */
  ghost predicate Unknown(arg: string) {
    && (forall f: Flag :: TakesText(f) ==> !Spells(arg, f))
    && (forall f: Flag :: !TakesText(f) ==> arg != Name(f))
  }

  /** The five ways in which the first argument is at fault, and what the source says about each. */
  ghost predicate MissingFault(args: seq<string>, message: string) {
    exists f: Flag :: (TakesText(f) || f.CostF?) && LacksValue(args, f) && message == "Flag '" + Name(f) +
      if f == TextF(ConfigPath) || f == TextF(JsonInput) then "' requires a path value" else "' requires a value"
  }

  ghost predicate TimeoutFault(args: seq<string>, message: string) {
    exists value :: HasValue(args, TimeoutF, value) && ParseCanonicalPositiveInteger(value).None? &&
      message == "Flag '" + Name(TimeoutF) + "' requires a positive integer value"
  }

  ghost predicate CostFault(args: seq<string>, num: string -> Option<real>, message: string) {
    exists c :: |args| > 1 && args[0] == Name(CostF(c)) && (num(args[1]).None? || num(args[1]).value < 0.0) &&
      message == "Flag '" + Name(CostF(c)) + "' requires a non-negative numeric value"
  }

  ghost predicate UnknownFault(args: seq<string>, message: string) {
    args != [] && "-" <= args[0] && Unknown(args[0]) && message == "Unknown flag '" + args[0] + "'"
  }

  ghost predicate ExtraFault(args: seq<string>, st: RouteState, message: string) {
    && args != [] && !("-" <= args[0]) && st.name.GetOr("") != ""
    && message == "Unexpected argument '" + args[0] + "'"
  }

  ghost predicate Fault(args: seq<string>, st: RouteState, num: string -> Option<real>, message: string) {
    || MissingFault(args, message) || TimeoutFault(args, message) || CostFault(args, num, message)
    || UnknownFault(args, message) || ExtraFault(args, st, message)
  }

  lemma MissingText(f: Flag)
    ensures MissingMessage(f) == "Flag '" + Name(f) +
      if f == TextF(ConfigPath) || f == TextF(JsonInput) then "' requires a path value" else "' requires a value"
  {
    hide Name;
    assert "' requires a " + "path value" == "' requires a path value";
    assert "' requires a " + "value" == "' requires a value";
    assert "Flag '" + Name(f) + "' requires a " + "path value" == "Flag '" + Name(f) + ("' requires a " + "path value");
    assert "Flag '" + Name(f) + "' requires a " + "value" == "Flag '" + Name(f) + ("' requires a " + "value");
  }

  lemma MissingIsLacking(args: seq<string>, f: Flag)
    requires args != [] && TakesText(f)
    ensures ReadLongFlagValue(args, Name(f)).Missing? <==> LacksValue(args, f)
  {
    NameFacts(f);
    hide Name;
    var joined := Name(f) + "=";
    if joined <= args[0] {
      assert args[0] == joined + args[0][|joined|..];
    }
  }

  lemma ValueIsRead(args: seq<string>, f: Flag, value: string)
    requires args != [] && TakesText(f)
    ensures HasValue(args, f, value) <==>
      ReadLongFlagValue(args, Name(f)).Value? && ReadLongFlagValue(args, Name(f)).value == value
  {
    hide Name;
    if Spelled(f, value, false) <= args {
      SpelledReads(f, value, false, args[2..]);
      assert args == Spelled(f, value, false) + args[2..];
    } else if value != "" && Spelled(f, value, true) <= args {
      SpelledReads(f, value, true, args[1..]);
      assert args == Spelled(f, value, true) + args[1..];
    }
    if ReadLongFlagValue(args, Name(f)).Value? {
      ReadIsSpelled(args, f);
    }
  }

  lemma {:induction false} LongFailedFault(specs: seq<TextFlag>, args: seq<string>, st: RouteState)
    requires args != [] && LongStep(specs, args, st).Failed?
    ensures exists t :: LacksValue(args, TextF(t)) && LongStep(specs, args, st).message == MissingMessage(TextF(t))
  {
    hide Name, ReadLongFlagValue, LacksValue, MissingMessage;
    MissingIsLacking(args, TextF(specs[0]));
    if !ReadLongFlagValue(args, Name(TextF(specs[0]))).Missing? {
      LongFailedFault(specs[1..], args, st);
    }
  }

  lemma {:induction false} CostFailedFault(
    specs: seq<CostFlag>, args: seq<string>, st: RouteState, num: string -> Option<real>) returns (c: CostFlag)
    requires args != [] && CostStep(specs, args, st, num).Failed?
    ensures args[0] == Name(CostF(c)) && (|args| > 1 ==> num(args[1]).None? || num(args[1]).value < 0.0)
    ensures CostStep(specs, args, st, num).message ==
      if |args| == 1 then MissingMessage(CostF(c))
      else "Flag '" + Name(CostF(c)) + "' requires a non-negative numeric value"
  {
    hide Name, MissingMessage;
    if args[0] != Name(CostF(specs[0])) {
      c := CostFailedFault(specs[1..], args, st, num);
    } else {
      c := specs[0];
    }
  }

  lemma TimeoutFailedFault(args: seq<string>, st: RouteState)
    requires args != [] && TimeoutStep(args, st).Failed?
    ensures MissingFault(args, TimeoutStep(args, st).message) || TimeoutFault(args, TimeoutStep(args, st).message)
  {
    hide ReadLongFlagValue, LacksValue, HasValue, MissingMessage, ParseCanonicalPositiveInteger;
    var r := ReadLongFlagValue(args, Name(TimeoutF));
    MissingIsLacking(args, TimeoutF);
    MissingText(TimeoutF);
    if r.Value? {
      ValueIsRead(args, TimeoutF, r.value);
    }
  }

  /** An argument that passes all tables is none of their flags. */
  lemma PassedIsUnknown(args: seq<string>, st: RouteState, num: string -> Option<real>)
    requires args != []
    requires BooleanStep(BOOLEAN_FLAGS, args, st).Pass? && LongStep(LONG_FLAGS, args, st).Pass?
    requires TimeoutStep(args, st).Pass? && args[0] != Name(ClearCostF) && CostStep(COST_FLAGS, args, st, num).Pass?
    ensures Unknown(args[0])
  {
    hide Name, BooleanStep, LongStep, CostStep, TimeoutStep;
    forall f: Flag ensures if TakesText(f) then !Spells(args[0], f) else args[0] != Name(f) {
      if (if TakesText(f) then Spells(args[0], f) else args[0] == Name(f)) {
        SpelledIsTaken(args, f, st, num);
      }
    }
  }

  lemma SpelledIsTaken(args: seq<string>, f: Flag, st: RouteState, num: string -> Option<real>)
    requires args != [] && if TakesText(f) then Spells(args[0], f) else args[0] == Name(f)
    ensures f.BoolF? ==> !BooleanStep(BOOLEAN_FLAGS, args, st).Pass?
    ensures f.TextF? ==> !LongStep(LONG_FLAGS, args, st).Pass?
    ensures f == TimeoutF ==> !TimeoutStep(args, st).Pass?
    ensures f.CostF? ==> !CostStep(COST_FLAGS, args, st, num).Pass?
  {
    hide Name;
    match f
    case BoolF(b) =>
      BoolListed(b);
      BooleanHits(BOOLEAN_FLAGS, b, args, st);
    case TextF(t) =>
      TextListed(t);
      LongTaken(LONG_FLAGS, t, args, st);
    case TimeoutF =>
    case CostF(c) =>
      CostListed(c);
      CostTaken(COST_FLAGS, c, args, st, num);
    case ClearCostF =>
  }

  lemma {:induction false} LongTaken(specs: seq<TextFlag>, t: TextFlag, args: seq<string>, st: RouteState)
    requires args != [] && t in specs && Spells(args[0], TextF(t))
    ensures !LongStep(specs, args, st).Pass?
  {
    hide Name;
    if specs[0] != t {
      SpellsOnlyOne(args[0], TextF(t), TextF(specs[0]));
      UnspelledNoMatch(args, TextF(specs[0]));
      LongTaken(specs[1..], t, args, st);
    }
  }

  lemma {:induction false} CostTaken(
    specs: seq<CostFlag>, c: CostFlag, args: seq<string>, st: RouteState, num: string -> Option<real>)
    requires args != [] && c in specs && args[0] == Name(CostF(c))
    ensures !CostStep(specs, args, st, num).Pass?
  {
    hide Name;
    if specs[0] != c && args[0] != Name(CostF(specs[0])) {
      CostTaken(specs[1..], c, args, st, num);
    }
  }

  /** A round of the loop that fails has found one of these faults, ... */
  lemma StepFailedFault(args: seq<string>, st: RouteState, num: string -> Option<real>)
    requires args != [] && RouteStep(args, st, num).Failed?
    ensures Fault(args, st, num, RouteStep(args, st, num).message)
  {
    hide Name, BooleanStep, LongStep, TimeoutStep, CostStep, Unknown, MissingMessage;
    hide TimeoutFault;
    if !BooleanStep(BOOLEAN_FLAGS, args, st).Pass? {
      BooleanTookItem(BOOLEAN_FLAGS, args, st, num);
    } else if !LongStep(LONG_FLAGS, args, st).Pass? {
      LongFailedFault(LONG_FLAGS, args, st);
      var t :| LacksValue(args, TextF(t)) && LongStep(LONG_FLAGS, args, st).message == MissingMessage(TextF(t));
      MissingText(TextF(t));
      assert MissingFault(args, RouteStep(args, st, num).message);
    } else if !TimeoutStep(args, st).Pass? {
      TimeoutFailedFault(args, st);
    } else if args[0] != Name(ClearCostF) && !CostStep(COST_FLAGS, args, st, num).Pass? {
      var c := CostFailedFault(COST_FLAGS, args, st, num);
      MissingText(CostF(c));
      if |args| == 1 {
        assert LacksValue(args, CostF(c));
        assert MissingFault(args, RouteStep(args, st, num).message);
      }
    } else if args[0] != Name(ClearCostF) {
      PassedIsUnknown(args, st, num);
    }
  }

  lemma {:induction false} LongMisses(specs: seq<TextFlag>, t: TextFlag, args: seq<string>, st: RouteState)
    requires args != [] && t in specs && Spells(args[0], TextF(t)) && ReadLongFlagValue(args, Name(TextF(t))).Missing?
    ensures LongStep(specs, args, st) == Failed(MissingMessage(TextF(t)))
  {
    hide ReadLongFlagValue, Name, MissingMessage;
    if specs[0] != t {
      SpellsOnlyOne(args[0], TextF(t), TextF(specs[0]));
      UnspelledNoMatch(args, TextF(specs[0]));
      LongMisses(specs[1..], t, args, st);
    }
  }

  lemma {:induction false} CostFails(
    specs: seq<CostFlag>, c: CostFlag, args: seq<string>, st: RouteState, num: string -> Option<real>)
    requires args != [] && c in specs && args[0] == Name(CostF(c))
    requires |args| > 1 ==> num(args[1]).None? || num(args[1]).value < 0.0
    ensures CostStep(specs, args, st, num) == Failed(
      if |args| == 1 then MissingMessage(CostF(c))
      else "Flag '" + Name(CostF(c)) + "' requires a non-negative numeric value")
  {
    hide Name, MissingMessage;
    if specs[0] != c {
      SpellsOnlyOne(args[0], CostF(c), CostF(specs[0]));
      CostFails(specs[1..], c, args, st, num);
    }
  }

  lemma LackingSpells(args: seq<string>, f: Flag)
    requires LacksValue(args, f)
    ensures Spells(args[0], f)
  {
  }

  lemma HavingSpells(args: seq<string>, f: Flag, value: string)
    requires HasValue(args, f, value)
    ensures args != [] && Spells(args[0], f)
  {
    hide Name;
    if !(Spelled(f, value, false) <= args) {
      assert args[0] == Name(f) + "=" + value;
    }
  }

  lemma MissingFails(args: seq<string>, st: RouteState, num: string -> Option<real>, f: Flag)
    requires (TakesText(f) || f.CostF?) && LacksValue(args, f)
    ensures RouteStep(args, st, num) == Failed(MissingMessage(f))
  {
    hide Name, BooleanStep, LongStep, CostStep, ReadLongFlagValue, MissingMessage;
    LackingSpells(args, f);
    OthersPass(args, f, st, num);
    if f.CostF? {
      CostListed(f.c);
      CostFails(COST_FLAGS, f.c, args, st, num);
    } else {
      MissingIsLacking(args, f);
      if f.TextF? {
        TextListed(f.t);
        LongMisses(LONG_FLAGS, f.t, args, st);
      }
    }
  }

  lemma UnknownFails(args: seq<string>, st: RouteState, num: string -> Option<real>)
    requires args != [] && Unknown(args[0])
    ensures RouteStep(args, st, num) == PositionalStep(args, st)
  {
    hide Name, BooleanStep, LongStep, CostStep, ReadLongFlagValue;
    BooleanPasses(BOOLEAN_FLAGS, args, st);
    LongPasses(LONG_FLAGS, args, st);
    UnspelledNoMatch(args, TimeoutF);
    CostPasses(COST_FLAGS, args, st, num);
  }

  lemma NameIsUnknown(arg: string)
    requires !("-" <= arg)
    ensures Unknown(arg)
  {
    hide Name;
    forall f: Flag ensures !Spells(arg, f) && arg != Name(f) {
      NotAFlag(arg, f);
    }
  }

  /** ... and a round that finds one fails with its message. */
  lemma FaultFails(args: seq<string>, st: RouteState, num: string -> Option<real>, message: string)
    requires Fault(args, st, num, message)
    ensures args != [] && RouteStep(args, st, num) == Failed(message)
  {
    hide RouteStep, Name, MissingMessage, LacksValue, HasValue, Unknown, ParseCanonicalPositiveInteger;
    if MissingFault(args, message) {
      var f: Flag :| (TakesText(f) || f.CostF?) && LacksValue(args, f) && message == "Flag '" + Name(f) +
        if f == TextF(ConfigPath) || f == TextF(JsonInput) then "' requires a path value" else "' requires a value";
      LackingNotEmpty(args, f);
      MissingText(f);
      MissingFails(args, st, num, f);
    } else if TimeoutFault(args, message) {
      var value :| HasValue(args, TimeoutF, value) && ParseCanonicalPositiveInteger(value).None?;
      HavingSpells(args, TimeoutF, value);
      TimeoutFails(args, st, num, value);
    } else if CostFault(args, num, message) {
      CostFaultFails(args, st, num, message);
    } else if UnknownFault(args, message) {
      UnknownFails(args, st, num);
    } else {
      NameIsUnknown(args[0]);
      UnknownFails(args, st, num);
    }
  }

  lemma LackingNotEmpty(args: seq<string>, f: Flag)
    requires LacksValue(args, f)
    ensures args != []
  {
  }

  lemma TimeoutFails(args: seq<string>, st: RouteState, num: string -> Option<real>, value: string)
    requires args != [] && HasValue(args, TimeoutF, value) && ParseCanonicalPositiveInteger(value).None?
    ensures RouteStep(args, st, num) == Failed("Flag '" + Name(TimeoutF) + "' requires a positive integer value")
  {
    HavingSpells(args, TimeoutF, value);
    hide Name, BooleanStep, LongStep, CostStep, ReadLongFlagValue, HasValue, ParseCanonicalPositiveInteger;
    OthersPass(args, TimeoutF, st, num);
    ValueIsRead(args, TimeoutF, value);
  }

  lemma CostFaultFails(args: seq<string>, st: RouteState, num: string -> Option<real>, message: string)
    requires CostFault(args, num, message)
    ensures args != [] && RouteStep(args, st, num) == Failed(message)
  {
    hide Name, BooleanStep, LongStep, CostStep, TimeoutStep;
    var c :| |args| > 1 && args[0] == Name(CostF(c)) && (num(args[1]).None? || num(args[1]).value < 0.0) &&
      message == "Flag '" + Name(CostF(c)) + "' requires a non-negative numeric value";
    OthersPass(args, CostF(c), st, num);
    CostListed(c);
    CostFails(COST_FLAGS, c, args, st, num);
  }

  lemma {:induction false} RejectedHasFault(
    args: seq<string>, st: RouteState, num: string -> Option<real>) returns (items: seq<Item>, rest: seq<string>)
    requires Parse(args, st, num).error.Some?
    ensures AllValid(items, num) && OneName(items, st.name.GetOr("") != "") && args == Print(items) + rest
    ensures Fault(rest, ApplyAll(items, st, num), num, Parse(args, st, num).error.value)
    decreases |args|
  {
    hide RouteStep, PrintItem, Print, OneName, AllValid, Fault, ApplyItem;
    if RouteStep(args, st, num).Failed? {
      items, rest := [], args;
      NoItems(st.name.GetOr("") != "", num);
      StepFailedFault(args, st, num);
      assert [] + args == args;
    } else {
      var item := StepTookItem(args, st, num);
      var u := args[|PrintItem(item)|..];
      assert Parse(args, st, num) == Parse(u, ApplyItem(item, st, num), num);
      var more;
      more, rest := RejectedHasFault(u, ApplyItem(item, st, num), num);
      items := [item] + more;
      FirstItem(item, more, st, num);
      FirstApplied(item, more, st, num);
      assert args == PrintItem(item) + (Print(more) + rest) == PrintItem(item) + Print(more) + rest;
    }
  }

  lemma FirstApplied(item: Item, more: seq<Item>, st: RouteState, num: string -> Option<real>)
    ensures ApplyAll([item] + more, st, num) == ApplyAll(more, ApplyItem(item, st, num), num)
  {
    assert ([item] + more)[1..] == more;
  }

  /** The parser rejects an argument list with a message exactly when, after the printing of valid
      items, the list goes on with a fault of that message. */
  lemma RejectsExactlyFaults(argv: seq<string>, num: string -> Option<real>, message: string)
    ensures Parse(argv, EMPTY, num).error == Some(message) <==>
      exists items, rest :: AllValid(items, num) && OneName(items, false) && argv == Print(items) + rest &&
        Fault(rest, ApplyAll(items, EMPTY, num), num, message)
  {
    hide Print, Fault, AllValid, OneName, ApplyAll;
    if Parse(argv, EMPTY, num).error == Some(message) {
      var items, rest := RejectedHasFault(argv, EMPTY, num);
    }
    forall items, rest | AllValid(items, num) && OneName(items, false) && argv == Print(items) + rest &&
        Fault(rest, ApplyAll(items, EMPTY, num), num, message)
      ensures Parse(argv, EMPTY, num).error == Some(message)
    {
      ParsePrinted(items, rest, EMPTY, num);
      FaultFails(rest, ApplyAll(items, EMPTY, num), num, message);
      hide RouteStep;
    }
  }

  /** For long flags and the timeout the spellings `--flag value` and `--flag=value` of a
      non-empty value mean the same, wherever they stand after complete items. */
  lemma SpellingsInterchangeable(
    items: seq<Item>, f: Flag, value: string, rest: seq<string>, st: RouteState, num: string -> Option<real>)
    requires AllValid(items, num) && OneName(items, st.name.GetOr("") != "") && value != ""
    requires f.TextF? || f == TimeoutF
    ensures Parse(Print(items) + (Spelled(f, value, true) + rest), st, num) ==
      Parse(Print(items) + (Spelled(f, value, false) + rest), st, num)
  {
    hide Parse;
    ParsePrinted(items, Spelled(f, value, true) + rest, st, num);
    ParsePrinted(items, Spelled(f, value, false) + rest, st, num);
    SpellingStep(f, value, rest, ApplyAll(items, st, num), num);
  }

  lemma SpellingStep(f: Flag, value: string, rest: seq<string>, st: RouteState, num: string -> Option<real>)
    requires value != "" && (f.TextF? || f == TimeoutF)
    ensures Parse(Spelled(f, value, true) + rest, st, num) == Parse(Spelled(f, value, false) + rest, st, num)
  {
    hide Name, BooleanStep, LongStep, CostStep, ReadLongFlagValue, ParseCanonicalPositiveInteger;
    var joined, apart := Spelled(f, value, true) + rest, Spelled(f, value, false) + rest;
    assert joined[1..] == rest && apart[2..] == rest;
    SpelledReads(f, value, true, rest);
    SpelledReads(f, value, false, rest);
    OthersPass(joined, f, st, num);
    OthersPass(apart, f, st, num);
    if f.TextF? {
      TextListed(f.t);
      LongHits(LONG_FLAGS, f.t, joined, st, value, 0);
      LongHits(LONG_FLAGS, f.t, apart, st, value, 1);
    }
  }

  /** The cost flags have no joined spelling: it is an unknown flag. */
  lemma CostFlagsAreNotJoined(
    c: CostFlag, value: string, rest: seq<string>, st: RouteState, num: string -> Option<real>)
    ensures var arg := Name(CostF(c)) + "=" + value;
      Parse([arg] + rest, st, num) == ParseResult(st, Some("Unknown flag '" + arg + "'"))
  {
    hide Name, BooleanStep, LongStep, CostStep, ReadLongFlagValue;
    var arg := Name(CostF(c)) + "=" + value;
    var args := [arg] + rest;
    NameFacts(CostF(c));
    assert arg == (Name(CostF(c)) + "=") + value;
    OthersPass(args, CostF(c), st, num);
    forall i | 0 <= i < |COST_FLAGS| ensures arg != Name(CostF(COST_FLAGS[i])) {
      NameFacts(CostF(COST_FLAGS[i]));
      assert arg[|Name(CostF(c))|] == '=';
    }
    CostPasses(COST_FLAGS, args, st, num);
    assert arg[..1] == "-";
  }

  // ----- The last occurrence wins -----

  function Or<T>(first: Option<T>, second: Option<T>): Option<T> {
    if first.Some? then first else second
  }

  function Lookup<K, V>(m: map<K, V>, k: K): Option<V> {
    if k in m then Some(m[k]) else None
  }

  function LastText(items: seq<Item>, t: TextFlag): Option<string> {
    if items == [] then None
    else Or(LastText(items[1..], t), if items[0].SetText? && items[0].t == t then Some(items[0].value) else None)
  }

  function LastTimeout(items: seq<Item>): Option<nat> {
    if items == [] then None else Or(LastTimeout(items[1..]), if items[0].SetTimeout? then Some(items[0].ms) else None)
  }

  function LastCost(items: seq<Item>, c: CostFlag): Option<string> {
    if items == [] then None
    else Or(LastCost(items[1..], c), if items[0].SetCost? && items[0].c == c then Some(items[0].digits) else None)
  }

  function LastName(items: seq<Item>): Option<string> {
    if items == [] then None else Or(LastName(items[1..]), if items[0].SetName? then Some(items[0].name) else None)
  }

  lemma {:induction false} AppliedText(items: seq<Item>, st: RouteState, num: string -> Option<real>, t: TextFlag)
    ensures Lookup(ApplyAll(items, st, num).text, t) == Or(LastText(items, t), Lookup(st.text, t))
    decreases |items|
  {
    if items != [] {
      AppliedText(items[1..], ApplyItem(items[0], st, num), num, t);
    }
  }

  lemma {:induction false} AppliedCost(items: seq<Item>, st: RouteState, num: string -> Option<real>, c: CostFlag)
    requires AllValid(items, num)
    ensures Lookup(ApplyAll(items, st, num).cost, c) ==
      if LastCost(items, c).Some? then num(LastCost(items, c).value) else Lookup(st.cost, c)
    decreases |items|
  {
    if items != [] {
      AppliedCost(items[1..], ApplyItem(items[0], st, num), num, c);
    }
  }

  lemma {:induction false} AppliedRest(items: seq<Item>, st: RouteState, num: string -> Option<real>)
    ensures var r := ApplyAll(items, st, num);
      && (forall b :: b in r.flags <==> b in st.flags || SetFlag(b) in items)
      && r.timeoutMs == Or(LastTimeout(items), st.timeoutMs)
      && (r.clearCost <==> st.clearCost || SetClearCost in items)
      && r.name == Or(LastName(items), st.name)
    decreases |items|
  {
    if items != [] {
      AppliedRest(items[1..], ApplyItem(items[0], st, num), num);
    }
  }

  /** Every command line made of valid items is accepted, and what it sets is, field by field,
      the last occurrence of the field's flag. */
  lemma LastOccurrenceWins(items: seq<Item>, num: string -> Option<real>)
    requires AllValid(items, num) && OneName(items, false)
    ensures var r := Parse(Print(items), EMPTY, num);
      && r.error == None
      && (forall b :: b in r.state.flags <==> SetFlag(b) in items)
      && (forall t :: Lookup(r.state.text, t) == LastText(items, t))
      && r.state.timeoutMs == LastTimeout(items)
      && (forall c ::
            Lookup(r.state.cost, c) == if LastCost(items, c).Some? then num(LastCost(items, c).value) else None)
      && (r.state.clearCost <==> SetClearCost in items)
      && r.state.name == LastName(items)
  {
    assert Print(items) + [] == Print(items);
    ParsePrinted(items, [], EMPTY, num);
    AppliedRest(items, EMPTY, num);
    forall t ensures Lookup(ApplyAll(items, EMPTY, num).text, t) == LastText(items, t) {
      AppliedText(items, EMPTY, num, t);
    }
    forall c
      ensures Lookup(ApplyAll(items, EMPTY, num).cost, c) ==
        if LastCost(items, c).Some? then num(LastCost(items, c).value) else None
    {
      AppliedCost(items, EMPTY, num, c);
    }
  }

  // ----- Round trip -----

  /** The item says what the state says. */
  ghost predicate Agrees(item: Item, st: RouteState, num: string -> Option<real>) {
    match item
    case SetFlag(b) => b in st.flags
    case SetText(t, value, _) => Lookup(st.text, t) == Some(value)
    case SetTimeout(ms, _) => st.timeoutMs == Some(ms)
    case SetCost(c, digits) => c in st.cost && num(digits) == Some(st.cost[c])
    case SetClearCost => st.clearCost
    case SetName(name) => st.name == Some(name)
  }

  /** The items print the state: in any order and any spelling, each says what the state says,
      and every field that is set is said. */
  ghost predicate Prints(items: seq<Item>, st: RouteState, num: string -> Option<real>) {
    && AllValid(items, num) && OneName(items, false)
    && (forall i :: 0 <= i < |items| ==> Agrees(items[i], st, num))
    && (forall b :: b in st.flags ==> SetFlag(b) in items)
    && (forall t :: t in st.text ==> exists i :: 0 <= i < |items| && items[i].SetText? && items[i].t == t)
    && (st.timeoutMs.Some? ==> exists i :: 0 <= i < |items| && items[i].SetTimeout?)
    && (forall c :: c in st.cost ==> exists i :: 0 <= i < |items| && items[i].SetCost? && items[i].c == c)
    && (st.clearCost ==> SetClearCost in items)
    && (st.name.Some? ==> exists i :: 0 <= i < |items| && items[i].SetName?)
  }

  /** A flag that occurs has a last occurrence. */
  lemma {:induction false} OccurringHasLast(items: seq<Item>, i: nat)
    requires i < |items|
    ensures items[i].SetText? ==> LastText(items, items[i].t).Some?
    ensures items[i].SetTimeout? ==> LastTimeout(items).Some?
    ensures items[i].SetCost? ==> LastCost(items, items[i].c).Some?
    ensures items[i].SetName? ==> LastName(items).Some?
    decreases i
  {
    if i > 0 {
      OccurringHasLast(items[1..], i - 1);
    }
  }

  lemma {:induction false} LastAgrees(items: seq<Item>, st: RouteState, num: string -> Option<real>)
    requires forall i :: 0 <= i < |items| ==> Agrees(items[i], st, num)
    ensures forall t :: LastText(items, t).Some? ==> LastText(items, t) == Lookup(st.text, t)
    ensures LastTimeout(items).Some? ==> LastTimeout(items) == st.timeoutMs
    ensures forall c :: LastCost(items, c).Some? ==> c in st.cost && num(LastCost(items, c).value) == Some(st.cost[c])
    ensures LastName(items).Some? ==> LastName(items) == st.name
    decreases |items|
  {
    if items != [] {
      LastAgrees(items[1..], st, num);
      assert Agrees(items[0], st, num);
    }
  }

  /** Printing a route state, in any flag order and any spelling, and parsing the arguments gives
      the state back. */
  lemma RoundTrip(items: seq<Item>, st: RouteState, num: string -> Option<real>)
    requires Prints(items, st, num)
    ensures Parse(Print(items), EMPTY, num) == ParseResult(st, None)
  {
    hide Parse, Print, LastText, LastCost, LastTimeout, LastName;
    LastOccurrenceWins(items, num);
    LastAgrees(items, st, num);
    forall i | 0 <= i < |items|
      ensures items[i].SetText? ==> LastText(items, items[i].t).Some?
      ensures items[i].SetTimeout? ==> LastTimeout(items).Some?
      ensures items[i].SetCost? ==> LastCost(items, items[i].c).Some?
      ensures items[i].SetName? ==> LastName(items).Some?
    {
      OccurringHasLast(items, i);
    }
    var r := Parse(Print(items), EMPTY, num).state;
    assert forall i :: 0 <= i < |items| && items[i].SetFlag? ==> items[i].b in st.flags;
    assert r.flags == st.flags;
    forall t ensures Lookup(r.text, t) == Lookup(st.text, t) {
      assert LastText(items, t).Some? || t !in st.text;
    }
    assert r.text == st.text by { SameLookups(r.text, st.text); }
    forall c ensures Lookup(r.cost, c) == Lookup(st.cost, c) {
      assert LastCost(items, c).Some? || c !in st.cost;
    }
    assert r.cost == st.cost by { SameLookups(r.cost, st.cost); }
  }

  lemma SameLookups<K(!new), V>(m: map<K, V>, n: map<K, V>)
    requires forall k :: Lookup(m, k) == Lookup(n, k)
    ensures m == n
  {
    forall k ensures (k in m <==> k in n) && (k in m ==> m[k] == n[k]) {
      assert Lookup(m, k) == Lookup(n, k);
    }
  }

  // ----- A printer for every state -----

  /** What the commands can hold: a name that is no flag, a positive safe timeout, and costs that
      have a decimal text. */
  ghost predicate Printable(st: RouteState, num: string -> Option<real>, digits: real -> string) {
    && (st.name.Some? ==> !("-" <= st.name.value))
    && (st.timeoutMs.Some? ==> 1 <= st.timeoutMs.value <= MAX_SAFE_INTEGER)
    && (forall c :: c in st.cost ==> st.cost[c] >= 0.0 && num(digits(st.cost[c])) == Some(st.cost[c]))
  }

  function BoolItems(specs: seq<BoolFlag>, st: RouteState): seq<Item> {
    if specs == [] then [] else (if specs[0] in st.flags then [SetFlag(specs[0])] else []) + BoolItems(specs[1..], st)
  }

  function TextItems(specs: seq<TextFlag>, st: RouteState): seq<Item> {
    if specs == [] then []
    else (if specs[0] in st.text then [SetText(specs[0], st.text[specs[0]], false)] else []) + TextItems(specs[1..], st)
  }

  function CostItems(specs: seq<CostFlag>, st: RouteState, digits: real -> string): seq<Item> {
    if specs == [] then []
    else
      (if specs[0] in st.cost then [SetCost(specs[0], digits(st.cost[specs[0]]))] else [])
      + CostItems(specs[1..], st, digits)
  }

  function FlagItems(st: RouteState, digits: real -> string): seq<Item> {
    BoolItems(BOOLEAN_FLAGS, st) + TextItems(LONG_FLAGS, st)
    + (if st.timeoutMs.Some? then [SetTimeout(st.timeoutMs.value, false)] else [])
    + CostItems(COST_FLAGS, st, digits) + (if st.clearCost then [SetClearCost] else [])
  }

  /** The fields of a state in the order of the flag tables, the name last. */
  function StateItems(st: RouteState, digits: real -> string): seq<Item> {
    FlagItems(st, digits) + if st.name.Some? then [SetName(st.name.value)] else []
  }

  /** An item that prints a field of the state and is not its name. */
  ghost predicate IsField(item: Item, st: RouteState, num: string -> Option<real>) {
    ValidItem(item, num) && Agrees(item, st, num) && !item.SetName?
  }

  lemma {:induction false} BoolItemsPrint(specs: seq<BoolFlag>, st: RouteState, num: string -> Option<real>)
    ensures forall item :: item in BoolItems(specs, st) ==> IsField(item, st, num)
    ensures forall b :: b in specs && b in st.flags ==> SetFlag(b) in BoolItems(specs, st)
  {
    if specs != [] {
      BoolItemsPrint(specs[1..], st, num);
    }
  }

  lemma {:induction false} TextItemsPrint(specs: seq<TextFlag>, st: RouteState, num: string -> Option<real>)
    ensures forall item :: item in TextItems(specs, st) ==> IsField(item, st, num)
    ensures forall t :: t in specs && t in st.text ==> SetText(t, st.text[t], false) in TextItems(specs, st)
  {
    if specs != [] {
      TextItemsPrint(specs[1..], st, num);
    }
  }

  lemma {:induction false} CostItemsPrint(
    specs: seq<CostFlag>, st: RouteState, num: string -> Option<real>, digits: real -> string)
    requires Printable(st, num, digits)
    ensures forall item :: item in CostItems(specs, st, digits) ==> IsField(item, st, num)
    ensures forall c :: c in specs && c in st.cost ==> SetCost(c, digits(st.cost[c])) in CostItems(specs, st, digits)
  {
    if specs != [] {
      CostItemsPrint(specs[1..], st, num, digits);
    }
  }

  lemma {:induction false} OneNameAtEnd(items: seq<Item>, last: seq<Item>)
    requires |last| <= 1 && forall i :: 0 <= i < |items| ==> !items[i].SetName?
    ensures OneName(items + last, false)
    decreases |items|
  {
    if items == [] {
      assert items + last == last;
      assert last != [] ==> last[1..] == [];
    } else {
      assert (items + last)[1..] == items[1..] + last;
      OneNameAtEnd(items[1..], last);
    }
  }

  lemma FlagItemsPrint(st: RouteState, num: string -> Option<real>, digits: real -> string)
    requires Printable(st, num, digits)
    ensures var items := FlagItems(st, digits);
      && (forall item :: item in items ==> IsField(item, st, num))
      && (forall b :: b in st.flags ==> SetFlag(b) in items)
      && (forall t :: t in st.text ==> SetText(t, st.text[t], false) in items)
      && (st.timeoutMs.Some? ==> SetTimeout(st.timeoutMs.value, false) in items)
      && (forall c :: c in st.cost ==> SetCost(c, digits(st.cost[c])) in items)
      && (st.clearCost ==> SetClearCost in items)
  {
    hide BoolItems, TextItems, CostItems;
    BoolItemsPrint(BOOLEAN_FLAGS, st, num);
    TextItemsPrint(LONG_FLAGS, st, num);
    CostItemsPrint(COST_FLAGS, st, num, digits);
    forall b: BoolFlag ensures b in BOOLEAN_FLAGS { BoolListed(b); }
    forall t: TextFlag ensures t in LONG_FLAGS { TextListed(t); }
    forall c: CostFlag ensures c in COST_FLAGS { CostListed(c); }
  }

  /** The printer prints every state that the commands can hold ... */
  lemma StateItemsPrint(st: RouteState, num: string -> Option<real>, digits: real -> string)
    requires Printable(st, num, digits)
    ensures Prints(StateItems(st, digits), st, num)
  {
    hide FlagItems, OneName;
    FlagItemsPrint(st, num, digits);
    var items, flags := StateItems(st, digits), FlagItems(st, digits);
    forall i | 0 <= i < |flags| ensures IsField(flags[i], st, num) {
      assert flags[i] in flags;
    }
    OneNameAtEnd(flags, items[|flags|..]);
    assert items == flags + items[|flags|..];
    assert forall item :: item in flags ==> item in items;
    forall t | t in st.text ensures exists i :: 0 <= i < |items| && items[i].SetText? && items[i].t == t {
      assert SetText(t, st.text[t], false) in items;
    }
    forall c | c in st.cost ensures exists i :: 0 <= i < |items| && items[i].SetCost? && items[i].c == c {
      assert SetCost(c, digits(st.cost[c])) in items;
    }
    assert st.timeoutMs.Some? ==> SetTimeout(st.timeoutMs.value, false) in items;
    assert st.name.Some? ==> items[|flags|] == SetName(st.name.value);
  }

  /** ... and the parser gives it back. */
  lemma StateRoundTrip(st: RouteState, num: string -> Option<real>, digits: real -> string)
    requires Printable(st, num, digits)
    ensures Parse(Print(StateItems(st, digits)), EMPTY, num) == ParseResult(st, None)
  {
    hide Parse, Print, StateItems;
    StateItemsPrint(st, num, digits);
    RoundTrip(StateItems(st, digits), st, num);
  }
}
