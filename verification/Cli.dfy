/** The `rimectl` command line: its grammar and its parser. */
module Cli {
  import opened Prelude
  import opened Text

  datatype Flag = Pid | Json | Wait | Pane | TimeoutMs | PollMs

  datatype CliError =
    | MissingValue(flag: Flag)
    | BadNumber(flag: Flag)
    | UnknownFlag(text: string)
    | WaitWithPositional(text: string)
    | WaitWithJson
    | WaitNeedsPane
    | OnlyWithWait(flag: Flag)
    | NoCommand
    | ExtraPositional(text: string)
    | OscEmitUsage
    | OscEmitExtra(text: string)

  datatype CliAction =
    | Help
    | ListEndpoints
    | WaitFor(paneId: nat, pattern: string, timeoutMs: Option<nat>, pollMs: Option<nat>, pid: Option<nat>)
    | Command(cmd: string, argsJson: Option<string>, pid: Option<nat>)
    | OscEmit(event: string, path: string)

  const OSC_EMIT := "osc-emit"

  function Spelling(f: Flag): string {
    match f
    case Pid => "--pid"
    case Json => "--json"
    case Wait => "--wait"
    case Pane => "--pane"
    case TimeoutMs => "--timeout-ms"
    case PollMs => "--poll-ms"
  }

  function FlagOf(a: string): Option<Flag> {
    if a == "--pid" then Some(Pid)
    else if a == "--json" then Some(Json)
    else if a == "--wait" then Some(Wait)
    else if a == "--pane" then Some(Pane)
    else if a == "--timeout-ms" then Some(TimeoutMs)
    else if a == "--poll-ms" then Some(PollMs)
    else None
  }

  lemma FlagOfSpelling(f: Flag)
    ensures FlagOf(Spelling(f)) == Some(f)
  {
    assert |"--pid"| == 5 && |"--json"| == 6 && |"--wait"| == 6 && |"--pane"| == 6;
    assert |"--timeout-ms"| == 12 && |"--poll-ms"| == 9;
    assert "--json"[2] == 'j' && "--wait"[2] == 'w' && "--pane"[2] == 'p';
  }

  /** Starts with "--". */
  predicate Dashed(a: string) {
    |a| >= 2 && a[0] == '-' && a[1] == '-'
  }

  // ---- What a command line says ----------------------------------------------------------------

  /** The last value of every flag given, and the positional arguments in order. */
  datatype Options = Options(values: map<Flag, string>, positional: seq<string>)

  const NOTHING := Options(map[], [])

  predicate Accepts(f: Flag, value: string) {
    match f
    case Json => true
    case Wait => true
    case Pid => ParseUnsigned(value, U32_MAX).Some?
    case _ => ParseUnsigned(value, U64_MAX).Some?
  }

  /** The flag loop on what is left of the command line. */
  function Scan(argv: seq<string>, o: Options): Result<Options, CliError> {
    if argv == [] then Ok(o) else
      match FlagOf(argv[0])
      case Some(f) =>
        if |argv| == 1 then Err(MissingValue(f))
        else if !Accepts(f, argv[1]) then Err(BadNumber(f))
        else Scan(argv[2..], o.(values := o.values[f := argv[1]]))
      case None =>
        if Dashed(argv[0]) then Err(UnknownFlag(argv[0]))
        else Scan(argv[1..], o.(positional := o.positional + [argv[0]]))
  }

  function ValueText(o: Options, f: Flag): Option<string> {
    if f in o.values then Some(o.values[f]) else None
  }

  function Number(o: Options, f: Flag): Option<nat> {
    if f in o.values then ParseUnsigned(o.values[f], if f == Pid then U32_MAX else U64_MAX) else None
  }

  /** From options to an action. */
  function Finish(o: Options): Result<CliAction, CliError> {
    if Wait in o.values then
      if o.positional != [] then Err(WaitWithPositional(o.positional[0]))
      else if Json in o.values then Err(WaitWithJson)
      else if Number(o, Pane) == None then Err(WaitNeedsPane)
      else Ok(WaitFor(Number(o, Pane).value, o.values[Wait], Number(o, TimeoutMs), Number(o, PollMs), Number(o, Pid)))
    else if Number(o, Pane).Some? then Err(OnlyWithWait(Pane))
    else if Number(o, TimeoutMs).Some? then Err(OnlyWithWait(TimeoutMs))
    else if Number(o, PollMs).Some? then Err(OnlyWithWait(PollMs))
    else if o.positional == [] then Err(NoCommand)
    else if |o.positional| > 1 then Err(ExtraPositional(o.positional[1]))
    else Ok(Command(o.positional[0], ValueText(o, Json), Number(o, Pid)))
  }

  predicate AsksForHelp(argv: seq<string>) {
    "-h" in argv || "--help" in argv
  }

  predicate AsksForEndpoints(argv: seq<string>) {
    "--list-endpoints" in argv
  }

  function Parsed(argv: seq<string>): Result<CliAction, CliError> {
    if AsksForHelp(argv) then Ok(Help)
    else if AsksForEndpoints(argv) then Ok(ListEndpoints)
    else if argv != [] && argv[0] == OSC_EMIT then
      if |argv| < 3 then Err(OscEmitUsage)
      else if |argv| > 3 then Err(OscEmitExtra(argv[3]))
      else Ok(OscEmit(argv[1], argv[2]))
    else
      match Scan(argv, NOTHING)
      case Ok(o) => Finish(o)
      case Err(e) => Err(e)
  }

  // ---- The code ---------------------------------------------------------------------------------

  /** `take_val`: the value after the flag at `i`, and the index behind both. */
  method TakeVal(argv: seq<string>, i: nat, flag: Flag) returns (r: Result<string, CliError>, next: nat)
    requires i < |argv|
    ensures i + 1 < |argv| ==> r == Ok(argv[i + 1]) && next == i + 2
    ensures i + 1 >= |argv| ==> r == Err(MissingValue(flag))
  {
    if i + 1 < |argv| {
      return Ok(argv[i + 1]), i + 2;
    }
    return Err(MissingValue(flag)), i;
  }

  /** `take_val(…)?.parse()`: a numeric flag's value. */
  method TakeNumber(argv: seq<string>, i: nat, flag: Flag, max: nat)
    returns (r: Result<nat, CliError>, next: nat)
    requires i < |argv|
    ensures i + 1 >= |argv| ==> r == Err(MissingValue(flag))
    ensures i + 1 < |argv| && ParseUnsigned(argv[i + 1], max).None? ==> r == Err(BadNumber(flag))
    ensures i + 1 < |argv| && ParseUnsigned(argv[i + 1], max).Some? ==>
              r == Ok(ParseUnsigned(argv[i + 1], max).value) && next == i + 2
  {
    var text;
    text, next := TakeVal(argv, i, flag);
    if text.Err? { return Err(text.error), next; }
    var parsed := ParseUnsigned(text.value, max);
    if parsed.None? { return Err(BadNumber(flag)), next; }
    return Ok(parsed.value), next;
  }

  /** `parse_cli`. */
  method ParseCli(argv: seq<string>) returns (r: Result<CliAction, CliError>)
    ensures r == Parsed(argv)
  {
    if "-h" in argv || "--help" in argv { return Ok(Help); }
    if "--list-endpoints" in argv { return Ok(ListEndpoints); }
    if argv != [] && argv[0] == OSC_EMIT {
      if |argv| < 3 { return Err(OscEmitUsage); }
      if |argv| > 3 { return Err(OscEmitExtra(argv[3])); }
      return Ok(OscEmit(argv[1], argv[2]));
    }
    var positional: seq<string> := [];
    var pid, pane, timeoutMs, pollMs: Option<nat> := None, None, None, None;
    var json, pattern: Option<string> := None, None;
    ghost var o := NOTHING;
    var i := 0;
    while i < |argv|
      invariant 0 <= i <= |argv|
      invariant Scan(argv[i..], o) == Scan(argv, NOTHING)
      invariant positional == o.positional
      invariant pid == Number(o, Pid) && pane == Number(o, Pane)
      invariant timeoutMs == Number(o, TimeoutMs) && pollMs == Number(o, PollMs)
      invariant json == ValueText(o, Json) && pattern == ValueText(o, Wait)
      invariant forall f :: f in o.values ==> Accepts(f, o.values[f])
      decreases |argv| - i
    {
      var rest := argv[i..];
      var flag := FlagOf(argv[i]);
      if flag.None? {
        if Dashed(argv[i]) { return Err(UnknownFlag(argv[i])); }
        assert rest[1..] == argv[i + 1..];
        positional := positional + [argv[i]];
        o := o.(positional := o.positional + [argv[i]]);
        i := i + 1;
      } else {
        var text: Result<string, CliError>;
        var number: Result<nat, CliError>;
        var next: nat;
        match flag.value {
          case Json =>
            text, next := TakeVal(argv, i, Json);
            if text.Err? { return Err(text.error); }
            json := Some(text.value);
          case Wait =>
            text, next := TakeVal(argv, i, Wait);
            if text.Err? { return Err(text.error); }
            pattern := Some(text.value);
          case Pid =>
            number, next := TakeNumber(argv, i, Pid, U32_MAX);
            if number.Err? { return Err(number.error); }
            pid := Some(number.value);
          case Pane =>
            number, next := TakeNumber(argv, i, Pane, U64_MAX);
            if number.Err? { return Err(number.error); }
            pane := Some(number.value);
          case TimeoutMs =>
            number, next := TakeNumber(argv, i, TimeoutMs, U64_MAX);
            if number.Err? { return Err(number.error); }
            timeoutMs := Some(number.value);
          case PollMs =>
            number, next := TakeNumber(argv, i, PollMs, U64_MAX);
            if number.Err? { return Err(number.error); }
            pollMs := Some(number.value);
        }
        assert rest[1] == argv[i + 1] && rest[2..] == argv[i + 2..];
        o := o.(values := o.values[flag.value := argv[i + 1]]);
        i := next;
      }
    }
    assert Scan(argv, NOTHING) == Ok(o);
    if pattern.Some? {
      if positional != [] { return Err(WaitWithPositional(positional[0])); }
      if json.Some? { return Err(WaitWithJson); }
      if pane.None? { return Err(WaitNeedsPane); }
      return Ok(WaitFor(pane.value, pattern.value, timeoutMs, pollMs, pid));
    }
    if pane.Some? { return Err(OnlyWithWait(Pane)); }
    if timeoutMs.Some? { return Err(OnlyWithWait(TimeoutMs)); }
    if pollMs.Some? { return Err(OnlyWithWait(PollMs)); }
    if positional == [] { return Err(NoCommand); }
    if |positional| > 1 { return Err(ExtraPositional(positional[1])); }
    return Ok(Command(positional[0], json, pid));
  }
}
