/** Every action has a command line, and which of these lines mean it. */
module CliRoundTrip {
  import opened Prelude
  import opened Text
  import opened Cli
  import opened CliProofs

  // ---- Writing an action -------------------------------------------------------------------

  function TextGroup(f: Flag, value: Option<string>): seq<Group> {
    if value.Some? then [FlagGroup(f, value.value)] else []
  }

  function NumberGroup(f: Flag, value: Option<nat>): seq<Group> {
    if value.Some? then [FlagGroup(f, Decimal(value.value))] else []
  }

  function WaitGroups(pane: nat, pattern: string, timeoutMs: Option<nat>, pollMs: Option<nat>, pid: Option<nat>)
    : seq<Group>
  {
    [FlagGroup(Pane, Decimal(pane))] + ([FlagGroup(Wait, pattern)]
      + (NumberGroup(TimeoutMs, timeoutMs) + (NumberGroup(PollMs, pollMs) + NumberGroup(Pid, pid))))
  }

  function CommandGroups(cmd: string, argsJson: Option<string>, pid: Option<nat>): seq<Group> {
    [Positional(cmd)] + (TextGroup(Json, argsJson) + NumberGroup(Pid, pid))
  }

  function CommandLine(a: CliAction): seq<string> {
    match a
    case Help => ["--help"]
    case ListEndpoints => ["--list-endpoints"]
    case OscEmit(event, path) => [OSC_EMIT, event, path]
    case WaitFor(pane, pattern, timeoutMs, pollMs, pid) => Written(WaitGroups(pane, pattern, timeoutMs, pollMs, pid))
    case Command(cmd, argsJson, pid) => Written(CommandGroups(cmd, argsJson, pid))
  }

  predicate Fits(value: Option<nat>, max: nat) {
    value.Some? ==> value.value <= max
  }

  /** Every number has its type's range. */
  predicate InRange(a: CliAction) {
    match a
    case WaitFor(pane, _, timeoutMs, pollMs, pid) =>
      pane <= U64_MAX && Fits(timeoutMs, U64_MAX) && Fits(pollMs, U64_MAX) && Fits(pid, U32_MAX)
    case Command(_, _, pid) => Fits(pid, U32_MAX)
    case _ => true
  }

  /** Read as a request of its own wherever it stands. */
  predicate Special(text: string) {
    text == "-h" || text == "--help" || text == "--list-endpoints"
  }

  /** No text of the action is taken for something else. */
  predicate Writable(a: CliAction) {
    match a
    case WaitFor(_, pattern, _, _, _) => !Special(pattern)
    case Command(cmd, argsJson, _) =>
      !Special(cmd) && !Dashed(cmd) && cmd != OSC_EMIT && (argsJson.Some? ==> !Special(argsJson.value))
    case OscEmit(event, path) => !Special(event) && !Special(path)
    case _ => true
  }

  // ---- What the written groups collect to ------------------------------------------------------

  lemma {:induction false} LastValuePrefix(a: seq<Group>, b: seq<Group>, n: nat, f: Flag)
    requires n <= |a|
    ensures LastValue(a + b, n, f) == LastValue(a, n, f)
    ensures Positionals(a + b, n) == Positionals(a, n)
  {
    if n > 0 {
      LastValuePrefix(a, b, n - 1, f);
    }
  }

  lemma {:induction false} ConcatCollects(a: seq<Group>, b: seq<Group>, n: nat, f: Flag)
    requires n <= |b|
    ensures LastValue(a + b, |a| + n, f)
         == if LastValue(b, n, f).Some? then LastValue(b, n, f) else LastValue(a, |a|, f)
    ensures Positionals(a + b, |a| + n) == Positionals(a, |a|) + Positionals(b, n)
  {
    if n == 0 {
      LastValuePrefix(a, b, |a|, f);
      AppendEmpty(Positionals(a, |a|));
    } else {
      ConcatCollects(a, b, n - 1, f);
      assert (a + b)[|a| + n - 1] == b[n - 1];
      if b[n - 1].Positional? {
        AppendAssoc(Positionals(a, |a|), Positionals(b, n - 1), [b[n - 1].text]);
      }
    }
  }

  /** The value some groups give a flag in the end. */
  function Value(gs: seq<Group>, f: Flag): Option<string> {
    LastValue(gs, |gs|, f)
  }

  function Words(gs: seq<Group>): seq<string> {
    Positionals(gs, |gs|)
  }

  lemma Concat(a: seq<Group>, b: seq<Group>, f: Flag)
    ensures Value(a + b, f) == if Value(b, f).Some? then Value(b, f) else Value(a, f)
    ensures Words(a + b) == Words(a) + Words(b)
  {
    ConcatCollects(a, b, |b|, f);
  }

  lemma OneFlag(g: Flag, v: string, f: Flag)
    ensures Value([FlagGroup(g, v)], f) == if f == g then Some(v) else None
    ensures Words([FlagGroup(g, v)]) == []
  {
    assert LastValue([FlagGroup(g, v)], 0, f) == None && Positionals([FlagGroup(g, v)], 0) == [];
  }

  lemma OneNumber(g: Flag, v: Option<nat>, f: Flag)
    ensures Value(NumberGroup(g, v), f) == if f == g && v.Some? then Some(Decimal(v.value)) else None
    ensures Words(NumberGroup(g, v)) == []
  {
    if v.Some? {
      OneFlag(g, Decimal(v.value), f);
    }
  }

  lemma WaitValues(pane: nat, pattern: string, timeoutMs: Option<nat>, pollMs: Option<nat>, pid: Option<nat>, f: Flag)
    ensures var gs := WaitGroups(pane, pattern, timeoutMs, pollMs, pid);
            && Words(gs) == []
            && Value(gs, f) == match f
                 case Pane => Some(Decimal(pane))
                 case Wait => Some(pattern)
                 case TimeoutMs => if timeoutMs.Some? then Some(Decimal(timeoutMs.value)) else None
                 case PollMs => if pollMs.Some? then Some(Decimal(pollMs.value)) else None
                 case Pid => if pid.Some? then Some(Decimal(pid.value)) else None
                 case Json => None
  {
    var a, b := [FlagGroup(Pane, Decimal(pane))], [FlagGroup(Wait, pattern)];
    var c, d, e := NumberGroup(TimeoutMs, timeoutMs), NumberGroup(PollMs, pollMs), NumberGroup(Pid, pid);
    OneFlag(Pane, Decimal(pane), f);
    OneFlag(Wait, pattern, f);
    OneNumber(TimeoutMs, timeoutMs, f);
    OneNumber(PollMs, pollMs, f);
    OneNumber(Pid, pid, f);
    Concat(d, e, f);
    Concat(c, d + e, f);
    Concat(b, c + (d + e), f);
    Concat(a, b + (c + (d + e)), f);
  }

  lemma CommandValues(cmd: string, argsJson: Option<string>, pid: Option<nat>, f: Flag)
    ensures var gs := CommandGroups(cmd, argsJson, pid);
            && Words(gs) == [cmd]
            && Value(gs, f) == match f
                 case Json => argsJson
                 case Pid => if pid.Some? then Some(Decimal(pid.value)) else None
                 case _ => None
  {
    var a, b, c := [Positional(cmd)], TextGroup(Json, argsJson), NumberGroup(Pid, pid);
    assert LastValue(a, 0, f) == None && Positionals(a, 0) == [];
    if argsJson.Some? {
      OneFlag(Json, argsJson.value, f);
    }
    OneNumber(Pid, pid, f);
    Concat(b, c, f);
    Concat(a, b + c, f);
  }

  // ---- The tokens ----------------------------------------------------------------------------------

  /** A written line holds the spellings of its flags, their values and its words. */
  lemma {:induction false} TokenOf(gs: seq<Group>, k: nat, t: string)
    requires k <= |gs|
    ensures t in WrittenFrom(gs, k) <==> TokenFrom(gs, k, t)
    decreases |gs| - k
  {
    if k < |gs| {
      TokenOf(gs, k + 1, t);
      assert TokenFrom(gs, k, t) <==> t in Tokens(gs[k]) || TokenFrom(gs, k + 1, t);
      assert WrittenFrom(gs, k) == Tokens(gs[k]) + WrittenFrom(gs, k + 1);
    }
  }

  predicate TokenFrom(gs: seq<Group>, k: nat, t: string) {
    exists i :: k <= i < |gs| && t in Tokens(gs[i])
  }

  lemma SpellingIsPlain(f: Flag)
    ensures !Special(Spelling(f))
  {
    assert |"-h"| == 2 && |"--help"| == 6 && |"--list-endpoints"| == 16;
    assert "--help"[2] == 'h' && "--json"[2] == 'j' && "--wait"[2] == 'w' && "--pane"[2] == 'p';
    assert |Spelling(f)| != 2 && |Spelling(f)| != 16 && (|Spelling(f)| == 6 ==> Spelling(f)[2] != 'h');
  }

  lemma DecimalIsPlain(n: nat)
    ensures !Special(Decimal(n)) && !Dashed(Decimal(n))
  {
    assert Decimal(n)[0] in Decimal(n);
    assert "-h"[0] == '-' && "--help"[0] == '-' && "--list-endpoints"[0] == '-';
  }

  lemma SpecialAsks(argv: seq<string>)
    ensures AsksForHelp(argv) || AsksForEndpoints(argv) <==> exists t :: t in argv && Special(t)
  {
    if AsksForHelp(argv) || AsksForEndpoints(argv) {
      assert Special("-h") && Special("--help") && Special("--list-endpoints");
    }
  }

  predicate PlainGroup(g: Group) {
    match g
    case FlagGroup(_, v) => !Special(v)
    case Positional(t) => !Special(t)
  }

  lemma SpecialTokens(gs: seq<Group>)
    ensures (exists t :: t in Written(gs) && Special(t)) <==> exists i :: 0 <= i < |gs| && !PlainGroup(gs[i])
  {
    if t :| t in Written(gs) && Special(t) {
      TokenOf(gs, 0, t);
      var i :| 0 <= i < |gs| && t in Tokens(gs[i]);
      if gs[i].FlagGroup? {
        SpellingIsPlain(gs[i].flag);
      }
      assert !PlainGroup(gs[i]);
    }
    if i :| 0 <= i < |gs| && !PlainGroup(gs[i]) {
      var t := if gs[i].FlagGroup? then gs[i].value else gs[i].text;
      assert t in Tokens(gs[i]);
      TokenOf(gs, 0, t);
    }
  }

  // ---- Parsing written groups ------------------------------------------------------------------------

  /** With no special text and no "osc-emit" in front, the groups decide. */
  lemma ParsedGroups(gs: seq<Group>)
    requires AllWellFormed(gs) && gs != []
    requires forall i :: 0 <= i < |gs| ==> PlainGroup(gs[i])
    requires gs[0].Positional? ==> gs[0].text != OSC_EMIT
    ensures Parsed(Written(gs)) == Finish(Collected(gs, |gs|))
  {
    SpecialTokens(gs);
    SpecialAsks(Written(gs));
    NothingCollected(gs);
    ScanWritten(gs, 0);
    assert Written(gs)[0] == Tokens(gs[0])[0];
    if gs[0].FlagGroup? {
      DashedSpelling(gs[0].flag);
    }
  }

  lemma NumberIsRead(o: Options, f: Flag, v: Option<nat>)
    requires ValueText(o, f) == if v.Some? then Some(Decimal(v.value)) else None
    requires Fits(v, if f == Pid then U32_MAX else U64_MAX)
    ensures Number(o, f) == v
  {
    if v.Some? {
      ParseDecimal(v.value, if f == Pid then U32_MAX else U64_MAX);
    }
  }

  lemma NumberGroupFine(f: Flag, v: Option<nat>)
    requires f != Json && f != Wait && Fits(v, if f == Pid then U32_MAX else U64_MAX)
    ensures AllWellFormed(NumberGroup(f, v)) && forall g :: g in NumberGroup(f, v) ==> PlainGroup(g)
  {
    if v.Some? {
      ParseDecimal(v.value, if f == Pid then U32_MAX else U64_MAX);
      DecimalIsPlain(v.value);
    }
  }

  lemma WaitIsRead(pane: nat, pattern: string, timeoutMs: Option<nat>, pollMs: Option<nat>, pid: Option<nat>)
    requires InRange(WaitFor(pane, pattern, timeoutMs, pollMs, pid)) && !Special(pattern)
    ensures Parsed(Written(WaitGroups(pane, pattern, timeoutMs, pollMs, pid)))
         == Ok(WaitFor(pane, pattern, timeoutMs, pollMs, pid))
  {
    var gs := WaitGroups(pane, pattern, timeoutMs, pollMs, pid);
    var o := Collected(gs, |gs|);
    NumberGroupFine(Pane, Some(pane));
    NumberGroupFine(TimeoutMs, timeoutMs);
    NumberGroupFine(PollMs, pollMs);
    NumberGroupFine(Pid, pid);
    assert WellFormed(FlagGroup(Pane, Decimal(pane))) && PlainGroup(FlagGroup(Pane, Decimal(pane))) by {
      assert NumberGroup(Pane, Some(pane))[0] == FlagGroup(Pane, Decimal(pane));
    }
    GroupsFine(gs, NumberGroup(TimeoutMs, timeoutMs), NumberGroup(PollMs, pollMs), NumberGroup(Pid, pid));
    ParsedGroups(gs);
    forall f ensures ValueText(o, f) == Value(gs, f) {
    }
    WaitValues(pane, pattern, timeoutMs, pollMs, pid, Pane);
    WaitValues(pane, pattern, timeoutMs, pollMs, pid, Wait);
    WaitValues(pane, pattern, timeoutMs, pollMs, pid, TimeoutMs);
    WaitValues(pane, pattern, timeoutMs, pollMs, pid, PollMs);
    WaitValues(pane, pattern, timeoutMs, pollMs, pid, Pid);
    WaitValues(pane, pattern, timeoutMs, pollMs, pid, Json);
    NumberIsRead(o, Pane, Some(pane));
    NumberIsRead(o, TimeoutMs, timeoutMs);
    NumberIsRead(o, PollMs, pollMs);
    NumberIsRead(o, Pid, pid);
  }

  /** Two leading groups and three lists of groups, each fine, are fine together. */
  lemma GroupsFine(gs: seq<Group>, c: seq<Group>, d: seq<Group>, e: seq<Group>)
    requires |gs| >= 2 && gs == [gs[0]] + ([gs[1]] + (c + (d + e)))
    requires WellFormed(gs[0]) && WellFormed(gs[1]) && PlainGroup(gs[0]) && PlainGroup(gs[1])
    requires AllWellFormed(c) && AllWellFormed(d) && AllWellFormed(e)
    requires forall g :: g in c || g in d || g in e ==> PlainGroup(g)
    ensures AllWellFormed(gs) && forall i :: 0 <= i < |gs| ==> PlainGroup(gs[i])
  {
    forall i | 0 <= i < |gs| ensures WellFormed(gs[i]) && PlainGroup(gs[i]) {
      if i >= 2 {
        assert gs[i] == (c + (d + e))[i - 2];
        assert gs[i] in c || gs[i] in d || gs[i] in e;
      }
    }
  }

  lemma CommandIsRead(cmd: string, argsJson: Option<string>, pid: Option<nat>)
    requires InRange(Command(cmd, argsJson, pid)) && Writable(Command(cmd, argsJson, pid))
    ensures Parsed(Written(CommandGroups(cmd, argsJson, pid))) == Ok(Command(cmd, argsJson, pid))
  {
    var gs := CommandGroups(cmd, argsJson, pid);
    var o := Collected(gs, |gs|);
    NumberGroupFine(Pid, pid);
    forall i | 0 <= i < |gs| ensures WellFormed(gs[i]) && PlainGroup(gs[i]) {
      assert gs[i] == Positional(cmd) || gs[i] in TextGroup(Json, argsJson) || gs[i] in NumberGroup(Pid, pid);
    }
    ParsedGroups(gs);
    forall f ensures ValueText(o, f) == Value(gs, f) {
    }
    CommandValues(cmd, argsJson, pid, Pane);
    CommandValues(cmd, argsJson, pid, Wait);
    CommandValues(cmd, argsJson, pid, TimeoutMs);
    CommandValues(cmd, argsJson, pid, PollMs);
    CommandValues(cmd, argsJson, pid, Pid);
    CommandValues(cmd, argsJson, pid, Json);
    NumberIsRead(o, Pid, pid);
  }

  // ---- Main result --------------------------------------------------------------------------------------

  lemma {:induction false} WordsAreNotDashed(gs: seq<Group>, n: nat)
    requires n <= |gs| && AllWellFormed(gs)
    ensures forall i :: 0 <= i < |Positionals(gs, n)| ==> !Dashed(Positionals(gs, n)[i])
  {
    if n > 0 {
      WordsAreNotDashed(gs, n - 1);
      assert WellFormed(gs[n - 1]);
    }
  }

  lemma CommandIsScanned(argv: seq<string>, a: CliAction)
    requires Parsed(argv) == Ok(a) && a.Command?
    ensures argv != [] ==> argv[0] != OSC_EMIT
    ensures Scan(argv, NOTHING).Ok? && Finish(Scan(argv, NOTHING).value) == Ok(a)
  {
  }

  lemma CommandIsOnlyWord(o: Options, a: CliAction)
    requires Finish(o) == Ok(a) && a.Command?
    ensures o.positional == [a.cmd]
  {
  }

  /** A command that is parsed is no dashed word. */
  lemma ParsedCommandIsWord(argv: seq<string>, a: CliAction)
    requires Parsed(argv) == Ok(a) && a.Command?
    ensures !Dashed(a.cmd) && (argv != [] ==> argv[0] != OSC_EMIT)
  {
    CommandIsScanned(argv, a);
    CommandIsOnlyWord(Scan(argv, NOTHING).value, a);
    var gs := ScanIsWritten(argv, NOTHING);
    NothingCollected(gs);
    ScanWritten(gs, 0);
    WordsAreNotDashed(gs, |gs|);
  }

  /** A line with a special text in it asks for that. */
  lemma SpecialWins(argv: seq<string>, t: string)
    requires t in argv && Special(t)
    ensures Parsed(argv) == Ok(Help) || Parsed(argv) == Ok(ListEndpoints)
  {
    SpecialAsks(argv);
  }

  lemma OscEmitIsRead(event: string, path: string)
    ensures Parsed([OSC_EMIT, event, path]) == Ok(OscEmit(event, path)) <==> !Special(event) && !Special(path)
  {
    var argv := [OSC_EMIT, event, path];
    SpecialAsks(argv);
    assert OSC_EMIT[0] == 'o' && "-h"[0] == '-' && "--help"[0] == '-' && "--list-endpoints"[0] == '-';
    assert !Special(OSC_EMIT);
    if Special(event) {
      assert event in argv;
    }
    if Special(path) {
      assert path in argv;
    }
  }

  lemma FixedAreRead()
    ensures Parsed(["--help"]) == Ok(Help) && Parsed(["--list-endpoints"]) == Ok(ListEndpoints)
  {
    assert |"-h"| == 2 && |"--help"| == 6 && |"--list-endpoints"| == 16;
    assert "--help" in ["--help"] && "--list-endpoints" in ["--list-endpoints"];
    assert "-h" !in ["--list-endpoints"] && "--help" !in ["--list-endpoints"];
  }

  /**
   * Main result. For every action whose numbers fit: its command line is parsed as that action,
   * every value in its own place, if and only if none of its texts is taken for something else.
   */
  lemma CommandLineIff(a: CliAction)
    requires InRange(a)
    ensures Parsed(CommandLine(a)) == Ok(a) <==> Writable(a)
  {
    match a
    case Help => FixedAreRead();
    case ListEndpoints => FixedAreRead();
    case OscEmit(event, path) => OscEmitIsRead(event, path);
    case WaitFor(pane, pattern, timeoutMs, pollMs, pid) =>
      if Writable(a) {
        WaitIsRead(pane, pattern, timeoutMs, pollMs, pid);
      } else {
        var gs := WaitGroups(pane, pattern, timeoutMs, pollMs, pid);
        TokenOf(gs, 0, pattern);
        assert pattern in Tokens(gs[1]);
        SpecialWins(Written(gs), pattern);
      }
    case Command(cmd, argsJson, pid) =>
      if Writable(a) {
        CommandIsRead(cmd, argsJson, pid);
      } else {
        NotWritable(cmd, argsJson, pid);
      }
  }

  lemma NotWritable(cmd: string, argsJson: Option<string>, pid: Option<nat>)
    requires !Writable(Command(cmd, argsJson, pid))
    ensures Parsed(CommandLine(Command(cmd, argsJson, pid))) != Ok(Command(cmd, argsJson, pid))
  {
    var gs := CommandGroups(cmd, argsJson, pid);
    var argv := Written(gs);
    assert argv[0] == Tokens(gs[0])[0] == cmd;
    if Special(cmd) {
      SpecialWins(argv, cmd);
    } else if argsJson.Some? && Special(argsJson.value) {
      TokenOf(gs, 0, argsJson.value);
      assert argsJson.value in Tokens(gs[1]);
      SpecialWins(argv, argsJson.value);
    } else if Parsed(argv) == Ok(Command(cmd, argsJson, pid)) {
      ParsedCommandIsWord(argv, Command(cmd, argsJson, pid));
    }
  }
}
