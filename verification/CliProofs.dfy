/** What the command-line parser accepts, and when the order of arguments matters. */
module CliProofs {
  import opened Prelude
  import opened Cli

  // ---- Groups -------------------------------------------------------------------------------

  /** A flag with its value, or a positional argument. */
  datatype Group = FlagGroup(flag: Flag, value: string) | Positional(text: string)

  predicate WellFormed(g: Group) {
    match g
    case FlagGroup(f, v) => Accepts(f, v)
    case Positional(t) => !Dashed(t)
  }

  predicate AllWellFormed(gs: seq<Group>) {
    forall i :: 0 <= i < |gs| ==> WellFormed(gs[i])
  }

  function Tokens(g: Group): seq<string> {
    match g
    case FlagGroup(f, v) => [Spelling(f), v]
    case Positional(t) => [t]
  }

  /** The command line from group `k` on. */
  function WrittenFrom(gs: seq<Group>, k: nat): seq<string>
    requires k <= |gs|
    decreases |gs| - k
  {
    if k == |gs| then [] else Tokens(gs[k]) + WrittenFrom(gs, k + 1)
  }

  function Written(gs: seq<Group>): seq<string> {
    WrittenFrom(gs, 0)
  }

  /** The last value the first `n` groups give a flag. */
  function LastValue(gs: seq<Group>, n: nat, f: Flag): Option<string>
    requires n <= |gs|
  {
    if n == 0 then None
    else if gs[n - 1].FlagGroup? && gs[n - 1].flag == f then Some(gs[n - 1].value)
    else LastValue(gs, n - 1, f)
  }

  /** The positional arguments among the first `n` groups, in order. */
  function Positionals(gs: seq<Group>, n: nat): seq<string>
    requires n <= |gs|
  {
    if n == 0 then []
    else if gs[n - 1].Positional? then Positionals(gs, n - 1) + [gs[n - 1].text]
    else Positionals(gs, n - 1)
  }

  function Collected(gs: seq<Group>, n: nat): Options
    requires n <= |gs|
  {
    Options(map f: Flag | LastValue(gs, n, f).Some? :: LastValue(gs, n, f).value, Positionals(gs, n))
  }

  // ---- Parsing is collecting --------------------------------------------------------------------

  lemma CollectedNext(gs: seq<Group>, n: nat)
    requires n < |gs|
    ensures var o := Collected(gs, n);
            Collected(gs, n + 1) ==
            if gs[n].FlagGroup? then o.(values := o.values[gs[n].flag := gs[n].value])
            else o.(positional := o.positional + [gs[n].text])
  {
    var o, next := Collected(gs, n), Collected(gs, n + 1);
    if gs[n].FlagGroup? {
      assert next.values == o.values[gs[n].flag := gs[n].value];
    } else {
      assert next.values == o.values;
    }
  }

  lemma DashedSpelling(f: Flag)
    ensures Dashed(Spelling(f)) && Spelling(f) != OSC_EMIT
  {
    assert Spelling(f)[0] == '-' && OSC_EMIT[0] == 'o';
  }

  lemma NotDashedNoFlag(a: string)
    requires !Dashed(a)
    ensures FlagOf(a) == None
  {
    if FlagOf(a).Some? {
      DashedSpelling(FlagOf(a).value);
    }
  }

  lemma ScanPair(f: Flag, v: string, rest: seq<string>, o: Options)
    requires Accepts(f, v)
    ensures Scan([Spelling(f), v] + rest, o) == Scan(rest, o.(values := o.values[f := v]))
  {
    FlagOfSpelling(f);
    var argv := [Spelling(f), v] + rest;
    assert argv[0] == Spelling(f) && argv[1] == v && argv[2..] == rest;
  }

  lemma ScanPositional(t: string, rest: seq<string>, o: Options)
    requires !Dashed(t)
    ensures Scan([t] + rest, o) == Scan(rest, o.(positional := o.positional + [t]))
  {
    NotDashedNoFlag(t);
    assert ([t] + rest)[1..] == rest;
  }

  lemma {:induction false} ScanWritten(gs: seq<Group>, k: nat)
    requires k <= |gs| && AllWellFormed(gs)
    ensures Scan(WrittenFrom(gs, k), Collected(gs, k)) == Ok(Collected(gs, |gs|))
    decreases |gs| - k
  {
    if k < |gs| {
      CollectedNext(gs, k);
      match gs[k] {
        case FlagGroup(f, v) => ScanPair(f, v, WrittenFrom(gs, k + 1), Collected(gs, k));
        case Positional(t) => ScanPositional(t, WrittenFrom(gs, k + 1), Collected(gs, k));
      }
      ScanWritten(gs, k + 1);
    }
  }

  lemma {:induction false} WrittenShift(g: Group, gs: seq<Group>, k: nat)
    requires k <= |gs|
    ensures WrittenFrom([g] + gs, k + 1) == WrittenFrom(gs, k)
    decreases |gs| - k
  {
    if k < |gs| {
      assert ([g] + gs)[k + 1] == gs[k];
      WrittenShift(g, gs, k + 1);
    }
  }

  /** What the loop accepts can be read back as groups. */
  lemma {:induction false} ScanIsWritten(argv: seq<string>, o: Options) returns (gs: seq<Group>)
    requires Scan(argv, o).Ok?
    ensures AllWellFormed(gs) && Written(gs) == argv
    decreases |argv|
  {
    if argv == [] {
      gs := [];
    } else {
      var g, rest;
      if FlagOf(argv[0]).Some? {
        g := FlagGroup(FlagOf(argv[0]).value, argv[1]);
        rest := ScanIsWritten(argv[2..], o.(values := o.values[g.flag := argv[1]]));
        assert argv == [argv[0], argv[1]] + argv[2..];
      } else {
        g := Positional(argv[0]);
        rest := ScanIsWritten(argv[1..], o.(positional := o.positional + [argv[0]]));
        assert argv == [argv[0]] + argv[1..];
      }
      gs := [g] + rest;
      WrittenShift(g, rest, 0);
    }
  }

  /** `argv` is `gs` written out. */
  ghost predicate Reads(argv: seq<string>, gs: seq<Group>) {
    AllWellFormed(gs) && Written(gs) == argv
  }

  /**
   * Main result. The flag loop accepts exactly the sequences of well-formed groups,
   * and what it ends with is the last value of every flag and the positional
   * arguments in order.
   */
  lemma ScanIff(argv: seq<string>, o: Options)
    ensures Scan(argv, NOTHING) == Ok(o) <==> exists gs :: Reads(argv, gs) && Collected(gs, |gs|) == o
  {
    if Scan(argv, NOTHING) == Ok(o) {
      var gs := ScanIsWritten(argv, NOTHING);
      NothingCollected(gs);
      ScanWritten(gs, 0);
      assert Reads(argv, gs);
    }
    forall gs | Reads(argv, gs) ensures Scan(argv, NOTHING) == Ok(Collected(gs, |gs|)) {
      NothingCollected(gs);
      ScanWritten(gs, 0);
    }
  }

  lemma NothingCollected(gs: seq<Group>)
    ensures Collected(gs, 0) == NOTHING
  {
    assert Collected(gs, 0).values == map[];
  }

  // ---- Reordering -------------------------------------------------------------------------------

  /** No flag is given two values, and no two positional arguments differ. */
  predicate Agree(g: Group, h: Group) {
    && (g.FlagGroup? && h.FlagGroup? && g.flag == h.flag ==> g == h)
    && (g.Positional? && h.Positional? ==> g == h)
  }

  predicate Agreeing(gs: seq<Group>) {
    forall g, h :: g in gs && h in gs ==> Agree(g, h)
  }

  lemma {:induction false} LastValueIsThere(gs: seq<Group>, n: nat, f: Flag)
    requires n <= |gs|
    ensures LastValue(gs, n, f).Some? ==> FlagGroup(f, LastValue(gs, n, f).value) in gs
    ensures LastValue(gs, n, f).None? ==> forall i :: 0 <= i < n ==> !(gs[i].FlagGroup? && gs[i].flag == f)
  {
    if n > 0 && !(gs[n - 1].FlagGroup? && gs[n - 1].flag == f) {
      LastValueIsThere(gs, n - 1, f);
    }
  }

  lemma {:induction false} GivenHasLastValue(gs: seq<Group>, g: Group)
    requires g in gs && g.FlagGroup?
    ensures LastValue(gs, |gs|, g.flag).Some?
  {
    LastValueIsThere(gs, |gs|, g.flag);
  }

  lemma SameLastValue(p: seq<Group>, q: seq<Group>, f: Flag)
    requires multiset(p) == multiset(q) && Agreeing(p)
    ensures LastValue(p, |p|, f) == LastValue(q, |q|, f)
  {
    SameElements(p, q);
    LastValueIsThere(p, |p|, f);
    LastValueIsThere(q, |q|, f);
    var a, b := LastValue(p, |p|, f), LastValue(q, |q|, f);
    if a.Some? {
      GivenHasLastValue(q, FlagGroup(f, a.value));
      assert Agree(FlagGroup(f, a.value), FlagGroup(f, b.value));
    }
  }

  /** Equal positional arguments are determined by how many there are. */
  lemma {:induction false} PositionalsRepeat(gs: seq<Group>, n: nat, t: string)
    requires n <= |gs|
    requires forall i :: 0 <= i < n && gs[i].Positional? ==> gs[i].text == t
    ensures Positionals(gs, n) == seq(multiset(gs[..n])[Positional(t)], _ => t)
  {
    if n > 0 {
      PositionalsRepeat(gs, n - 1, t);
      assert gs[..n] == gs[..n - 1] + [gs[n - 1]];
    }
  }

  lemma PositionalsCount(gs: seq<Group>, t: string)
    requires forall g :: g in gs && g.Positional? ==> g == Positional(t)
    ensures Positionals(gs, |gs|) == seq(multiset(gs)[Positional(t)], _ => t)
  {
    forall i | 0 <= i < |gs| && gs[i].Positional? ensures gs[i].text == t {
      assert gs[i] in gs;
    }
    PositionalsRepeat(gs, |gs|, t);
    assert gs[..|gs|] == gs;
  }

  lemma SamePositionals(p: seq<Group>, q: seq<Group>)
    requires multiset(p) == multiset(q) && Agreeing(p)
    ensures Positionals(p, |p|) == Positionals(q, |q|)
  {
    SameElements(p, q);
    var t := "";
    if g :| g in p && g.Positional? {
      t := g.text;
      forall h | h in p && h.Positional? ensures h == g { assert Agree(g, h); }
    }
    PositionalsCount(p, t);
    PositionalsCount(q, t);
  }

  lemma SameCollected(p: seq<Group>, q: seq<Group>)
    requires multiset(p) == multiset(q) && Agreeing(p)
    ensures Collected(p, |p|) == Collected(q, |q|)
  {
    forall f: Flag ensures LastValue(p, |p|, f) == LastValue(q, |q|, f) {
      SameLastValue(p, q, f);
    }
    SamePositionals(p, q);
    assert Collected(p, |p|).values == Collected(q, |q|).values;
  }

  // ---- The whole command line -------------------------------------------------------------------

  /** No help or list-endpoints token anywhere, values included. */
  predicate Quiet(argv: seq<string>) {
    !AsksForHelp(argv) && !AsksForEndpoints(argv)
  }

  lemma {:induction false} TokenIsWritten(gs: seq<Group>, k: nat, i: nat, t: string)
    requires k <= i < |gs| && t in Tokens(gs[i])
    ensures t in WrittenFrom(gs, k)
    decreases i - k
  {
    if k < i {
      TokenIsWritten(gs, k + 1, i, t);
    }
  }

  lemma {:induction false} WrittenIsToken(gs: seq<Group>, k: nat, t: string) returns (i: nat)
    requires k <= |gs| && t in WrittenFrom(gs, k)
    ensures k <= i < |gs| && t in Tokens(gs[i])
    decreases |gs| - k
  {
    i := k;
    if t !in Tokens(gs[k]) {
      i := WrittenIsToken(gs, k + 1, t);
    }
  }

  lemma SameTokens(p: seq<Group>, q: seq<Group>, t: string)
    requires multiset(p) == multiset(q)
    ensures t in Written(p) ==> t in Written(q)
  {
    SameElements(p, q);
    if t in Written(p) {
      var i := WrittenIsToken(p, 0, t);
      assert p[i] in q;
      var j :| 0 <= j < |q| && q[j] == p[i];
      TokenIsWritten(q, 0, j, t);
    }
  }

  lemma SameQuiet(p: seq<Group>, q: seq<Group>)
    requires multiset(p) == multiset(q) && Quiet(Written(p))
    ensures Quiet(Written(q))
  {
    SameTokens(q, p, "-h");
    SameTokens(q, p, "--help");
    SameTokens(q, p, "--list-endpoints");
  }

  /** A command line whose first group is not `osc-emit` is parsed from its options. */
  lemma ParsedFromOptions(gs: seq<Group>)
    requires AllWellFormed(gs) && Quiet(Written(gs))
    requires gs != [] ==> gs[0] != Positional(OSC_EMIT)
    ensures Parsed(Written(gs)) == Finish(Collected(gs, |gs|))
  {
    if gs != [] && gs[0].FlagGroup? {
      DashedSpelling(gs[0].flag);
    }
    NothingCollected(gs);
    ScanWritten(gs, 0);
  }

  /** Every order of the groups gives the same action or the same error. */
  ghost predicate OrderIndependent(gs: seq<Group>) {
    forall p: seq<Group> :: multiset(p) == multiset(gs) ==> Parsed(Written(p)) == Parsed(Written(gs))
  }

  /** `osc-emit` is among the groups, and not on its own. */
  ghost predicate OscEmitAmongOthers(gs: seq<Group>) {
    Positional(OSC_EMIT) in gs && exists g :: g in gs && g != Positional(OSC_EMIT)
  }

  predicate IsOsc(r: Result<CliAction, CliError>) {
    match r
    case Ok(a) => a.OscEmit?
    case Err(e) => e.OscEmitUsage? || e.OscEmitExtra?
  }

  function InFront(gs: seq<Group>, i: nat): (p: seq<Group>)
    requires i < |gs|
    ensures multiset(p) == multiset(gs) && |p| == |gs| && p[0] == gs[i]
  {
    assert gs == gs[..i] + [gs[i]] + gs[i + 1..];
    [gs[i]] + gs[..i] + gs[i + 1..]
  }

  lemma OscEmitInFront(gs: seq<Group>)
    requires gs != [] && gs[0] == Positional(OSC_EMIT) && Quiet(Written(gs))
    ensures IsOsc(Parsed(Written(gs)))
  {
    assert Written(gs)[0] == OSC_EMIT;
  }

  lemma OscFirst(gs: seq<Group>) returns (p: seq<Group>)
    requires Quiet(Written(gs)) && Positional(OSC_EMIT) in gs
    ensures multiset(p) == multiset(gs) && IsOsc(Parsed(Written(p)))
  {
    var i :| 0 <= i < |gs| && gs[i] == Positional(OSC_EMIT);
    p := InFront(gs, i);
    SameQuiet(gs, p);
    OscEmitInFront(p);
  }

  lemma SameWellFormed(p: seq<Group>, q: seq<Group>)
    requires multiset(p) == multiset(q) && AllWellFormed(p)
    ensures AllWellFormed(q)
  {
    SameElements(p, q);
    forall k | 0 <= k < |q| ensures WellFormed(q[k]) {
      assert q[k] in p;
    }
  }

  lemma FinishIsNotOsc(o: Options)
    ensures !IsOsc(Finish(o))
  {
  }

  lemma OtherFirst(gs: seq<Group>, g: Group) returns (p: seq<Group>)
    requires AllWellFormed(gs) && Quiet(Written(gs)) && g in gs && g != Positional(OSC_EMIT)
    ensures multiset(p) == multiset(gs) && !IsOsc(Parsed(Written(p)))
  {
    var i :| 0 <= i < |gs| && gs[i] == g;
    p := InFront(gs, i);
    SameQuiet(gs, p);
    SameWellFormed(gs, p);
    ParsedFromOptions(p);
    FinishIsNotOsc(Collected(p, |p|));
  }

  lemma OscEmitMakesOrderMatter(gs: seq<Group>)
    requires AllWellFormed(gs) && Quiet(Written(gs)) && OscEmitAmongOthers(gs)
    ensures !OrderIndependent(gs)
  {
    var p := OscFirst(gs);
    var g :| g in gs && g != Positional(OSC_EMIT);
    var q := OtherFirst(gs, g);
  }

  lemma AllOscSame(p: seq<Group>, q: seq<Group>)
    requires multiset(p) == multiset(q)
    requires forall g :: g in p ==> g == Positional(OSC_EMIT)
    ensures p == q
  {
    SameElements(p, q);
    assert |p| == |multiset(p)| == |multiset(q)| == |q|;
    forall i | 0 <= i < |p| ensures p[i] == q[i] {
      assert p[i] in p && q[i] in q;
    }
  }

  /**
   * Main result. Take any well-formed groups in which no flag has two values and no two
   * positional arguments differ, with no help or list-endpoints token. The order
   * of the groups does not matter, unless `osc-emit` stands among other groups.
   */
  lemma OrderIndependentIff(gs: seq<Group>)
    requires AllWellFormed(gs) && Agreeing(gs) && Quiet(Written(gs))
    ensures OrderIndependent(gs) <==> !OscEmitAmongOthers(gs)
  {
    if OscEmitAmongOthers(gs) {
      OscEmitMakesOrderMatter(gs);
    } else {
      forall p: seq<Group> | multiset(p) == multiset(gs) ensures Parsed(Written(p)) == Parsed(Written(gs)) {
        SameElements(p, gs);
        if Positional(OSC_EMIT) in gs {
          AllOscSame(p, gs);
        } else {
          SameCollected(gs, p);
          SameQuiet(gs, p);
          SameWellFormed(gs, p);
          assert gs != [] ==> gs[0] in gs;
          assert p != [] ==> p[0] in p;
          ParsedFromOptions(p);
          ParsedFromOptions(gs);
        }
      }
    }
  }
}
