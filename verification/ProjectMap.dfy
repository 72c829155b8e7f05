/** The project map: `+project` tags to workspace roots, read from and written to plain text. */
module ProjectMaps {
  import opened Prelude
  import opened Text

  // ---- One line ------------------------------------------------------------------------

  datatype Entry = Entry(key: string, path: string)

  /** What a line contributes; `None` for comments, blanks and everything skipped with a warning. */
  function ReadLine(raw: string, isAbsolute: string -> bool): Option<Entry> {
    var trimmed := Trim(raw);
    if trimmed == "" || trimmed[0] == '#' then None else
      var i := Find(trimmed, {'='});
      if i == |trimmed| then None else
        var key, value := Trim(trimmed[..i]), Trim(trimmed[i + 1..]);
        if key == "" || value == "" || !isAbsolute(value) then None else Some(Entry(Lower(key), value))
  }

  function EntryLine(e: Entry): string {
    e.key + "=" + e.path
  }

  /** A key that reads back as itself. */
  predicate CleanKey(k: string) {
    k != "" && Trimmed(k) && Lower(k) == k && k[0] != '#' && '=' !in k && '\n' !in k
  }

  /** A path that reads back as itself. */
  predicate CleanPath(p: string, isAbsolute: string -> bool) {
    p != "" && Trimmed(p) && '\n' !in p && isAbsolute(p)
  }

  predicate CleanEntry(e: Entry, isAbsolute: string -> bool) {
    CleanKey(e.key) && CleanPath(e.path, isAbsolute)
  }

  lemma {:induction false} LowerProps(s: string)
    ensures Lower(Lower(s)) == Lower(s)
    ensures Trimmed(s) ==> Trimmed(Lower(s))
    ensures forall c :: c !in s && !('a' <= c <= 'z') ==> c !in Lower(s)
  {
  }

  /** Trimming a text that starts with no whitespace keeps its first character. */
  lemma TrimKeepsHead(s: string)
    requires s != "" && !IsWhitespace(s[0])
    ensures Trim(s) != "" && Trim(s)[0] == s[0]
  {
    TrimEndKeepsHead(s);
  }

  lemma {:induction false} TrimEndKeepsHead(s: string)
    requires s != "" && !IsWhitespace(s[0])
    ensures TrimEnd(s) != "" && TrimEnd(s)[0] == s[0]
  {
    if IsWhitespace(s[|s| - 1]) {
      TrimEndKeepsHead(s[..|s| - 1]);
    }
  }

  /** Whatever the lenient reader accepts is clean. */
  lemma ReadLineIsClean(raw: string, isAbsolute: string -> bool)
    requires '\n' !in raw
    requires ReadLine(raw, isAbsolute).Some?
    ensures CleanEntry(ReadLine(raw, isAbsolute).value, isAbsolute)
  {
    TrimProps(raw);
    var trimmed := Trim(raw);
    var i := Find(trimmed, {'='});
    var left, right := trimmed[..i], trimmed[i + 1..];
    if i > 0 {
      TrimKeepsHead(left);
    }
    TrimProps(left);
    TrimProps(right);
    LowerProps(Trim(left));
    assert '=' !in left && '\n' !in left && '\n' !in right;
    assert Lower(Trim(left))[0] == LowerChar(trimmed[0]);
  }

  /** A clean entry survives being written and read. */
  lemma ReadEntryLine(e: Entry, isAbsolute: string -> bool)
    requires CleanEntry(e, isAbsolute)
    ensures PlainLine(EntryLine(e))
    ensures ReadLine(EntryLine(e), isAbsolute) == Some(e)
  {
    var line := EntryLine(e);
    assert line[|line| - 1] == e.path[|e.path| - 1];
    TrimIdempotent(line);
    FindUnique(line, {'='}, |e.key|);
    assert line[..|e.key|] == e.key && line[|e.key| + 1..] == e.path;
    TrimIdempotent(e.key);
    TrimIdempotent(e.path);
  }

  // ---- Which lines are read ----------------------------------------------------------------

  predicate AllSpace(s: string) {
    forall c :: c in s ==> IsWhitespace(c)
  }

  /** A key and a path with white space around each. */
  datatype Spaced = Spaced(a: string, key: string, b: string, c: string, path: string, d: string)

  function SpacedLine(s: Spaced): string {
    s.a + (s.key + s.b + "=" + (s.c + s.path)) + s.d
  }

  /** The line sets an absolute path for a key that could not be a comment. */
  predicate SetsPath(s: Spaced, isAbsolute: string -> bool) {
    && AllSpace(s.a) && AllSpace(s.b) && AllSpace(s.c) && AllSpace(s.d)
    && s.key != "" && Trimmed(s.key) && '=' !in s.key && s.key[0] != '#'
    && s.path != "" && Trimmed(s.path) && isAbsolute(s.path)
  }

  lemma {:induction false} TrimStartSpaces(a: string, t: string)
    requires AllSpace(a) && (t != "" ==> !IsWhitespace(t[0]))
    ensures TrimStart(a + t) == t
  {
    if a == "" {
      assert a + t == t;
    } else {
      assert a[0] in a && (a + t)[1..] == a[1..] + t;
      assert AllSpace(a[1..]);
      TrimStartSpaces(a[1..], t);
    }
  }

  lemma {:induction false} TrimEndSpaces(t: string, b: string)
    requires AllSpace(b) && (t != "" ==> !IsWhitespace(t[|t| - 1]))
    ensures TrimEnd(t + b) == t
  {
    if b == "" {
      assert t + b == t;
    } else {
      var init := b[..|b| - 1];
      assert b[|b| - 1] in b && (t + b)[..|t + b| - 1] == t + init;
      assert AllSpace(init) by {
        forall c | c in init ensures IsWhitespace(c) {
          assert c in b;
        }
      }
      TrimEndSpaces(t, init);
    }
  }

  lemma TrimSpaces(a: string, t: string, b: string)
    requires AllSpace(a) && AllSpace(b) && Trimmed(t) && t != ""
    ensures Trim(a + t + b) == t
  {
    assert a + t + b == a + (t + b);
    TrimStartSpaces(a, t + b);
    TrimEndSpaces(t, b);
  }

  lemma {:induction false} TrimStartDrops(s: string) returns (a: string)
    ensures AllSpace(a) && s == a + TrimStart(s)
  {
    if s != "" && IsWhitespace(s[0]) {
      var rest := TrimStartDrops(s[1..]);
      a := [s[0]] + rest;
    } else {
      a := "";
    }
  }

  lemma {:induction false} TrimEndDrops(s: string) returns (b: string)
    ensures AllSpace(b) && s == TrimEnd(s) + b
  {
    if s != "" && IsWhitespace(s[|s| - 1]) {
      var rest := TrimEndDrops(s[..|s| - 1]);
      b := rest + [s[|s| - 1]];
    } else {
      b := "";
    }
  }

  lemma TrimDrops(s: string) returns (a: string, b: string)
    ensures AllSpace(a) && AllSpace(b) && s == a + Trim(s) + b
  {
    a := TrimStartDrops(s);
    b := TrimEndDrops(TrimStart(s));
  }

  /** A line that sets a path is read, however it is spaced. */
  lemma SpacedLineIsRead(s: Spaced, isAbsolute: string -> bool)
    requires SetsPath(s, isAbsolute)
    ensures ReadLine(SpacedLine(s), isAbsolute) == Some(Entry(Lower(s.key), s.path))
  {
    var left, right := s.key + s.b, s.c + s.path;
    var middle := left + "=" + right;
    assert middle[0] == s.key[0] && middle[|middle| - 1] == s.path[|s.path| - 1];
    TrimSpaces(s.a, middle, s.d);
    forall j | 0 <= j < |left| ensures middle[j] !in {'='} {
      assert middle[j] == left[j] && (left[j] in s.key || left[j] in s.b);
    }
    FindUnique(middle, {'='}, |left|);
    assert middle[..|left|] == left && middle[|left| + 1..] == right;
    assert "" + s.key + s.b == left && s.c + s.path + "" == right;
    TrimSpaces("", s.key, s.b);
    TrimSpaces(s.c, s.path, "");
  }

  /** Only what follows is trimmed from a text that starts with no white space. */
  lemma TrimTail(s: string) returns (b: string)
    requires s != "" && !IsWhitespace(s[0])
    ensures AllSpace(b) && s == Trim(s) + b
  {
    b := TrimEndDrops(s);
  }

  /** Only what comes first is trimmed from a text that ends with none. */
  lemma TrimLead(s: string) returns (c: string)
    requires s != "" && !IsWhitespace(s[|s| - 1]) && Trim(s) != ""
    ensures AllSpace(c) && s == c + Trim(s)
  {
    c := TrimStartDrops(s);
    assert TrimStart(s)[|TrimStart(s)| - 1] == s[|s| - 1];
  }

  /** The two sides of the first "=" of a trimmed line. */
  lemma SidesOf(middle: string) returns (key: string, b: string, c: string, path: string)
    requires Trimmed(middle) && middle != "" && middle[0] != '#'
    requires Find(middle, {'='}) < |middle|
    requires KeyOf(middle) != "" && PathOf(middle) != ""
    ensures key == KeyOf(middle) && path == PathOf(middle) && AllSpace(b) && AllSpace(c)
    ensures middle == key + b + "=" + (c + path)
    ensures key[0] != '#' && '=' !in key
  {
    var i := Find(middle, {'='});
    var left, right := middle[..i], middle[i + 1..];
    TrimEndProps(right);
    key, path := Trim(left), Trim(right);
    NotEmptied(left);
    NotEmptied(right);
    b := TrimTail(left);
    c := TrimLead(right);
    assert middle == left + "=" + right;
    assert key[0] == left[0] == middle[0];
    assert '=' !in left;
    forall x | x in key ensures x != '=' {
      assert x in left;
    }
  }

  /** The key of a trimmed line with "=". */
  function KeyOf(middle: string): string {
    Trim(middle[..Find(middle, {'='})])
  }

  function PathOf(middle: string): string
    requires Find(middle, {'='}) < |middle|
  {
    Trim(middle[Find(middle, {'='}) + 1..])
  }

  lemma NotEmptied(s: string)
    requires Trim(s) != ""
    ensures s != ""
  {
  }

  /** And only such lines are. */
  lemma ReadLineIsSpaced(raw: string, isAbsolute: string -> bool) returns (s: Spaced)
    requires ReadLine(raw, isAbsolute).Some?
    ensures SetsPath(s, isAbsolute) && raw == SpacedLine(s)
    ensures ReadLine(raw, isAbsolute) == Some(Entry(Lower(s.key), s.path))
  {
    var middle := Trim(raw);
    TrimProps(raw);
    var a, d := TrimDrops(raw);
    var key, b, c, path := SidesOf(middle);
    TrimProps(middle[..Find(middle, {'='})]);
    TrimProps(middle[Find(middle, {'='}) + 1..]);
    s := Spaced(a, key, b, c, path, d);
  }

  /**
   * Main result on lines. A line gives an entry if and only if it is a key and an absolute path around
   * the first "=", with any white space around each, and no comment.
   */
  lemma ReadsIff(raw: string, isAbsolute: string -> bool, e: Entry)
    ensures ReadLine(raw, isAbsolute) == Some(e)
            <==> exists s :: SetsPath(s, isAbsolute) && raw == SpacedLine(s) && e == Entry(Lower(s.key), s.path)
  {
    if ReadLine(raw, isAbsolute) == Some(e) {
      var s := ReadLineIsSpaced(raw, isAbsolute);
    }
    forall s | SetsPath(s, isAbsolute) && raw == SpacedLine(s)
      ensures ReadLine(raw, isAbsolute) == Some(Entry(Lower(s.key), s.path))
    {
      SpacedLineIsRead(s, isAbsolute);
    }
  }

  // ---- Whole texts -----------------------------------------------------------------------

  function Put(entries: map<string, string>, e: Option<Entry>): map<string, string> {
    match e
    case None => entries
    case Some(entry) => entries[entry.key := entry.path]
  }

  /** The entries after reading `lines` on top of `entries`; a later line wins. */
  function ReadAll(lines: seq<string>, entries: map<string, string>, isAbsolute: string -> bool): map<string, string> {
    if lines == [] then entries else
      ReadAll(lines[1..], Put(entries, ReadLine(lines[0], isAbsolute)), isAbsolute)
  }

  function Parsed(body: string, isAbsolute: string -> bool): map<string, string> {
    ReadAll(Lines(body), map[], isAbsolute)
  }

  predicate IsLeast(keys: set<string>, k: string) {
    k in keys && forall o :: o in keys && o != k ==> StrLess(k, o)
  }

  lemma LeastExists(keys: set<string>)
    requires keys != {}
    ensures exists k :: IsLeast(keys, k)
    decreases |keys|
  {
    var k :| k in keys;
    var rest := keys - {k};
    if rest == {} {
      assert forall o :: o in keys ==> o == k by {
        forall o | o in keys ensures o == k { assert o !in rest; }
      }
      assert IsLeast(keys, k);
    } else {
      LeastExists(rest);
      var least :| IsLeast(rest, least);
      StrLessTotal(least, k);
      if StrLess(least, k) {
        assert IsLeast(keys, least);
      } else {
        forall o | o in keys && o != k ensures StrLess(k, o) {
          if o != least { StrLessTransitive(k, least, o); }
        }
        assert IsLeast(keys, k);
      }
    }
  }

  lemma LeastUnique(keys: set<string>, a: string, b: string)
    requires IsLeast(keys, a) && IsLeast(keys, b)
    ensures a == b
  {
    StrLessTotal(a, b);
  }

  /** The first key in the order a BTreeMap iterates. */
  ghost function Least(keys: set<string>): (k: string)
    requires keys != {}
    ensures IsLeast(keys, k)
  {
    LeastExists(keys);
    var k :| IsLeast(keys, k);
    k
  }

  // ---- Printing ------------------------------------------------------------------------------

  // The comment lines are put together from short pieces: proofs about long literals are slow.

  const TITLE := "# project.txt \U{2014} maps" + " +project todo.txt" + " tags to workspace" + " roots."
  const OWNER := "# Managed by rimeterm;" + " hand-edits are" + " honoured on next read."
  const SYNTAX := "# One entry per line:" + " `<project>=<absolute-path>`." + " `#` starts a comment."

  /** The entries of `keys`, one line each, in ascending key order. */
  ghost function Printed(entries: map<string, string>, keys: set<string>): string
    requires keys <= entries.Keys
    decreases |keys|
  {
    if keys == {} then "" else
      var k := Least(keys);
      EntryLine(Entry(k, entries[k])) + "\n" + Printed(entries, keys - {k})
  }

  ghost function Serialised(entries: map<string, string>): string {
    TITLE + "\n" + (OWNER + "\n" + (SYNTAX + "\n" + Printed(entries, entries.Keys)))
  }

  // ---- The stateful map --------------------------------------------------------------------------

  class ProjectMap {
    var entries: map<string, string>

    constructor ()
      ensures entries == map[]
    {
      entries := map[];
    }

    /** `parse`, into this map. */
    method Parse(body: string, isAbsolute: string -> bool)
      modifies this
      ensures entries == Parsed(body, isAbsolute)
    {
      entries := map[];
      var lines := Lines(body);
      var i := 0;
      while i < |lines|
        invariant 0 <= i <= |lines|
        invariant ReadAll(lines[i..], entries, isAbsolute) == ReadAll(lines, map[], isAbsolute)
      {
        var rest := lines[i..];
        assert rest[0] == lines[i] && rest[1..] == lines[i + 1..];
        var trimmed := Trim(lines[i]);
        i := i + 1;
        if trimmed == "" || trimmed[0] == '#' { continue; }
        var split := Find(trimmed, {'='});
        if split == |trimmed| { continue; }
        var key, value := Trim(trimmed[..split]), Trim(trimmed[split + 1..]);
        if key == "" || value == "" { continue; }
        if !isAbsolute(value) { continue; }
        entries := entries[Lower(key) := value];
      }
    }

    /** `serialise`: the three comment lines, then every entry in key order. */
    method Serialise() returns (out: string)
      ensures out == Serialised(entries)
    {
      out := "";
      var rest := entries.Keys;
      while rest != {}
        invariant rest <= entries.Keys
        invariant out + Printed(entries, rest) == Printed(entries, entries.Keys)
        decreases |rest|
      {
        LeastExists(rest);
        var key :| key in rest && IsLeast(rest, key);
        LeastUnique(rest, key, Least(rest));
        var line := EntryLine(Entry(key, entries[key])) + "\n";
        assert (out + line) + Printed(entries, rest - {key}) == out + (line + Printed(entries, rest - {key}));
        out := out + line;
        rest := rest - {key};
      }
      AppendEmpty(out);
      out := TITLE + "\n" + (OWNER + "\n" + (SYNTAX + "\n" + out));
    }

    /** `insert`: the key is lowercased, the path stored as it is. */
    method Insert(project: string, path: string)
      modifies this
      ensures entries == old(entries)[Lower(project) := path]
      ensures forall p :: Get(p) == if Lower(p) == Lower(project) then Some(path) else old(Get(p))
    {
      entries := entries[Lower(project) := path];
    }

    /** `get`: the case of the name does not matter. */
    function Get(project: string): Option<string>
      reads this
    {
      if Lower(project) in entries then Some(entries[Lower(project)]) else None
    }
  }

  // ---- What the text means ------------------------------------------------------------------------

  /** Every entry reads back as itself. */
  predicate Clean(entries: map<string, string>, isAbsolute: string -> bool) {
    forall k :: k in entries ==> CleanEntry(Entry(k, entries[k]), isAbsolute)
  }

  lemma {:induction false} ReadAllIsClean(lines: seq<string>, entries: map<string, string>, isAbsolute: string -> bool)
    requires forall l :: l in lines ==> '\n' !in l
    requires Clean(entries, isAbsolute)
    ensures Clean(ReadAll(lines, entries, isAbsolute), isAbsolute)
  {
    if lines != [] {
      assert lines[0] in lines;
      var e := ReadLine(lines[0], isAbsolute);
      if e.Some? { ReadLineIsClean(lines[0], isAbsolute); }
      ReadAllIsClean(lines[1..], Put(entries, e), isAbsolute);
    }
  }

  /** For every text, what `parse` accepts is clean. */
  lemma ParsedIsClean(body: string, isAbsolute: string -> bool)
    ensures Clean(Parsed(body, isAbsolute), isAbsolute)
  {
    LinesHaveNoNewline(body);
    ReadAllIsClean(Lines(body), map[], isAbsolute);
  }

  function Restrict(entries: map<string, string>, keys: set<string>): map<string, string> {
    map k | k in entries && k in keys :: entries[k]
  }

  /** The first printed line is the least key's. */
  lemma PrintedLines(entries: map<string, string>, keys: set<string>, isAbsolute: string -> bool)
    requires keys != {} && keys <= entries.Keys && Clean(entries, isAbsolute)
    ensures var k := Least(keys);
            Lines(Printed(entries, keys))
            == [EntryLine(Entry(k, entries[k]))] + Lines(Printed(entries, keys - {k}))
  {
    var k := Least(keys);
    var e := Entry(k, entries[k]);
    ReadEntryLine(e, isAbsolute);
    LinesCons(EntryLine(e), Printed(entries, keys - {k}));
  }

  lemma RestrictSplit(entries: map<string, string>, keys: set<string>, k: string, start: map<string, string>)
    requires k in keys && k in entries
    ensures start[k := entries[k]] + Restrict(entries, keys - {k}) == start + Restrict(entries, keys)
  {
  }

  lemma RestrictNothing(entries: map<string, string>, start: map<string, string>)
    ensures start + Restrict(entries, {}) == start
  {
  }

  lemma {:induction false} ReadPrinted(
      entries: map<string, string>, keys: set<string>, start: map<string, string>, isAbsolute: string -> bool)
    requires keys <= entries.Keys && Clean(entries, isAbsolute)
    ensures ReadAll(Lines(Printed(entries, keys)), start, isAbsolute) == start + Restrict(entries, keys)
    decreases |keys|
  {
    if keys == {} {
      RestrictNothing(entries, start);
    } else {
      var k := Least(keys);
      var e := Entry(k, entries[k]);
      var tail := Lines(Printed(entries, keys - {k}));
      PrintedLines(entries, keys, isAbsolute);
      ReadEntryLine(e, isAbsolute);
      ReadCons(EntryLine(e), tail, start, isAbsolute);
      ReadPrinted(entries, keys - {k}, start[k := entries[k]], isAbsolute);
      RestrictSplit(entries, keys, k, start);
    }
  }

  lemma ReadCons(line: string, tail: seq<string>, start: map<string, string>, isAbsolute: string -> bool)
    ensures ReadAll([line] + tail, start, isAbsolute)
         == ReadAll(tail, Put(start, ReadLine(line, isAbsolute)), isAbsolute)
  {
    assert ([line] + tail)[1..] == tail;
  }

  predicate IsComment(line: string) {
    PlainLine(line) && line != "" && line[0] == '#'
  }

  lemma TitleIsComment()
    ensures IsComment(TITLE)
  {
  }

  lemma OwnerIsComment()
    ensures IsComment(OWNER)
  {
  }

  lemma SyntaxIsComment()
    ensures IsComment(SYNTAX)
  {
  }

  /** The comment lines contribute nothing. */
  lemma CommentIsSkipped(line: string, rest: string, isAbsolute: string -> bool)
    requires IsComment(line)
    ensures ReadAll(Lines(line + "\n" + rest), map[], isAbsolute) == ReadAll(Lines(rest), map[], isAbsolute)
  {
    LinesCons(line, rest);
    TrimKeepsHead(line);
    ReadCons(line, Lines(rest), map[], isAbsolute);
  }

  lemma ReadSerialised(entries: map<string, string>, isAbsolute: string -> bool)
    ensures Parsed(Serialised(entries), isAbsolute) == Parsed(Printed(entries, entries.Keys), isAbsolute)
  {
    var body := Printed(entries, entries.Keys);
    TitleIsComment();
    OwnerIsComment();
    SyntaxIsComment();
    CommentIsSkipped(SYNTAX, body, isAbsolute);
    CommentIsSkipped(OWNER, SYNTAX + "\n" + body, isAbsolute);
    CommentIsSkipped(TITLE, OWNER + "\n" + (SYNTAX + "\n" + body), isAbsolute);
  }

  /**
   * Main result. A map survives being written and read if and only if every entry
   * is clean: a key that is non-empty, lower case, trimmed, without "=" or line
   * break and not a comment, and a path that is non-empty, trimmed, on one line
   * and absolute.
   */
  lemma RoundTripIff(entries: map<string, string>, isAbsolute: string -> bool)
    ensures Parsed(Serialised(entries), isAbsolute) == entries <==> Clean(entries, isAbsolute)
  {
    if Clean(entries, isAbsolute) {
      ReadSerialised(entries, isAbsolute);
      ReadPrinted(entries, entries.Keys, map[], isAbsolute);
      assert map[] + Restrict(entries, entries.Keys) == entries;
    }
    ParsedIsClean(Serialised(entries), isAbsolute);
  }

  /** For every text: printing what was parsed and parsing it again changes nothing. */
  lemma ParseSerialiseParse(body: string, isAbsolute: string -> bool)
    ensures Parsed(Serialised(Parsed(body, isAbsolute)), isAbsolute) == Parsed(body, isAbsolute)
  {
    ParsedIsClean(body, isAbsolute);
    RoundTripIff(Parsed(body, isAbsolute), isAbsolute);
  }

  /** Inserting into a map that round-trips keeps that so exactly when the new entry is clean. */
  lemma InsertRoundTripsIff(
      entries: map<string, string>, project: string, path: string, isAbsolute: string -> bool)
    requires Parsed(Serialised(entries), isAbsolute) == entries
    ensures var after := entries[Lower(project) := path];
            Parsed(Serialised(after), isAbsolute) == after
            <==> CleanEntry(Entry(Lower(project), path), isAbsolute)
  {
    var after := entries[Lower(project) := path];
    RoundTripIff(entries, isAbsolute);
    RoundTripIff(after, isAbsolute);
    if Clean(after, isAbsolute) {
      assert Lower(project) in after;
    }
  }

  // ---- Order --------------------------------------------------------------------------------------

  /** The lines of the printed entries. */
  ghost function EntryLines(entries: map<string, string>, order: seq<string>): (r: seq<string>)
    requires forall k :: k in order ==> k in entries
  {
    seq(|order|, i requires 0 <= i < |order| => EntryLine(Entry(order[i], entries[order[i]])))
  }

  ghost predicate Ascending(order: seq<string>) {
    forall i, j :: 0 <= i < j < |order| ==> StrLess(order[i], order[j])
  }

  lemma AscendingCons(k: string, tail: seq<string>)
    requires Ascending(tail) && forall o :: o in tail ==> StrLess(k, o)
    ensures Ascending([k] + tail)
  {
    var order := [k] + tail;
    forall i, j | 0 <= i < j < |order| ensures StrLess(order[i], order[j]) {
      assert order[j] == tail[j - 1] && tail[j - 1] in tail;
      if i > 0 { assert order[i] == tail[i - 1]; }
    }
  }

  lemma EntryLinesCons(entries: map<string, string>, k: string, tail: seq<string>)
    requires k in entries && forall o :: o in tail ==> o in entries
    ensures EntryLines(entries, [k] + tail) == [EntryLine(Entry(k, entries[k]))] + EntryLines(entries, tail)
  {
  }

  /** Clean entries print as one line each, every key once, keys strictly ascending. */
  lemma {:induction false} PrintedInKeyOrder(
      entries: map<string, string>, keys: set<string>, isAbsolute: string -> bool) returns (order: seq<string>)
    requires keys <= entries.Keys && Clean(entries, isAbsolute)
    ensures forall k :: k in order <==> k in keys
    ensures Ascending(order)
    ensures Lines(Printed(entries, keys)) == EntryLines(entries, order)
    decreases |keys|
  {
    if keys == {} {
      order := [];
    } else {
      var k := Least(keys);
      var tail := PrintedInKeyOrder(entries, keys - {k}, isAbsolute);
      order := [k] + tail;
      PrintedLines(entries, keys, isAbsolute);
      AscendingCons(k, tail);
      EntryLinesCons(entries, k, tail);
    }
  }
}
