/** The string operations of the Rust standard library that the modelled code calls. */
module Text {
  import opened Prelude

  // ---- Whitespace ------------------------------------------------------------

  /** `char::is_whitespace`: the Unicode White_Space property. */
  predicate IsWhitespace(c: char) {
    || '\U{0009}' <= c <= '\U{000D}' || c == ' '
    || c == '\U{0085}' || c == '\U{00A0}' || c == '\U{1680}'
    || '\U{2000}' <= c <= '\U{200A}'
    || c == '\U{2028}' || c == '\U{2029}' || c == '\U{202F}'
    || c == '\U{205F}' || c == '\U{3000}'
  }

  function TrimStart(s: string): string {
    if s != "" && IsWhitespace(s[0]) then TrimStart(s[1..]) else s
  }

  function TrimEnd(s: string): string {
    if s != "" && IsWhitespace(s[|s| - 1]) then TrimEnd(s[..|s| - 1]) else s
  }

  function Trim(s: string): string {
    TrimEnd(TrimStart(s))
  }

  /** Nothing left to trim at either end. */
  predicate Trimmed(s: string) {
    s != "" ==> !IsWhitespace(s[0]) && !IsWhitespace(s[|s| - 1])
  }

  lemma {:induction false} TrimStartProps(s: string)
    ensures |TrimStart(s)| <= |s| && TrimStart(s) == s[|s| - |TrimStart(s)|..]
    ensures TrimStart(s) != "" ==> !IsWhitespace(TrimStart(s)[0])
  {
    if s != "" && IsWhitespace(s[0]) {
      TrimStartProps(s[1..]);
    }
  }

  lemma {:induction false} TrimEndProps(s: string)
    ensures TrimEnd(s) <= s
    ensures TrimEnd(s) != "" ==> !IsWhitespace(TrimEnd(s)[|TrimEnd(s)| - 1])
  {
    if s != "" && IsWhitespace(s[|s| - 1]) {
      TrimEndProps(s[..|s| - 1]);
    }
  }

  /** `trim` leaves no whitespace at either end and invents no character. */
  lemma TrimProps(s: string)
    ensures Trimmed(Trim(s))
    ensures forall c :: c in Trim(s) ==> c in s
  {
    TrimStartProps(s);
    TrimEndProps(TrimStart(s));
  }

  lemma TrimIdempotent(s: string)
    requires Trimmed(s)
    ensures Trim(s) == s
  {
  }

  // ---- Searching and splitting -----------------------------------------------

  /** Index of the first character of `s` that is in `seps`; the length when there is none. */
  function Find(s: string, seps: set<char>): (i: nat)
    ensures i <= |s|
    ensures i < |s| ==> s[i] in seps
    ensures forall j :: 0 <= j < i ==> s[j] !in seps
  {
    if s == "" || s[0] in seps then 0 else 1 + Find(s[1..], seps)
  }

  lemma FindUnique(s: string, seps: set<char>, i: nat)
    requires i <= |s|
    requires i < |s| ==> s[i] in seps
    requires forall j :: 0 <= j < i ==> s[j] !in seps
    ensures Find(s, seps) == i
  {
  }

  /** `split` on any of the characters in `seps`; never empty. */
  function Split(s: string, seps: set<char>): (parts: seq<string>)
    ensures |parts| >= 1
    ensures forall p, c :: p in parts && c in p ==> c !in seps
    decreases |s|
  {
    var i := Find(s, seps);
    if i == |s| then [s] else [s[..i]] + Split(s[i + 1..], seps)
  }

  function Join(parts: seq<string>, sep: string): string {
    if |parts| == 0 then ""
    else if |parts| == 1 then parts[0]
    else parts[0] + sep + Join(parts[1..], sep)
  }

  /** Splitting on the separator undoes joining with it. */
  lemma {:induction false} SplitJoin(parts: seq<string>, c: char)
    requires |parts| >= 1
    requires forall p :: p in parts ==> c !in p
    ensures Split(Join(parts, [c]), {c}) == parts
  {
    var p := parts[0];
    assert c !in p;
    if |parts| == 1 {
      FindUnique(p, {c}, |p|);
    } else {
      var rest := Join(parts[1..], [c]);
      var s := p + [c] + rest;
      FindUnique(s, {c}, |p|);
      assert s[|p| + 1..] == rest;
      assert s[..|p|] == p;
      SplitJoin(parts[1..], c);
    }
  }

  /** Every separator replaced by `to`. */
  function Replace(s: string, seps: set<char>, to: char): (r: string)
    ensures |r| == |s|
    ensures forall i :: 0 <= i < |s| ==> r[i] == if s[i] in seps then to else s[i]
  {
    seq(|s|, i requires 0 <= i < |s| => if s[i] in seps then to else s[i])
  }

  lemma ReplaceAt(s: string, seps: set<char>, to: char, i: nat)
    requires i < |s| && s[i] in seps
    requires forall j :: 0 <= j < i ==> s[j] !in seps
    ensures Replace(s, seps, to) == s[..i] + [to] + Replace(s[i + 1..], seps, to)
  {
  }

  lemma ReplaceNone(s: string, seps: set<char>, to: char)
    requires forall j :: 0 <= j < |s| ==> s[j] !in seps
    ensures Replace(s, seps, to) == s
  {
  }

  /** Joining the pieces with one separator rewrites every separator of `s` to it. */
  lemma {:induction false} JoinSplit(s: string, seps: set<char>, to: char)
    ensures Join(Split(s, seps), [to]) == Replace(s, seps, to)
    decreases |s|
  {
    var i := Find(s, seps);
    if i < |s| {
      var rest := Split(s[i + 1..], seps);
      JoinSplit(s[i + 1..], seps, to);
      ReplaceAt(s, seps, to, i);
      JoinCons(s[..i], rest, [to]);
    } else {
      ReplaceNone(s, seps, to);
    }
  }

  lemma JoinCons(p: string, rest: seq<string>, sep: string)
    requires rest != []
    ensures Join([p] + rest, sep) == p + sep + Join(rest, sep)
  {
    assert ([p] + rest)[1..] == rest;
  }

  /** `split_whitespace`. */
  function SplitWhitespace(s: string): seq<string>
    decreases |s|
  {
    var t := TrimStart(s);
    TrimStartProps(s);
    if t == "" then [] else
      var n := WordLength(t);
      [t[..n]] + SplitWhitespace(t[n..])
  }

  function WordLength(s: string): (n: nat)
    ensures n <= |s|
    ensures s != "" && !IsWhitespace(s[0]) ==> n > 0
  {
    if s == "" || IsWhitespace(s[0]) then 0 else 1 + WordLength(s[1..])
  }

  predicate NoSpace(s: string) {
    forall c :: c in s ==> !IsWhitespace(c)
  }

  predicate IsWord(w: string) {
    w != "" && NoSpace(w)
  }

  /** What may follow a word. */
  predicate EndsWord(rest: string) {
    rest == "" || IsWhitespace(rest[0])
  }

  lemma {:induction false} WordLengthOf(w: string, rest: string)
    requires NoSpace(w) && EndsWord(rest)
    ensures WordLength(w + rest) == |w|
  {
    if w == "" {
      assert w + rest == rest;
    } else {
      assert (w + rest)[0] == w[0] && w[0] in w;
      assert (w + rest)[1..] == w[1..] + rest;
      WordLengthOf(w[1..], rest);
    }
  }

  lemma SplitWord(w: string, rest: string)
    requires IsWord(w) && EndsWord(rest)
    ensures SplitWhitespace(w + rest) == [w] + SplitWhitespace(rest)
  {
    var s := w + rest;
    assert s[0] == w[0] && w[0] in w;
    WordLengthOf(w, rest);
    assert s[..|w|] == w && s[|w|..] == rest;
  }

  lemma NextWord(w: string, rest: string)
    requires IsWord(w)
    ensures SplitWhitespace(w + " " + rest) == [w] + SplitWhitespace(rest)
  {
    assert w + " " + rest == w + (" " + rest);
    SplitWord(w, " " + rest);
    assert (" " + rest)[1..] == rest;
    assert TrimStart(" " + rest) == TrimStart(rest);
  }

  lemma {:induction false} SplitGivesWords(s: string)
    ensures forall w :: w in SplitWhitespace(s) ==> IsWord(w)
    decreases |s|
  {
    var t := TrimStart(s);
    TrimStartProps(s);
    if t != "" {
      var n := WordLength(t);
      WordLengthNoSpace(t);
      SplitGivesWords(t[n..]);
    }
  }

  lemma {:induction false} WordLengthNoSpace(s: string)
    ensures NoSpace(s[..WordLength(s)])
  {
    if s != "" && !IsWhitespace(s[0]) {
      WordLengthNoSpace(s[1..]);
      assert s[..WordLength(s)] == [s[0]] + s[1..][..WordLength(s[1..])];
    }
  }

  /** `strip_prefix(p).unwrap_or(s)`. */
  function StripPrefix(s: string, p: string): string {
    if p <= s then s[|p|..] else s
  }

  // ---- Lines -----------------------------------------------------------------

  function StripCr(s: string): string {
    if s != "" && s[|s| - 1] == '\r' then s[..|s| - 1] else s
  }

  /** `str::lines`: "\n" or "\r\n" ends a line; text after the last "\n" is a line if not empty. */
  function Lines(s: string): seq<string>
    decreases |s|
  {
    if s == "" then [] else
      var i := Find(s, {'\n'});
      if i == |s| then [s] else [StripCr(s[..i])] + Lines(s[i + 1..])
  }

  lemma {:induction false} LinesHaveNoNewline(s: string)
    ensures forall l :: l in Lines(s) ==> '\n' !in l
    decreases |s|
  {
    if s != "" {
      var i := Find(s, {'\n'});
      if i < |s| {
        LinesHaveNoNewline(s[i + 1..]);
        assert '\n' !in s[..i] && '\n' !in StripCr(s[..i]);
      }
    }
  }

  /** A line that survives being written with a final "\n" and read back by `lines`. */
  predicate PlainLine(l: string) {
    '\n' !in l && (l != "" ==> l[|l| - 1] != '\r')
  }

  lemma LinesCons(l: string, rest: string)
    requires PlainLine(l)
    ensures Lines(l + "\n" + rest) == [l] + Lines(rest)
  {
    var s := l + "\n" + rest;
    FindUnique(s, {'\n'}, |l|);
    assert s[..|l|] == l;
    assert s[|l| + 1..] == rest;
  }

  // ---- Case ------------------------------------------------------------------

  function LowerChar(c: char): char {
    if 'A' <= c <= 'Z' then c + ' ' else c
  }

  /** `to_ascii_lowercase`. */
  function Lower(s: string): (r: string)
    ensures |r| == |s|
    ensures forall i :: 0 <= i < |s| ==> r[i] == LowerChar(s[i])
  {
    seq(|s|, i requires 0 <= i < |s| => LowerChar(s[i]))
  }

  // ---- Order -----------------------------------------------------------------

  /** `str::cmp`: byte order of UTF-8, which is code-point order. */
  predicate StrLess(a: string, b: string) {
    b != "" && (a == "" || a[0] < b[0] || (a[0] == b[0] && StrLess(a[1..], b[1..])))
  }

  lemma {:induction false} StrLessTotal(a: string, b: string)
    ensures (StrLess(a, b) || StrLess(b, a)) <==> a != b
    ensures !(StrLess(a, b) && StrLess(b, a))
  {
    if a != "" && b != "" {
      StrLessTotal(a[1..], b[1..]);
      assert a == [a[0]] + a[1..] && b == [b[0]] + b[1..];
    }
  }

  lemma {:induction false} StrLessTransitive(a: string, b: string, c: string)
    requires StrLess(a, b) && StrLess(b, c)
    ensures StrLess(a, c)
  {
    if a != "" && a[0] == b[0] && b[0] == c[0] {
      StrLessTransitive(a[1..], b[1..], c[1..]);
    }
  }

  // ---- Decimal numbers -------------------------------------------------------

  predicate IsDigit(c: char) { '0' <= c <= '9' }

  predicate AllDigits(s: string) { forall c :: c in s ==> IsDigit(c) }

  function DigitValue(c: char): (d: nat)
    requires IsDigit(c)
    ensures d < 10
  {
    (c as int) - ('0' as int)
  }

  function DigitChar(d: nat): (c: char)
    requires d < 10
    ensures IsDigit(c) && DigitValue(c) == d
  {
    ((d + ('0' as int)) as char)
  }

  function DecimalValue(s: string): nat
    requires AllDigits(s)
  {
    if s == "" then 0 else 10 * DecimalValue(s[..|s| - 1]) + DigitValue(s[|s| - 1])
  }

  /** `to_string` of an unsigned integer. */
  function Decimal(n: nat): (s: string)
    ensures s != "" && AllDigits(s)
  {
    if n < 10 then [DigitChar(n)] else Decimal(n / 10) + [DigitChar(n % 10)]
  }

  lemma {:induction false} DecimalValueOfDecimal(n: nat)
    ensures DecimalValue(Decimal(n)) == n
  {
    if n >= 10 {
      DecimalValueOfDecimal(n / 10);
      assert Decimal(n)[..|Decimal(n)| - 1] == Decimal(n / 10);
    } else {
      assert Decimal(n)[..0] == "";
    }
  }

  /**
   * `parse` of an unsigned integer type with largest value `max`: an optional
   * "+", then at least one digit, and no overflow.
   */
  function ParseUnsigned(s: string, max: nat): (r: Option<nat>)
    ensures r.Some? ==> r.value <= max
  {
    var body := if s != "" && s[0] == '+' then s[1..] else s;
    if body != "" && AllDigits(body) && DecimalValue(body) <= max
    then Some(DecimalValue(body)) else None
  }

  /** Parsing undoes printing for every value the type can hold, and rejects all others. */
  lemma ParseDecimal(n: nat, max: nat)
    ensures ParseUnsigned(Decimal(n), max) == if n <= max then Some(n) else None
  {
    DecimalValueOfDecimal(n);
    assert Decimal(n)[0] in Decimal(n);
  }
}
