/** Deduplicating and sorting scanned sessions. */
module SessionDedupe {
  import opened Prelude
  import opened Sessions

  // ---- Which session of an id survives ---------------------------------------------------

  /** Bytes a character takes in UTF-8. */
  function CharBytes(c: char): nat {
    if c < '\U{0080}' then 1 else if c < '\U{0800}' then 2 else if c < '\U{10000}' then 3 else 4
  }

  /** `content.len()`: a length in bytes. */
  function ByteLength(s: string): nat {
    if s == "" then 0 else CharBytes(s[0]) + ByteLength(s[1..])
  }

  /** At least as recent, as late and as long. */
  predicate Dominates(a: Session, b: Session) {
    a.mtime >= b.mtime && a.timestamp >= b.timestamp && ByteLength(a.content) >= ByteLength(b.content)
  }

  predicate SameRank(a: Session, b: Session) {
    Dominates(a, b) && Dominates(b, a)
  }

  /** What the map holds under an id after the first `n` sessions. */
  function Kept(sessions: seq<Session>, n: nat, k: SessionId): Option<Session>
    requires n <= |sessions|
  {
    if n == 0 then None else
      var before := Kept(sessions, n - 1, k);
      var s := sessions[n - 1];
      if IdOf(s) != k || (before.Some? && Dominates(before.value, s)) then before else Some(s)
  }

  function Survivor(sessions: seq<Session>, k: SessionId): Option<Session> {
    Kept(sessions, |sessions|, k)
  }

  // ---- The code ------------------------------------------------------------------------------

  predicate SortedByTime(s: seq<Session>) {
    forall i, j :: 0 <= i < j < |s| ==> s[i].timestamp >= s[j].timestamp
  }

  /** Stable insertion by descending timestamp. */
  function InsertByTime(x: Session, s: seq<Session>): seq<Session> {
    if s == [] || s[0].timestamp <= x.timestamp then [x] + s else [s[0]] + InsertByTime(x, s[1..])
  }

  function SortByTime(s: seq<Session>): seq<Session> {
    if s == [] then [] else InsertByTime(s[0], SortByTime(s[1..]))
  }

  predicate NoLaterThan(s: seq<Session>, x: Session) {
    forall i :: 0 <= i < |s| ==> s[i].timestamp <= x.timestamp
  }

  lemma {:induction false} InsertByTimeMembers(x: Session, s: seq<Session>)
    ensures multiset(InsertByTime(x, s)) == multiset{x} + multiset(s)
  {
    if s != [] && s[0].timestamp > x.timestamp {
      InsertByTimeMembers(x, s[1..]);
      assert s == [s[0]] + s[1..];
    }
  }

  lemma {:induction false} InsertByTimeBounded(x: Session, s: seq<Session>, top: Session)
    requires NoLaterThan(s, top) && x.timestamp <= top.timestamp
    ensures NoLaterThan(InsertByTime(x, s), top)
  {
    if s != [] && s[0].timestamp > x.timestamp {
      InsertByTimeBounded(x, s[1..], top);
    }
  }

  lemma {:induction false} InsertByTimeSorted(x: Session, s: seq<Session>)
    requires SortedByTime(s)
    ensures SortedByTime(InsertByTime(x, s))
  {
    if s != [] && s[0].timestamp > x.timestamp {
      InsertByTimeSorted(x, s[1..]);
      InsertByTimeBounded(x, s[1..], s[0]);
    }
  }

  lemma {:induction false} SortByTimeSorted(s: seq<Session>)
    ensures SortedByTime(SortByTime(s)) && multiset(SortByTime(s)) == multiset(s)
  {
    if s != [] {
      SortByTimeSorted(s[1..]);
      InsertByTimeSorted(s[0], SortByTime(s[1..]));
      InsertByTimeMembers(s[0], SortByTime(s[1..]));
      assert s == [s[0]] + s[1..];
    }
  }

  /** The values of a map, in no particular order. */
  method IntoValues(byKey: map<SessionId, Session>) returns (values: seq<Session>)
    requires forall k :: k in byKey ==> IdOf(byKey[k]) == k
    ensures forall i :: 0 <= i < |values| ==> IdOf(values[i]) in byKey && byKey[IdOf(values[i])] == values[i]
    ensures forall k :: k in byKey ==> byKey[k] in values
    ensures |values| == |byKey|
  {
    values := [];
    var keys := byKey.Keys;
    while keys != {}
      invariant keys <= byKey.Keys
      invariant forall i :: 0 <= i < |values| ==>
                  IdOf(values[i]) in byKey && IdOf(values[i]) !in keys && byKey[IdOf(values[i])] == values[i]
      invariant forall k :: k in byKey && k !in keys ==> byKey[k] in values
      invariant |values| + |keys| == |byKey|
      decreases keys
    {
      var k :| k in keys;
      values := values + [byKey[k]];
      keys := keys - {k};
    }
  }

  /** `sort_and_dedupe_sessions`: the survivor of every id, each once, newest first. */
  method SortAndDedupeSessions(sessions: seq<Session>) returns (out: seq<Session>)
    ensures SortedByTime(out)
    ensures forall s :: s in out ==> Survivor(sessions, IdOf(s)) == Some(s)
    ensures forall k :: Survivor(sessions, k).Some? ==> Survivor(sessions, k).value in out
    ensures |out| == |KeySet(sessions)|
  {
    var byKey: map<SessionId, Session> := map[];
    for i := 0 to |sessions|
      invariant forall k :: k in byKey <==> Kept(sessions, i, k).Some?
      invariant forall k :: k in byKey ==> Kept(sessions, i, k) == Some(byKey[k]) && IdOf(byKey[k]) == k
      invariant byKey.Keys == KeySet(sessions[..i])
    {
      var s := sessions[i];
      var k := IdOf(s);
      assert sessions[..i + 1][..i] == sessions[..i];
      if !(k in byKey && Dominates(byKey[k], s)) {
        byKey := byKey[k := s];
      }
    }
    assert sessions[..|sessions|] == sessions;
    var values := IntoValues(byKey);
    out := SortByTime(values);
    SortByTimeSorted(values);
    SameElements(out, values);
    assert |out| == |multiset(out)| == |multiset(values)|;
    assert |byKey| == |byKey.Keys|;
  }

  // ---- Survivors dominate what came later ------------------------------------------------------

  /** The survivor is an input session that dominates every later session of its id. */
  lemma {:induction false} SurvivorDominatesLater(sessions: seq<Session>, n: nat, k: SessionId) returns (j: nat)
    requires n <= |sessions| && Kept(sessions, n, k).Some?
    ensures j < n && IdOf(sessions[j]) == k && Kept(sessions, n, k) == Some(sessions[j])
    ensures forall i :: j < i < n && IdOf(sessions[i]) == k ==> Dominates(sessions[j], sessions[i])
  {
    var before, s := Kept(sessions, n - 1, k), sessions[n - 1];
    if IdOf(s) != k || (before.Some? && Dominates(before.value, s)) {
      j := SurvivorDominatesLater(sessions, n - 1, k);
    } else {
      j := n - 1;
    }
  }

  /** `g` dominates every session of the id. */
  ghost predicate IsGreatest(sessions: seq<Session>, k: SessionId, g: Session) {
    g in sessions && IdOf(g) == k && forall s :: s in sessions && IdOf(s) == k ==> Dominates(g, s)
  }

  /** Once a greatest session has been seen, what is kept has its rank. */
  lemma {:induction false} GreatestIsKept(sessions: seq<Session>, n: nat, k: SessionId, g: Session)
    requires n <= |sessions| && IsGreatest(sessions, k, g)
    requires exists i :: 0 <= i < n && sessions[i] == g
    ensures Kept(sessions, n, k).Some? && SameRank(Kept(sessions, n, k).value, g)
  {
    var before, s := Kept(sessions, n - 1, k), sessions[n - 1];
    assert s in sessions;
    if exists i :: 0 <= i < n - 1 && sessions[i] == g {
      GreatestIsKept(sessions, n - 1, k, g);
    } else {
      assert s == g;
      if before.Some? && Dominates(before.value, s) {
        var j := SurvivorDominatesLater(sessions, n - 1, k);
        assert before.value in sessions;
      }
    }
  }

  predicate Ascii(s: string) {
    forall i :: 0 <= i < |s| ==> s[i] < '\U{0080}'
  }

  /** A length in bytes is the number of characters exactly for ASCII text, and at most four times it. */
  lemma {:induction false} ByteLengthOf(s: string)
    ensures |s| <= ByteLength(s) <= 4 * |s|
    ensures ByteLength(s) == |s| <==> Ascii(s)
  {
    if s != "" {
      ByteLengthOf(s[1..]);
      if Ascii(s) {
        assert Ascii(s[1..]);
      } else if Ascii(s[1..]) {
        assert !(s[0] < '\U{0080}') by {
          if s[0] < '\U{0080}' {
            forall i | 0 <= i < |s| ensures s[i] < '\U{0080}' {
              assert i > 0 ==> s[i] == s[1..][i - 1];
            }
          }
        }
      }
    }
  }

  /** One more session replaces what is kept under its id, unless that is at least as good in all three measures. */
  lemma OneMoreSession(sessions: seq<Session>, s: Session, k: SessionId)
    ensures var was, now := Survivor(sessions, k), Survivor(sessions + [s], k);
            now == if IdOf(s) != k then was
                   else if was.Some? && was.value.mtime >= s.mtime && was.value.timestamp >= s.timestamp
                           && ByteLength(was.value.content) >= ByteLength(s.content) then was
                   else Some(s)
  {
    KeptPrefix(sessions, [s], |sessions|, k);
    assert (sessions + [s])[|sessions|] == s;
    assert Survivor(sessions + [s], k) == Kept(sessions + [s], |sessions| + 1, k);
  }

  lemma {:induction false} KeptPrefix(a: seq<Session>, b: seq<Session>, n: nat, k: SessionId)
    requires n <= |a|
    ensures Kept(a + b, n, k) == Kept(a, n, k)
  {
    if n > 0 {
      KeptPrefix(a, b, n - 1, k);
    }
  }

  /** A session that is newest, latest and longest among those of its id survives in all three measures. */
  lemma BestSurvives(sessions: seq<Session>, g: Session)
    requires g in sessions
    requires forall s :: s in sessions && IdOf(s) == IdOf(g) ==>
               s.mtime <= g.mtime && s.timestamp <= g.timestamp && ByteLength(s.content) <= ByteLength(g.content)
    ensures Survivor(sessions, IdOf(g)).Some?
    ensures var kept := Survivor(sessions, IdOf(g)).value;
            && kept.mtime == g.mtime && kept.timestamp == g.timestamp
            && ByteLength(kept.content) == ByteLength(g.content)
  {
    assert IsGreatest(sessions, IdOf(g), g);
    GreatestIsKept(sessions, |sessions|, IdOf(g), g);
  }

  // ---- When the input order does not matter ----------------------------------------------------

  /** Every permutation of the input leaves a survivor of the same rank. */
  ghost predicate OrderIndependent(sessions: seq<Session>, k: SessionId) {
    forall p: seq<Session> :: multiset(p) == multiset(sessions) ==> SameSurvivor(p, sessions, k)
  }

  ghost predicate SameSurvivor(p: seq<Session>, q: seq<Session>, k: SessionId) {
    Survivor(p, k).Some? && Survivor(q, k).Some? && SameRank(Survivor(p, k).value, Survivor(q, k).value)
  }

  /** Only sessions of the same rank dominate `m` among the first `n`. */
  ghost predicate IsMaximal(sessions: seq<Session>, n: nat, k: SessionId, m: Session)
    requires n <= |sessions|
  {
    forall j :: 0 <= j < n && IdOf(sessions[j]) == k && Dominates(sessions[j], m) ==> SameRank(sessions[j], m)
  }

  lemma {:induction false} MaximalAbove(sessions: seq<Session>, n: nat, k: SessionId, s: Session) returns (m: nat)
    requires n <= |sessions| && s in sessions && IdOf(s) == k
    ensures m < |sessions| && IdOf(sessions[m]) == k && Dominates(sessions[m], s)
    ensures IsMaximal(sessions, n, k, sessions[m])
  {
    if n == 0 {
      m :| 0 <= m < |sessions| && sessions[m] == s;
    } else {
      m := MaximalAbove(sessions, n - 1, k, s);
      if IdOf(sessions[n - 1]) == k && Dominates(sessions[n - 1], sessions[m]) {
        m := n - 1;
      }
    }
  }

  /** The input with session `x` moved to the end. */
  function MovedToEnd(sessions: seq<Session>, x: nat): (p: seq<Session>)
    requires x < |sessions|
    ensures multiset(p) == multiset(sessions)
  {
    assert sessions == sessions[..x] + [sessions[x]] + sessions[x + 1..];
    sessions[..x] + sessions[x + 1..] + [sessions[x]]
  }

  /** A maximal session that comes last has the survivor's rank. */
  lemma LastMaximalSurvives(sessions: seq<Session>, x: nat, k: SessionId)
    requires x < |sessions| && IdOf(sessions[x]) == k && IsMaximal(sessions, |sessions|, k, sessions[x])
    ensures var p := MovedToEnd(sessions, x);
            Survivor(p, k).Some? && SameRank(Survivor(p, k).value, sessions[x])
  {
    var p := MovedToEnd(sessions, x);
    var before := Kept(p, |p| - 1, k);
    assert p[|p| - 1] == sessions[x];
    if before.Some? && Dominates(before.value, sessions[x]) {
      var j := SurvivorDominatesLater(p, |p| - 1, k);
      SameElements(p, sessions);
      assert p[j] in sessions;
      var i :| 0 <= i < |sessions| && sessions[i] == p[j];
    }
  }

  lemma GreatestMakesIndependent(sessions: seq<Session>, k: SessionId, g: Session)
    requires IsGreatest(sessions, k, g)
    ensures OrderIndependent(sessions, k)
  {
    GreatestIsKept(sessions, |sessions|, k, g);
    forall p: seq<Session> | multiset(p) == multiset(sessions) ensures SameSurvivor(p, sessions, k) {
      SameElements(p, sessions);
      assert IsGreatest(p, k, g);
      GreatestIsKept(p, |p|, k, g);
    }
  }

  lemma IndependentNeedsGreatest(sessions: seq<Session>, k: SessionId) returns (g: Session)
    requires exists s :: s in sessions && IdOf(s) == k
    requires OrderIndependent(sessions, k)
    ensures IsGreatest(sessions, k, g)
  {
    var s :| s in sessions && IdOf(s) == k;
    var x := MaximalAbove(sessions, |sessions|, k, s);
    g := sessions[x];
    forall z | z in sessions && IdOf(z) == k ensures Dominates(g, z) {
      var y := MaximalAbove(sessions, |sessions|, k, z);
      LastMaximalSurvives(sessions, x, k);
      LastMaximalSurvives(sessions, y, k);
      assert SameSurvivor(MovedToEnd(sessions, x), sessions, k);
      assert SameSurvivor(MovedToEnd(sessions, y), sessions, k);
    }
  }

  /**
   * Main result. For any sessions and any id among them: the survivor's modification
   * time, timestamp and content length are the same for every input order if and
   * only if some session of the id is greatest in all three; it then has that rank.
   */
  lemma SurvivorOrderIndependentIff(sessions: seq<Session>, k: SessionId)
    requires exists s :: s in sessions && IdOf(s) == k
    ensures OrderIndependent(sessions, k) <==> exists g :: IsGreatest(sessions, k, g)
    ensures forall g :: IsGreatest(sessions, k, g) ==>
              Survivor(sessions, k).Some? && SameRank(Survivor(sessions, k).value, g)
  {
    if OrderIndependent(sessions, k) {
      var g := IndependentNeedsGreatest(sessions, k);
    }
    forall g | IsGreatest(sessions, k, g)
      ensures Survivor(sessions, k).Some? && SameRank(Survivor(sessions, k).value, g)
      ensures OrderIndependent(sessions, k)
    {
      GreatestIsKept(sessions, |sessions|, k, g);
      GreatestMakesIndependent(sessions, k, g);
    }
  }
}
