/** Sessions, the keys documents are stored under, and the session index. */
module Sessions {
  datatype Session = Session(
    id: string,
    agent: string,
    title: string,
    directory: string,
    timestamp: int,
    content: string,
    messageCount: nat,
    mtime: real,
    yolo: bool)

  datatype SessionId = SessionId(agent: string, id: string)

  function IdOf(s: Session): SessionId {
    SessionId(s.agent, s.id)
  }

  // ---- Document keys -----------------------------------------------------------------

  /** `session_key`: the one string a document is deleted by. */
  function SessionKey(k: SessionId): string {
    k.agent + "::" + k.id
  }

  /** Every built-in agent name is free of colons. */
  predicate Plain(agent: string) {
    ':' !in agent
  }

  /** Two different ids of these agents can share a document key. */
  ghost predicate CanCollide(a: string, b: string) {
    exists i, j :: SessionId(a, i) != SessionId(b, j) && SessionKey(SessionId(a, i)) == SessionKey(SessionId(b, j))
  }

  /**
   * Document keys of two agents are ambiguous exactly when the agents differ and
   * one name, followed by "::", is a prefix of the other followed by "::".
   */
  lemma KeysCollideIff(a: string, b: string)
    ensures CanCollide(a, b) <==> a != b && (a + "::" <= b + "::" || b + "::" <= a + "::")
  {
    if CanCollide(a, b) {
      var i, j :| SessionId(a, i) != SessionId(b, j) && SessionKey(SessionId(a, i)) == SessionKey(SessionId(b, j));
      CollisionIsPrefix(a, i, b, j);
    }
    if a != b && a + "::" <= b + "::" {
      PrefixCollides(a, b);
    }
    if a != b && b + "::" <= a + "::" {
      PrefixCollides(b, a);
      var i, j :| SessionId(b, i) != SessionId(a, j) && SessionKey(SessionId(b, i)) == SessionKey(SessionId(a, j));
      assert SessionKey(SessionId(a, j)) == SessionKey(SessionId(b, i));
    }
  }

  lemma CollisionIsPrefix(a: string, i: string, b: string, j: string)
    requires SessionId(a, i) != SessionId(b, j)
    requires SessionKey(SessionId(a, i)) == SessionKey(SessionId(b, j))
    ensures a != b && (a + "::" <= b + "::" || b + "::" <= a + "::")
  {
    var x, y := SessionKey(SessionId(a, i)), SessionKey(SessionId(b, j));
    assert x[..|a| + 2] == a + "::" && x[|a| + 2..] == i;
    assert y[..|b| + 2] == b + "::" && y[|b| + 2..] == j;
    if |a| <= |b| {
      assert y[..|b| + 2][..|a| + 2] == x[..|a| + 2];
    } else {
      assert x[..|a| + 2][..|b| + 2] == y[..|b| + 2];
    }
  }

  lemma PrefixCollides(a: string, b: string)
    requires a != b && a + "::" <= b + "::"
    ensures CanCollide(a, b)
  {
    var i := (b + "::")[|a| + 2..];
    assert b + "::" == a + "::" + i;
    assert SessionKey(SessionId(a, i)) == SessionKey(SessionId(b, "")) by {
      assert b + "::" + "" == b + "::";
    }
    assert SessionId(a, i) != SessionId(b, "");
  }

  /** Colon-free agents never collide with one another. */
  lemma PlainKeysAreFaithful(x: SessionId, y: SessionId)
    requires Plain(x.agent) && Plain(y.agent)
    ensures SessionKey(x) == SessionKey(y) <==> x == y
  {
    if SessionKey(x) == SessionKey(y) && x != y {
      CollisionIsPrefix(x.agent, x.id, y.agent, y.id);
      PlainPrefix(x.agent, y.agent);
      PlainPrefix(y.agent, x.agent);
    }
  }

  lemma PlainPrefix(a: string, b: string)
    ensures a + "::" <= b + "::" && Plain(b) ==> a == b
  {
    if a + "::" <= b + "::" {
      assert (b + "::")[|a|] == (a + "::")[|a|] == ':';
      assert (b + "::")[..|a|] == a;
    }
  }

  // ---- The index ------------------------------------------------------------------------

  /** `delete_term` on the key field: every document stored under that key goes. */
  function DeleteTerm(docs: seq<Session>, key: string): seq<Session> {
    if docs == [] then [] else
      var rest, last := DeleteTerm(docs[..|docs| - 1], key), docs[|docs| - 1];
      if SessionKey(IdOf(last)) == key then rest else rest + [last]
  }

  /** The deletes of `update_sessions`, in order. */
  function DeleteSessionsOf(docs: seq<Session>, sessions: seq<Session>): seq<Session> {
    if sessions == [] then docs else
      DeleteTerm(DeleteSessionsOf(docs, sessions[..|sessions| - 1]), SessionKey(IdOf(sessions[|sessions| - 1])))
  }

  /** `update_sessions`: first all deletes, then all adds. */
  function UpdateDocs(docs: seq<Session>, sessions: seq<Session>): seq<Session> {
    DeleteSessionsOf(docs, sessions) + sessions
  }

  /** `delete_sessions`. */
  function DeleteIds(docs: seq<Session>, agent: string, ids: seq<string>): seq<Session> {
    if ids == [] then docs else
      DeleteTerm(DeleteIds(docs, agent, ids[..|ids| - 1]), SessionKey(SessionId(agent, ids[|ids| - 1])))
  }

  function KeySet(docs: seq<Session>): set<SessionId> {
    if docs == [] then {} else KeySet(docs[..|docs| - 1]) + {IdOf(docs[|docs| - 1])}
  }

  /**
   * The session index. Queries see `docs`; a writer collects its deletes and adds
   * aside, and `commit` followed by `reload` makes them visible at once.
   */
  class SessionIndex {
    var docs: seq<Session>

    constructor (docs: seq<Session>)
      ensures this.docs == docs
    {
      this.docs := docs;
    }

    method UpdateSessions(sessions: seq<Session>)
      modifies this
      ensures docs == UpdateDocs(old(docs), sessions)
    {
      if sessions == [] {
        return;
      }
      var writer := docs;
      for i := 0 to |sessions|
        invariant docs == old(docs)
        invariant writer == DeleteSessionsOf(docs, sessions[..i])
      {
        assert sessions[..i + 1][..i] == sessions[..i];
        writer := DeleteTerm(writer, SessionKey(IdOf(sessions[i])));
      }
      assert sessions[..|sessions|] == sessions;
      ghost var kept := writer;
      for i := 0 to |sessions|
        invariant docs == old(docs)
        invariant writer == kept + sessions[..i]
      {
        writer := writer + [sessions[i]];
      }
      docs := writer;
    }

    method DeleteSessions(agent: string, ids: seq<string>)
      modifies this
      ensures docs == DeleteIds(old(docs), agent, ids)
    {
      if ids == [] {
        return;
      }
      var writer := docs;
      for i := 0 to |ids|
        invariant docs == old(docs)
        invariant writer == DeleteIds(docs, agent, ids[..i])
      {
        assert ids[..i + 1][..i] == ids[..i];
        writer := DeleteTerm(writer, SessionKey(SessionId(agent, ids[i])));
      }
      assert ids[..|ids|] == ids;
      docs := writer;
    }

    /** `known_sessions`: the modification time stored for each known session. */
    method KnownSessions() returns (known: map<SessionId, real>)
      ensures known.Keys == KeySet(docs)
      ensures forall k :: k in known ==> exists i :: 0 <= i < |docs| && IdOf(docs[i]) == k && docs[i].mtime == known[k]
    {
      known := map[];
      for i := 0 to |docs|
        invariant known.Keys == KeySet(docs[..i])
        invariant forall k :: k in known ==> exists j :: 0 <= j < i && IdOf(docs[j]) == k && docs[j].mtime == known[k]
      {
        assert docs[..i + 1][..i] == docs[..i];
        known := known[IdOf(docs[i]) := docs[i].mtime];
      }
      assert docs[..|docs|] == docs;
    }

    function TotalLen(): nat
      reads this
    {
      |docs|
    }
  }
}
