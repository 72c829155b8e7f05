/** The refresh under every interleaving and every batch size. */
module SessionRefreshProofs {
  import opened Prelude
  import opened Sessions
  import opened SessionRefresh

  // ---- Documents by id ---------------------------------------------------------------

  /** The documents stored under one id, in order. */
  function WithId(docs: seq<Session>, k: SessionId): seq<Session> {
    if docs == [] then [] else
      WithId(docs[..|docs| - 1], k) + if IdOf(docs[|docs| - 1]) == k then [docs[|docs| - 1]] else []
  }

  ghost predicate PlainDocs(docs: seq<Session>) {
    forall i :: 0 <= i < |docs| ==> Plain(docs[i].agent)
  }

  lemma WithIdSnoc(docs: seq<Session>, s: Session, k: SessionId)
    ensures WithId(docs + [s], k) == WithId(docs, k) + if IdOf(s) == k then [s] else []
  {
    assert (docs + [s])[..|docs|] == docs;
  }

  lemma {:induction false} WithIdConcat(a: seq<Session>, b: seq<Session>, k: SessionId)
    ensures WithId(a + b, k) == WithId(a, k) + WithId(b, k)
  {
    if b == [] {
      assert a + b == a;
    } else {
      var init, s := b[..|b| - 1], b[|b| - 1];
      assert a + b == (a + init) + [s];
      WithIdSnoc(a + init, s, k);
      WithIdConcat(a, init, k);
    }
  }

  lemma {:induction false} WithIdKeySet(docs: seq<Session>, k: SessionId)
    ensures k in KeySet(docs) <==> WithId(docs, k) != []
  {
    if docs != [] {
      WithIdKeySet(docs[..|docs| - 1], k);
    }
  }

  lemma DeleteTermSnoc(docs: seq<Session>, s: Session, k: SessionId)
    requires Plain(s.agent) && Plain(k.agent)
    ensures DeleteTerm(docs + [s], SessionKey(k)) ==
            if IdOf(s) == k then DeleteTerm(docs, SessionKey(k)) else DeleteTerm(docs, SessionKey(k)) + [s]
  {
    assert (docs + [s])[..|docs|] == docs;
    PlainKeysAreFaithful(IdOf(s), k);
  }

  lemma {:induction false} DeleteTermPlain(docs: seq<Session>, key: string)
    requires PlainDocs(docs)
    ensures PlainDocs(DeleteTerm(docs, key))
  {
    if docs != [] {
      DeleteTermPlain(docs[..|docs| - 1], key);
    }
  }

  /** One more document, when the rest is as expected. */
  lemma DeleteTermWithSnoc(init: seq<Session>, s: Session, k: SessionId, x: SessionId)
    requires Plain(s.agent) && Plain(k.agent)
    requires WithId(DeleteTerm(init, SessionKey(k)), x) == if x == k then [] else WithId(init, x)
    ensures WithId(DeleteTerm(init + [s], SessionKey(k)), x) == if x == k then [] else WithId(init + [s], x)
  {
    DeleteTermSnoc(init, s, k);
    WithIdSnoc(init, s, x);
    WithIdSnoc(DeleteTerm(init, SessionKey(k)), s, x);
    AppendEmpty(WithId(init, x));
    if IdOf(s) == k && x == k {
      AppendEmpty(WithId(DeleteTerm(init, SessionKey(k)), x));
    }
  }

  lemma {:induction false} DeleteTermWith(docs: seq<Session>, k: SessionId, x: SessionId)
    requires PlainDocs(docs) && Plain(k.agent)
    ensures WithId(DeleteTerm(docs, SessionKey(k)), x) == if x == k then [] else WithId(docs, x)
    ensures PlainDocs(DeleteTerm(docs, SessionKey(k)))
  {
    DeleteTermPlain(docs, SessionKey(k));
    if docs != [] {
      var init, s := docs[..|docs| - 1], docs[|docs| - 1];
      assert docs == init + [s];
      DeleteTermWith(init, k, x);
      DeleteTermWithSnoc(init, s, k, x);
    }
  }

  lemma {:induction false} DeleteSessionsWith(docs: seq<Session>, sessions: seq<Session>, x: SessionId)
    requires PlainDocs(docs) && PlainDocs(sessions)
    ensures WithId(DeleteSessionsOf(docs, sessions), x) == if WithId(sessions, x) != [] then [] else WithId(docs, x)
    ensures PlainDocs(DeleteSessionsOf(docs, sessions))
  {
    if sessions != [] {
      var init, s := sessions[..|sessions| - 1], sessions[|sessions| - 1];
      DeleteSessionsWith(docs, init, x);
      DeleteTermWith(DeleteSessionsOf(docs, init), IdOf(s), x);
    }
  }

  /** An upsert replaces exactly the documents of the batch's ids. */
  lemma UpdateWith(docs: seq<Session>, batch: seq<Session>, x: SessionId)
    requires PlainDocs(docs) && PlainDocs(batch)
    ensures WithId(UpdateDocs(docs, batch), x) == if WithId(batch, x) != [] then WithId(batch, x) else WithId(docs, x)
    ensures PlainDocs(UpdateDocs(docs, batch))
  {
    DeleteSessionsWith(docs, batch, x);
    WithIdConcat(DeleteSessionsOf(docs, batch), batch, x);
  }

  lemma {:induction false} DeleteIdsWith(docs: seq<Session>, agent: string, ids: seq<string>, x: SessionId)
    requires PlainDocs(docs) && Plain(agent)
    ensures WithId(DeleteIds(docs, agent, ids), x) == if x.agent == agent && x.id in ids then [] else WithId(docs, x)
    ensures PlainDocs(DeleteIds(docs, agent, ids))
  {
    if ids != [] {
      var init, id := ids[..|ids| - 1], ids[|ids| - 1];
      var rest, k := DeleteIds(docs, agent, init), SessionId(agent, id);
      assert ids == init + [id];
      assert x.id in ids <==> x.id in init || x.id == id;
      DeleteIdsWith(docs, agent, init, x);
      DeleteTermWith(rest, k, x);
    }
  }

  // ---- The counters --------------------------------------------------------------------

  lemma {:induction false} CountInsertedTally(before: Tally, batch: seq<Session>)
    requires before.total == |before.known|
    ensures CountInserted(before, batch).known == before.known + KeySet(batch)
    ensures CountInserted(before, batch).total == |CountInserted(before, batch).known|
  {
    if batch != [] {
      var init, id := batch[..|batch| - 1], IdOf(batch[|batch| - 1]);
      CountInsertedTally(before, init);
      var known := CountInserted(before, init).known;
      assert known + {id} == before.known + (KeySet(init) + {id});
      assert id in known ==> known + {id} == known;
    }
  }

  function IdSet(agent: string, ids: seq<string>): set<SessionId> {
    if ids == [] then {} else IdSet(agent, ids[..|ids| - 1]) + {SessionId(agent, ids[|ids| - 1])}
  }

  /** The saturating subtraction never saturates: what is removed was counted. */
  lemma {:induction false} CountRemovedTally(before: Tally, agent: string, ids: seq<string>)
    requires before.total == |before.known|
    ensures CountRemoved(before, agent, ids).known == before.known - IdSet(agent, ids)
    ensures CountRemoved(before, agent, ids).total == |CountRemoved(before, agent, ids).known|
  {
    if ids != [] {
      var init, id := ids[..|ids| - 1], SessionId(agent, ids[|ids| - 1]);
      CountRemovedTally(before, agent, init);
      var known := CountRemoved(before, agent, init).known;
      assert known - {id} == before.known - (IdSet(agent, init) + {id});
      assert id !in known ==> known - {id} == known;
    }
  }

  ghost predicate PlainEvent(e: Event) {
    match e
    case Emitted(s) => Plain(s.agent)
    case Finished(agent, _) => Plain(agent)
  }

  ghost predicate PlainEvents(events: seq<Event>) {
    forall i :: 0 <= i < |events| ==> PlainEvent(events[i])
  }

  lemma PlainPrefixes(events: seq<Event>, n: nat)
    requires PlainEvents(events) && n <= |events|
    ensures PlainEvents(events[..n])
  {
    forall i | 0 <= i < n ensures PlainEvent(events[..n][i]) {
      assert PlainEvent(events[i]);
    }
  }

  /** What a callback is told matches what the index holds at that moment. */
  ghost predicate Accurate(cb: Callback) {
    cb.told.sessions == |KeySet(cb.index)|
  }

  /** The running total is the number of known ids, which are exactly the ids in the index. */
  ghost predicate CountsAgree(c: Consumer) {
    && PlainDocs(c.docs) && PlainDocs(c.batch)
    && c.known == KeySet(c.docs)
    && c.total == |c.known|
    && forall i :: 0 <= i < |c.log| ==> Accurate(c.log[i])
  }

  lemma ReportAgrees(c: Consumer)
    requires CountsAgree(c)
    ensures CountsAgree(Report(c))
  {
    var r := Report(c);
    forall i | 0 <= i < |r.log| ensures Accurate(r.log[i]) {
      if i < |c.log| {
        assert Accurate(c.log[i]);
      }
    }
  }

  lemma UpdateKeySet(docs: seq<Session>, batch: seq<Session>)
    requires PlainDocs(docs) && PlainDocs(batch)
    ensures KeySet(UpdateDocs(docs, batch)) == KeySet(docs) + KeySet(batch)
  {
    forall k ensures k in KeySet(UpdateDocs(docs, batch)) <==> k in KeySet(docs) + KeySet(batch) {
      UpdateWith(docs, batch, k);
      WithIdKeySet(docs, k);
      WithIdKeySet(batch, k);
      WithIdKeySet(UpdateDocs(docs, batch), k);
    }
  }

  lemma DeleteKeySet(docs: seq<Session>, agent: string, ids: seq<string>)
    requires PlainDocs(docs) && Plain(agent)
    ensures KeySet(DeleteIds(docs, agent, ids)) == KeySet(docs) - IdSet(agent, ids)
  {
    forall k ensures k in KeySet(DeleteIds(docs, agent, ids)) <==> k in KeySet(docs) - IdSet(agent, ids) {
      DeleteIdsWith(docs, agent, ids, k);
      WithIdKeySet(docs, k);
      WithIdKeySet(DeleteIds(docs, agent, ids), k);
      InIdSet(agent, ids, k);
    }
  }

  lemma {:induction false} InIdSet(agent: string, ids: seq<string>, k: SessionId)
    ensures k in IdSet(agent, ids) <==> k.agent == agent && k.id in ids
  {
    if ids != [] {
      var init := ids[..|ids| - 1];
      InIdSet(agent, init, k);
      assert ids == init + [ids[|ids| - 1]];
    }
  }

  lemma FlushAgrees(c: Consumer)
    requires CountsAgree(c)
    ensures CountsAgree(Flush(c)) && Flush(c).batch == []
  {
    if c.batch != [] {
      var t := CountInserted(Tally(c.known, c.total), c.batch);
      CountInsertedTally(Tally(c.known, c.total), c.batch);
      UpdateKeySet(c.docs, c.batch);
      UpdateWith(c.docs, c.batch, IdOf(c.batch[0]));
      ReportAgrees(c.(docs := UpdateDocs(c.docs, c.batch), batch := [], known := t.known, total := t.total,
                      changed := c.changed + |c.batch|));
    }
  }

  lemma DeleteAgrees(c: Consumer, agent: string, ids: seq<string>)
    requires CountsAgree(c) && Plain(agent)
    ensures CountsAgree(Delete(c, agent, ids)) && Delete(c, agent, ids).batch == c.batch
  {
    if ids != [] {
      var t := CountRemoved(Tally(c.known, c.total), agent, ids);
      CountRemovedTally(Tally(c.known, c.total), agent, ids);
      DeleteKeySet(c.docs, agent, ids);
      DeleteIdsWith(c.docs, agent, ids, SessionId(agent, ids[0]));
      ReportAgrees(c.(docs := DeleteIds(c.docs, agent, ids), known := t.known, total := t.total,
                      deleted := c.deleted + |ids|));
    }
  }

  lemma {:induction false} RunAgrees(docs: seq<Session>, events: seq<Event>, size: nat)
    requires PlainDocs(docs) && PlainEvents(events)
    ensures CountsAgree(Run(docs, events, size))
  {
    if events != [] {
      var init, e := events[..|events| - 1], events[|events| - 1];
      var c := Run(docs, init, size);
      RunAgrees(docs, init, size);
      assert PlainEvent(e);
      match e
      case Emitted(s) =>
        FlushAgrees(c.(batch := c.batch + [s]));
      case Finished(agent, ids) =>
        FlushAgrees(c);
        DeleteAgrees(Flush(c), agent, ids);
    }
  }

  /**
   * For any index, events and batch size (agents free of colons): at every progress
   * callback the number reported is the number of distinct ids in the index, the
   * subtraction never saturates, and the running total ends at the same number.
   */
  lemma ProgressIsAccurate(docs: seq<Session>, events: seq<Event>, batchSize: nat)
    requires PlainDocs(docs) && PlainEvents(events)
    ensures var end := Refreshed(docs, events, batchSize);
            && (forall i :: 0 <= i < |end.log| ==> Accurate(end.log[i]))
            && end.total == |end.known| == |KeySet(end.docs)|
            && end.batch == []
  {
    var size := if batchSize < 1 then 1 else batchSize;
    RunAgrees(docs, events, size);
    FlushAgrees(Run(docs, events, size));
  }

  // ---- The summary's other two numbers ----------------------------------------------------

  function EmittedCount(events: seq<Event>): nat {
    if events == [] then 0 else
      EmittedCount(events[..|events| - 1]) + if events[|events| - 1].Emitted? then 1 else 0
  }

  function DeletedCount(events: seq<Event>): nat {
    if events == [] then 0 else
      var e := events[|events| - 1];
      DeletedCount(events[..|events| - 1]) + if e.Finished? then |e.deletedIds| else 0
  }

  lemma {:induction false} RunSummary(docs: seq<Session>, events: seq<Event>, size: nat)
    ensures Run(docs, events, size).changed + |Run(docs, events, size).batch| == EmittedCount(events)
    ensures Run(docs, events, size).deleted == DeletedCount(events)
  {
    if events != [] {
      RunSummary(docs, events[..|events| - 1], size);
    }
  }

  /** The final summary counts every session emitted and every id reported deleted, however batched. */
  lemma {:induction false} SummaryCountsEveryEvent(docs: seq<Session>, events: seq<Event>, batchSize: nat)
    ensures Refreshed(docs, events, batchSize).changed == EmittedCount(events)
    ensures Refreshed(docs, events, batchSize).deleted == DeletedCount(events)
  {
    RunSummary(docs, events, if batchSize < 1 then 1 else batchSize);
  }

  // ---- One document per id ------------------------------------------------------------------

  /** No id has two documents. */
  ghost predicate OnePerId(docs: seq<Session>) {
    forall k :: |WithId(docs, k)| <= 1
  }

  lemma {:induction false} OnePerIdCount(docs: seq<Session>)
    ensures |KeySet(docs)| <= |docs|
    ensures OnePerId(docs) <==> |KeySet(docs)| == |docs|
  {
    if docs == [] {
      assert KeySet(docs) == {};
    } else {
      var init, s := docs[..|docs| - 1], docs[|docs| - 1];
      assert docs == init + [s];
      OnePerIdCount(init);
      WithIdKeySet(init, IdOf(s));
      OnePerIdSnoc(init, s);
    }
  }

  lemma OnePerIdSnoc(docs: seq<Session>, s: Session)
    ensures OnePerId(docs + [s]) <==> OnePerId(docs) && WithId(docs, IdOf(s)) == []
  {
    forall k ensures WithId(docs + [s], k) == WithId(docs, k) + if IdOf(s) == k then [s] else [] {
      WithIdSnoc(docs, s, k);
    }
    if OnePerId(docs + [s]) {
      assert |WithId(docs + [s], IdOf(s))| <= 1;
      forall k ensures |WithId(docs, k)| <= 1 {
        assert |WithId(docs + [s], k)| <= 1;
      }
    }
    if OnePerId(docs) && WithId(docs, IdOf(s)) == [] {
      forall k ensures |WithId(docs + [s], k)| <= 1 {
        assert |WithId(docs, k)| <= 1;
      }
    }
  }

  /** The sessions emitted under one id, in order. */
  function Emissions(events: seq<Event>, k: SessionId): seq<Session> {
    if events == [] then [] else
      Emissions(events[..|events| - 1], k) + match events[|events| - 1]
                                              case Emitted(s) => if IdOf(s) == k then [s] else []
                                              case Finished(_, _) => []
  }

  ghost predicate EmitsOnce(events: seq<Event>) {
    forall k :: |Emissions(events, k)| <= 1
  }

  /** Every index state so far holds one document per id, and the batch repeats no id. */
  ghost predicate OneEach(c: Consumer) {
    && PlainDocs(c.docs) && PlainDocs(c.batch)
    && OnePerId(c.docs) && OnePerId(c.batch)
    && forall i :: 0 <= i < |c.log| ==> OneInCallback(c.log[i])
  }

  ghost predicate OneInCallback(cb: Callback) {
    OnePerId(cb.index)
  }

  lemma FlushOneEach(c: Consumer)
    requires OneEach(c)
    ensures OneEach(Flush(c))
  {
    if c.batch != [] {
      forall k ensures |WithId(UpdateDocs(c.docs, c.batch), k)| <= 1 {
        UpdateWith(c.docs, c.batch, k);
        assert |WithId(c.docs, k)| <= 1 && |WithId(c.batch, k)| <= 1;
      }
      UpdateWith(c.docs, c.batch, IdOf(c.batch[0]));
      OnePerIdEmpty();
    }
  }

  lemma OnePerIdEmpty()
    ensures OnePerId([])
  {
  }

  lemma DeleteOneEach(c: Consumer, agent: string, ids: seq<string>)
    requires OneEach(c) && Plain(agent)
    ensures OneEach(Delete(c, agent, ids))
  {
    if ids != [] {
      forall k ensures |WithId(DeleteIds(c.docs, agent, ids), k)| <= 1 {
        DeleteIdsWith(c.docs, agent, ids, k);
        assert |WithId(c.docs, k)| <= 1;
      }
      DeleteIdsWith(c.docs, agent, ids, SessionId(agent, ids[0]));
    }
  }

  lemma EmitsOncePrefix(events: seq<Event>)
    requires events != [] && EmitsOnce(events)
    ensures EmitsOnce(events[..|events| - 1])
  {
    var init := events[..|events| - 1];
    forall k ensures |Emissions(init, k)| <= 1 {
      assert |Emissions(events, k)| <= 1;
    }
  }

  /** A session waits in the batch only if it was emitted. */
  lemma {:induction false} BatchWasEmitted(docs: seq<Session>, events: seq<Event>, size: nat, k: SessionId)
    ensures WithId(Run(docs, events, size).batch, k) != [] ==> Emissions(events, k) != []
  {
    if events != [] {
      var init := events[..|events| - 1];
      BatchWasEmitted(docs, init, size, k);
      match events[|events| - 1]
      case Emitted(s) => WithIdSnoc(Run(docs, init, size).batch, s, k);
      case Finished(_, _) =>
    }
  }

  lemma {:induction false} RunOneEach(docs: seq<Session>, events: seq<Event>, size: nat)
    requires PlainDocs(docs) && PlainEvents(events) && OnePerId(docs) && EmitsOnce(events)
    ensures OneEach(Run(docs, events, size))
  {
    if events == [] {
      OnePerIdEmpty();
    } else {
      var init, e := events[..|events| - 1], events[|events| - 1];
      var c := Run(docs, init, size);
      EmitsOncePrefix(events);
      RunOneEach(docs, init, size);
      assert PlainEvent(e);
      match e
      case Emitted(s) =>
        assert |Emissions(events, IdOf(s))| <= 1;
        BatchWasEmitted(docs, init, size, IdOf(s));
        OnePerIdSnoc(c.batch, s);
        FlushOneEach(c.(batch := c.batch + [s]));
      case Finished(agent, ids) =>
        FlushOneEach(c);
        DeleteOneEach(Flush(c), agent, ids);
    }
  }

  /** The number told is the number of documents in the index. */
  ghost predicate CountsDocuments(cb: Callback) {
    cb.told.sessions == |cb.index|
  }

  /**
   * When the index starts with one document per id and no id is emitted twice, the
   * document count agrees with the running total at every callback and at the end,
   * for every order of events and every batch size.
   */
  lemma TotalLenAgrees(docs: seq<Session>, events: seq<Event>, batchSize: nat)
    requires PlainDocs(docs) && PlainEvents(events) && OnePerId(docs) && EmitsOnce(events)
    ensures var end := Refreshed(docs, events, batchSize);
            && OnePerId(end.docs) && |end.docs| == end.total
            && forall i :: 0 <= i < |end.log| ==> CountsDocuments(end.log[i])
  {
    var size := if batchSize < 1 then 1 else batchSize;
    var end := Refreshed(docs, events, batchSize);
    RunOneEach(docs, events, size);
    FlushOneEach(Run(docs, events, size));
    ProgressIsAccurate(docs, events, batchSize);
    OnePerIdCount(end.docs);
    forall i | 0 <= i < |end.log| ensures CountsDocuments(end.log[i]) {
      assert Accurate(end.log[i]) && OneInCallback(end.log[i]);
      OnePerIdCount(end.log[i].index);
    }
  }
}
