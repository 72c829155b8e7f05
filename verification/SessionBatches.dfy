/** When a repeated id lands for one given schedule and batch size. */
module SessionBatches {
  import opened Sessions
  import opened SessionRefresh
  import opened SessionRefreshProofs
  import opened SessionInterleaving

  // ---- The batch, read off the schedule -----------------------------------------------------

  /** The sessions that wait for a flush after these events. */
  function WaitingAfter(events: seq<Event>, size: nat): seq<Session> {
    if events == [] then [] else
      match events[|events| - 1]
      case Finished(_, _) => []
      case Emitted(s) =>
        var grown := WaitingAfter(events[..|events| - 1], size) + [s];
        if |grown| >= size then [] else grown
  }

  lemma {:induction false} BatchIsWaiting(docs: seq<Session>, events: seq<Event>, size: nat)
    ensures Run(docs, events, size).batch == WaitingAfter(events, size)
  {
    if events != [] {
      BatchIsWaiting(docs, events[..|events| - 1], size);
    }
  }

  // ---- The last emission --------------------------------------------------------------------------

  /** Event `p` is the last emission of the id. */
  ghost predicate LastEmission(events: seq<Event>, k: SessionId, p: nat) {
    p < |events| && EmitsFor(events[p], k) && forall i :: p < i < |events| ==> !EmitsFor(events[i], k)
  }

  /** No event deletes the id. */
  ghost predicate NeverDeleted(events: seq<Event>, k: SessionId) {
    forall i :: 0 <= i < |events| ==> !Deletes(events[i], k)
  }

  lemma OneMoreEvent(docs: seq<Session>, events: seq<Event>, size: nat, k: SessionId, n: nat)
    requires PlainDocs(docs) && PlainEvents(events) && n < |events|
    ensures Pending(Run(docs, events[..n + 1], size), k)
         == PendingStep(Pending(Run(docs, events[..n], size), k), WithId(WaitingAfter(events[..n], size), k),
                        events[n], k)
    ensures LastWriter(events[..n + 1], k, WithId(docs, k))
         == PendingStep(LastWriter(events[..n], k, WithId(docs, k)), [], events[n], k)
  {
    var longer := events[..n + 1];
    assert longer[..|longer| - 1] == events[..n] && longer[|longer| - 1] == events[n];
    PlainPrefixes(events, n);
    RunPlain(docs, events[..n], size);
    assert PlainEvent(events[n]);
    StepPending(Run(docs, events[..n], size), events[n], size, k);
    BatchIsWaiting(docs, events[..n], size);
  }

  /** From its last emission on, an id has the repetitions in that emission's batch and the emission itself. */
  lemma {:induction false} PendingSinceLast(
      docs: seq<Session>, events: seq<Event>, size: nat, k: SessionId, p: nat, n: nat)
    requires PlainDocs(docs) && PlainEvents(events) && LastEmission(events, k, p) && NeverDeleted(events, k)
    requires p < n <= |events|
    ensures Pending(Run(docs, events[..n], size), k)
         == WithId(WaitingAfter(events[..p], size), k) + [events[p].session]
    ensures LastWriter(events[..n], k, WithId(docs, k)) == [events[p].session]
  {
    OneMoreEvent(docs, events, size, k, n - 1);
    assert !Deletes(events[n - 1], k);
    if n - 1 > p {
      PendingSinceLast(docs, events, size, k, p, n - 1);
      assert !EmitsFor(events[n - 1], k);
      QuietStep(events[n - 1], k, Pending(Run(docs, events[..n - 1], size), k),
                WithId(WaitingAfter(events[..n - 1], size), k));
      QuietStep(events[n - 1], k, LastWriter(events[..n - 1], k, WithId(docs, k)), []);
    }
  }

  /** An event that neither emits nor deletes the id changes nothing for it. */
  lemma QuietStep(e: Event, k: SessionId, pending: seq<Session>, waiting: seq<Session>)
    requires !EmitsFor(e, k) && !Deletes(e, k)
    ensures PendingStep(pending, waiting, e, k) == pending
  {
  }

  lemma {:induction false} DeletesOnlyListed(events: seq<Event>, streams: seq<Stream>, k: SessionId, j: nat)
    requires ValidStreams(streams) && Interleaves(events, streams)
    requires j < |streams| && streams[j].agent == k.agent && k.id !in streams[j].deletedIds
    ensures NeverDeleted(events, k)
  {
    forall i | 0 <= i < |events| ensures !Deletes(events[i], k) {
      if Deletes(events[i], k) {
        ProjectHas(events, i);
        var own := EventsOf(streams[j]);
        assert events[i] in own;
        EventsOfAreKnown(streams[j], events[i]);
      }
    }
  }

  lemma {:induction false} ProjectHas(events: seq<Event>, i: nat)
    requires i < |events|
    ensures events[i] in Project(events, AgentOf(events[i]))
  {
    var init, e := events[..|events| - 1], events[|events| - 1];
    if i < |init| {
      ProjectHas(init, i);
      assert init[i] == events[i];
    }
  }

  lemma EventsOfAreKnown(st: Stream, e: Event)
    requires e in EventsOf(st) && e.Finished?
    ensures e.deletedIds == st.deletedIds
  {
    var i :| 0 <= i < |EventsOf(st)| && EventsOf(st)[i] == e;
    if st.sessions != [] {
      EmitsAt(st.sessions, 0);
    }
    if i < |st.sessions| {
      EmitsAt(st.sessions, i);
    }
  }

  /**
   * Main result for one schedule and one batch size. An id its adapter does not delete
   * ends with its last emission, and nothing else, if and only if no earlier
   * emission of it waits in the batch that the last one joins.
   */
  lemma RepeatedIdLandsIff(
      docs: seq<Session>, streams: seq<Stream>, events: seq<Event>, batchSize: nat, k: SessionId, j: nat, p: nat)
    requires PlainDocs(docs) && ValidStreams(streams) && Interleaves(events, streams)
    requires j < |streams| && streams[j].agent == k.agent && k.id !in streams[j].deletedIds
    requires LastEmission(events, k, p)
    ensures Lands(docs, streams, events, batchSize, k)
            <==> WithId(WaitingAfter(events[..p], if batchSize < 1 then 1 else batchSize), k) == []
  {
    var size := if batchSize < 1 then 1 else batchSize;
    InterleavingPlain(events, streams);
    DeletesOnlyListed(events, streams, k, j);
    RefreshedPending(docs, events, batchSize, k);
    assert events[..|events|] == events;
    PendingSinceLast(docs, events, size, k, p, |events|);
    FindStreamIs(streams, k, j);
    assert Project(events, k.agent) == EventsOf(streams[j]);
    ProjectKeeps(events, k, WithId(docs, k));
    EventsOfContents(streams[j], k, WithId(docs, k));
  }

  lemma FindStreamIs(streams: seq<Stream>, k: SessionId, j: nat)
    requires ValidStreams(streams) && j < |streams| && streams[j].agent == k.agent
    ensures FindStream(streams, k.agent) == j
  {
  }

  /** With a batch size of one every undeleted id lands, however often it was emitted. */
  lemma SingleBatchesLand(
      docs: seq<Session>, streams: seq<Stream>, events: seq<Event>, batchSize: nat, k: SessionId, j: nat, p: nat)
    requires PlainDocs(docs) && ValidStreams(streams) && Interleaves(events, streams) && batchSize <= 1
    requires j < |streams| && streams[j].agent == k.agent && k.id !in streams[j].deletedIds
    requires LastEmission(events, k, p)
    ensures Lands(docs, streams, events, batchSize, k)
  {
    RepeatedIdLandsIff(docs, streams, events, batchSize, k, j, p);
    assert WaitingAfter(events[..p], 1) == [];
  }
}
