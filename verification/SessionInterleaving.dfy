/** What the index holds after the refresh, for every interleaving of the adapters' streams. */
module SessionInterleaving {
  import opened Prelude
  import opened Sessions
  import opened SessionRefresh
  import opened SessionRefreshProofs

  // ---- Adapter streams -------------------------------------------------------------------

  /** What one adapter thread sends: its sessions, then one `Finished`. */
  datatype Stream = Stream(agent: string, sessions: seq<Session>, deletedIds: seq<string>)

  function Emits(sessions: seq<Session>): seq<Event> {
    if sessions == [] then [] else Emits(sessions[..|sessions| - 1]) + [Emitted(sessions[|sessions| - 1])]
  }

  function EventsOf(st: Stream): seq<Event> {
    Emits(st.sessions) + [Finished(st.agent, st.deletedIds)]
  }

  function AgentOf(e: Event): string {
    match e
    case Emitted(s) => s.agent
    case Finished(agent, _) => agent
  }

  /** The events of one agent, in order. */
  function Project(events: seq<Event>, agent: string): seq<Event> {
    if events == [] then [] else
      Project(events[..|events| - 1], agent)
      + if AgentOf(events[|events| - 1]) == agent then [events[|events| - 1]] else []
  }

  /** Each adapter emits only sessions of its own agent, agents differ, and their names have no colon. */
  ghost predicate ValidStreams(streams: seq<Stream>) {
    && (forall j :: 0 <= j < |streams| ==> Plain(streams[j].agent) && Owned(streams[j]))
    && (forall i, j :: 0 <= i < j < |streams| ==> streams[i].agent != streams[j].agent)
  }

  ghost predicate Owned(st: Stream) {
    forall i :: 0 <= i < |st.sessions| ==> st.sessions[i].agent == st.agent
  }

  ghost predicate SentBy(e: Event, streams: seq<Stream>) {
    exists j :: 0 <= j < |streams| && streams[j].agent == AgentOf(e)
  }

  /**
   * `events` is an interleaving of the streams: the channel keeps each sender's
   * order, and agents being distinct, the events of an agent are its adapter's.
   */
  ghost predicate Interleaves(events: seq<Event>, streams: seq<Stream>) {
    && (forall i :: 0 <= i < |events| ==> SentBy(events[i], streams))
    && (forall j :: 0 <= j < |streams| ==> Project(events, streams[j].agent) == EventsOf(streams[j]))
  }

  // ---- What is expected --------------------------------------------------------------------

  function FindStream(streams: seq<Stream>, agent: string): (j: nat)
    ensures j <= |streams|
    ensures j < |streams| ==> streams[j].agent == agent
    ensures j == |streams| ==> forall i :: 0 <= i < |streams| ==> streams[i].agent != agent
  {
    if streams == [] || streams[0].agent == agent then 0 else 1 + FindStream(streams[1..], agent)
  }

  /** The documents of an id after its own adapter's stream. */
  function AfterStream(st: Stream, k: SessionId, before: seq<Session>): seq<Session> {
    if k.id in st.deletedIds then []
    else
      var emitted := WithId(st.sessions, k);
      if emitted == [] then before else [emitted[|emitted| - 1]]
  }

  /** Initial documents, overridden by emitted sessions, minus deleted ones. */
  function Expected(docs: seq<Session>, streams: seq<Stream>, k: SessionId): seq<Session> {
    var j := FindStream(streams, k.agent);
    if j == |streams| then WithId(docs, k) else AfterStream(streams[j], k, WithId(docs, k))
  }

  /** No adapter emits an id twice, unless it also deletes it. */
  ghost predicate CleanStreams(streams: seq<Stream>) {
    forall j, k: SessionId :: 0 <= j < |streams| && k.agent == streams[j].agent ==> CleanId(streams[j], k)
  }

  ghost predicate CleanId(st: Stream, k: SessionId) {
    k.id in st.deletedIds || |WithId(st.sessions, k)| <= 1
  }

  ghost predicate Lands(docs: seq<Session>, streams: seq<Stream>, events: seq<Event>, batchSize: nat, k: SessionId) {
    WithId(Refreshed(docs, events, batchSize).docs, k) == Expected(docs, streams, k)
  }

  /** Every schedule and every batch size leaves the expected documents. */
  ghost predicate AlwaysLands(docs: seq<Session>, streams: seq<Stream>) {
    forall events: seq<Event>, batchSize: nat, k: SessionId ::
      Interleaves(events, streams) ==> Lands(docs, streams, events, batchSize, k)
  }

  // ---- One id at a time ----------------------------------------------------------------------

  /** What an id would have if the batch were flushed now. */
  function Pending(c: Consumer, k: SessionId): seq<Session> {
    if WithId(c.batch, k) != [] then WithId(c.batch, k) else WithId(c.docs, k)
  }

  predicate Deletes(e: Event, k: SessionId) {
    e.Finished? && e.agent == k.agent && k.id in e.deletedIds
  }

  predicate EmitsFor(e: Event, k: SessionId) {
    e.Emitted? && IdOf(e.session) == k
  }

  ghost predicate PlainConsumer(c: Consumer) {
    PlainDocs(c.docs) && PlainDocs(c.batch)
  }

  /** A flush moves the batch into the index and changes no id's pending documents. */
  lemma FlushPending(c: Consumer, k: SessionId)
    requires PlainConsumer(c)
    ensures PlainConsumer(Flush(c)) && Flush(c).batch == []
    ensures Pending(Flush(c), k) == Pending(c, k) == WithId(Flush(c).docs, k)
  {
    if c.batch != [] {
      UpdateWith(c.docs, c.batch, k);
    }
  }

  /** What one event does to the pending documents of an id. */
  function PendingStep(before: seq<Session>, batched: seq<Session>, e: Event, k: SessionId): seq<Session> {
    if EmitsFor(e, k) then batched + [e.session]
    else if Deletes(e, k) then []
    else before
  }

  lemma StepPending(c: Consumer, e: Event, size: nat, k: SessionId)
    requires PlainConsumer(c) && PlainEvent(e)
    ensures PlainConsumer(Handle(c, e, size))
    ensures Pending(Handle(c, e, size), k) == PendingStep(Pending(c, k), WithId(c.batch, k), e, k)
  {
    match e
    case Emitted(s) =>
      var grown := c.(batch := c.batch + [s]);
      WithIdSnoc(c.batch, s, k);
      FlushPending(grown, k);
    case Finished(agent, ids) =>
      FlushPending(c, k);
      DeleteIdsWith(Flush(c).docs, agent, ids, k);
  }

  /** The last writer per id, as if there were no batches. */
  function LastWriter(events: seq<Event>, k: SessionId, before: seq<Session>): seq<Session> {
    if events == [] then before else
      PendingStep(LastWriter(events[..|events| - 1], k, before), [], events[|events| - 1], k)
  }

  lemma {:induction false} RunPlain(docs: seq<Session>, events: seq<Event>, size: nat)
    requires PlainDocs(docs) && PlainEvents(events)
    ensures PlainConsumer(Run(docs, events, size))
  {
    if events != [] {
      RunPlain(docs, events[..|events| - 1], size);
      assert PlainEvent(events[|events| - 1]);
      StepPending(Run(docs, events[..|events| - 1], size), events[|events| - 1], size, SessionId("", ""));
    }
  }

  /** An id emitted at most once ends with its last writer, whatever the batches. */
  lemma {:induction false} RunPendingOnce(docs: seq<Session>, events: seq<Event>, size: nat, k: SessionId)
    requires PlainDocs(docs) && PlainEvents(events) && |Emissions(events, k)| <= 1
    ensures Pending(Run(docs, events, size), k) == LastWriter(events, k, WithId(docs, k))
  {
    if events != [] {
      var init, e := events[..|events| - 1], events[|events| - 1];
      RunPendingOnce(docs, init, size, k);
      RunPlain(docs, init, size);
      BatchWasEmitted(docs, init, size, k);
      assert PlainEvent(e);
      StepPending(Run(docs, init, size), e, size, k);
    }
  }

  /** The agent's last event deletes the id. */
  predicate EndsDeleted(events: seq<Event>, k: SessionId) {
    events != [] &&
    var e := events[|events| - 1];
    if AgentOf(e) == k.agent then Deletes(e, k) else EndsDeleted(events[..|events| - 1], k)
  }

  /** An id its adapter deletes at the end is gone, however often it was emitted. */
  lemma {:induction false} RunPendingDeleted(docs: seq<Session>, events: seq<Event>, size: nat, k: SessionId)
    requires PlainDocs(docs) && PlainEvents(events) && EndsDeleted(events, k)
    ensures Pending(Run(docs, events, size), k) == []
  {
    var init, e := events[..|events| - 1], events[|events| - 1];
    RunPlain(docs, init, size);
    assert PlainEvent(e);
    StepPending(Run(docs, init, size), e, size, k);
    if AgentOf(e) != k.agent {
      RunPendingDeleted(docs, init, size, k);
    }
  }

  // ---- Only the agent's own events matter -------------------------------------------------------

  lemma ProjectSnoc(events: seq<Event>, e: Event, agent: string)
    ensures Project(events + [e], agent) == Project(events, agent) + if AgentOf(e) == agent then [e] else []
  {
    assert (events + [e])[..|events|] == events;
  }

  lemma {:induction false} ProjectKeeps(events: seq<Event>, k: SessionId, before: seq<Session>)
    ensures Emissions(Project(events, k.agent), k) == Emissions(events, k)
    ensures LastWriter(Project(events, k.agent), k, before) == LastWriter(events, k, before)
    ensures EndsDeleted(Project(events, k.agent), k) <==> EndsDeleted(events, k)
  {
    if events != [] {
      var init, e := events[..|events| - 1], events[|events| - 1];
      var p := Project(init, k.agent);
      ProjectKeeps(init, k, before);
      if AgentOf(e) == k.agent {
        assert (p + [e])[..|p|] == p;
      } else {
        assert p + [] == p;
      }
    }
  }

  lemma {:induction false} EmitsContents(sessions: seq<Session>, k: SessionId, before: seq<Session>)
    ensures Emissions(Emits(sessions), k) == WithId(sessions, k)
    ensures LastWriter(Emits(sessions), k, before)
         == var w := WithId(sessions, k); if w == [] then before else [w[|w| - 1]]
  {
    if sessions != [] {
      var init, s := sessions[..|sessions| - 1], sessions[|sessions| - 1];
      EmitsContents(init, k, before);
      assert (Emits(init) + [Emitted(s)])[..|Emits(init)|] == Emits(init);
    }
  }

  lemma EventsOfContents(st: Stream, k: SessionId, before: seq<Session>)
    requires k.agent == st.agent
    ensures Emissions(EventsOf(st), k) == WithId(st.sessions, k)
    ensures LastWriter(EventsOf(st), k, before) == AfterStream(st, k, before)
    ensures EndsDeleted(EventsOf(st), k) <==> k.id in st.deletedIds
  {
    var emits := Emits(st.sessions);
    EmitsContents(st.sessions, k, before);
    assert EventsOf(st)[..|emits|] == emits;
  }

  lemma {:induction false} NoEventsOfAgent(events: seq<Event>, k: SessionId, before: seq<Session>)
    requires forall i :: 0 <= i < |events| ==> AgentOf(events[i]) != k.agent
    ensures Emissions(events, k) == [] && LastWriter(events, k, before) == before
  {
    if events != [] {
      assert AgentOf(events[|events| - 1]) != k.agent;
      NoEventsOfAgent(events[..|events| - 1], k, before);
    }
  }

  lemma InterleavingPlain(events: seq<Event>, streams: seq<Stream>)
    requires ValidStreams(streams) && Interleaves(events, streams)
    ensures PlainEvents(events)
  {
    forall i | 0 <= i < |events| ensures PlainEvent(events[i]) {
      assert SentBy(events[i], streams);
    }
  }

  lemma RefreshedPending(docs: seq<Session>, events: seq<Event>, batchSize: nat, k: SessionId)
    requires PlainDocs(docs) && PlainEvents(events)
    ensures WithId(Refreshed(docs, events, batchSize).docs, k)
         == Pending(Run(docs, events, if batchSize < 1 then 1 else batchSize), k)
  {
    var size := if batchSize < 1 then 1 else batchSize;
    RunPlain(docs, events, size);
    FlushPending(Run(docs, events, size), k);
  }

  /** One id, one schedule: a clean id lands as expected. */
  lemma CleanIdLands(docs: seq<Session>, streams: seq<Stream>, events: seq<Event>, batchSize: nat, k: SessionId)
    requires PlainDocs(docs) && ValidStreams(streams) && Interleaves(events, streams)
    requires forall j :: 0 <= j < |streams| && streams[j].agent == k.agent ==> CleanId(streams[j], k)
    ensures Lands(docs, streams, events, batchSize, k)
  {
    var size := if batchSize < 1 then 1 else batchSize;
    var j := FindStream(streams, k.agent);
    InterleavingPlain(events, streams);
    RefreshedPending(docs, events, batchSize, k);
    if j == |streams| {
      forall i | 0 <= i < |events| ensures AgentOf(events[i]) != k.agent {
        assert SentBy(events[i], streams);
      }
      NoEventsOfAgent(events, k, WithId(docs, k));
      RunPendingOnce(docs, events, size, k);
    } else {
      assert Project(events, k.agent) == EventsOf(streams[j]) && CleanId(streams[j], k);
      ProjectKeeps(events, k, WithId(docs, k));
      EventsOfContents(streams[j], k, WithId(docs, k));
      if k.id in streams[j].deletedIds {
        RunPendingDeleted(docs, events, size, k);
      } else {
        RunPendingOnce(docs, events, size, k);
      }
    }
  }

  // ---- A schedule that shows every unclean id --------------------------------------------------

  /** The adapters one after the other. */
  function Sequential(streams: seq<Stream>, n: nat): seq<Event>
    requires n <= |streams|
  {
    Flat(StreamEvents(streams), n)
  }

  function StreamEvents(streams: seq<Stream>): (parts: seq<seq<Event>>)
    ensures |parts| == |streams|
    ensures forall i :: 0 <= i < |parts| ==> parts[i] == EventsOf(streams[i])
  {
    seq(|streams|, i requires 0 <= i < |streams| => EventsOf(streams[i]))
  }

  lemma {:induction false} ProjectFlat(parts: seq<seq<Event>>, projected: seq<seq<Event>>, n: nat, agent: string)
    requires n <= |parts| == |projected|
    requires forall i :: 0 <= i < |parts| ==> projected[i] == Project(parts[i], agent)
    ensures Project(Flat(parts, n), agent) == Flat(projected, n)
  {
    if n == 0 {
    } else {
      ProjectFlat(parts, projected, n - 1, agent);
      ProjectConcat(Flat(parts, n - 1), parts[n - 1], agent);
      assert Flat(parts, n) == Flat(parts, n - 1) + parts[n - 1];
      assert Flat(projected, n) == Flat(projected, n - 1) + projected[n - 1];
    }
  }

  lemma {:induction false} ProjectConcat(a: seq<Event>, b: seq<Event>, agent: string)
    ensures Project(a + b, agent) == Project(a, agent) + Project(b, agent)
  {
    if b == [] {
      assert a + b == a;
    } else {
      var init, e := b[..|b| - 1], b[|b| - 1];
      assert a + b == (a + init) + [e];
      ProjectSnoc(a + init, e, agent);
      ProjectConcat(a, init, agent);
    }
  }

  lemma {:induction false} ProjectUniform(events: seq<Event>, agent: string, of: string)
    requires forall i :: 0 <= i < |events| ==> AgentOf(events[i]) == of
    ensures Project(events, agent) == if agent == of then events else []
  {
    if events != [] {
      assert AgentOf(events[|events| - 1]) == of;
      ProjectUniform(events[..|events| - 1], agent, of);
    }
  }

  lemma {:induction false} EmitsAt(sessions: seq<Session>, i: nat)
    requires i < |sessions|
    ensures |Emits(sessions)| == |sessions| && Emits(sessions)[i] == Emitted(sessions[i])
    decreases |sessions|
  {
    if i < |sessions| - 1 {
      EmitsAt(sessions[..|sessions| - 1], i);
    } else if |sessions| > 1 {
      EmitsAt(sessions[..|sessions| - 1], 0);
    }
  }

  lemma EventsOfAgent(st: Stream)
    requires Owned(st)
    ensures |EventsOf(st)| == |st.sessions| + 1
    ensures forall i :: 0 <= i < |EventsOf(st)| ==> AgentOf(EventsOf(st)[i]) == st.agent
  {
    if st.sessions != [] {
      EmitsAt(st.sessions, 0);
    }
    forall i | 0 <= i < |EventsOf(st)| ensures AgentOf(EventsOf(st)[i]) == st.agent {
      if i < |st.sessions| {
        EmitsAt(st.sessions, i);
      }
    }
  }

  /** What each stream contributes to the events of one agent. */
  function PartsOf(streams: seq<Stream>, agent: string): (parts: seq<seq<Event>>)
    ensures |parts| == |streams|
    ensures forall i :: 0 <= i < |parts| ==> parts[i] == PartOf(streams[i], agent)
  {
    seq(|streams|, i requires 0 <= i < |streams| => PartOf(streams[i], agent))
  }

  function PartOf(st: Stream, agent: string): seq<Event> {
    if st.agent == agent then EventsOf(st) else []
  }

  lemma SequentialParts(streams: seq<Stream>, agent: string)
    requires ValidStreams(streams)
    ensures Project(Sequential(streams, |streams|), agent) == Flat(PartsOf(streams, agent), |streams|)
  {
    forall i | 0 <= i < |streams|
      ensures PartsOf(streams, agent)[i] == Project(StreamEvents(streams)[i], agent)
    {
      assert Owned(streams[i]);
      EventsOfProjects(streams[i], agent);
    }
    ProjectFlat(StreamEvents(streams), PartsOf(streams, agent), |streams|, agent);
  }

  lemma EventsOfProjects(st: Stream, agent: string)
    requires Owned(st)
    ensures Project(EventsOf(st), agent) == if agent == st.agent then EventsOf(st) else []
  {
    EventsOfAgent(st);
    ProjectUniform(EventsOf(st), agent, st.agent);
  }

  lemma {:induction false} SequentialSent(streams: seq<Stream>, n: nat, i: nat)
    requires ValidStreams(streams) && n <= |streams| && i < |Sequential(streams, n)|
    ensures SentBy(Sequential(streams, n)[i], streams)
  {
    var before := Sequential(streams, n - 1);
    if i < |before| {
      SequentialSent(streams, n - 1, i);
    } else {
      assert Owned(streams[n - 1]);
      EventsOfAgent(streams[n - 1]);
      assert AgentOf(EventsOf(streams[n - 1])[i - |before|]) == streams[n - 1].agent;
    }
  }

  lemma SequentialInterleaves(streams: seq<Stream>)
    requires ValidStreams(streams)
    ensures Interleaves(Sequential(streams, |streams|), streams)
  {
    var events := Sequential(streams, |streams|);
    forall i | 0 <= i < |events| ensures SentBy(events[i], streams) {
      SequentialSent(streams, |streams|, i);
    }
    forall j | 0 <= j < |streams| ensures Project(events, streams[j].agent) == EventsOf(streams[j]) {
      SequentialParts(streams, streams[j].agent);
      FlatOfOne(PartsOf(streams, streams[j].agent), |streams|, j);
    }
  }

  lemma RunSnoc(docs: seq<Session>, events: seq<Event>, e: Event, size: nat)
    ensures Run(docs, events + [e], size) == Handle(Run(docs, events, size), e, size)
  {
    assert (events + [e])[..|events|] == events;
  }

  lemma FinishEmptiesBatch(c: Consumer, agent: string, ids: seq<string>, size: nat)
    ensures Handle(c, Finished(agent, ids), size).batch == []
  {
  }

  lemma SequentialEmptiesBatch(docs: seq<Session>, streams: seq<Stream>, n: nat, size: nat)
    requires n <= |streams|
    ensures Run(docs, Sequential(streams, n), size).batch == []
  {
    if n > 0 {
      var st := streams[n - 1];
      var before := Sequential(streams, n - 1) + Emits(st.sessions);
      assert Sequential(streams, n) == before + [Finished(st.agent, st.deletedIds)];
      RunSnoc(docs, before, Finished(st.agent, st.deletedIds), size);
      FinishEmptiesBatch(Run(docs, before, size), st.agent, st.deletedIds, size);
    }
  }

  lemma EmitsSnoc(events: seq<Event>, init: seq<Session>, s: Session)
    ensures events + Emits(init + [s]) == events + Emits(init) + [Emitted(s)]
  {
  }

  lemma BatchGrows(c: Consumer, s: Session, size: nat)
    requires |c.batch| + 1 < size
    ensures Handle(c, Emitted(s), size).batch == c.batch + [s]
  {
  }

  /** With a large enough batch size all sessions of a stream wait in one batch. */
  lemma {:induction false} BatchCollects(docs: seq<Session>, events: seq<Event>, sessions: seq<Session>, size: nat)
    requires Run(docs, events, size).batch == [] && |sessions| < size
    ensures Run(docs, events + Emits(sessions), size).batch == sessions
  {
    if sessions == [] {
      AppendEmpty(events);
    } else {
      var init, s := sessions[..|sessions| - 1], sessions[|sessions| - 1];
      var before := events + Emits(init);
      assert sessions == init + [s];
      BatchCollects(docs, events, init, size);
      EmitsSnoc(events, init, s);
      RunSnoc(docs, before, Emitted(s), size);
      BatchGrows(Run(docs, before, size), s, size);
    }
  }

  lemma SequentialPlain(streams: seq<Stream>, n: nat)
    requires ValidStreams(streams) && n <= |streams|
    ensures PlainEvents(Sequential(streams, n))
  {
    forall i | 0 <= i < |Sequential(streams, n)| ensures PlainEvent(Sequential(streams, n)[i]) {
      SequentialSent(streams, n, i);
    }
  }

  /** After its own stream, all sessions of an undeleted id are documents. */
  lemma OwnStreamLeavesAll(docs: seq<Session>, streams: seq<Stream>, j: nat, k: SessionId, size: nat)
    requires PlainDocs(docs) && ValidStreams(streams) && j < |streams|
    requires k.agent == streams[j].agent && k.id !in streams[j].deletedIds
    requires |streams[j].sessions| < size && WithId(streams[j].sessions, k) != []
    ensures Pending(Run(docs, Sequential(streams, j + 1), size), k) == WithId(streams[j].sessions, k)
  {
    var st := streams[j];
    var before := Sequential(streams, j) + Emits(st.sessions);
    var last := Finished(st.agent, st.deletedIds);
    assert Sequential(streams, j + 1) == before + [last];
    SequentialPlain(streams, j + 1);
    assert PlainEvents(before) by {
      forall i | 0 <= i < |before| ensures PlainEvent(before[i]) {
        assert before[i] == Sequential(streams, j + 1)[i];
      }
    }
    SequentialEmptiesBatch(docs, streams, j, size);
    BatchCollects(docs, Sequential(streams, j), st.sessions, size);
    RunPlain(docs, before, size);
    RunSnoc(docs, before, last, size);
    StepPending(Run(docs, before, size), last, size, k);
  }

  /** Events of other agents leave an id alone. */
  lemma {:induction false} OthersLeaveAlone(
      docs: seq<Session>, events: seq<Event>, more: seq<Event>, size: nat, k: SessionId)
    requires PlainDocs(docs) && PlainEvents(events + more)
    requires forall i :: 0 <= i < |more| ==> AgentOf(more[i]) != k.agent
    ensures Pending(Run(docs, events + more, size), k) == Pending(Run(docs, events, size), k)
  {
    if more == [] {
      assert events + more == events;
    } else {
      var init, e := more[..|more| - 1], more[|more| - 1];
      assert events + more == (events + init) + [e];
      assert PlainEvents(events + init) by {
        forall i | 0 <= i < |events + init| ensures PlainEvent((events + init)[i]) {
          assert (events + init)[i] == (events + more)[i];
        }
      }
      assert PlainEvent(e) by {
        assert (events + more)[|events + more| - 1] == e;
      }
      assert AgentOf(more[|more| - 1]) != k.agent;
      OthersLeaveAlone(docs, events, init, size, k);
      RunPlain(docs, events + init, size);
      RunSnoc(docs, events + init, e, size);
      StepPending(Run(docs, events + init, size), e, size, k);
    }
  }

  /** The events of the streams from `j` on. */
  lemma {:induction false} SequentialSplit(streams: seq<Stream>, j: nat, n: nat, agent: string)
    returns (rest: seq<Event>)
    requires ValidStreams(streams) && j <= n <= |streams|
    requires forall i :: j <= i < n ==> streams[i].agent != agent
    ensures Sequential(streams, n) == Sequential(streams, j) + rest
    ensures forall i :: 0 <= i < |rest| ==> AgentOf(rest[i]) != agent
  {
    if n == j {
      rest := [];
    } else {
      var st := streams[n - 1];
      var init := SequentialSplit(streams, j, n - 1, agent);
      assert Owned(st);
      EventsOfAgent(st);
      rest := init + EventsOf(st);
      assert (Sequential(streams, j) + init) + EventsOf(st) == Sequential(streams, j) + rest;
    }
  }

  lemma LaterStreamsLeaveAlone(docs: seq<Session>, streams: seq<Stream>, j: nat, k: SessionId, size: nat)
    requires PlainDocs(docs) && ValidStreams(streams) && j < |streams|
    requires k.agent == streams[j].agent
    ensures Pending(Run(docs, Sequential(streams, |streams|), size), k)
         == Pending(Run(docs, Sequential(streams, j + 1), size), k)
  {
    var rest := SequentialSplit(streams, j + 1, |streams|, k.agent);
    SequentialPlain(streams, |streams|);
    OthersLeaveAlone(docs, Sequential(streams, j + 1), rest, size, k);
  }

  /** An unclean id does not land as expected under the sequential schedule with one large batch. */
  lemma UncleanIdFails(docs: seq<Session>, streams: seq<Stream>, j: nat, k: SessionId)
    requires PlainDocs(docs) && ValidStreams(streams) && j < |streams| && k.agent == streams[j].agent
    requires !CleanId(streams[j], k)
    ensures !Lands(docs, streams, Sequential(streams, |streams|), |streams[j].sessions| + 1, k)
  {
    var events, size := Sequential(streams, |streams|), |streams[j].sessions| + 1;
    SequentialPlain(streams, |streams|);
    OwnStreamLeavesAll(docs, streams, j, k, size);
    LaterStreamsLeaveAlone(docs, streams, j, k, size);
    RefreshedPending(docs, events, size, k);
    assert FindStream(streams, k.agent) == j;
  }

  // ---- Main result --------------------------------------------------------------------------------

  /**
   * Main result. For any initial index and any adapter streams: under every
   * interleaving and every batch size the final index holds the initial documents
   * overridden by the emitted sessions minus the deleted ones, if and only if no
   * adapter emits an id twice without deleting it.
   */
  lemma RefreshLandsIff(docs: seq<Session>, streams: seq<Stream>)
    requires PlainDocs(docs) && ValidStreams(streams)
    ensures AlwaysLands(docs, streams) <==> CleanStreams(streams)
  {
    if CleanStreams(streams) {
      forall events: seq<Event>, batchSize: nat, k: SessionId | Interleaves(events, streams)
        ensures Lands(docs, streams, events, batchSize, k)
      {
        CleanIdLands(docs, streams, events, batchSize, k);
      }
    }
    if !CleanStreams(streams) {
      var j, k: SessionId :| 0 <= j < |streams| && k.agent == streams[j].agent && !CleanId(streams[j], k);
      SequentialInterleaves(streams);
      UncleanIdFails(docs, streams, j, k);
    }
  }

  /** Clean streams that delete nothing they emit repeat no emission in any interleaving. */
  lemma InterleavingEmitsOnce(events: seq<Event>, streams: seq<Stream>)
    requires ValidStreams(streams) && Interleaves(events, streams)
    requires forall j, k: SessionId ::
               0 <= j < |streams| && k.agent == streams[j].agent ==> |WithId(streams[j].sessions, k)| <= 1
    ensures EmitsOnce(events)
  {
    forall k ensures |Emissions(events, k)| <= 1 {
      var j := FindStream(streams, k.agent);
      ProjectKeeps(events, k, []);
      if j < |streams| {
        EventsOfContents(streams[j], k, []);
      } else {
        forall i | 0 <= i < |events| ensures AgentOf(events[i]) != k.agent {
          assert SentBy(events[i], streams);
        }
        NoEventsOfAgent(events, k, []);
      }
    }
  }
}
