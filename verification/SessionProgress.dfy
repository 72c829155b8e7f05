/** The progress callbacks of a refresh: when each comes and what it is told. */
module SessionProgress {
  import opened Sessions
  import opened SessionRefresh
  import opened SessionRefreshProofs

  // ---- When a callback comes ----------------------------------------------------------------

  /** Sessions emitted since some adapter last finished. */
  function SinceFinish(events: seq<Event>): nat {
    if events == [] then 0 else
      match events[|events| - 1]
      case Emitted(_) => SinceFinish(events[..|events| - 1]) + 1
      case Finished(_, _) => 0
  }

  /**
   * The lengths of the event prefixes that callbacks follow: every `size` sessions, when an adapter
   * finishes while sessions wait, and when it reports deleted ids.
   */
  function Stops(events: seq<Event>, size: nat): seq<nat>
    requires size >= 1
  {
    if events == [] then [] else
      var init, n := events[..|events| - 1], |events|;
      Stops(init, size) +
      match events[n - 1]
      case Emitted(_) => if SinceFinish(events) % size == 0 then [n] else []
      case Finished(_, ids) =>
        (if SinceFinish(init) % size != 0 then [n - 1] else []) + (if ids != [] then [n] else [])
  }

  /** With the flush at the end, when sessions still wait. */
  function AllStops(events: seq<Event>, size: nat): seq<nat>
    requires size >= 1
  {
    Stops(events, size) + if SinceFinish(events) % size != 0 then [|events|] else []
  }

  lemma ModNext(n: nat, size: nat)
    requires size >= 1
    ensures (n + 1) % size == if n % size + 1 == size then 0 else n % size + 1
  {
    var q, r := n / size, n % size;
    var d := (n + 1) / size - q;
    assert ((n + 1) / size) * size == q * size + d * size;
    assert (n + 1) % size == r + 1 - d * size;
    TimesIsZeroOrOne(d, r + 1, size);
  }

  lemma TimesIsZeroOrOne(d: int, r: nat, size: nat)
    requires 0 < r <= size && 0 <= r - d * size < size
    ensures d * size == if r == size then size else 0
  {
    TimesBounds(d, size);
  }

  lemma TimesBounds(d: int, size: nat)
    ensures d >= 2 ==> d * size >= 2 * size
    ensures d < 0 ==> d * size + size <= 0
  {
  }

  /** How many sessions wait: the emitted ones since the last finish, but for full batches. */
  lemma {:induction false} WaitingCount(docs: seq<Session>, events: seq<Event>, size: nat)
    requires size >= 1
    ensures |Run(docs, events, size).batch| == SinceFinish(events) % size
  {
    if events != [] {
      var init, e := events[..|events| - 1], events[|events| - 1];
      WaitingCount(docs, init, size);
      ModNext(SinceFinish(init), size);
      HandledWaiting(Run(docs, init, size), e, size);
    }
  }

  /** How many sessions wait after one more event. */
  lemma HandledWaiting(c: Consumer, e: Event, size: nat)
    requires |c.batch| < size
    ensures |Handle(c, e, size).batch| == if e.Finished? || |c.batch| + 1 == size then 0 else |c.batch| + 1
  {
    match e
    case Emitted(s) => FlushLog(c.(batch := c.batch + [s]));
    case Finished(agent, ids) =>
      FlushLog(c);
      DeleteLog(Flush(c), agent, ids);
  }

  // ---- What it is told ------------------------------------------------------------------------

  /**
   * The callback follows the first `n` events: the index is what the refresh would leave behind if
   * they were all, and the numbers are those of its ids, of the sessions emitted and of the ids deleted.
   */
  ghost predicate ToldAt(cb: Callback, docs: seq<Session>, events: seq<Event>, size: nat, n: nat) {
    && n <= |events|
    && cb.index == Refreshed(docs, events[..n], size).docs
    && cb.told == Summary(|KeySet(cb.index)|, EmittedCount(events[..n]), DeletedCount(events[..n]))
  }

  ghost predicate Tells(log: seq<Callback>, stops: seq<nat>, docs: seq<Session>, events: seq<Event>, size: nat) {
    |log| == |stops| && forall i :: 0 <= i < |log| ==> ToldAt(log[i], docs, events, size, stops[i])
  }

  lemma TellsSnoc(log: seq<Callback>, stops: seq<nat>, cb: Callback, n: nat,
                  docs: seq<Session>, events: seq<Event>, size: nat)
    requires Tells(log, stops, docs, events, size) && ToldAt(cb, docs, events, size, n)
    ensures Tells(log + [cb], stops + [n], docs, events, size)
  {
  }

  /** The callback a consumer makes about its present state. */
  function Present(c: Consumer): Callback {
    Callback(Summary(c.total, c.changed, c.deleted), c.docs)
  }

  lemma FlushLog(c: Consumer)
    ensures Flush(c).log == if c.batch == [] then c.log else c.log + [Present(Flush(c))]
    ensures Flush(c).batch == [] && Flush(c).changed == c.changed + |c.batch| && Flush(c).deleted == c.deleted
  {
  }

  lemma DeleteLog(c: Consumer, agent: string, ids: seq<string>)
    ensures Delete(c, agent, ids).log == if ids == [] then c.log else c.log + [Present(Delete(c, agent, ids))]
    ensures Delete(c, agent, ids).batch == c.batch
  {
  }

  /** A flush after the first `n` events tells what it should. */
  lemma FlushTells(docs: seq<Session>, events: seq<Event>, size: nat, n: nat)
    requires PlainDocs(docs) && PlainEvents(events) && n <= |events| && size >= 1
    ensures ToldAt(Present(Flush(Run(docs, events[..n], size))), docs, events, size, n)
  {
    var c := Run(docs, events[..n], size);
    PlainPrefixes(events, n);
    RunAgrees(docs, events[..n], size);
    FlushAgrees(c);
    FlushLog(c);
    RunSummary(docs, events[..n], size);
  }

  /** So does a callback with nothing waiting. */
  lemma PresentTells(docs: seq<Session>, events: seq<Event>, size: nat, n: nat)
    requires PlainDocs(docs) && PlainEvents(events) && n <= |events| && size >= 1
    requires Run(docs, events[..n], size).batch == []
    ensures ToldAt(Present(Run(docs, events[..n], size)), docs, events, size, n)
  {
    FlushTells(docs, events, size, n);
  }

  lemma EmittedTells(docs: seq<Session>, events: seq<Event>, size: nat, n: nat)
    requires PlainDocs(docs) && PlainEvents(events) && n < |events| && size >= 1 && events[n].Emitted?
    requires Tells(Run(docs, events[..n], size).log, Stops(events[..n], size), docs, events, size)
    ensures Tells(Run(docs, events[..n + 1], size).log, Stops(events[..n + 1], size), docs, events, size)
  {
    var longer := events[..n + 1];
    assert longer[..|longer| - 1] == events[..n] && longer[|longer| - 1] == events[n];
    var c, after := Run(docs, events[..n], size), Run(docs, longer, size);
    var grown := c.(batch := c.batch + [events[n].session]);
    WaitingCount(docs, longer, size);
    FlushLog(grown);
    assert after == if |grown.batch| >= size then Flush(grown) else grown;
    assert Stops(longer, size)
        == Stops(events[..n], size) + if SinceFinish(longer) % size == 0 then [n + 1] else [];
    if after.batch == [] {
      PresentTells(docs, events, size, n + 1);
      TellsSnoc(c.log, Stops(events[..n], size), Present(after), n + 1, docs, events, size);
    }
  }

  /** The flush of what waits when an adapter finishes. */
  lemma FinishFlushTells(docs: seq<Session>, events: seq<Event>, size: nat, n: nat)
    requires PlainDocs(docs) && PlainEvents(events) && n < |events| && size >= 1
    requires Tells(Run(docs, events[..n], size).log, Stops(events[..n], size), docs, events, size)
    ensures Tells(Flush(Run(docs, events[..n], size)).log, AllStops(events[..n], size), docs, events, size)
  {
    var c := Run(docs, events[..n], size);
    WaitingCount(docs, events[..n], size);
    FlushLog(c);
    if c.batch != [] {
      FlushTells(docs, events, size, n);
      TellsSnoc(c.log, Stops(events[..n], size), Present(Flush(c)), n, docs, events, size);
    }
  }

  lemma StopsAtFinish(events: seq<Event>, size: nat)
    requires events != [] && size >= 1 && events[|events| - 1].Finished?
    ensures Stops(events, size)
         == AllStops(events[..|events| - 1], size)
            + if events[|events| - 1].deletedIds != [] then [|events|] else []
  {
  }

  lemma FinishedTells(docs: seq<Session>, events: seq<Event>, size: nat, n: nat)
    requires PlainDocs(docs) && PlainEvents(events) && n < |events| && size >= 1 && events[n].Finished?
    requires Tells(Run(docs, events[..n], size).log, Stops(events[..n], size), docs, events, size)
    ensures Tells(Run(docs, events[..n + 1], size).log, Stops(events[..n + 1], size), docs, events, size)
  {
    var longer, ids := events[..n + 1], events[n].deletedIds;
    assert longer[..|longer| - 1] == events[..n] && longer[|longer| - 1] == events[n];
    var flushed, after := Flush(Run(docs, events[..n], size)), Run(docs, longer, size);
    FinishFlushTells(docs, events, size, n);
    FlushLog(Run(docs, events[..n], size));
    DeleteLog(flushed, events[n].agent, ids);
    StopsAtFinish(longer, size);
    assert after == Delete(flushed, events[n].agent, ids);
    if ids != [] {
      PresentTells(docs, events, size, n + 1);
      TellsSnoc(flushed.log, AllStops(events[..n], size), Present(after), n + 1, docs, events, size);
    }
  }

  lemma {:induction false} RunTells(docs: seq<Session>, events: seq<Event>, size: nat, n: nat)
    requires PlainDocs(docs) && PlainEvents(events) && n <= |events| && size >= 1
    ensures Tells(Run(docs, events[..n], size).log, Stops(events[..n], size), docs, events, size)
  {
    if n > 0 {
      RunTells(docs, events, size, n - 1);
      match events[n - 1]
      case Emitted(_) => EmittedTells(docs, events, size, n - 1);
      case Finished(_, _) => FinishedTells(docs, events, size, n - 1);
    }
  }

  /**
   * Main result on progress. For any index, events and batch size: the callbacks come after exactly
   * the event prefixes of `AllStops`, one for each, and each is told how many ids the index
   * then holds, how many sessions and how many deleted ids the prefix brought.
   */
  lemma CallbacksTell(docs: seq<Session>, events: seq<Event>, batchSize: nat)
    requires PlainDocs(docs) && PlainEvents(events)
    ensures var size := if batchSize < 1 then 1 else batchSize;
            Tells(Refreshed(docs, events, batchSize).log, AllStops(events, size), docs, events, size)
  {
    var size := if batchSize < 1 then 1 else batchSize;
    var c := Run(docs, events, size);
    assert events[..|events|] == events;
    RunTells(docs, events, size, |events|);
    WaitingCount(docs, events, size);
    FlushLog(c);
    if c.batch != [] {
      FlushTells(docs, events, size, |events|);
      TellsSnoc(c.log, Stops(events, size), Present(Flush(c)), |events|, docs, events, size);
    }
  }
}
