/** The incremental refresh: many adapters feed one channel, one consumer batches into the index. */
module SessionRefresh {
  import opened Sessions

  /** What adapter threads send. */
  datatype Event =
    | Emitted(session: Session)
    | Finished(agent: string, deletedIds: seq<string>)

  datatype Summary = Summary(sessions: nat, newOrModified: nat, deleted: nat)

  /** A progress callback: what it is told, and what the index holds at that moment. */
  datatype Callback = Callback(told: Summary, index: seq<Session>)

  /** The consumer's variables, with the index contents. */
  datatype Consumer = Consumer(
    docs: seq<Session>,
    batch: seq<Session>,
    known: set<SessionId>,
    total: nat,
    changed: nat,
    deleted: nat,
    log: seq<Callback>)

  function Start(docs: seq<Session>): Consumer {
    Consumer(docs, [], KeySet(docs), |KeySet(docs)|, 0, 0, [])
  }

  datatype Tally = Tally(known: set<SessionId>, total: nat)

  /** The counting loop of a flush: each session that was not known adds one. */
  function CountInserted(before: Tally, batch: seq<Session>): Tally
    decreases |batch|
  {
    if batch == [] then before else
      var t := CountInserted(before, batch[..|batch| - 1]);
      var id := IdOf(batch[|batch| - 1]);
      Tally(t.known + {id}, if id in t.known then t.total else t.total + 1)
  }

  /** The counting loop of a deletion; the subtraction saturates at zero. */
  function CountRemoved(before: Tally, agent: string, ids: seq<string>): Tally
    decreases |ids|
  {
    if ids == [] then before else
      var t := CountRemoved(before, agent, ids[..|ids| - 1]);
      var id := SessionId(agent, ids[|ids| - 1]);
      Tally(t.known - {id}, if id in t.known && t.total > 0 then t.total - 1 else t.total)
  }

  function Report(c: Consumer): Consumer {
    c.(log := c.log + [Callback(Summary(c.total, c.changed, c.deleted), c.docs)])
  }

  /** `flush_refresh_batch`. */
  function Flush(c: Consumer): Consumer {
    if c.batch == [] then c else
      var t := CountInserted(Tally(c.known, c.total), c.batch);
      Report(c.(docs := UpdateDocs(c.docs, c.batch), batch := [], known := t.known, total := t.total,
                changed := c.changed + |c.batch|))
  }

  function Delete(c: Consumer, agent: string, ids: seq<string>): Consumer {
    if ids == [] then c else
      var t := CountRemoved(Tally(c.known, c.total), agent, ids);
      Report(c.(docs := DeleteIds(c.docs, agent, ids), known := t.known, total := t.total,
                deleted := c.deleted + |ids|))
  }

  /** One turn of the event loop. */
  function Handle(c: Consumer, e: Event, batchSize: nat): Consumer {
    match e
    case Emitted(s) =>
      var grown := c.(batch := c.batch + [s]);
      if |grown.batch| >= batchSize then Flush(grown) else grown
    case Finished(agent, ids) => Delete(Flush(c), agent, ids)
  }

  function Run(docs: seq<Session>, events: seq<Event>, batchSize: nat): Consumer {
    if events == [] then Start(docs)
    else Handle(Run(docs, events[..|events| - 1], batchSize), events[|events| - 1], batchSize)
  }

  /** The whole refresh: the loop, then a last flush. A batch size of 0 counts as 1. */
  function Refreshed(docs: seq<Session>, events: seq<Event>, batchSize: nat): Consumer {
    Flush(Run(docs, events, if batchSize < 1 then 1 else batchSize))
  }

  /** The consumer side of `refresh_incremental_streaming`, with its variables as fields. */
  class Refresher {
    const index: SessionIndex
    var batch: seq<Session>
    var known: set<SessionId>
    var total: nat
    var changed: nat
    var deleted: nat
    var log: seq<Callback>

    ghost function State(): Consumer
      reads this, index
    {
      Consumer(index.docs, batch, known, total, changed, deleted, log)
    }

    constructor (index: SessionIndex)
      ensures this.index == index && State() == Start(index.docs)
    {
      this.index := index;
      batch, changed, deleted, log := [], 0, 0, [];
      known, total := {}, 0;
      new;
      var sessions := index.KnownSessions();
      known := sessions.Keys;
      total := |known|;
    }

    method OnProgress()
      modifies this`log
      ensures State() == Report(old(State()))
    {
      log := log + [Callback(Summary(total, changed, deleted), index.docs)];
    }

    method FlushRefreshBatch()
      modifies this, index
      ensures State() == Flush(old(State()))
    {
      if batch == [] {
        return;
      }
      index.UpdateSessions(batch);
      changed := changed + |batch|;
      for i := 0 to |batch|
        invariant batch == old(batch) && changed == old(changed) + |batch|
        invariant deleted == old(deleted) && log == old(log)
        invariant index.docs == UpdateDocs(old(index.docs), batch)
        invariant Tally(known, total) == CountInserted(old(Tally(known, total)), batch[..i])
      {
        assert batch[..i + 1][..i] == batch[..i];
        var id := IdOf(batch[i]);
        if id !in known {
          total := total + 1;
        }
        known := known + {id};
      }
      assert batch[..|batch|] == batch;
      batch := [];
      OnProgress();
    }

    method DeleteSessions(agent: string, ids: seq<string>)
      modifies this, index
      ensures State() == Delete(old(State()), agent, ids)
    {
      if ids == [] {
        return;
      }
      index.DeleteSessions(agent, ids);
      deleted := deleted + |ids|;
      for i := 0 to |ids|
        invariant batch == old(batch) && changed == old(changed) && log == old(log)
        invariant deleted == old(deleted) + |ids|
        invariant index.docs == DeleteIds(old(index.docs), agent, ids)
        invariant Tally(known, total) == CountRemoved(old(Tally(known, total)), agent, ids[..i])
      {
        assert ids[..i + 1][..i] == ids[..i];
        var id := SessionId(agent, ids[i]);
        if id in known {
          known := known - {id};
          total := if total > 0 then total - 1 else 0;
        }
      }
      assert ids[..|ids|] == ids;
      OnProgress();
    }

    method HandleEvent(e: Event, batchSize: nat)
      modifies this, index
      ensures State() == Handle(old(State()), e, batchSize)
    {
      match e {
        case Emitted(s) =>
          batch := batch + [s];
          if |batch| >= batchSize {
            FlushRefreshBatch();
          }
        case Finished(agent, ids) =>
          FlushRefreshBatch();
          DeleteSessions(agent, ids);
      }
    }
  }

  /** `refresh_incremental_streaming`, given the order in which events leave the channel. */
  method RefreshIncrementalStreaming(index: SessionIndex, events: seq<Event>, batchSize: nat)
    returns (summary: Summary, log: seq<Callback>)
    modifies index
    ensures var end := Refreshed(old(index.docs), events, batchSize);
            && index.docs == end.docs
            && log == end.log
            && summary == Summary(|index.docs|, end.changed, end.deleted)
  {
    var refresher := new Refresher(index);
    var size := if batchSize < 1 then 1 else batchSize;
    for i := 0 to |events|
      invariant refresher.index == index && fresh(refresher)
      invariant refresher.State() == Run(old(index.docs), events[..i], size)
    {
      assert events[..i + 1][..i] == events[..i];
      refresher.HandleEvent(events[i], size);
    }
    assert events[..|events|] == events;
    refresher.FlushRefreshBatch();
    summary := Summary(index.TotalLen(), refresher.changed, refresher.deleted);
    log := refresher.log;
  }
}
