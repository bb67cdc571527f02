/**
 * The run-level rules of vs_gen.py's `main`: only events newer than the
 * saved timestamp are fed to the aggregator, the chunk count is carried
 * over from the previous run when this run saw no chunk report, the number
 * of added chunks is never negative, and `--char-limit` cuts the summary.
 * Reading log files, parsing lines and writing the state file are outside
 * the model: the events arrive already parsed, in file order.
 */
module VsMain {
  import opened Wrappers
  import opened VsAggregator

  /** The events `main` passes to `process_event`: those strictly newer than `since`, in order. */
  function NewEvents(events: seq<LogEvent>, since: int): seq<LogEvent>
  {
    if events == [] then []
    else
      var e := events[|events| - 1];
      NewEvents(events[..|events| - 1], since) + (if e.timestamp > since then [e] else [])
  }

  /** `max_timestamp_in_run`: the saved timestamp, raised to the newest event seen. */
  function LatestTime(events: seq<LogEvent>, since: int): int
  {
    if events == [] then since
    else
      var t := LatestTime(events[..|events| - 1], since);
      if events[|events| - 1].timestamp > t then events[|events| - 1].timestamp else t
  }

  /**
   * The event loop of `main`: an event at or before `since` is skipped;
   * every other one raises the latest time seen and goes to `process_event`.
   */
  method ProcessNewEvents(agg: EventAggregator, events: seq<LogEvent>, since: int) returns (latest: int)
    requires agg.Valid()
    modifies agg
    ensures agg.Valid()
    ensures agg.State() == ProcessAll(agg.config, old(agg.State()), NewEvents(events, since))
    ensures latest == LatestTime(events, since)
  {
    latest := since;
    ghost var start := agg.State();
    var i := 0;
    while i < |events|
      invariant i <= |events| && agg.Valid()
      invariant agg.State() == ProcessAll(agg.config, start, NewEvents(events[..i], since))
      invariant latest == LatestTime(events[..i], since)
    {
      var e := events[i];
      ghost var kept := NewEvents(events[..i], since);
      assert events[..i + 1][..i] == events[..i];
      if e.timestamp > since {
        if e.timestamp > latest {
          latest := e.timestamp;
        }
        agg.ProcessEvent(e);
        assert NewEvents(events[..i + 1], since) == kept + [e];
        assert (kept + [e])[..|kept|] == kept;
      } else {
        assert NewEvents(events[..i + 1], since) == kept + [];
        assert kept + [] == kept;
        LatestTimeBounds(events[..i], since);
      }
      i := i + 1;
    }
    assert events[..i] == events;
  }

  /** Exactly the events newer than `since` are kept, and nothing else. */
  lemma {:induction false} NewEventsMembers(events: seq<LogEvent>, since: int)
    ensures forall e :: e in NewEvents(events, since) <==> e in events && e.timestamp > since
  {
    if events != [] {
      var init := events[..|events| - 1];
      NewEventsMembers(init, since);
      assert events == init + [events[|events| - 1]];
    }
  }

  /**
   * `max_timestamp_in_run` is never below the saved timestamp, no event is
   * newer, and it is the saved timestamp or the time of some event.
   */
  lemma {:induction false} LatestTimeBounds(events: seq<LogEvent>, since: int)
    ensures var t := LatestTime(events, since);
      t >= since
      && (forall i :: 0 <= i < |events| ==> events[i].timestamp <= t)
      && (t == since || exists i :: 0 <= i < |events| && events[i].timestamp == t)
  {
    if events != [] {
      var init := events[..|events| - 1];
      LatestTimeBounds(init, since);
      var t := LatestTime(init, since);
      assert forall i :: 0 <= i < |init| ==> events[i] == init[i];
      if t != since && LatestTime(events, since) == t {
        var i :| 0 <= i < |init| && init[i].timestamp == t;
        assert events[i].timestamp == t;
      }
    }
  }

  /**
   * Saving `max_timestamp_in_run` makes the next run over the same logs
   * process nothing again.
   */
  lemma {:induction false} NoEventTwice(events: seq<LogEvent>, since: int)
    ensures NewEvents(events, LatestTime(events, since)) == []
  {
    LatestTimeBounds(events, since);
    NothingNewer(events, LatestTime(events, since));
  }

  lemma {:induction false} NothingNewer(events: seq<LogEvent>, since: int)
    requires forall i :: 0 <= i < |events| ==> events[i].timestamp <= since
    ensures NewEvents(events, since) == []
  {
    if events != [] {
      NothingNewer(events[..|events| - 1], since);
    }
  }

  /** `aggregator.chunk_count` after the carry-over. */
  function CarriedCount(c: Chunks, lastChunkCount: int): int
  {
    if c.last.None? then lastChunkCount else c.count
  }

  /** `added_chunks`: never negative, and the increase of the count whenever it grew. */
  function AddedChunks(count: int, lastChunkCount: int): (added: nat)
    ensures added > 0 <==> count > lastChunkCount
    ensures added > 0 ==> lastChunkCount + added == count
  {
    if count - lastChunkCount < 0 then 0 else count - lastChunkCount
  }

  /**
   * Without a chunk time recorded in this run the previous count is kept;
   * then the number of added chunks is worked out and clamped.
   */
  method CarryOverChunks(agg: EventAggregator, lastChunkCount: int) returns (added: int)
    modifies agg`chunkCount
    ensures agg.chunkCount == CarriedCount(old(agg.State()).chunks, lastChunkCount)
    ensures added == AddedChunks(agg.chunkCount, lastChunkCount)
  {
    if agg.lastMapChunkTimestamp.None? {
      agg.chunkCount := lastChunkCount;
    }
    added := agg.chunkCount - lastChunkCount;
    if added < 0 {
      added := 0;
    }
  }

  /**
   * A run of a fresh aggregator followed by the carry-over: with no event
   * reporting a chunk count, the previous count stays and nothing was added;
   * otherwise the count is the one reported by the event whose time was
   * recorded, no reporting event is newer, and the added chunks are its
   * excess over the previous count.
   */
  lemma {:induction false} RunChunkCount(cfg: Config, s: Tally, events: seq<LogEvent>, lastChunkCount: int)
    requires s.chunks == Chunks(0, None)
    ensures var t := ProcessAll(cfg, s, events).chunks;
      var count := CarriedCount(t, lastChunkCount);
      ((forall i :: 0 <= i < |events| ==> ChunkReport(events[i]).None?) ==>
         count == lastChunkCount && AddedChunks(count, lastChunkCount) == 0)
      && (t.last.Some? ==>
            (exists i :: 0 <= i < |events| && Some(count) == ChunkReport(events[i])
               && t.last == Some(events[i].timestamp))
            && (forall i :: 0 <= i < |events| && ChunkReport(events[i]).Some? ==> events[i].timestamp <= t.last.value))
  {
    ChunkCountOfRun(cfg, s, events);
  }

  /** The `--char-limit` rule: a longer summary is cut to the limit, ending in `...` when the limit exceeds three. */
  function TruncateToLimit(summary: string, limit: int): string
  {
    if limit > 0 && |summary| > limit then
      (if limit > 3 then summary[..limit - 3] + "..." else summary[..limit])
    else summary
  }

  /**
   * A summary within the limit, or with no limit, is unchanged; a longer one
   * becomes exactly `limit` characters that keep its start, and ends with
   * `...` when the limit exceeds three.
   */
  lemma {:induction false} TruncateToLimitSpec(summary: string, limit: int)
    ensures var r := TruncateToLimit(summary, limit);
      (limit <= 0 || |summary| <= limit ==> r == summary)
      && (limit > 0 && |summary| > limit ==>
            |r| == limit
            && (limit > 3 ==> r[..limit - 3] == summary[..limit - 3] && r[limit - 3..] == "...")
            && (limit <= 3 ==> r == summary[..limit]))
  {
    var r := TruncateToLimit(summary, limit);
    if limit > 3 && |summary| > limit {
      assert r[..limit - 3] == summary[..limit - 3];
    }
  }
}
