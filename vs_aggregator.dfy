/**
 * `EventAggregator` of vs_gen.py: it folds parsed log events into per-player
 * records, the list of storm notifications and the latest offthread map
 * chunk count. Timestamps are integers (seconds); only their order matters.
 */
module VsAggregator {
  import opened Wrappers
  import opened PyText
  import opened VsText
  import opened VsPatterns

  /** One parsed log line. */
  datatype LogEvent = LogEvent(timestamp: int, eventType: string, message: string)

  /** What is recorded for one player. */
  datatype PlayerData = PlayerData(deathDetails: seq<string>, kills: seq<string>, largeMetals: set<string>)

  /** The constructor arguments; the message map keeps the order of the dict it models. */
  datatype Config = Config(messageMap: seq<(string, string)>, enemyMap: map<string, string>, metals: seq<string>, threshold: int)

  /** `chunk_count` and `last_map_chunk_timestamp`. */
  datatype Chunks = Chunks(count: int, last: Option<int>)

  /** Everything the aggregator updates, as one value. */
  datatype Tally = Tally(players: map<string, PlayerData>, stormEvents: seq<LogEvent>, chunks: Chunks)

  const NO_DATA: PlayerData := PlayerData([], [], {})

  /** `self.players[key]` of the defaultdict, before anything is added to it. */
  function Entry(players: map<string, PlayerData>, key: string): PlayerData
  {
    if key in players then players[key] else NO_DATA
  }

  // ----- _process_audit_event -----

  /** "moved", "took" or "put" occurs in the lower-cased message. */
  predicate MentionsMove(lower: string)
  {
    Contains(lower, "moved") || Contains(lower, "took") || Contains(lower, "put")
  }

  /** Some configured metal occurs in the lower-cased message. */
  predicate MentionsMetal(lower: string, metals: seq<string>)
  {
    exists m :: m in metals && Contains(lower, m)
  }

  /** The cleaned cause appended to the death details, when the line reports a death. */
  function DeathEntry(cfg: Config, message: string, player: string): Option<string>
  {
    var lower := Lower(message);
    if Contains(lower, "died") || Contains(lower, "death message") then
      Some(CleanDeathMessage(DeathCauseText(message), player, cfg.messageMap))
    else None
  }

  /** The mapped enemy appended to the kills, when the line reports a kill. */
  function KillEntry(cfg: Config, message: string): Option<string>
  {
    if Contains(Lower(message), "killed") && KillTarget(message).Some? then
      var enemy := KillTarget(message).value;
      Some(MapAll(if enemy in cfg.enemyMap then cfg.enemyMap[enemy] else enemy, cfg.messageMap))
    else None
  }

  /**
   * The metals among the first `i` configured ones that the metal loop adds:
   * those named in the lower-cased message, when the message carries a large
   * quantity.
   */
  function FoundMetals(cfg: Config, message: string, i: nat): set<string>
    requires i <= |cfg.metals|
  {
    if i == 0 then {}
    else
      var m := cfg.metals[i - 1];
      FoundMetals(cfg, message, i - 1)
        + (if Contains(Lower(message), m) && HasLargeQuantity(message, cfg.threshold) then {m} else {})
  }

  /** A metal is found exactly when it is among the first `i`, named in the message, and the message carries a large quantity. */
  lemma {:induction false} FoundMetalsMembers(cfg: Config, message: string, i: nat)
    requires i <= |cfg.metals|
    ensures forall m :: m in FoundMetals(cfg, message, i) <==>
      (exists j :: 0 <= j < i && cfg.metals[j] == m) && Contains(Lower(message), m) && HasLargeQuantity(message, cfg.threshold)
  {
    if i > 0 {
      FoundMetalsMembers(cfg, message, i - 1);
    }
  }

  /** The metals added to `large_metals`: those named in a move line that carries a large quantity. */
  function LargeMetals(cfg: Config, message: string): set<string>
  {
    if MentionsMove(Lower(message)) then FoundMetals(cfg, message, |cfg.metals|) else {}
  }

  function AppendDeath(players: map<string, PlayerData>, key: string, d: Option<string>): map<string, PlayerData>
  {
    if d.None? then players
    else players[key := Entry(players, key).(deathDetails := Entry(players, key).deathDetails + [d.value])]
  }

  function AppendKill(players: map<string, PlayerData>, key: string, k: Option<string>): map<string, PlayerData>
  {
    if k.None? then players
    else players[key := Entry(players, key).(kills := Entry(players, key).kills + [k.value])]
  }

  function AddMetals(players: map<string, PlayerData>, key: string, ms: set<string>): map<string, PlayerData>
  {
    if ms == {} then players
    else players[key := Entry(players, key).(largeMetals := Entry(players, key).largeMetals + ms)]
  }

  /** The dictionary key of the player an audit line is about, unless the line is skipped. */
  function PlayerKey(message: string): Option<string>
  {
    match ExtractPlayerName(message)
    case None => None
    case Some(p) => if Lower(p) == "player" then None else Some(Lower(p))
  }

  /** The players after `_process_audit_event` handles `message`. */
  function AuditUpdate(cfg: Config, players: map<string, PlayerData>, message: string): map<string, PlayerData>
  {
    var pn := ExtractPlayerName(message);
    if pn.None? || Lower(pn.value) == "player" then players
    else
      var key := Lower(pn.value);
      var p1 := AppendDeath(players, key, DeathEntry(cfg, message, pn.value));
      var p2 := AppendKill(p1, key, KillEntry(cfg, message));
      AddMetals(p2, key, LargeMetals(cfg, message))
  }

  /** A record the aggregator can have produced: something was added, and every death cause is a real one. */
  ghost predicate GoodEntry(cfg: Config, d: PlayerData)
  {
    (d.deathDetails != [] || d.kills != [] || d.largeMetals != {})
    && (forall j :: 0 <= j < |d.deathDetails| ==> d.deathDetails[j] != [] && Lower(d.deathDetails[j]) != "died")
    && (forall m :: m in d.largeMetals ==> m in cfg.metals)
  }

  /** Keys are lower-case player names other than the word "player"; every record is good. */
  ghost predicate WellFormed(cfg: Config, players: map<string, PlayerData>)
  {
    forall k :: k in players ==> k == Lower(k) && k != "player" && GoodEntry(cfg, players[k])
  }

  lemma {:induction false} AppendDeathWellFormed(cfg: Config, players: map<string, PlayerData>, key: string, d: Option<string>)
    requires WellFormed(cfg, players) && key == Lower(key) && key != "player"
    requires d.Some? ==> d.value != [] && Lower(d.value) != "died"
    ensures WellFormed(cfg, AppendDeath(players, key, d))
  {
    if d.Some? {
      var was := Entry(players, key);
      var now := was.(deathDetails := was.deathDetails + [d.value]);
      assert forall j :: 0 <= j < |was.deathDetails| ==> now.deathDetails[j] == was.deathDetails[j];
      assert GoodEntry(cfg, now);
    }
  }

  lemma {:induction false} AppendKillWellFormed(cfg: Config, players: map<string, PlayerData>, key: string, k: Option<string>)
    requires WellFormed(cfg, players) && key == Lower(key) && key != "player"
    ensures WellFormed(cfg, AppendKill(players, key, k))
  {
    if k.Some? {
      var was := Entry(players, key);
      assert GoodEntry(cfg, was.(kills := was.kills + [k.value]));
    }
  }

  lemma {:induction false} AddMetalsWellFormed(cfg: Config, players: map<string, PlayerData>, key: string, ms: set<string>)
    requires WellFormed(cfg, players) && key == Lower(key) && key != "player"
    requires forall m :: m in ms ==> m in cfg.metals
    ensures WellFormed(cfg, AddMetals(players, key, ms))
  {
    if ms != {} {
      var was := Entry(players, key);
      assert GoodEntry(cfg, was.(largeMetals := was.largeMetals + ms));
    }
  }

  /** Handling an audit line keeps the player table well formed. */
  lemma {:induction false} AuditUpdateWellFormed(cfg: Config, players: map<string, PlayerData>, message: string)
    requires WellFormed(cfg, players)
    ensures WellFormed(cfg, AuditUpdate(cfg, players, message))
  {
    var pn := ExtractPlayerName(message);
    if pn.Some? && Lower(pn.value) != "player" {
      var key := Lower(pn.value);
      LowerIdempotent(pn.value);
      var d := DeathEntry(cfg, message, pn.value);
      AppendDeathWellFormed(cfg, players, key, d);
      var p1 := AppendDeath(players, key, d);
      AppendKillWellFormed(cfg, p1, key, KillEntry(cfg, message));
      var p2 := AppendKill(p1, key, KillEntry(cfg, message));
      FoundMetalsMembers(cfg, message, |cfg.metals|);
      AddMetalsWellFormed(cfg, p2, key, LargeMetals(cfg, message));
    }
  }

  /**
   * Only the line's own player changes, and only by appending: the old death
   * details and kills are prefixes of the new ones, and the metal set grows.
   * Nothing is ever removed from the table.
   */
  lemma {:induction false} AuditUpdateAppends(cfg: Config, players: map<string, PlayerData>, message: string)
    ensures var r := AuditUpdate(cfg, players, message);
      (forall k :: k in players ==> k in r)
      && (forall k :: k in r && Some(k) != PlayerKey(message) ==> k in players && r[k] == players[k])
      && (PlayerKey(message).Some? ==>
            var was := Entry(players, PlayerKey(message).value);
            var now := Entry(r, PlayerKey(message).value);
            was.deathDetails <= now.deathDetails && |now.deathDetails| <= |was.deathDetails| + 1
            && was.kills <= now.kills && |now.kills| <= |was.kills| + 1
            && was.largeMetals <= now.largeMetals)
  {
    var pn := ExtractPlayerName(message);
    if pn.Some? && Lower(pn.value) != "player" {
      var key := Lower(pn.value);
      var p1 := AppendDeath(players, key, DeathEntry(cfg, message, pn.value));
      var p2 := AppendKill(p1, key, KillEntry(cfg, message));
      var r := AddMetals(p2, key, LargeMetals(cfg, message));
      assert Entry(p1, key).kills == Entry(players, key).kills;
      assert Entry(p1, key).largeMetals == Entry(players, key).largeMetals;
      assert Entry(p2, key).deathDetails == Entry(p1, key).deathDetails;
      assert Entry(p2, key).largeMetals == Entry(p1, key).largeMetals;
      assert Entry(r, key).deathDetails == Entry(p2, key).deathDetails;
      assert Entry(r, key).kills == Entry(p2, key).kills;
    }
  }

  /** A line whose first token names nobody, or names the word "player", changes nothing. */
  lemma {:induction false} AuditUpdateSkips(cfg: Config, players: map<string, PlayerData>, message: string)
    requires PlayerKey(message).None?
    ensures AuditUpdate(cfg, players, message) == players
  {
  }

  // ----- process_event -----

  /** The audit lines `process_event` passes on to `_process_audit_event`. */
  predicate WantsAudit(cfg: Config, message: string)
  {
    var lower := Lower(message);
    IsInterestingAuditEvent(message) || (MentionsMetal(lower, cfg.metals) && MentionsMove(lower))
  }

  /** A storm notification kept in `storm_events`. */
  predicate IsStormNotice(e: LogEvent)
  {
    e.eventType == "Notification" && Contains(Lower(e.message), "temporal storm")
  }

  /** The chunk count an `Event` line reports, if it is an offthread map chunk save whose count `int()` accepts. */
  function ChunkReport(e: LogEvent): Option<nat>
  {
    if e.eventType == "Event" then OffthreadChunkCount(Lower(e.message)) else None
  }

  /** `t` is more recent than the last recorded chunk timestamp. */
  predicate Newer(t: int, last: Option<int>)
  {
    last.None? || t > last.value
  }

  /** What one event tells the chunk counter: its time and the count it reports, if any. */
  datatype Report = Report(time: int, count: Option<nat>)

  function ReportOf(e: LogEvent): Report
  {
    Report(e.timestamp, ChunkReport(e))
  }

  /** A report replaces the chunk count of a state whose last chunk time is `last`. */
  predicate Replaces(r: Report, last: Option<int>)
  {
    r.count.Some? && Newer(r.time, last)
  }

  /** The chunk fields after `process_event` of an event reporting `r`. */
  function ChunkStep(c: Chunks, r: Report): Chunks
  {
    if Replaces(r, c.last) then Chunks(r.count.value, Some(r.time)) else c
  }

  /** The aggregator state after `process_event(e)`. */
  function Step(cfg: Config, s: Tally, e: LogEvent): Tally
  {
    var players := if e.eventType == "Audit" && WantsAudit(cfg, e.message) then AuditUpdate(cfg, s.players, e.message) else s.players;
    var storms := if e.eventType != "Audit" && IsStormNotice(e) then s.stormEvents + [e] else s.stormEvents;
    Tally(players, storms, ChunkStep(s.chunks, ReportOf(e)))
  }

  /** The state after `process_event` is called on each event in turn. */
  function ProcessAll(cfg: Config, s: Tally, events: seq<LogEvent>): Tally
  {
    if events == [] then s
    else Step(cfg, ProcessAll(cfg, s, events[..|events| - 1]), events[|events| - 1])
  }

  function Reports(events: seq<LogEvent>): (rs: seq<Report>)
    ensures |rs| == |events| && forall i :: 0 <= i < |events| ==> rs[i] == ReportOf(events[i])
  {
    seq(|events|, i requires 0 <= i < |events| => ReportOf(events[i]))
  }

  /** The chunk fields after each report in turn. */
  function ChunkFold(c: Chunks, reports: seq<Report>): Chunks
  {
    if reports == [] then c
    else ChunkStep(ChunkFold(c, reports[..|reports| - 1]), reports[|reports| - 1])
  }

  /** The chunk fields of a run depend on nothing but the chunk fields and what the events report. */
  lemma {:induction false} ProcessAllChunks(cfg: Config, s: Tally, events: seq<LogEvent>)
    ensures ProcessAll(cfg, s, events).chunks == ChunkFold(s.chunks, Reports(events))
  {
    if events != [] {
      var n := |events| - 1;
      ProcessAllChunks(cfg, s, events[..n]);
      assert Reports(events)[..n] == Reports(events[..n]);
    }
  }

  /**
   * The chunk count and its time stay as they were unless some report
   * replaces them, and the time never moves backwards.
   */
  lemma {:induction false} ChunkKept(c: Chunks, reports: seq<Report>)
    ensures var t := ChunkFold(c, reports);
      ((forall i :: 0 <= i < |reports| ==> !Replaces(reports[i], c.last)) ==> t == c)
      && (t.last == c.last ==> t.count == c.count)
      && (c.last.Some? ==> t.last.Some? && c.last.value <= t.last.value)
  {
    if reports != [] {
      var n := |reports| - 1;
      var front := reports[..n];
      ChunkKept(c, front);
      if (forall i :: 0 <= i < |reports| ==> !Replaces(reports[i], c.last)) {
        assert forall i :: 0 <= i < n ==> front[i] == reports[i];
      }
    }
  }

  /**
   * Latest timestamp wins: a changed chunk time comes from a report that
   * replaced the starting one and carries the final count, and no report
   * with a count is newer than the final time.
   */
  lemma {:induction false} ChunkLatestWins(c: Chunks, reports: seq<Report>)
    ensures var t := ChunkFold(c, reports);
      (t.last != c.last ==>
         exists i :: 0 <= i < |reports| && Replaces(reports[i], c.last)
           && t.last == Some(reports[i].time) && Some(t.count) == reports[i].count)
      && (forall i :: 0 <= i < |reports| && reports[i].count.Some? ==> !Newer(reports[i].time, t.last))
  {
    if reports != [] {
      var n := |reports| - 1;
      var front := reports[..n];
      ChunkLatestWins(c, front);
      ChunkKept(c, front);
      var m := ChunkFold(c, front);
      var r := reports[n];
      var t := ChunkStep(m, r);
      assert forall i :: 0 <= i < n ==> reports[i] == front[i];
      if Replaces(r, m.last) {
        assert Replaces(reports[n], c.last);
      } else if t.last != c.last {
        var i :| 0 <= i < n && Replaces(front[i], c.last)
          && m.last == Some(front[i].time) && Some(m.count) == front[i].count;
        assert reports[i] == front[i];
      }
    }
  }

  /**
   * The chunk rule of `process_event` over a run of events: with no event
   * newer than the recorded time that reports a count, the count is kept;
   * otherwise the final count is the one reported by such an event, whose
   * time becomes the recorded time, and no reporting event is newer.
   */
  lemma {:induction false} ChunkCountOfRun(cfg: Config, s: Tally, events: seq<LogEvent>)
    ensures var t := ProcessAll(cfg, s, events).chunks;
      ((forall i :: 0 <= i < |events| ==> !Replaces(ReportOf(events[i]), s.chunks.last)) ==> t == s.chunks)
      && (t.last != s.chunks.last ==>
            exists i :: 0 <= i < |events| && Replaces(ReportOf(events[i]), s.chunks.last)
              && t.last == Some(events[i].timestamp) && Some(t.count) == ChunkReport(events[i]))
      && (forall i :: 0 <= i < |events| && ChunkReport(events[i]).Some? ==> !Newer(events[i].timestamp, t.last))
  {
    ProcessAllChunks(cfg, s, events);
    ChunkKept(s.chunks, Reports(events));
    ChunkLatestWins(s.chunks, Reports(events));
  }

  /** The events kept as storm notifications, in order. */
  function StormNotices(events: seq<LogEvent>): (r: seq<LogEvent>)
    ensures forall i :: 0 <= i < |r| ==> IsStormNotice(r[i])
  {
    if events == [] then []
    else
      var last := events[|events| - 1];
      StormNotices(events[..|events| - 1]) + (if last.eventType != "Audit" && IsStormNotice(last) then [last] else [])
  }

  /** Storm notifications are collected in arrival order; nothing else enters the list. */
  lemma {:induction false} StormEventsCollected(cfg: Config, s: Tally, events: seq<LogEvent>)
    ensures ProcessAll(cfg, s, events).stormEvents == s.stormEvents + StormNotices(events)
  {
    if events != [] {
      StormEventsCollected(cfg, s, events[..|events| - 1]);
    }
  }

  /** Lines other than audit lines never change the player table. */
  lemma {:induction false} PlayersOnlyFromAudit(cfg: Config, s: Tally, events: seq<LogEvent>)
    requires forall i :: 0 <= i < |events| ==> events[i].eventType != "Audit"
    ensures ProcessAll(cfg, s, events).players == s.players
  {
    if events != [] {
      PlayersOnlyFromAudit(cfg, s, events[..|events| - 1]);
    }
  }

  /** Processing keeps the player table well formed. */
  lemma {:induction false} StepWellFormed(cfg: Config, s: Tally, e: LogEvent)
    requires WellFormed(cfg, s.players)
    ensures WellFormed(cfg, Step(cfg, s, e).players)
  {
    AuditUpdateWellFormed(cfg, s.players, e.message);
  }

  // ----- aggregate_storm_times -----

  const APPROACHING: string := "temporal storm is approaching"
  const IMMINENT: string := "temporal storm is imminent"
  const WANING: string := "temporal storm seems to be waning"

  /** The lower-cased message contains `phrase`. */
  predicate Says(e: LogEvent, phrase: string)
  {
    Contains(Lower(e.message), phrase)
  }

  /** The earliest timestamp of an event saying `phrase`. */
  function Earliest(events: seq<LogEvent>, phrase: string): (r: Option<int>)
    ensures r.None? <==> forall i :: 0 <= i < |events| ==> !Says(events[i], phrase)
    ensures r.Some? ==> exists i :: 0 <= i < |events| && Says(events[i], phrase) && events[i].timestamp == r.value
    ensures r.Some? ==> forall i :: 0 <= i < |events| && Says(events[i], phrase) ==> r.value <= events[i].timestamp
  {
    if events == [] then None
    else
      var front := events[..|events| - 1];
      var e := events[|events| - 1];
      var r := Earliest(front, phrase);
      assert forall i :: 0 <= i < |front| ==> front[i] == events[i];
      if Says(e, phrase) && (r.None? || e.timestamp < r.value) then Some(e.timestamp) else r
  }

  /** The latest timestamp of an event saying `phrase`. */
  function Latest(events: seq<LogEvent>, phrase: string): (r: Option<int>)
    ensures r.None? <==> forall i :: 0 <= i < |events| ==> !Says(events[i], phrase)
    ensures r.Some? ==> exists i :: 0 <= i < |events| && Says(events[i], phrase) && events[i].timestamp == r.value
    ensures r.Some? ==> forall i :: 0 <= i < |events| && Says(events[i], phrase) ==> events[i].timestamp <= r.value
  {
    if events == [] then None
    else
      var front := events[..|events| - 1];
      var e := events[|events| - 1];
      var r := Latest(front, phrase);
      assert forall i :: 0 <= i < |front| ==> front[i] == events[i];
      if Says(e, phrase) && (r.None? || e.timestamp > r.value) then Some(e.timestamp) else r
  }

  // ----- get_complete_storms -----

  predicate SortedByTime(s: seq<LogEvent>)
  {
    forall i, j :: 0 <= i < j < |s| ==> s[i].timestamp <= s[j].timestamp
  }

  /** Insert `e` after every element whose timestamp is not later than its own. */
  function InsertByTime(sorted: seq<LogEvent>, e: LogEvent): (r: seq<LogEvent>)
    requires SortedByTime(sorted)
    ensures SortedByTime(r) && multiset(r) == multiset(sorted) + multiset{e}
    ensures forall i :: 0 <= i < |r| ==> r[i] == e || r[i] in sorted
  {
    if sorted == [] || sorted[|sorted| - 1].timestamp <= e.timestamp then sorted + [e]
    else
      var front := sorted[..|sorted| - 1];
      var last := sorted[|sorted| - 1];
      assert sorted == front + [last];
      var r := InsertByTime(front, e);
      InsertByTimeBelow(front, last, e, r);
      r + [last]
  }

  /** The element moved past `e` still closes the sorted sequence. */
  lemma {:induction false} InsertByTimeBelow(front: seq<LogEvent>, last: LogEvent, e: LogEvent, r: seq<LogEvent>)
    requires SortedByTime(front + [last]) && e.timestamp < last.timestamp
    requires SortedByTime(r) && multiset(r) == multiset(front) + multiset{e}
    requires forall i :: 0 <= i < |r| ==> r[i] == e || r[i] in front
    ensures SortedByTime(r + [last]) && multiset(r + [last]) == multiset(front + [last]) + multiset{e}
    ensures forall i :: 0 <= i < |r + [last]| ==> (r + [last])[i] == e || (r + [last])[i] in front + [last]
  {
    forall i | 0 <= i < |r|
      ensures r[i].timestamp <= last.timestamp
    {
      if r[i] != e {
        var k :| 0 <= k < |front| && front[k] == r[i];
        assert (front + [last])[k] == front[k] && (front + [last])[|front|] == last;
      }
    }
    var t := r + [last];
    forall i, j | 0 <= i < j < |t|
      ensures t[i].timestamp <= t[j].timestamp
    {
      assert t[i] == r[i];
      if j < |r| {
        assert t[j] == r[j];
      } else {
        assert t[j] == last;
      }
    }
  }

  /** `sorted(events, key=lambda e: e.timestamp)`: Python's sort is stable. */
  function SortByTime(events: seq<LogEvent>): (r: seq<LogEvent>)
    ensures SortedByTime(r) && multiset(r) == multiset(events)
  {
    if events == [] then []
    else
      assert events == events[..|events| - 1] + [events[|events| - 1]];
      InsertByTime(SortByTime(events[..|events| - 1]), events[|events| - 1])
  }

  /** The events stamped `t`, in order. */
  function AtTime(s: seq<LogEvent>, t: int): seq<LogEvent>
  {
    if s == [] then []
    else AtTime(s[..|s| - 1], t) + (if s[|s| - 1].timestamp == t then [s[|s| - 1]] else [])
  }

  lemma {:induction false} AtTimeAppend(a: seq<LogEvent>, b: seq<LogEvent>, t: int)
    ensures AtTime(a + b, t) == AtTime(a, t) + AtTime(b, t)
  {
    if b != [] {
      assert (a + b)[..|a + b| - 1] == a + b[..|b| - 1];
      AtTimeAppend(a, b[..|b| - 1], t);
    } else {
      assert a + b == a;
    }
  }

  lemma {:induction false} AtTimeSnoc(s: seq<LogEvent>, x: LogEvent, t: int)
    ensures AtTime(s + [x], t) == AtTime(s, t) + (if x.timestamp == t then [x] else [])
  {
    assert (s + [x])[..|s|] == s;
  }

  lemma {:induction false} InsertAtTime(sorted: seq<LogEvent>, e: LogEvent, t: int)
    requires SortedByTime(sorted)
    ensures AtTime(InsertByTime(sorted, e), t) == AtTime(sorted, t) + (if e.timestamp == t then [e] else [])
  {
    if sorted == [] || sorted[|sorted| - 1].timestamp <= e.timestamp {
      AtTimeSnoc(sorted, e, t);
    } else {
      var front := sorted[..|sorted| - 1];
      var last := sorted[|sorted| - 1];
      assert sorted == front + [last];
      InsertAtTime(front, e, t);
      var r := InsertByTime(front, e);
      assert InsertByTime(sorted, e) == r + [last];
      AtTimeSnoc(r, last, t);
      AtTimeSnoc(front, last, t);
      if e.timestamp == t {
        assert AtTime(r, t) == AtTime(front, t) + [e];
        assert AtTime(r + [last], t) == AtTime(front, t) + [e];
        assert AtTime(sorted, t) == AtTime(front, t);
      } else {
        assert AtTime(r, t) == AtTime(front, t);
      }
    }
  }

  /** The sort is stable: events with equal timestamps keep their relative order. */
  lemma {:induction false} SortStable(events: seq<LogEvent>, t: int)
    ensures AtTime(SortByTime(events), t) == AtTime(events, t)
  {
    if events != [] {
      SortStable(events[..|events| - 1], t);
      InsertAtTime(SortByTime(events[..|events| - 1]), events[|events| - 1], t);
    }
  }

  /**
   * The pairing loop over time-ordered events: "imminent" opens or replaces
   * the pending start; "waning" closes a pending start into a pair; a
   * "waning" with nothing pending is ignored.
   */
  function StormPairs(events: seq<LogEvent>, pending: Option<int>): seq<(int, int)>
  {
    Pairing(events, IsImminent, IsWaning, pending)
  }

  predicate IsImminent(e: LogEvent) { Says(e, IMMINENT) }

  predicate IsWaning(e: LogEvent) { Says(e, WANING) }

  /** The pairing loop, for any test that opens a storm and any test that closes one. */
  function Pairing(events: seq<LogEvent>, opens: LogEvent -> bool, closes: LogEvent -> bool, pending: Option<int>): seq<(int, int)>
  {
    if events == [] then []
    else if opens(events[0]) then Pairing(events[1..], opens, closes, Some(events[0].timestamp))
    else if pending.Some? && closes(events[0]) then [(pending.value, events[0].timestamp)] + Pairing(events[1..], opens, closes, None)
    else Pairing(events[1..], opens, closes, pending)
  }

  /** The result of `get_complete_storms`. */
  function CompleteStorms(events: seq<LogEvent>): seq<(int, int)>
  {
    StormPairs(SortByTime(events), None)
  }

  /** Every storm starts no later than it ends and ends no later than the next one starts. */
  predicate Chained(pairs: seq<(int, int)>)
  {
    (forall k :: 0 <= k < |pairs| ==> pairs[k].0 <= pairs[k].1)
    && (forall k :: 0 <= k < |pairs| - 1 ==> pairs[k].1 <= pairs[k + 1].0)
  }

  /** No storm starts before `bound`. */
  predicate StartsFrom(pairs: seq<(int, int)>, bound: int)
  {
    forall k :: 0 <= k < |pairs| ==> bound <= pairs[k].0
  }

  lemma {:induction false} PairingChained(events: seq<LogEvent>, opens: LogEvent -> bool, closes: LogEvent -> bool, pending: Option<int>, lo: int)
    requires SortedByTime(events)
    requires forall i :: 0 <= i < |events| ==> lo <= events[i].timestamp
    requires pending.Some? ==> pending.value <= lo
    ensures Chained(Pairing(events, opens, closes, pending))
    ensures StartsFrom(Pairing(events, opens, closes, pending), if pending.Some? then pending.value else lo)
  {
    if events != [] {
      var e := events[0];
      var rest := events[1..];
      assert forall i :: 0 <= i < |rest| ==> rest[i] == events[i + 1];
      if opens(e) {
        PairingChained(rest, opens, closes, Some(e.timestamp), e.timestamp);
      } else if pending.Some? && closes(e) {
        PairingChained(rest, opens, closes, None, e.timestamp);
        var tail := Pairing(rest, opens, closes, None);
        var p := [(pending.value, e.timestamp)] + tail;
        assert Pairing(events, opens, closes, pending) == p;
        assert forall k :: 1 <= k < |p| ==> p[k] == tail[k - 1];
        forall k | 0 <= k < |p| - 1 ensures p[k].1 <= p[k + 1].0 {
          assert p[k + 1].0 == tail[k].0;
          if k > 0 {
            assert p[k].1 == tail[k - 1].1;
          }
        }
        assert lo <= e.timestamp && p[0].0 == pending.value;
      } else {
        PairingChained(rest, opens, closes, pending, e.timestamp);
      }
    }
  }

  /** The storms `get_complete_storms` reports are ordered and do not overlap. */
  lemma {:induction false} CompleteStormsChained(events: seq<LogEvent>)
    ensures Chained(CompleteStorms(events))
  {
    var sorted := SortByTime(events);
    if sorted != [] {
      PairingChained(sorted, IsImminent, IsWaning, None, sorted[0].timestamp);
    }
  }

  /** Without an opening event there is no pair, whatever else was seen. */
  lemma {:induction false} PairingWithoutOpen(events: seq<LogEvent>, opens: LogEvent -> bool, closes: LogEvent -> bool)
    requires forall i :: 0 <= i < |events| ==> !opens(events[i])
    ensures Pairing(events, opens, closes, None) == []
  {
    if events != [] {
      PairingWithoutOpen(events[1..], opens, closes);
    }
  }

  /** Without an "imminent" notice there is no complete storm. */
  lemma {:induction false} NoImminentNoStorms(events: seq<LogEvent>)
    requires forall i :: 0 <= i < |events| ==> !Says(events[i], IMMINENT)
    ensures CompleteStorms(events) == []
  {
    var sorted := SortByTime(events);
    forall i | 0 <= i < |sorted| ensures !IsImminent(sorted[i]) {
      assert sorted[i] in multiset(events);
    }
    PairingWithoutOpen(sorted, IsImminent, IsWaning);
  }

  /** A pending start is closed by the first "waning" notice, provided no "imminent" comes first. */
  lemma {:induction false} StormClosedByWaning(start: int, e: LogEvent, rest: seq<LogEvent>)
    requires !Says(e, IMMINENT) && Says(e, WANING)
    ensures StormPairs([e] + rest, Some(start)) == [(start, e.timestamp)] + StormPairs(rest, None)
  {
    assert ([e] + rest)[1..] == rest;
  }

  // ----- the aggregator object -----

  class EventAggregator {
    const config: Config
    var players: map<string, PlayerData>
    var stormEvents: seq<LogEvent>
    var chunkCount: int
    var lastMapChunkTimestamp: Option<int>

    function State(): Tally
      reads this
    {
      Tally(players, stormEvents, Chunks(chunkCount, lastMapChunkTimestamp))
    }

    ghost predicate Valid()
      reads this
    {
      WellFormed(config, players)
    }

    /** `__init__`: no players, no storm events, count 0 and no chunk timestamp. */
    constructor (cfg: Config)
      ensures config == cfg && State() == Tally(map[], [], Chunks(0, None)) && Valid()
    {
      config := cfg;
      players := map[];
      stormEvents := [];
      chunkCount := 0;
      lastMapChunkTimestamp := None;
    }

    /** `process_event`. */
    method ProcessEvent(e: LogEvent)
      requires Valid()
      modifies this
      ensures Valid() && State() == Step(config, old(State()), e)
    {
      StepWellFormed(config, State(), e);
      var lower := Lower(e.message);
      if e.eventType == "Audit" {
        if IsInterestingAuditEvent(e.message) || (MentionsMetal(lower, config.metals) && MentionsMove(lower)) {
          ProcessAuditEvent(e, lower);
        }
      } else if e.eventType == "Notification" && Contains(lower, "temporal storm") {
        stormEvents := stormEvents + [e];
      }
      if e.eventType == "Event" {
        var count := OffthreadChunkCount(lower);
        if count.Some? {
          if lastMapChunkTimestamp.None? || e.timestamp > lastMapChunkTimestamp.value {
            lastMapChunkTimestamp := Some(e.timestamp);
            chunkCount := count.value;
          }
        }
      }
    }

    /** `_process_audit_event`. */
    method ProcessAuditEvent(e: LogEvent, lower: string)
      requires lower == Lower(e.message)
      modifies this`players
      ensures players == AuditUpdate(config, old(players), e.message)
    {
      var player := ExtractPlayerName(e.message);
      if player.None? || Lower(player.value) == "player" {
        return;
      }
      var key := Lower(player.value);
      RecordDeath(e.message, lower, player.value, key);
      RecordKill(e.message, lower, key);
      if MentionsMove(lower) {
        AddLargeMetals(e.message, lower, key);
      }
    }

    /** The death branch of `_process_audit_event`. */
    method RecordDeath(message: string, lower: string, player: string, key: string)
      requires lower == Lower(message)
      modifies this`players
      ensures players == AppendDeath(old(players), key, DeathEntry(config, message, player))
    {
      if Contains(lower, "died") || Contains(lower, "death message") {
        var cause := CleanDeathMessage(DeathCauseText(message), player, config.messageMap);
        var entry := Entry(players, key);
        players := players[key := entry.(deathDetails := entry.deathDetails + [cause])];
      }
    }

    /** The kill branch of `_process_audit_event`. */
    method RecordKill(message: string, lower: string, key: string)
      requires lower == Lower(message)
      modifies this`players
      ensures players == AppendKill(old(players), key, KillEntry(config, message))
    {
      if Contains(lower, "killed") {
        var enemy := KillTarget(message);
        if enemy.Some? {
          var mapped := if enemy.value in config.enemyMap then config.enemyMap[enemy.value] else enemy.value;
          mapped := ApplyCustomMapping(mapped, config.messageMap);
          var entry := Entry(players, key);
          players := players[key := entry.(kills := entry.kills + [mapped])];
        }
      }
    }

    /** The metal loop of `_process_audit_event`. */
    method AddLargeMetals(message: string, lower: string, key: string)
      requires lower == Lower(message)
      modifies this`players
      ensures players == AddMetals(old(players), key, FoundMetals(config, message, |config.metals|))
    {
      ghost var before := players;
      for i := 0 to |config.metals|
        invariant players == AddMetals(before, key, FoundMetals(config, message, i))
      {
        var metal := config.metals[i];
        ghost var found := FoundMetals(config, message, i);
        FoundMetalsStep(config, message, i);
        if Contains(lower, metal) && HasLargeQuantity(message, config.threshold) {
          assert FoundMetals(config, message, i + 1) == found + {metal};
        } else {
          assert FoundMetals(config, message, i + 1) == found;
        }
        if Contains(lower, metal) {
          if HasLargeQuantity(message, config.threshold) {
            AddMetalsTwice(before, key, found, metal);
            var entry := Entry(players, key);
            players := players[key := entry.(largeMetals := entry.largeMetals + {metal})];
          }
        }
      }
    }

    /** `aggregate_storm_times`: earliest "approaching", earliest "imminent", latest "waning". */
    method AggregateStormTimes() returns (soon: Option<int>, start: Option<int>, waning: Option<int>)
      ensures soon == Earliest(stormEvents, APPROACHING)
      ensures start == Earliest(stormEvents, IMMINENT)
      ensures waning == Latest(stormEvents, WANING)
    {
      soon, start, waning := None, None, None;
      for i := 0 to |stormEvents|
        invariant soon == Earliest(stormEvents[..i], APPROACHING)
        invariant start == Earliest(stormEvents[..i], IMMINENT)
        invariant waning == Latest(stormEvents[..i], WANING)
      {
        var e := stormEvents[i];
        ExtremesStep(stormEvents, i, APPROACHING);
        ExtremesStep(stormEvents, i, IMMINENT);
        ExtremesStep(stormEvents, i, WANING);
        var lower := Lower(e.message);
        if Contains(lower, APPROACHING) {
          if soon.None? || e.timestamp < soon.value {
            soon := Some(e.timestamp);
          }
        }
        if Contains(lower, IMMINENT) {
          if start.None? || e.timestamp < start.value {
            start := Some(e.timestamp);
          }
        }
        if Contains(lower, WANING) {
          if waning.None? || e.timestamp > waning.value {
            waning := Some(e.timestamp);
          }
        }
      }
      assert stormEvents[..|stormEvents|] == stormEvents;
    }

    /** `get_complete_storms`. */
    method GetCompleteStorms() returns (storms: seq<(int, int)>)
      ensures storms == CompleteStorms(stormEvents)
    {
      var sorted := SortByTime(stormEvents);
      var pending: Option<int> := None;
      storms := [];
      for i := 0 to |sorted|
        invariant storms + StormPairs(sorted[i..], pending) == StormPairs(sorted, None)
      {
        var e := sorted[i];
        assert sorted[i..][1..] == sorted[i + 1..];
        var lower := Lower(e.message);
        if Contains(lower, IMMINENT) {
          pending := Some(e.timestamp);
        } else if pending.Some? && Contains(lower, WANING) {
          storms := storms + [(pending.value, e.timestamp)];
          pending := None;
        }
      }
    }
  }

  /** Adding one more metal after a set of them is adding the union. */
  lemma {:induction false} AddMetalsTwice(players: map<string, PlayerData>, key: string, ms: set<string>, m: string)
    ensures AddMetals(AddMetals(players, key, ms), key, {m}) == AddMetals(players, key, ms + {m})
  {
    var was := Entry(players, key);
    assert Entry(AddMetals(players, key, ms), key).largeMetals == was.largeMetals + ms;
    assert was.largeMetals + ms + {m} == was.largeMetals + (ms + {m});
  }

  lemma {:induction false} FoundMetalsStep(cfg: Config, message: string, i: nat)
    requires i < |cfg.metals|
    ensures FoundMetals(cfg, message, i + 1) == FoundMetals(cfg, message, i)
      + (if Contains(Lower(message), cfg.metals[i]) && HasLargeQuantity(message, cfg.threshold) then {cfg.metals[i]} else {})
  {
  }

  /** One more event updates the earliest and the latest time as the loop does. */
  lemma {:induction false} ExtremesStep(events: seq<LogEvent>, i: nat, phrase: string)
    requires i < |events|
    ensures var e := events[i];
      var r := Earliest(events[..i], phrase);
      Earliest(events[..i + 1], phrase) == if Says(e, phrase) && (r.None? || e.timestamp < r.value) then Some(e.timestamp) else r
    ensures var e := events[i];
      var r := Latest(events[..i], phrase);
      Latest(events[..i + 1], phrase) == if Says(e, phrase) && (r.None? || e.timestamp > r.value) then Some(e.timestamp) else r
  {
    assert events[..i + 1][..i] == events[..i];
  }
}
