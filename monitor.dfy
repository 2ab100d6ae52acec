/** Health aggregation and alert rules of the system monitor (back/monitor.py).
    The probes themselves (file system, database, cache, HTTP and process
    table) are inputs: each is summarised by the status and the one number the
    rules read. */
module Monitor {
  import opened Common

  datatype Health = Healthy | Warning | Error

  /** One entry of the statistics dictionary: its key and the "status" field of
      its value (`None` when the value has none). */
  datatype StatEntry = StatEntry(key: string, status: Option<Health>)

  /** The aggregation skips the entry keyed "timestamp". */
  predicate IsComponent(e: StatEntry) {
    e.key != "timestamp"
  }

  predicate HasStatus(entries: seq<StatEntry>, h: Health) {
    exists i :: 0 <= i < |entries| && IsComponent(entries[i]) && entries[i].status == Some(h)
  }

  /** The overall status: "error" if any component reports an error, otherwise
      "warning" if any reports a warning, otherwise "healthy". */
  function Overall(entries: seq<StatEntry>): Health {
    if HasStatus(entries, Error) then Error
    else if HasStatus(entries, Warning) then Warning
    else Healthy
  }

  /** The loop of `get_system_stats` that folds the component statuses,
      stopping at the first error. */
  method OverallStatus(entries: seq<StatEntry>) returns (overall: Health)
    ensures overall == Overall(entries)
  {
    overall := Healthy;
    var i := 0;
    while i < |entries|
      invariant 0 <= i <= |entries|
      invariant !HasStatus(entries[..i], Error)
      invariant overall == if HasStatus(entries[..i], Warning) then Warning else Healthy
    {
      var e := entries[i];
      assert entries[..i + 1] == entries[..i] + [e];
      HasStatusSnoc(entries[..i], e, Error);
      HasStatusSnoc(entries[..i], e, Warning);
      if e.key != "timestamp" && e.status == Some(Error) {
        overall := Error;
        assert entries[i].status == Some(Error) && IsComponent(entries[i]);
        return;
      } else if e.key != "timestamp" && e.status == Some(Warning) {
        overall := Warning;
      }
      i := i + 1;
    }
    assert entries[..i] == entries;
  }

  lemma HasStatusSnoc(entries: seq<StatEntry>, e: StatEntry, h: Health)
    ensures HasStatus(entries + [e], h) <==> HasStatus(entries, h) || (IsComponent(e) && e.status == Some(h))
  {
    var s := entries + [e];
    if HasStatus(entries, h) {
      var k :| 0 <= k < |entries| && IsComponent(entries[k]) && entries[k].status == Some(h);
      assert s[k] == entries[k];
    }
    if IsComponent(e) && e.status == Some(h) {
      assert s[|entries|] == e;
    }
    if HasStatus(s, h) && !(IsComponent(e) && e.status == Some(h)) {
      var k :| 0 <= k < |s| && IsComponent(s[k]) && s[k].status == Some(h);
      assert k < |entries| && s[k] == entries[k];
    }
  }

  lemma HasStatusByMembership(entries: seq<StatEntry>, h: Health)
    ensures HasStatus(entries, h) <==> exists e :: e in entries && IsComponent(e) && e.status == Some(h)
  {
    if exists e :: e in entries && IsComponent(e) && e.status == Some(h) {
      var e :| e in entries && IsComponent(e) && e.status == Some(h);
      var i :| 0 <= i < |entries| && entries[i] == e;
    }
  }

  /** The overall status does not depend on the order of the entries. */
  lemma OverallIgnoresOrder(a: seq<StatEntry>, b: seq<StatEntry>)
    requires multiset(a) == multiset(b)
    ensures Overall(a) == Overall(b)
  {
    forall h: Health ensures HasStatus(a, h) <==> HasStatus(b, h) {
      HasStatusByMembership(a, h);
      HasStatusByMembership(b, h);
      assert forall e :: e in a <==> e in multiset(a);
      assert forall e :: e in b <==> e in multiset(b);
    }
  }

  /** Whatever the "timestamp" entry holds, it never changes the overall status. */
  lemma OverallIgnoresTimestamp(before: seq<StatEntry>, after: seq<StatEntry>, s: Option<Health>)
    ensures Overall(before + [StatEntry("timestamp", s)] + after) == Overall(before + after)
  {
    var t := StatEntry("timestamp", s);
    forall h: Health ensures HasStatus(before + [t] + after, h) <==> HasStatus(before + after, h) {
      HasStatusByMembership(before + [t] + after, h);
      HasStatusByMembership(before + after, h);
      assert forall e :: e in before + [t] + after <==> e in before || e == t || e in after;
      assert forall e :: e in before + after <==> e in before || e in after;
    }
  }

  function Severity(h: Health): nat {
    match h
    case Healthy => 0
    case Warning => 1
    case Error => 2
  }

  /** The overall status is the most severe component status (healthy when
      no component reports one). */
  lemma OverallIsMostSevere(entries: seq<StatEntry>)
    ensures forall i :: 0 <= i < |entries| && IsComponent(entries[i]) && entries[i].status.Some? ==>
      Severity(entries[i].status.value) <= Severity(Overall(entries))
    ensures Overall(entries) == Healthy || HasStatus(entries, Overall(entries))
  {
    forall i | 0 <= i < |entries| && IsComponent(entries[i]) && entries[i].status.Some?
      ensures Severity(entries[i].status.value) <= Severity(Overall(entries))
    {
      assert HasStatus(entries, entries[i].status.value);
    }
  }

  /** A probe's status and the number its alert rule reads: the database file
      size in MB, the cache memory in MB, or the API response time in seconds. */
  datatype Probe = Probe(status: Health, value: real)
  datatype CeleryProbe = CeleryProbe(status: Health, workers: nat)

  datatype SystemStats = SystemStats(
    timestamp: string, database: Probe, redis: Probe, api: Probe, celery: CeleryProbe)

  /** The statistics dictionary in the order `get_system_stats` builds it. */
  function Entries(stats: SystemStats): (r: seq<StatEntry>)
    ensures |r| == 5 && r[0].key == "timestamp"
  {
    [ StatEntry("timestamp", None),
      StatEntry("database", Some(stats.database.status)),
      StatEntry("redis", Some(stats.redis.status)),
      StatEntry("api", Some(stats.api.status)),
      StatEntry("celery", Some(stats.celery.status)) ]
  }

  /** `get_system_stats`: the overall status of one set of probe results. */
  method SystemOverallStatus(stats: SystemStats) returns (overall: Health)
    ensures overall == Error <==>
      Error in {stats.database.status, stats.redis.status, stats.api.status, stats.celery.status}
    ensures overall == Warning <==>
      Error !in {stats.database.status, stats.redis.status, stats.api.status, stats.celery.status}
      && Warning in {stats.database.status, stats.redis.status, stats.api.status, stats.celery.status}
    ensures overall == Healthy <==>
      stats.database.status == stats.redis.status == stats.api.status == stats.celery.status == Healthy
  {
    var entries := Entries(stats);
    overall := OverallStatus(entries);
    var c := [stats.database.status, stats.redis.status, stats.api.status, stats.celery.status];
    forall h: Health ensures HasStatus(entries, h) <==> h in c {
      if h in c {
        var k :| 0 <= k < 4 && c[k] == h;
        assert IsComponent(entries[k + 1]) && entries[k + 1].status == Some(h);
      }
    }
  }

  /** `check_celery`: healthy exactly when some worker process was found; `None`
      stands for a failure of the process scan. */
  function CheckCelery(processes: Option<seq<int>>): (p: CeleryProbe)
    ensures p.status == Healthy <==> processes.Some? && |processes.value| > 0
    ensures processes.Some? ==> p.workers == |processes.value|
  {
    match processes
    case None => CeleryProbe(Error, 0)
    case Some(pids) => CeleryProbe(if |pids| > 0 then Healthy else Warning, |pids|)
  }

  datatype Component = Database | Redis | Api | Celery

  datatype Alert =
    | DatabaseLarge(sizeMb: real)
    | RedisMemoryHigh(memoryMb: real)
    | ApiSlow(seconds: real)
    | NoWorkers
    | TooManyWorkers(workers: nat)
  {
    function Component(): Component {
      match this
      case DatabaseLarge(_) => Database
      case RedisMemoryHigh(_) => Redis
      case ApiSlow(_) => Api
      case NoWorkers => Celery
      case TooManyWorkers(_) => Celery
    }
  }

  function StatusOf(stats: SystemStats, c: Component): Health {
    match c
    case Database => stats.database.status
    case Redis => stats.redis.status
    case Api => stats.api.status
    case Celery => stats.celery.status
  }

  /** The alert rules, one per component, in the order they are checked. */
  function AlertsOf(stats: SystemStats): seq<Alert> {
    DatabaseAlerts(stats) + RedisAlerts(stats) + ApiAlerts(stats) + CeleryAlerts(stats)
  }

  function DatabaseAlerts(stats: SystemStats): seq<Alert> {
    if stats.database.status == Healthy && stats.database.value > 100.0
    then [DatabaseLarge(stats.database.value)] else []
  }

  function RedisAlerts(stats: SystemStats): seq<Alert> {
    if stats.redis.status == Healthy && stats.redis.value > 50.0
    then [RedisMemoryHigh(stats.redis.value)] else []
  }

  function ApiAlerts(stats: SystemStats): seq<Alert> {
    if stats.api.status == Healthy && stats.api.value > 2.0
    then [ApiSlow(stats.api.value)] else []
  }

  function CeleryAlerts(stats: SystemStats): seq<Alert> {
    if stats.celery.status != Healthy then []
    else if stats.celery.workers == 0 then [NoWorkers]
    else if stats.celery.workers > 5 then [TooManyWorkers(stats.celery.workers)]
    else []
  }

  /** `check_alerts`. */
  method CheckAlerts(stats: SystemStats) returns (alerts: seq<Alert>)
    ensures alerts == AlertsOf(stats)
  {
    alerts := [];
    if stats.database.status == Healthy {
      if stats.database.value > 100.0 {
        alerts := alerts + [DatabaseLarge(stats.database.value)];
      }
    }
    assert alerts == DatabaseAlerts(stats);
    if stats.redis.status == Healthy {
      if stats.redis.value > 50.0 {
        alerts := alerts + [RedisMemoryHigh(stats.redis.value)];
      }
    }
    assert alerts == DatabaseAlerts(stats) + RedisAlerts(stats);
    if stats.api.status == Healthy {
      if stats.api.value > 2.0 {
        alerts := alerts + [ApiSlow(stats.api.value)];
      }
    }
    assert alerts == DatabaseAlerts(stats) + RedisAlerts(stats) + ApiAlerts(stats);
    if stats.celery.status == Healthy {
      var workers := stats.celery.workers;
      if workers == 0 {
        alerts := alerts + [NoWorkers];
      } else if workers > 5 {
        alerts := alerts + [TooManyWorkers(workers)];
      }
    }
  }

  /** Every alert concerns a component whose own status is "healthy", there is
      at most one alert per component, and they come in component order. */
  lemma AlertsOnlyForHealthy(stats: SystemStats)
    ensures forall a :: a in AlertsOf(stats) ==> StatusOf(stats, a.Component()) == Healthy
    ensures |AlertsOf(stats)| <= 4
    ensures forall i, j :: 0 <= i < j < |AlertsOf(stats)| ==>
      AlertsOf(stats)[i].Component() != AlertsOf(stats)[j].Component()
  {
  }

  /** The thresholds are strict: values exactly at a limit raise nothing. */
  lemma ThresholdsAreStrict(stats: SystemStats)
    requires stats.database.value <= 100.0 && stats.redis.value <= 50.0 && stats.api.value <= 2.0
    requires 1 <= stats.celery.workers <= 5
    ensures AlertsOf(stats) == []
  {
  }

  /** `check_celery` calls itself healthy only when it found a process, so the
      "no workers" alert can never fire on its output. */
  lemma NoWorkersUnreachable(stats: SystemStats, processes: Option<seq<int>>)
    requires stats.celery == CheckCelery(processes)
    ensures NoWorkers !in AlertsOf(stats)
  {
  }
}
