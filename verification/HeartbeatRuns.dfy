/**
 Heartbeats over whole runs: what the miss counters count, exactly when a target is reported
 stale, and how long a silent target can go unreported.
 */
module HeartbeatRuns {
  import opened Heartbeat
  import opened Sequences

  datatype Event =
    | Register(at: real, id: Target)
    | Unregister(id: Target)
    | Pong(at: real, id: Target)
    | Tick(at: real)

  function Step(cfg: Config, m: Manager, e: Event): Manager {
    match e
    case Register(at, id) => Registered(m, at, id)
    case Unregister(id) => Unregistered(m, id)
    case Pong(at, id) => Refresh(m, at, id)
    case Tick(at) => CheckAll(cfg, m, at, m.senders).0
  }

  /** The manager just before event n of a run. */
  function Before(cfg: Config, evs: seq<Event>, n: nat): Manager
    requires n <= |evs|
  {
    if n == 0 then Manager(map[], map[], []) else Step(cfg, Before(cfg, evs, n - 1), evs[n - 1])
  }

  /** The targets event n reports as stale. */
  function Stale(cfg: Config, evs: seq<Event>, n: nat): seq<Target>
    requires n < |evs|
  {
    if evs[n].Tick? then CheckAll(cfg, Before(cfg, evs, n), evs[n].at, Before(cfg, evs, n).senders).1 else []
  }

  // ----- A tick, target by target -----

  ghost predicate Unique(s: seq<Target>) {
    forall i, j :: 0 <= i < j < |s| ==> s[i] != s[j]
  }

  lemma {:induction false} WithoutMembers(s: seq<Target>, x: Target)
    ensures forall y :: y in Without(s, x) <==> y in s && y != x
    ensures Unique(s) ==> Unique(Without(s, x))
  {
    if s == [] {
    } else {
      WithoutMembers(s[1..], x);
      assert s == [s[0]] + s[1..];
      if Unique(s) {
        assert forall i, j :: 0 <= i < j < |s[1..]| ==> s[1..][i] == s[i + 1] && s[1..][j] == s[j + 1];
        assert s[0] !in s[1..];
      }
    }
  }

  /** The two managers record the same about a target. */
  ghost predicate SameFor(a: Manager, b: Manager, id: Target) {
    && (id in a.lastPong <==> id in b.lastPong) && (id in a.lastPong ==> a.lastPong[id] == b.lastPong[id])
    && (id in a.missed <==> id in b.missed) && (id in a.missed ==> a.missed[id] == b.missed[id])
    && (id in a.senders <==> id in b.senders)
  }

  lemma CheckTouchesOnlyTarget(cfg: Config, m: Manager, now: real, id: Target, other: Target)
    requires other != id
    ensures SameFor(m, CheckTarget(cfg, m, now, id), other)
  {
    WithoutMembers(m.senders, id);
  }

  lemma SameTreatment(cfg: Config, a: Manager, b: Manager, now: real, id: Target)
    requires SameFor(a, b, id)
    ensures GoesStale(cfg, a, now, id) == GoesStale(cfg, b, now, id)
    ensures SameFor(CheckTarget(cfg, a, now, id), CheckTarget(cfg, b, now, id), id)
  {
    WithoutMembers(a.senders, id);
    WithoutMembers(b.senders, id);
  }

  /** Checking a snapshot treats each of its targets as if it were alone, and leaves the others be. */
  lemma {:induction false} CheckAllByTarget(cfg: Config, m: Manager, now: real, snapshot: seq<Target>, id: Target)
    requires Unique(snapshot)
    ensures var (after, stale) := CheckAll(cfg, m, now, snapshot);
      && SameFor(after, if id in snapshot then CheckTarget(cfg, m, now, id) else m, id)
      && (id in stale <==> id in snapshot && GoesStale(cfg, m, now, id))
    decreases snapshot
  {
    if snapshot == [] {
    } else {
      var first, rest := snapshot[0], snapshot[1..];
      assert snapshot == [first] + rest && first !in rest;
      assert Unique(rest);
      var mid := CheckTarget(cfg, m, now, first);
      CheckAllByTarget(cfg, mid, now, rest, id);
      if id != first {
        CheckTouchesOnlyTarget(cfg, m, now, first, id);
        SameTreatment(cfg, m, mid, now, id);
      }
    }
  }

  // ----- What the counters count -----

  /** When the target was last heard from or registered, by the events alone. */
  ghost function LastHeard(evs: seq<Event>, n: nat, id: Target): Option<real>
    requires n <= |evs|
  {
    if n == 0 then None
    else if (evs[n - 1].Register? || evs[n - 1].Pong?) && evs[n - 1].id == id then Some(evs[n - 1].at)
    else LastHeard(evs, n - 1, id)
  }

  /** How many ticks since then came more than the timeout later, by the events alone. */
  ghost function OverdueTicks(cfg: Config, evs: seq<Event>, n: nat, id: Target): nat
    requires n <= |evs|
  {
    if n == 0 then 0
    else if (evs[n - 1].Register? || evs[n - 1].Pong?) && evs[n - 1].id == id then 0
    else OverdueTicks(cfg, evs, n - 1, id) + (if IsOverdueTick(cfg, evs, n - 1, id) then 1 else 0)
  }

  ghost predicate IsOverdueTick(cfg: Config, evs: seq<Event>, n: nat, id: Target)
    requires n < |evs|
  {
    evs[n].Tick? && LastHeard(evs, n, id).Some? && evs[n].at - LastHeard(evs, n, id).value > cfg.timeout
  }

  ghost predicate Counted(cfg: Config, evs: seq<Event>, n: nat, m: Manager)
    requires n <= |evs|
  {
    && Unique(m.senders)
    && forall id :: id in m.senders ==>
      id in m.lastPong && id in m.missed && LastHeard(evs, n, id) == Some(m.lastPong[id]) &&
      m.missed[id] == OverdueTicks(cfg, evs, n, id) &&
      (cfg.hasCallback ==> m.missed[id] == 0 || m.missed[id] < cfg.maxMissed)
  }

  lemma TickKeepsUnique(cfg: Config, m: Manager, now: real, snapshot: seq<Target>)
    requires Unique(m.senders)
    ensures Unique(CheckAll(cfg, m, now, snapshot).0.senders)
    decreases snapshot
  {
    if snapshot == [] {
    } else {
      WithoutMembers(m.senders, snapshot[0]);
      TickKeepsUnique(cfg, CheckTarget(cfg, m, now, snapshot[0]), now, snapshot[1..]);
    }
  }

  lemma TickCounts(cfg: Config, evs: seq<Event>, n: nat)
    requires 0 < n <= |evs| && evs[n - 1].Tick? && Counted(cfg, evs, n - 1, Before(cfg, evs, n - 1))
    ensures Counted(cfg, evs, n, Before(cfg, evs, n))
  {
    var m, at, after := Before(cfg, evs, n - 1), evs[n - 1].at, Before(cfg, evs, n);
    TickKeepsUnique(cfg, m, at, m.senders);
    forall id | id in after.senders
      ensures id in m.senders && SameFor(after, CheckTarget(cfg, m, at, id), id) && !GoesStale(cfg, m, at, id)
    {
      CheckAllByTarget(cfg, m, at, m.senders, id);
      WithoutMembers(m.senders, id);
    }
  }

  lemma RegisterCounts(cfg: Config, evs: seq<Event>, n: nat)
    requires 0 < n <= |evs| && evs[n - 1].Register? && Counted(cfg, evs, n - 1, Before(cfg, evs, n - 1))
    ensures Counted(cfg, evs, n, Before(cfg, evs, n))
  {}

  /** For every registered target the manager records when it was last heard from and its overdue ticks. */
  lemma {:induction false} CountersCount(cfg: Config, evs: seq<Event>, n: nat)
    requires n <= |evs|
    ensures Counted(cfg, evs, n, Before(cfg, evs, n))
  {
    if n == 0 {
    } else {
      CountersCount(cfg, evs, n - 1);
      var m, e := Before(cfg, evs, n - 1), evs[n - 1];
      match e {
        case Tick(at) => TickCounts(cfg, evs, n);
        case Unregister(id) => WithoutMembers(m.senders, id);
        case Pong(_, _) =>
        case Register(_, id) => RegisterCounts(cfg, evs, n);
      }
    }
  }

  /** With this tick, enough ticks came more than the timeout after the target was last heard from. */
  ghost predicate DueAt(cfg: Config, evs: seq<Event>, n: nat, id: Target)
    requires n < |evs|
  {
    cfg.hasCallback && IsOverdueTick(cfg, evs, n, id) && OverdueTicks(cfg, evs, n, id) + 1 >= cfg.maxMissed
  }

  /** Registered, and since then neither unregistered nor due at a tick, by the events alone. */
  ghost predicate Enrolled(cfg: Config, evs: seq<Event>, n: nat, id: Target)
    requires n <= |evs|
  {
    if n == 0 then false else
      match evs[n - 1]
      case Register(_, who) => who == id || Enrolled(cfg, evs, n - 1, id)
      case Unregister(who) => who != id && Enrolled(cfg, evs, n - 1, id)
      case Tick(_) => Enrolled(cfg, evs, n - 1, id) && !DueAt(cfg, evs, n - 1, id)
      case Pong(_, _) => Enrolled(cfg, evs, n - 1, id)
  }

  lemma DueIsStale(cfg: Config, evs: seq<Event>, n: nat, id: Target)
    requires n < |evs| && evs[n].Tick?
    ensures id in Stale(cfg, evs, n) <==> id in Before(cfg, evs, n).senders && DueAt(cfg, evs, n, id)
    ensures id in Before(cfg, evs, n + 1).senders <==>
      id in Before(cfg, evs, n).senders && id !in Stale(cfg, evs, n)
  {
    CountersCount(cfg, evs, n);
    var m := Before(cfg, evs, n);
    CheckAllByTarget(cfg, m, evs[n].at, m.senders, id);
    WithoutMembers(m.senders, id);
  }

  /** In every run the targets pinged and checked are those enrolled. */
  lemma {:induction false} EnrolledExactly(cfg: Config, evs: seq<Event>, n: nat, id: Target)
    requires n <= |evs|
    ensures id in Before(cfg, evs, n).senders <==> Enrolled(cfg, evs, n, id)
  {
    if n == 0 {
    } else {
      EnrolledExactly(cfg, evs, n - 1, id);
      match evs[n - 1] {
        case Tick(_) => DueIsStale(cfg, evs, n - 1, id);
        case Unregister(who) => WithoutMembers(Before(cfg, evs, n - 1).senders, who);
        case _ =>
      }
    }
  }

  /** Heard from, and since then neither unregistered nor reported, by the events alone. */
  ghost predicate Recorded(cfg: Config, evs: seq<Event>, n: nat, id: Target)
    requires n <= |evs|
  {
    if n == 0 then false else
      match evs[n - 1]
      case Register(_, who) => who == id || Recorded(cfg, evs, n - 1, id)
      case Pong(_, who) => who == id || Recorded(cfg, evs, n - 1, id)
      case Unregister(who) => who != id && Recorded(cfg, evs, n - 1, id)
      case Tick(_) =>
        Recorded(cfg, evs, n - 1, id) && !(Enrolled(cfg, evs, n - 1, id) && DueAt(cfg, evs, n - 1, id))
  }

  ghost predicate RecordsOf(cfg: Config, evs: seq<Event>, n: nat, m: Manager, id: Target)
    requires n <= |evs|
  {
    && (id in m.lastPong <==> Recorded(cfg, evs, n, id)) && (id in m.missed <==> Recorded(cfg, evs, n, id))
    && (id in m.lastPong ==> LastHeard(evs, n, id) == Some(m.lastPong[id]))
  }

  lemma TickRecords(cfg: Config, evs: seq<Event>, n: nat, id: Target)
    requires n < |evs| && evs[n].Tick? && RecordsOf(cfg, evs, n, Before(cfg, evs, n), id)
    ensures RecordsOf(cfg, evs, n + 1, Before(cfg, evs, n + 1), id)
  {
    var m := Before(cfg, evs, n);
    CountersCount(cfg, evs, n);
    EnrolledExactly(cfg, evs, n, id);
    DueIsStale(cfg, evs, n, id);
    CheckAllByTarget(cfg, m, evs[n].at, m.senders, id);
  }

  /** In every run the manager keeps a record exactly of those heard from since they were last dropped. */
  lemma {:induction false} RecordsExactly(cfg: Config, evs: seq<Event>, n: nat, id: Target)
    requires n <= |evs|
    ensures RecordsOf(cfg, evs, n, Before(cfg, evs, n), id)
  {
    if n == 0 {
    } else {
      RecordsExactly(cfg, evs, n - 1, id);
      if evs[n - 1].Tick? { TickRecords(cfg, evs, n - 1, id); }
    }
  }

  lemma {:induction false} CheckReportsOnce(cfg: Config, m: Manager, now: real, snapshot: seq<Target>)
    requires Unique(snapshot)
    ensures var stale := CheckAll(cfg, m, now, snapshot).1;
      Unique(stale) && forall id :: id in stale ==> id in snapshot
    decreases snapshot
  {
    if snapshot == [] {
    } else {
      var rest := snapshot[1..];
      assert snapshot == [snapshot[0]] + rest && snapshot[0] !in rest && Unique(rest);
      CheckReportsOnce(cfg, CheckTarget(cfg, m, now, snapshot[0]), now, rest);
    }
  }

  /**
   A tick reports a target as stale exactly when it is enrolled, the tick comes more than the
   timeout after the target was last heard from, and with it at least maxMissed ticks have. It
   reports no target twice.
   */
  lemma StaleExactly(cfg: Config, evs: seq<Event>, n: nat, id: Target)
    requires n < |evs| && evs[n].Tick?
    ensures id in Stale(cfg, evs, n) <==>
      Enrolled(cfg, evs, n, id) && cfg.hasCallback && IsOverdueTick(cfg, evs, n, id) &&
      OverdueTicks(cfg, evs, n, id) + 1 >= cfg.maxMissed
    ensures Unique(Stale(cfg, evs, n))
  {
    EnrolledExactly(cfg, evs, n, id);
    DueIsStale(cfg, evs, n, id);
    CountersCount(cfg, evs, n);
    CheckReportsOnce(cfg, Before(cfg, evs, n), evs[n].at, Before(cfg, evs, n).senders);
  }

  // ----- How long silence can last -----

  ghost function LastTick(evs: seq<Event>, n: nat, start: real): real
    requires n <= |evs|
  {
    if n == 0 then start else if evs[n - 1].Tick? then evs[n - 1].at else LastTick(evs, n - 1, start)
  }

  ghost function LastTime(evs: seq<Event>, n: nat, start: real): real
    requires n <= |evs|
  {
    if n == 0 then start else if evs[n - 1].Unregister? then LastTime(evs, n - 1, start) else evs[n - 1].at
  }

  /** The clock never goes back, and ticks come at most `interval` apart. */
  ghost predicate Punctual(evs: seq<Event>, start: real, interval: real) {
    forall n :: 0 <= n < |evs| && !evs[n].Unregister? ==>
      evs[n].at >= LastTime(evs, n, start) &&
      (evs[n].Tick? ==> evs[n].at <= LastTick(evs, n, start) + interval)
  }

  lemma {:induction false} TickNotAfterNow(evs: seq<Event>, n: nat, start: real, interval: real)
    requires n <= |evs| && Punctual(evs, start, interval)
    ensures LastTick(evs, n, start) <= LastTime(evs, n, start)
  {
    if n == 0 {
    } else {
      TickNotAfterNow(evs, n - 1, start, interval);
    }
  }

  lemma OneMoreInterval(k: nat, interval: real)
    ensures (k + 1) as real * interval == k as real * interval + interval
  {}

  /** k intervals added up. */
  ghost function Times(k: nat, interval: real): real {
    if k == 0 then 0.0 else Times(k - 1, interval) + interval
  }

  lemma {:induction false} TimesIsProduct(k: nat, interval: real)
    ensures Times(k, interval) == k as real * interval
  {
    if k == 0 {
    } else {
      TimesIsProduct(k - 1, interval);
      OneMoreInterval(k - 1, interval);
    }
  }

  /** The silence is at most the timeout and k intervals. */
  ghost predicate Within(silence: real, timeout: real, k: nat, interval: real) {
    silence <= timeout + k as real * interval
  }

  /** A bound by added intervals is a bound by their product. */
  lemma BoundedByProduct(silence: real, timeout: real, k: nat, interval: real)
    ensures silence <= timeout + Times(k, interval) <==> Within(silence, timeout, k, interval)
  {
    TimesIsProduct(k, interval);
  }

  lemma {:induction false} TimesMono(j: nat, k: nat, interval: real)
    requires j <= k && interval >= 0.0
    ensures Times(j, interval) <= Times(k, interval)
  {
    if j == k {
    } else {
      TimesMono(j, k - 1, interval);
    }
  }

  lemma {:induction false} SilenceAddsUp(
      cfg: Config, evs: seq<Event>, n: nat, start: real, interval: real, id: Target)
    requires n <= |evs| && Punctual(evs, start, interval) && LastHeard(evs, n, id).Some? && cfg.timeout >= 0.0
    ensures LastTick(evs, n, start) - LastHeard(evs, n, id).value
         <= cfg.timeout + Times(OverdueTicks(cfg, evs, n, id), interval)
    ensures OverdueTicks(cfg, evs, n, id) > 0 ==> LastTick(evs, n, start) - LastHeard(evs, n, id).value > cfg.timeout
  {
    TickNotAfterNow(evs, n - 1, start, interval);
    if (evs[n - 1].Register? || evs[n - 1].Pong?) && evs[n - 1].id == id {
    } else {
      SilenceAddsUp(cfg, evs, n - 1, start, interval, id);
    }
  }

  /** Each overdue tick moves the last tick on by at most one interval past the timeout. */
  lemma {:induction false} SilenceIsCounted(
      cfg: Config, evs: seq<Event>, n: nat, start: real, interval: real, id: Target)
    requires n <= |evs| && Punctual(evs, start, interval) && LastHeard(evs, n, id).Some? && cfg.timeout >= 0.0
    ensures Within(LastTick(evs, n, start) - LastHeard(evs, n, id).value, cfg.timeout,
                   OverdueTicks(cfg, evs, n, id), interval)
    ensures OverdueTicks(cfg, evs, n, id) > 0 ==> LastTick(evs, n, start) - LastHeard(evs, n, id).value > cfg.timeout
  {
    SilenceAddsUp(cfg, evs, n, start, interval, id);
    BoundedByProduct(LastTick(evs, n, start) - LastHeard(evs, n, id).value, cfg.timeout,
                     OverdueTicks(cfg, evs, n, id), interval);
  }

  /** The misses that lead to a report: at least one, whatever maxMissed says. */
  function Misses(cfg: Config): nat {
    if cfg.maxMissed < 1 then 1 else cfg.maxMissed
  }

  lemma {:induction false} RegisteredSilence(
      cfg: Config, evs: seq<Event>, n: nat, start: real, interval: real, id: Target)
    requires n <= |evs| && Punctual(evs, start, interval) && cfg.timeout >= 0.0 && interval >= 0.0
    requires cfg.hasCallback && id in Before(cfg, evs, n).senders
    ensures LastHeard(evs, n, id).Some?
    ensures LastTick(evs, n, start) - LastHeard(evs, n, id).value <= cfg.timeout + Times(Misses(cfg) - 1, interval)
  {
    CountersCount(cfg, evs, n);
    SilenceAddsUp(cfg, evs, n, start, interval, id);
    TimesMono(OverdueTicks(cfg, evs, n, id), Misses(cfg) - 1, interval);
  }

  /** A target still registered after a tick was heard from within the timeout and all misses but one. */
  lemma {:induction false} SilenceBounded(cfg: Config, evs: seq<Event>, n: nat, start: real, interval: real, id: Target)
    requires n <= |evs| && Punctual(evs, start, interval) && cfg.timeout >= 0.0 && interval >= 0.0
    requires cfg.hasCallback && id in Before(cfg, evs, n).senders
    ensures LastHeard(evs, n, id).Some?
    ensures Within(LastTick(evs, n, start) - LastHeard(evs, n, id).value, cfg.timeout, Misses(cfg) - 1, interval)
  {
    RegisteredSilence(cfg, evs, n, start, interval, id);
    BoundedByProduct(LastTick(evs, n, start) - LastHeard(evs, n, id).value, cfg.timeout, Misses(cfg) - 1, interval);
  }

  /** The event neither hears from the target nor unregisters it. */
  predicate Quiet(e: Event, id: Target) {
    e.Tick? || e.id != id
  }

  lemma LeavesOnlyWhenStale(cfg: Config, evs: seq<Event>, n: nat, id: Target)
    requires n < |evs| && Quiet(evs[n], id)
    requires id in Before(cfg, evs, n).senders && id !in Before(cfg, evs, n + 1).senders
    ensures id in Stale(cfg, evs, n)
  {
    var m := Before(cfg, evs, n);
    CountersCount(cfg, evs, n);
    if evs[n].Tick? {
      CheckAllByTarget(cfg, m, evs[n].at, m.senders, id);
    } else if evs[n].Unregister? {
      WithoutMembers(m.senders, evs[n].id);
    }
  }

  /** Some tick up to then has reported a target silent for longer than the timeout and all misses but one. */
  lemma {:induction false} SilentTargetLeaves(
      cfg: Config, evs: seq<Event>, i: nat, n: nat, start: real, interval: real, id: Target) returns (k: nat)
    requires i <= n <= |evs| && Punctual(evs, start, interval) && cfg.timeout >= 0.0 && interval >= 0.0
    requires cfg.hasCallback && id in Before(cfg, evs, i).senders && LastHeard(evs, i, id).Some?
    requires forall j :: i <= j < n ==> Quiet(evs[j], id)
    requires LastTick(evs, n, start) - LastHeard(evs, i, id).value > cfg.timeout + Times(Misses(cfg) - 1, interval)
    ensures i <= k < n && id in Stale(cfg, evs, k)
    ensures evs[k].at - LastHeard(evs, i, id).value <= cfg.timeout + Times(Misses(cfg), interval)
  {
    HeardStays(evs, i, n, id);
    assert id !in Before(cfg, evs, n).senders by {
      if id in Before(cfg, evs, n).senders { RegisteredSilence(cfg, evs, n, start, interval, id); }
    }
    k := LeavingEvent(cfg, evs, i, n, id);
    LeavesOnlyWhenStale(cfg, evs, k, id);
    HeardStays(evs, i, k, id);
    RegisteredSilence(cfg, evs, k, start, interval, id);
  }

  /**
   A target that is registered and falls silent is reported, and no later than the timeout
   plus maxMissed intervals after it was last heard from: if a tick comes later than the
   timeout and maxMissed - 1 intervals, some tick up to then has reported it in time.
   */
  lemma {:induction false} SilentTargetIsReported(
      cfg: Config, evs: seq<Event>, i: nat, n: nat, start: real, interval: real, id: Target) returns (k: nat)
    requires i <= n <= |evs| && Punctual(evs, start, interval) && cfg.timeout >= 0.0 && interval >= 0.0
    requires cfg.hasCallback && Enrolled(cfg, evs, i, id) && LastHeard(evs, i, id).Some?
    requires forall j :: i <= j < n ==> Quiet(evs[j], id)
    requires !Within(LastTick(evs, n, start) - LastHeard(evs, i, id).value, cfg.timeout, Misses(cfg) - 1, interval)
    ensures i <= k < n && id in Stale(cfg, evs, k)
    ensures Within(evs[k].at - LastHeard(evs, i, id).value, cfg.timeout, Misses(cfg), interval)
  {
    EnrolledExactly(cfg, evs, i, id);
    BoundedByProduct(LastTick(evs, n, start) - LastHeard(evs, i, id).value, cfg.timeout, Misses(cfg) - 1, interval);
    k := SilentTargetLeaves(cfg, evs, i, n, start, interval, id);
    BoundedByProduct(evs[k].at - LastHeard(evs, i, id).value, cfg.timeout, Misses(cfg), interval);
  }

  lemma {:induction false} LeavingEvent(cfg: Config, evs: seq<Event>, i: nat, n: nat, id: Target) returns (k: nat)
    requires i <= n <= |evs| && id in Before(cfg, evs, i).senders && id !in Before(cfg, evs, n).senders
    ensures i <= k < n && id in Before(cfg, evs, k).senders && id !in Before(cfg, evs, k + 1).senders
  {
    if id in Before(cfg, evs, n - 1).senders {
      k := n - 1;
    } else {
      k := LeavingEvent(cfg, evs, i, n - 1, id);
    }
  }

  lemma {:induction false} HeardStays(evs: seq<Event>, i: nat, n: nat, id: Target)
    requires i <= n <= |evs| && forall j :: i <= j < n ==> Quiet(evs[j], id)
    ensures LastHeard(evs, n, id) == LastHeard(evs, i, id)
  {
    if i == n {
    } else {
      HeardStays(evs, i, n - 1, id);
    }
  }
}
