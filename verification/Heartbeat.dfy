/**
 The heartbeat manager: periodic ticks count, for every registered target, how often it was
 found silent for longer than the timeout, and report it as stale after enough misses. The
 stale callback is the server's, which unregisters the target.
 */
module Heartbeat {
  import opened Sequences

  type Target = string

  datatype Config = Config(timeout: real, maxMissed: int, hasCallback: bool)

  /** Registered targets in the order they were registered, and what is recorded of targets. */
  datatype Manager = Manager(lastPong: map<Target, real>, missed: map<Target, nat>, senders: seq<Target>)

  function Without<T(==)>(s: seq<T>, x: T): seq<T> {
    if s == [] then [] else (if s[0] == x then [] else [s[0]]) + Without(s[1..], x)
  }

  function Refresh(m: Manager, now: real, id: Target): Manager {
    m.(lastPong := m.lastPong[id := now], missed := m.missed[id := 0])
  }

  function Registered(m: Manager, now: real, id: Target): Manager {
    Refresh(m, now, id).(senders := if id in m.senders then m.senders else m.senders + [id])
  }

  function Unregistered(m: Manager, id: Target): Manager {
    Manager(m.lastPong - {id}, m.missed - {id}, Without(m.senders, id))
  }

  /** Silent for longer than the timeout; a target with no record counts as just heard from. */
  predicate Overdue(cfg: Config, m: Manager, now: real, id: Target) {
    id in m.lastPong && now - m.lastPong[id] > cfg.timeout
  }

  function MissesAfter(m: Manager, id: Target): nat {
    (if id in m.missed then m.missed[id] else 0) + 1
  }

  predicate GoesStale(cfg: Config, m: Manager, now: real, id: Target) {
    Overdue(cfg, m, now, id) && MissesAfter(m, id) >= cfg.maxMissed && cfg.hasCallback
  }

  function CheckTarget(cfg: Config, m: Manager, now: real, id: Target): Manager {
    if !Overdue(cfg, m, now, id) then m
    else if GoesStale(cfg, m, now, id) then Unregistered(m, id)
    else m.(missed := m.missed[id := MissesAfter(m, id)])
  }

  /** Checking the targets of a snapshot in turn: the manager after it, and those reported stale. */
  function CheckAll(cfg: Config, m: Manager, now: real, snapshot: seq<Target>): (Manager, seq<Target>)
    decreases snapshot
  {
    if snapshot == [] then (m, []) else
      var id := snapshot[0];
      var (after, later) := CheckAll(cfg, CheckTarget(cfg, m, now, id), now, snapshot[1..]);
      (after, (if GoesStale(cfg, m, now, id) then [id] else []) + later)
  }

  class HeartbeatManager {
    const cfg: Config
    var lastPong: map<Target, real>
    var missed: map<Target, nat>
    var senders: seq<Target>

    ghost function State(): Manager
      reads this
    {
      Manager(lastPong, missed, senders)
    }

    constructor (cfg: Config)
      ensures this.cfg == cfg && State() == Manager(map[], map[], [])
    {
      this.cfg := cfg;
      lastPong, missed, senders := map[], map[], [];
    }

    method Register(now: real, id: Target)
      modifies this
      ensures State() == Registered(old(State()), now, id)
    {
      lastPong := lastPong[id := now];
      missed := missed[id := 0];
      if id !in senders {
        senders := senders + [id];
      }
    }

    method Unregister(id: Target)
      modifies this
      ensures State() == Unregistered(old(State()), id)
    {
      lastPong := lastPong - {id};
      missed := missed - {id};
      senders := Without(senders, id);
    }

    method RecordPong(now: real, id: Target)
      modifies this
      ensures State() == Refresh(old(State()), now, id)
    {
      lastPong := lastPong[id := now];
      missed := missed[id := 0];
    }

    method Tick(now: real) returns (stale: seq<Target>)
      modifies this
      ensures (State(), stale) == CheckAll(cfg, old(State()), now, old(senders))
    {
      var snapshot := senders;
      stale := [];
      ghost var whole := CheckAll(cfg, State(), now, snapshot);
      assert [] + whole.1 == whole.1 && snapshot[0..] == snapshot;
      for i := 0 to |snapshot|
        invariant whole == (CheckAll(cfg, State(), now, snapshot[i..]).0,
                            stale + CheckAll(cfg, State(), now, snapshot[i..]).1)
      {
        var id := snapshot[i];
        ghost var before := State();
        ghost var later := CheckAll(cfg, CheckTarget(cfg, before, now, id), now, snapshot[i + 1..]).1;
        assert snapshot[i..][1..] == snapshot[i + 1..];
        assert stale + [] == stale;
        assert stale + ((if GoesStale(cfg, before, now, id) then [id] else []) + later)
            == stale + (if GoesStale(cfg, before, now, id) then [id] else []) + later;
        if id in lastPong && now - lastPong[id] > cfg.timeout {
          var misses := (if id in missed then missed[id] else 0) + 1;
          missed := missed[id := misses];
          if misses >= cfg.maxMissed && cfg.hasCallback {
            stale := stale + [id];
            Unregister(id);
            assert before.missed[id := misses] - {id} == before.missed - {id};
          }
        }
        assert State() == CheckTarget(cfg, before, now, id);
      }
      assert stale + [] == stale;
    }
  }
}
