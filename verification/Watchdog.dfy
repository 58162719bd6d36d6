/** The recovery policy of the tray: when a daemon may be restarted, and how often over a whole run. */
module Watchdog {
  import opened Wrappers

  const WINDOW: real := 900.0
  const STARTUP_GRACE: real := 180.0
  const WORKER_STALL_AFTER: real := 1800.0

  /** What the tray reads of the daemon: fields of its state file and whether its lock is held. */
  datatype Daemon = Daemon(
    instanceId: Option<string>, stopping: bool, stale: bool, progress: Option<real>, present: bool)

  datatype Reason = InstanceAbsent | HeartbeatStale | WorkerStalled

  function Recent(attempts: seq<real>, now: real): seq<real> {
    if attempts == [] then []
    else (if now - attempts[0] < WINDOW then [attempts[0]] else []) + Recent(attempts[1..], now)
  }

  /** `min(300, 60 * 2 ** max(0, len - 1))` for the lengths that occur. */
  function Cooldown(attempts: nat): (c: real)
    requires attempts < 3
  {
    if attempts <= 1 then 60.0 else 120.0
  }

  predicate Increasing(s: seq<real>) {
    forall i, j :: 0 <= i < j < |s| ==> s[i] < s[j]
  }

  /** What the last attempt owes to the ones before it. */
  predicate Spaced(h: seq<real>)
    requires h != []
  {
    var n := |h|;
    && (n >= 2 ==> h[n - 1] - h[n - 2] >= 60.0)
    && (n >= 3 ==> h[n - 1] - h[n - 3] >= WINDOW || h[n - 1] - h[n - 2] >= 120.0)
    && (n >= 4 ==> h[n - 1] - h[n - 4] >= WINDOW)
  }

  /** The pace of a whole history of attempts. */
  predicate Paced(history: seq<real>) {
    history == [] || (Paced(history[..|history| - 1]) && Spaced(history))
  }

  lemma {:induction false} PacedIncreasing(history: seq<real>)
    requires Paced(history)
    ensures Increasing(history)
  {
    if history != [] {
      var front := history[..|history| - 1];
      PacedIncreasing(front);
      assert forall i :: 0 <= i < |front| ==> history[i] == front[i];
      assert forall i :: 0 <= i < |front| ==> front[i] <= front[|front| - 1];
    }
  }

  lemma {:induction false} PacedAt(history: seq<real>, k: nat)
    requires Paced(history) && k < |history|
    ensures Spaced(history[..k + 1])
  {
    if k + 1 < |history| {
      var front := history[..|history| - 1];
      PacedAt(front, k);
      assert front[..k + 1] == history[..k + 1];
    } else {
      assert history[..k + 1] == history;
    }
  }

  /** Consecutive attempts are a minute apart; a third one within the window waits two minutes. */
  lemma Spacing(history: seq<real>, i: nat)
    requires Paced(history) && i + 1 < |history|
    ensures history[i + 1] - history[i] >= 60.0
    ensures i + 2 < |history| && history[i + 2] - history[i] < 900.0 ==> history[i + 2] - history[i + 1] >= 120.0
  {
    PacedAt(history, i + 1);
    if i + 2 < |history| {
      PacedAt(history, i + 2);
    }
  }

  /** Any four attempts span the window, so a half-open window of 900 seconds holds at most three. */
  lemma FourSpanWindow(history: seq<real>, i: nat, j: nat)
    requires Paced(history) && i + 3 <= j < |history|
    ensures history[j] - history[i] >= 900.0
  {
    PacedAt(history, i + 3);
    PacedIncreasing(history);
    assert i + 3 < j ==> history[i + 3] < history[j];
  }

  lemma {:induction false} AllRecent(attempts: seq<real>, now: real)
    requires forall k :: 0 <= k < |attempts| ==> now - attempts[k] < WINDOW
    ensures Recent(attempts, now) == attempts
  {
    if attempts != [] {
      AllRecent(attempts[1..], now);
    }
  }

  /** Pruning an increasing list keeps its end. */
  lemma {:induction false} RecentOfIncreasing(attempts: seq<real>, now: real) returns (m: nat)
    requires Increasing(attempts)
    ensures m <= |attempts| && Recent(attempts, now) == attempts[m..]
    ensures forall k :: 0 <= k < |attempts| ==> (now - attempts[k] < WINDOW <==> k >= m)
  {
    m := 0;
    if attempts != [] && now - attempts[0] < WINDOW {
      assert forall k :: 0 < k < |attempts| ==> attempts[0] < attempts[k];
      AllRecent(attempts, now);
    } else if attempts != [] {
      var rest := attempts[1..];
      var r := RecentOfIncreasing(rest, now);
      m := r + 1;
      assert attempts[m..] == rest[r..];
      assert forall k :: 0 < k < |attempts| ==> attempts[k] == rest[k - 1];
    }
  }

  /** What is still remembered of a history: all but the `gone` first, which are older than the window. */
  ghost predicate Remembers(attempts: seq<real>, history: seq<real>, gone: nat, now: real) {
    && gone <= |history|
    && attempts == history[gone..]
    && Expired(history, gone, now)
  }

  ghost predicate Expired(history: seq<real>, gone: nat, now: real)
    requires gone <= |history|
  {
    forall k :: 0 <= k < gone ==> now - history[k] >= WINDOW
  }

  lemma Prune(attempts: seq<real>, history: seq<real>, gone: nat, clock: real, now: real) returns (m: nat)
    requires Paced(history) && Remembers(attempts, history, gone, clock) && clock <= now
    ensures Remembers(Recent(attempts, now), history, m, now)
  {
    PacedIncreasing(history);
    TailIncreasing(history, gone);
    hide Paced, Increasing, Recent;
    var n := RecentOfIncreasing(history[gone..], now);
    m := gone + n;
    SameTail(history, gone, n);
    forall k | 0 <= k < m ensures now - history[k] >= WINDOW {
      assert k >= gone ==> history[gone..][k - gone] == history[k];
    }
  }

  lemma TailIncreasing(s: seq<real>, m: nat)
    requires Increasing(s) && m <= |s|
    ensures Increasing(s[m..])
  {
  }

  lemma SameTail(s: seq<real>, m: nat, n: nat)
    requires m + n <= |s|
    ensures s[m..][n..] == s[m + n..]
  {
  }

  /** An attempt that the policy lets through keeps the pace, although older attempts are forgotten. */
  lemma AttemptKeepsPace(attempts: seq<real>, history: seq<real>, gone: nat, now: real)
    requires Paced(history) && Remembers(attempts, history, gone, now) && |attempts| < 3
    requires history != [] ==> now - history[|history| - 1] >= Cooldown(|attempts|)
    ensures Paced(history + [now])
  {
    var n, more := |history|, history + [now];
    assert more[..n] == history;
    assert n >= 1 ==> more[n - 1] == history[n - 1];
    assert n >= 2 ==> more[n - 2] == history[n - 2];
    assert n >= 3 ==> more[n - 3] == history[n - 3] && now - history[n - 3] >= WINDOW;
  }

  /** What is wrong with a daemon that may be recovered. */
  function Diagnosis(daemon: Daemon, now: real): Option<Reason> {
    if !daemon.present then Some(InstanceAbsent)
    else if daemon.stale then Some(HeartbeatStale)
    else if daemon.progress.Some? && now - daemon.progress.value > WORKER_STALL_AFTER then Some(WorkerStalled)
    else None
  }

  predicate Admissible(attempts: seq<real>, last: Option<real>, now: real) {
    |attempts| < 3 && (last.Some? ==> now - last.value >= Cooldown(|attempts|))
  }

  // ----- The policy, stated on all attempts ever made

  /** The attempts less than 900 seconds old. */
  ghost function RecentAttempts(history: seq<real>, now: real): set<nat> {
    set k: nat | k < |history| && now - history[k] < 900.0
  }

  /** There are fewer than three recent attempts, and the last attempt is a minute ago, two minutes if two are recent. */
  ghost predicate MayAttempt(history: seq<real>, now: real) {
    var n := |RecentAttempts(history, now)|;
    n < 3 && (history != [] ==> now - history[|history| - 1] >= if n == 2 then 120.0 else 60.0)
  }

  ghost predicate Ailing(daemon: Daemon, now: real) {
    !daemon.present || daemon.stale || (daemon.progress.Some? && now - daemon.progress.value > 1800.0)
  }

  /** The reason given is the first that applies: absence, a stale heartbeat, a stalled worker. */
  lemma DiagnosisIs(daemon: Daemon, now: real)
    ensures Diagnosis(daemon, now).Some? <==> Ailing(daemon, now)
    ensures Ailing(daemon, now) ==>
              var reason := Diagnosis(daemon, now).value;
              && (reason == InstanceAbsent <==> !daemon.present)
              && (reason == HeartbeatStale <==> daemon.present && daemon.stale)
  {
  }

  lemma {:induction false} RecentAre(attempts: seq<real>, now: real)
    ensures forall k :: 0 <= k < |Recent(attempts, now)| ==> now - Recent(attempts, now)[k] < 900.0
  {
    if attempts != [] { RecentAre(attempts[1..], now); }
  }

  /** The numbers from `m` up to `n`. */
  lemma {:induction false} RangeCount(m: nat, n: nat, s: set<nat>)
    requires m <= n && forall k: nat :: k in s <==> m <= k < n
    ensures |s| == n - m
  {
    if m < n {
      RangeCount(m, n - 1, s - {n - 1});
    } else {
      assert s == {};
    }
  }

  /** What is remembered decides as the whole history does. */
  lemma MemoryDecides(attempts: seq<real>, history: seq<real>, gone: nat, last: Option<real>, now: real)
    requires Remembers(attempts, history, gone, now) && forall k :: 0 <= k < |attempts| ==> now - attempts[k] < 900.0
    requires (last.Some? <==> history != []) && (history != [] ==> last == Some(history[|history| - 1]))
    ensures Admissible(attempts, last, now) <==> MayAttempt(history, now)
  {
    var s := RecentAttempts(history, now);
    forall k: nat ensures k in s <==> gone <= k < |history| {
      if gone <= k < |history| { assert attempts[k - gone] == history[k]; }
    }
    RangeCount(gone, |history|, s);
  }

  class DaemonWatchdog {
    var instance: Option<string>
    var firstSeen: Option<real>
    var attempts: seq<real>
    var lastAttempt: Option<real>
    /** Every attempt ever made, the last time the policy was asked and how many attempts are forgotten. */
    ghost var history: seq<real>
    ghost var clock: real
    ghost var gone: nat

    ghost predicate Valid()
      reads this
    {
      && Paced(history)
      && Remembers(attempts, history, gone, clock)
      && (lastAttempt.Some? <==> history != [])
      && (history != [] ==> lastAttempt == Some(history[|history| - 1]))
    }

    constructor ()
      ensures Valid() && history == [] && clock == 0.0
    {
      instance, firstSeen, attempts, lastAttempt := None, None, [], None;
      history, clock, gone := [], 0.0, 0;
    }

    /** The number and the spacing of the remembered attempts leave room for one now. */
    predicate Allowed(now: real)
      reads this
    {
      Admissible(attempts, lastAttempt, now)
    }

    /** A new instance restarts the grace period; attempts older than the window are forgotten. */
    method Refresh(daemon: Daemon, now: real)
      requires Valid() && clock <= now
      modifies this`instance, this`firstSeen, this`attempts, this`clock, this`gone
      ensures Valid() && clock == now && attempts == Recent(old(attempts), now)
      ensures instance == daemon.instanceId
      ensures firstSeen == if daemon.instanceId == old(instance) && old(firstSeen).Some? then old(firstSeen) else Some(now)
    {
      if daemon.instanceId != instance || firstSeen.None? {
        instance, firstSeen := daemon.instanceId, Some(now);
      }
      hide Paced, Remembers, Recent;
      gone := Prune(attempts, history, gone, clock, now);
      attempts := Recent(attempts, now);
      clock := now;
    }

    /** Whether, and why, the daemon should be recovered now. */
    method Decide(daemon: Daemon, wanted: bool, enabled: bool, now: real) returns (reason: Option<Reason>)
      requires Valid() && clock <= now
      modifies this`instance, this`firstSeen, this`attempts, this`clock, this`gone
      ensures Valid() && clock == now
      ensures !wanted || !enabled || daemon.stopping ==>
                reason == None && attempts == old(attempts) && firstSeen == old(firstSeen)
      ensures wanted && enabled && !daemon.stopping ==>
                && attempts == Recent(old(attempts), now) && firstSeen.Some?
                && reason == if Allowed(now) && (daemon.present ==> now - firstSeen.value >= STARTUP_GRACE)
                             then Diagnosis(daemon, now) else None
    {
      hide Paced, Recent;
      reason := None;
      if !wanted || !enabled || daemon.stopping {
        clock := now;
        return;
      }
      Refresh(daemon, now);
      if |attempts| >= 3 {
        return;
      }
      if lastAttempt.Some? && now - lastAttempt.value < Cooldown(|attempts|) {
        return;
      }
      if daemon.present && now - firstSeen.value < STARTUP_GRACE {
        return;
      }
      reason := Diagnosis(daemon, now);
    }

    method Attempted(now: real)
      requires Valid() && clock == now && Allowed(now)
      modifies this`lastAttempt, this`attempts, this`history
      ensures Valid() && history == old(history) + [now] && attempts == old(attempts) + [now]
    {
      AttemptKeepsPace(attempts, history, gone, now);
      lastAttempt := Some(now);
      attempts := attempts + [now];
      history := history + [now];
    }

    /** One poll of the tray; over any run of polls the history stays paced. */
    method Poll(daemon: Daemon, wanted: bool, enabled: bool, recoveryActive: bool, now: real) returns (recover: bool)
      requires Valid() && clock <= now
      modifies this
      ensures Valid() && Paced(history) && clock == now
      ensures history == if recover then old(history) + [now] else old(history)
      ensures recover <==>
                && wanted && enabled && !daemon.stopping && !recoveryActive && Ailing(daemon, now)
                && MayAttempt(old(history), now) && (daemon.present ==> firstSeen.Some? && now - firstSeen.value >= 180.0)
    {
      hide MayAttempt, Admissible, Ailing, Diagnosis, Recent, Paced, Remembers;
      RecentAre(attempts, now);
      DiagnosisIs(daemon, now);
      var reason := Decide(daemon, wanted, enabled, now);
      if wanted && enabled && !daemon.stopping { MemoryDecides(attempts, history, gone, lastAttempt, now); }
      recover := reason.Some? && !recoveryActive;
      if recover {
        Attempted(now);
      }
    }
  }
}
