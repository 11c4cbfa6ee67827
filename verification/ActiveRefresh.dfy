/** CServer::active: processes that find the active database expired queue for its exclusive
    lock, look again, and only then download. The database's modification time is written by
    NVActiveDB::read through setmtime, which moves it forward, and by invalidateActiveDB, which
    forces it to 0. */
module ActiveRefresh {

  /** Idle: outside active(). Queued: saw it expired, waiting for the lock. Locked: has it.
      Expired: saw it expired again under the lock. Loading: inside RServer::active(). */
  datatype Pc = Idle | Queued | Locked | Expired | Loading

  datatype Event = Started(pid: nat, time: nat) | Stamped(pid: nat, time: nat) | Invalidated(pid: nat)

  datatype State = State(procs: map<nat, Pc>, now: nat, mtime: nat, log: seq<Event>)

  datatype Step =
    | Tick
    | Check(pid: nat)
    | Lock(pid: nat)
    | Recheck(pid: nat)
    | Start(pid: nat)
    | Stamp(pid: nat, time: nat)
    | Unlock(pid: nat)
    | Invalidate(pid: nat)

  predicate Valid(s: State, ttl: nat) {
    s.mtime + ttl > s.now
  }

  predicate InLock(pc: Pc) {
    pc == Locked || pc == Expired || pc == Loading
  }

  predicate Enabled(s: State, step: Step) {
    match step
    case Tick => true
    case Check(p) => p in s.procs && s.procs[p] == Idle
    case Lock(p) => p in s.procs && s.procs[p] == Queued && forall q :: q in s.procs ==> !InLock(s.procs[q])
    case Recheck(p) => p in s.procs && s.procs[p] == Locked
    case Start(p) => p in s.procs && s.procs[p] == Expired
    // read() takes the time some while before it stores it
    case Stamp(p, time) => p in s.procs && s.procs[p] == Loading && time <= s.now
    // a download may also fail without a stamp
    case Unlock(p) => p in s.procs && (s.procs[p] == Locked || s.procs[p] == Loading)
    // setmtime takes the lock for itself
    case Invalidate(p) => p in s.procs && s.procs[p] == Idle && forall q :: q in s.procs ==> !InLock(s.procs[q])
  }

  function Apply(s: State, step: Step, ttl: nat): State
    requires Enabled(s, step)
  {
    match step
    case Tick => s.(now := s.now + 1)
    case Check(p) => if Valid(s, ttl) then s else s.(procs := s.procs[p := Queued])
    case Lock(p) => s.(procs := s.procs[p := Locked])
    case Recheck(p) => s.(procs := s.procs[p := if Valid(s, ttl) then Idle else Expired])
    case Start(p) => s.(procs := s.procs[p := Loading], log := s.log + [Started(p, s.now)])
    case Stamp(p, time) =>
      s.(mtime := if time > s.mtime then time else s.mtime, log := s.log + [Stamped(p, time)])
    case Unlock(p) => s.(procs := s.procs[p := Idle])
    case Invalidate(p) => s.(mtime := 0, log := s.log + [Invalidated(p)])
  }

  predicate Initial(s: State) {
    s.log == [] && forall p :: p in s.procs ==> s.procs[p] == Idle
  }

  ghost predicate Run(ss: seq<State>, steps: seq<Step>, ttl: nat) {
    && |ss| == |steps| + 1
    && Initial(ss[0])
    && forall i :: 0 <= i < |steps| ==> Enabled(ss[i], steps[i]) && ss[i + 1] == Apply(ss[i], steps[i], ttl)
  }

  /** The stamp i still counts at j: nobody has invalidated the database in between. */
  ghost predicate Counts(log: seq<Event>, i: nat, j: nat)
    requires i < j <= |log|
  {
    log[i].Stamped? && forall k :: i < k < j ==> !log[k].Invalidated?
  }

  /** Every start comes a full TTL after every earlier stamp that still counts. */
  ghost predicate Spaced(log: seq<Event>, ttl: nat) {
    forall i, j :: 0 <= i < j < |log| && Counts(log, i, j) && log[j].Started? ==> log[i].time + ttl <= log[j].time
  }

  ghost predicate Inv(s: State, ttl: nat) {
    && (forall p, q :: p in s.procs && q in s.procs && InLock(s.procs[p]) && InLock(s.procs[q]) ==> p == q)
    && (forall p :: p in s.procs && s.procs[p] == Expired ==> !Valid(s, ttl))
    && (forall i :: 0 <= i < |s.log| && Counts(s.log, i, |s.log|) ==> s.log[i].time <= s.mtime)
    && Spaced(s.log, ttl)
  }

  lemma StepInv(s: State, step: Step, ttl: nat)
    requires Inv(s, ttl) && Enabled(s, step)
    ensures Inv(Apply(s, step, ttl), ttl)
  {
    var t := Apply(s, step, ttl);
    forall i, j | 0 <= i < j <= |s.log| && j <= |t.log| && Counts(t.log, i, j)
      ensures Counts(s.log, i, j)
    {
      assert t.log[i] == s.log[i];
      assert forall k :: i < k < j ==> t.log[k] == s.log[k];
    }
    if |t.log| > |s.log| {
      forall i | 0 <= i < |s.log| && Counts(t.log, i, |t.log|)
        ensures Counts(t.log, i, |s.log|) && !t.log[|s.log|].Invalidated?
      {
      }
    }
  }

  lemma {:induction false} RunInv(ss: seq<State>, steps: seq<Step>, ttl: nat)
    requires Run(ss, steps, ttl)
    ensures forall i :: 0 <= i < |ss| ==> Inv(ss[i], ttl)
  {
    if steps != [] {
      var n := |steps| - 1;
      RunInv(ss[..n + 1], steps[..n], ttl);
      assert Inv(ss[..n + 1][n], ttl);
      StepInv(ss[n], steps[n], ttl);
    }
  }

  /** Once a download has stamped the database with time t, no process starts another before
      t + ttl, however many processes saw it expired before, unless one invalidates it. */
  lemma NoEarlyDownload(ss: seq<State>, steps: seq<Step>, ttl: nat, i: nat, j: nat)
    requires Run(ss, steps, ttl)
    requires i < j < |ss[|steps|].log| && Counts(ss[|steps|].log, i, j) && ss[|steps|].log[j].Started?
    ensures ss[|steps|].log[i].time + ttl <= ss[|steps|].log[j].time
  {
    RunInv(ss, steps, ttl);
  }

  /** At any time at most one process is downloading. */
  lemma OneDownload(ss: seq<State>, steps: seq<Step>, ttl: nat, i: nat, p: nat, q: nat)
    requires Run(ss, steps, ttl) && i < |ss| && p in ss[i].procs && q in ss[i].procs
    requires ss[i].procs[p] == Loading && ss[i].procs[q] == Loading
    ensures p == q
  {
    RunInv(ss, steps, ttl);
  }

  // ----- an expired database is refreshed -----

  /** A step of p's own. */
  predicate By(step: Step, p: nat) {
    match step
    case Tick => false
    case Check(q) => q == p
    case Lock(q) => q == p
    case Recheck(q) => q == p
    case Start(q) => q == p
    case Stamp(q, _) => q == p
    case Unlock(q) => q == p
    case Invalidate(q) => q == p
  }

  lemma Extend(ss: seq<State>, steps: seq<Step>, step: Step, ttl: nat) returns (tt: seq<State>, more: seq<Step>)
    requires Run(ss, steps, ttl) && Enabled(ss[|steps|], step)
    ensures Run(tt, more, ttl) && more == steps + [step] && tt == ss + [Apply(ss[|steps|], step, ttl)]
  {
    hide Enabled, Apply, Initial;
    tt, more := ss + [Apply(ss[|steps|], step, ttl)], steps + [step];
  }

  /** Whenever the database has expired and nobody is in the lock, any idle process by itself gets
      it downloaded, with one start and one stamp, and leaves the lock again. */
  lemma Refreshes(ss: seq<State>, steps: seq<Step>, ttl: nat, p: nat) returns (tt: seq<State>, more: seq<Step>)
    requires Run(ss, steps, ttl)
    requires var s := ss[|steps|];
      && p in s.procs && s.procs[p] == Idle && s.mtime + ttl <= s.now
      && forall q :: q in s.procs ==> !InLock(s.procs[q])
    ensures Run(ss + tt, steps + more, ttl) && |tt| == |more| && forall i :: 0 <= i < |more| ==> By(more[i], p)
    ensures var s := ss[|steps|];
      (ss + tt)[|steps + more|] == State(s.procs, s.now, s.now, s.log + [Started(p, s.now), Stamped(p, s.now)])
  {
    hide Run, Enabled, Apply;
    RunLength(ss, steps, ttl);
    var s := ss[|steps|];
    var all, way := ss, steps;
    forall k | 0 <= k < 6
      ensures Enabled(Stage(s, p, k), OwnStep(s, p, k))
      ensures Apply(Stage(s, p, k), OwnStep(s, p, k), ttl) == Stage(s, p, k + 1)
    {
      NextStage(s, p, k, ttl);
    }
    var k := 0;
    tt, more := [], [];
    StageEnds(s, p);
    while k < 6
      invariant 0 <= k <= 6 && |tt| == |more| == k && all == ss + tt && way == steps + more
      invariant Run(all, way, ttl) && |ss| == |steps| + 1 && all[|way|] == Stage(s, p, k)
      invariant forall i :: 0 <= i < |more| ==> By(more[i], p)
    {
      all, way := Extend(all, way, OwnStep(s, p, k), ttl);
      tt, more := tt + [Stage(s, p, k + 1)], more + [OwnStep(s, p, k)];
      OwnIsBy(s, p, k);
      k := k + 1;
    }
  }

  /** Either look at the database sends a process away exactly when the last refresh is recent. */
  lemma LookDecides(ss: seq<State>, steps: seq<Step>, ttl: nat, i: nat, p: nat)
    requires Run(ss, steps, ttl) && i < |steps| && (steps[i] == Check(p) || steps[i] == Recheck(p))
    ensures p in ss[i + 1].procs && (ss[i + 1].procs[p] == Idle <==> ss[i].mtime + ttl > ss[i].now)
  {
    assert Enabled(ss[i], steps[i]);
  }

  /** What a process does after its look under the lock is to start the download, exactly when the
      last refresh lay a TTL back. */
  lemma RecheckDecides(ss: seq<State>, steps: seq<Step>, ttl: nat, i: nat, p: nat)
    requires Run(ss, steps, ttl) && i < |steps| && steps[i] == Recheck(p)
    ensures forall j :: i < j < |steps| && By(steps[j], p) && (forall k :: i < k < j ==> !By(steps[k], p)) ==>
      && (steps[j] == Start(p) <==> ss[i].mtime + ttl <= ss[i].now)
      && (steps[j] == Start(p) ==> ss[j + 1].log == ss[j].log + [Started(p, ss[j].now)])
  {
    LookDecides(ss, steps, ttl, i, p);
    var after := ss[i + 1].procs[p];
    forall j | i < j < |steps| && By(steps[j], p) && forall k :: i < k < j ==> !By(steps[k], p)
      ensures p in ss[j].procs && ss[j].procs[p] == after
    {
      Unmoved(ss, steps, ttl, i + 1, j, p);
    }
  }

  lemma {:induction false} Unmoved(ss: seq<State>, steps: seq<Step>, ttl: nat, i: nat, j: nat, p: nat)
    requires Run(ss, steps, ttl) && i <= j < |ss| && p in ss[i].procs
    requires forall k :: i <= k < j ==> !By(steps[k], p)
    ensures p in ss[j].procs && ss[j].procs[p] == ss[i].procs[p]
  {
    if i < j {
      Unmoved(ss, steps, ttl, i, j - 1, p);
      assert !By(steps[j - 1], p);
    }
  }

  /** Where the time of the last refresh is from: the latest stamp that still counts; without one
      it is 0 behind an invalidation, and else what it was at the start. */
  ghost predicate TimeFrom(s: State, start: nat) {
    || (exists i :: 0 <= i < |s.log| && Counts(s.log, i, |s.log|) && s.log[i].time == s.mtime)
    || (s.mtime == 0 && exists i :: 0 <= i < |s.log| && s.log[i].Invalidated?)
    || (s.mtime == start && forall i :: 0 <= i < |s.log| ==> !s.log[i].Invalidated?)
  }

  lemma {:induction false} MtimeIs(ss: seq<State>, steps: seq<Step>, ttl: nat, n: nat)
    requires Run(ss, steps, ttl) && n < |ss|
    ensures TimeFrom(ss[n], ss[0].mtime)
    ensures forall i :: 0 <= i < |ss[n].log| && Counts(ss[n].log, i, |ss[n].log|) ==> ss[n].log[i].time <= ss[n].mtime
  {
    hide TimeFrom;
    RunInv(ss, steps, ttl);
    if n == 0 {
      NoLog(ss[0]);
    } else {
      MtimeIs(ss, steps, ttl, n - 1);
      StepTime(ss[n - 1], steps[n - 1], ttl, ss[0].mtime);
    }
  }

  lemma NoLog(s: State)
    requires s.log == []
    ensures TimeFrom(s, s.mtime)
  {
  }

  lemma StepTime(s: State, step: Step, ttl: nat, start: nat)
    requires TimeFrom(s, start) && Enabled(s, step)
    ensures TimeFrom(Apply(s, step, ttl), start)
  {
    var t, n := Apply(s, step, ttl), |s.log|;
    assert forall i :: 0 <= i < n ==> t.log[i] == s.log[i];
    if i :| 0 <= i < n && Counts(s.log, i, n) && s.log[i].time == s.mtime {
      assert !step.Invalidate? ==> Counts(t.log, i, |t.log|);
    }
    if step.Stamp? {
      assert Counts(t.log, n, n + 1);
    }
    if step.Invalidate? {
      assert t.log[n].Invalidated?;
    }
  }

  /** The way of p through active() while the others stand still. */
  function OwnStep(s: State, p: nat, k: nat): Step {
    if k == 0 then Check(p) else if k == 1 then Lock(p) else if k == 2 then Recheck(p)
    else if k == 3 then Start(p) else if k == 4 then Stamp(p, s.now) else Unlock(p)
  }

  function Stage(s: State, p: nat, k: nat): State {
    var pcs := [Idle, Queued, Locked, Expired, Loading, Loading, Idle];
    var log := if k <= 3 then [] else if k == 4 then [Started(p, s.now)] else [Started(p, s.now), Stamped(p, s.now)];
    s.(procs := s.procs[p := if k < |pcs| then pcs[k] else Idle],
       mtime := if k <= 4 then s.mtime else s.now, log := s.log + log)
  }

  lemma NextStage(s: State, p: nat, k: nat, ttl: nat)
    requires p in s.procs && s.procs[p] == Idle && s.mtime + ttl <= s.now && k < 6
    requires forall q :: q in s.procs ==> !InLock(s.procs[q])
    ensures Enabled(Stage(s, p, k), OwnStep(s, p, k))
    ensures Apply(Stage(s, p, k), OwnStep(s, p, k), ttl) == Stage(s, p, k + 1)
  {
    var t, u := Stage(s, p, k), Stage(s, p, k + 1);
    assert t.procs[p := u.procs[p]] == u.procs;
  }

  lemma StageEnds(s: State, p: nat)
    requires p in s.procs && s.procs[p] == Idle
    ensures Stage(s, p, 0) == s
    ensures Stage(s, p, 6) == State(s.procs, s.now, s.now, s.log + [Started(p, s.now), Stamped(p, s.now)])
  {
    assert s.procs[p := Idle] == s.procs;
  }

  lemma OwnIsBy(s: State, p: nat, k: nat)
    ensures By(OwnStep(s, p, k), p)
  {
  }

  lemma RunLength(ss: seq<State>, steps: seq<Step>, ttl: nat)
    requires Run(ss, steps, ttl)
    ensures |ss| == |steps| + 1
  {
  }
}
