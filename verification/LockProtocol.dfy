/** Processes sharing one container file through NVcontainer::lock: each has a stack of
    nested requests, one OS lock on the file, a mapping of the file and, for an NVArray, a
    cached window. nvflock drops the old OS lock before it asks for the new one, so an
    upgrade or downgrade is two steps with a gap between them. */
module LockProtocol {

  const STACK_SIZE: nat := 16

  datatype Mode = UnLock | ShrdLock | ExclLock {
    function Rank(): nat {
      match this case UnLock => 0 case ShrdLock => 1 case ExclLock => 2
    }
  }

  /** Ready: outside nvflock. Waiting: old lock dropped, new one not yet granted.
      Mapping: granted, make_current not yet done. */
  datatype Phase = Ready | Waiting | Mapping

  datatype Window = Window(fst: nat, lst: nat)

  /** held: what the OS has granted. size and win: the mapping and the cached window.
      wants: the nested requests as they were made, outermost first (WantsAre). */
  datatype Proc = Proc(stack: seq<Mode>, wants: seq<Mode>, phase: Phase, held: Mode, size: nat, win: Window)

  datatype State = State(procs: map<nat, Proc>, size: nat, win: Window)

  datatype Step =
    | Lock(pid: nat, mode: Mode)
    | Unlock(pid: nat)
    | Acquire(pid: nat)
    | Remap(pid: nat)
    | Resize(pid: nat, size: nat)
    | SetWindow(pid: nat, win: Window)

  function Top(stack: seq<Mode>): Mode {
    if stack == [] then UnLock else stack[|stack| - 1]
  }

  /** The strongest of the outstanding requests. */
  function Strongest(wants: seq<Mode>): Mode {
    if wants == [] then UnLock
    else
      var last, rest := wants[|wants| - 1], Strongest(wants[..|wants| - 1]);
      if last.Rank() >= rest.Rank() then last else rest
  }

  predicate Compatible(s: State, pid: nat, mode: Mode) {
    forall q :: q in s.procs && q != pid ==>
      s.procs[q].held == UnLock || (mode == ShrdLock && s.procs[q].held == ShrdLock)
  }

  predicate Enabled(s: State, step: Step) {
    step.pid in s.procs &&
    var p := s.procs[step.pid];
    match step
    case Lock(_, mode) => p.phase == Ready && mode != UnLock
    case Unlock(_) => p.phase == Ready
    case Acquire(pid) => p.phase == Waiting && Compatible(s, pid, Top(p.stack))
    case Remap(_) => p.phase == Mapping
    case Resize(_, size) => p.phase == Ready && p.held == ExclLock && s.size <= size
    case SetWindow(_, _) => p.phase == Ready && p.held == ExclLock
  }

  /** lock(mode): a full stack throws and changes nothing; a request nested in an exclusive
      one becomes exclusive; only a changed mode reaches nvflock. */
  function LockProc(p: Proc, mode: Mode): Proc {
    if |p.stack| == STACK_SIZE then p
    else
      var cur := Top(p.stack);
      var command := if cur == ExclLock then ExclLock else mode;
      var q := p.(stack := p.stack + [command], wants := p.wants + [mode]);
      if cur == command then q else q.(phase := Waiting, held := UnLock)
  }

  /** lock(UnLock): an empty stack throws; otherwise back to the enclosing request's mode. */
  function UnlockProc(p: Proc): Proc {
    if p.stack == [] then p
    else
      var cur := Top(p.stack);
      var q := p.(stack := p.stack[..|p.stack| - 1],
                  wants := if p.wants == [] then [] else p.wants[..|p.wants| - 1]);
      var command := Top(q.stack);
      if cur == command then q
      else if command == UnLock then q.(held := UnLock)
      else q.(phase := Waiting, held := UnLock)
  }

  function Apply(s: State, step: Step): State
    requires Enabled(s, step)
  {
    var p := s.procs[step.pid];
    match step
    case Lock(pid, mode) => s.(procs := s.procs[pid := LockProc(p, mode)])
    case Unlock(pid) => s.(procs := s.procs[pid := UnlockProc(p)])
    case Acquire(pid) => s.(procs := s.procs[pid := p.(phase := Mapping, held := Top(p.stack))])
    case Remap(pid) => s.(procs := s.procs[pid := p.(phase := Ready, size := s.size, win := s.win)])
    case Resize(pid, size) =>
      s.(size := size, procs := s.procs[pid := p.(size := size, win := s.win)])
    case SetWindow(pid, win) => s.(win := win, procs := s.procs[pid := p.(win := win)])
  }

  predicate Initial(s: State) {
    forall pid :: pid in s.procs ==>
      var p := s.procs[pid];
      p.stack == [] && p.wants == [] && p.phase == Ready && p.held == UnLock
  }

  ghost predicate Path(ss: seq<State>, steps: seq<Step>) {
    && |ss| == |steps| + 1
    && forall i :: 0 <= i < |steps| ==> Enabled(ss[i], steps[i]) && ss[i + 1] == Apply(ss[i], steps[i])
  }

  ghost predicate Run(ss: seq<State>, steps: seq<Step>) {
    Path(ss, steps) && Initial(ss[0])
  }

  // ----- the invariant -----

  /** The stack holds at each depth the strongest request made up to there. */
  ghost predicate StackOk(p: Proc) {
    && |p.wants| == |p.stack| <= STACK_SIZE
    && forall i :: 0 <= i < |p.stack| ==>
         p.wants[i] != UnLock && p.stack[i] == Strongest(p.wants[..i + 1])
  }

  ghost predicate HeldOk(p: Proc) {
    if p.phase == Waiting then p.held == UnLock && p.stack != [] else p.held == Top(p.stack)
  }

  ghost predicate Current(s: State, p: Proc) {
    p.phase == Ready && p.held != UnLock ==> p.size == s.size && p.win == s.win
  }

  ghost predicate ProcOk(s: State, p: Proc) {
    StackOk(p) && HeldOk(p) && Current(s, p)
  }

  ghost predicate Exclusion(s: State) {
    forall p, q :: p in s.procs && q in s.procs && p != q && s.procs[p].held == ExclLock ==>
      s.procs[q].held == UnLock
  }

  ghost predicate Inv(s: State) {
    Exclusion(s) && forall pid :: pid in s.procs ==> ProcOk(s, s.procs[pid])
  }

  lemma StrongestSnoc(wants: seq<Mode>, m: Mode)
    ensures Strongest(wants + [m]) ==
      if m.Rank() >= Strongest(wants).Rank() then m else Strongest(wants)
  {
    assert (wants + [m])[..|wants|] == wants;
  }

  lemma TopStrongest(p: Proc)
    requires StackOk(p)
    ensures Top(p.stack) == Strongest(p.wants)
  {
    if p.stack != [] {
      assert p.wants[..|p.stack|] == p.wants;
    }
  }

  lemma LockOk(p: Proc, mode: Mode)
    requires StackOk(p) && HeldOk(p) && p.phase == Ready && mode != UnLock
    ensures StackOk(LockProc(p, mode)) && HeldOk(LockProc(p, mode))
  {
    hide Strongest, StackOk;
    var q := LockProc(p, mode);
    if q != p {
      TopStrongest(p);
      StrongestSnoc(p.wants, mode);
      PushOk(p, q.stack[|p.stack|], mode);
      StackOnly(p.(stack := q.stack, wants := q.wants), q);
    }
  }

  lemma StackOnly(p: Proc, q: Proc)
    requires StackOk(p) && q.stack == p.stack && q.wants == p.wants
    ensures StackOk(q)
  {
    hide Strongest;
  }

  /** One more request, with the strongest mode on top. */
  lemma PushOk(p: Proc, command: Mode, mode: Mode)
    requires StackOk(p) && |p.stack| != STACK_SIZE && mode != UnLock && command == Strongest(p.wants + [mode])
    ensures StackOk(p.(stack := p.stack + [command], wants := p.wants + [mode]))
  {
    hide Strongest;
    var stack, wants := p.stack + [command], p.wants + [mode];
    forall i | 0 <= i < |stack|
      ensures wants[i] != UnLock && stack[i] == Strongest(wants[..i + 1])
    {
      if i < |p.stack| {
        assert wants[..i + 1] == p.wants[..i + 1];
      } else {
        assert wants[..i + 1] == wants;
      }
    }
  }

  lemma UnlockOk(p: Proc)
    requires StackOk(p) && HeldOk(p) && p.phase == Ready
    ensures StackOk(UnlockProc(p)) && HeldOk(UnlockProc(p))
  {
    var q := UnlockProc(p);
    forall i | 0 <= i < |q.stack|
      ensures q.wants[i] != UnLock && q.stack[i] == Strongest(q.wants[..i + 1])
    {
      assert q.wants[..i + 1] == p.wants[..i + 1];
    }
  }

  lemma StepInv(s: State, step: Step)
    requires Inv(s) && Enabled(s, step)
    ensures Inv(Apply(s, step))
  {
    hide StackOk, LockProc, UnlockProc, Top;
    StepExcludes(s, step);
    var t := Apply(s, step);
    forall pid | pid in t.procs
      ensures ProcOk(t, t.procs[pid])
    {
      if pid == step.pid {
        Moved(s, step);
      } else {
        Unmoved(s, step, pid);
      }
    }
  }

  lemma StepExcludes(s: State, step: Step)
    requires Inv(s) && Enabled(s, step)
    ensures Exclusion(Apply(s, step))
  {
    hide StackOk, Top;
    assert ProcOk(s, s.procs[step.pid]);
  }

  /** The process that moves. */
  lemma Moved(s: State, step: Step)
    requires Inv(s) && Enabled(s, step)
    ensures step.pid in s.procs && ProcOk(Apply(s, step), Apply(s, step).procs[step.pid])
  {
    hide StackOk, Exclusion;
    var p := s.procs[step.pid];
    assert ProcOk(s, p);
    if step.Lock? {
      LockOk(p, step.mode);
    } else if step.Unlock? {
      UnlockOk(p);
    } else {
      StackOnly(p, Apply(s, step).procs[step.pid]);
    }
  }

  /** The others: what the file has changes only while they hold nothing. */
  lemma Unmoved(s: State, step: Step, q: nat)
    requires Inv(s) && Enabled(s, step) && q in s.procs && q != step.pid
    ensures ProcOk(Apply(s, step), s.procs[q])
  {
    hide StackOk, HeldOk, LockProc, UnlockProc, Top;
    assert ProcOk(s, s.procs[q]);
  }

  lemma {:induction false} RunInv(ss: seq<State>, steps: seq<Step>)
    requires Run(ss, steps)
    ensures forall i :: 0 <= i < |ss| ==> Inv(ss[i])
  {
    if steps != [] {
      var n := |steps| - 1;
      RunInv(ss[..n + 1], steps[..n]);
      assert Inv(ss[..n + 1][n]);
      StepInv(ss[n], steps[n]);
    }
  }

  /** The requests that process pid has made and not taken back, outermost first: one more for each
      Lock while there is room for it, one less for each Unlock. */
  function Requests(steps: seq<Step>, pid: nat): (r: seq<Mode>)
    ensures |r| <= STACK_SIZE
  {
    if steps == [] then []
    else
      var r, last := Requests(steps[..|steps| - 1], pid), steps[|steps| - 1];
      if last.Lock? && last.pid == pid && |r| < STACK_SIZE then r + [last.mode]
      else if last.Unlock? && last.pid == pid && r != [] then r[..|r| - 1]
      else r
  }

  /** What the state remembers of a process is what it asked for. */
  lemma {:induction false} WantsAre(ss: seq<State>, steps: seq<Step>, i: nat, pid: nat)
    requires Run(ss, steps) && i < |ss| && pid in ss[i].procs
    ensures ss[i].procs[pid].wants == Requests(steps[..i], pid)
  {
    hide Requests, Enabled, Apply, StackOk, HeldOk, Exclusion;
    RequestsStep(steps, i, pid);
    if i > 0 {
      RunInv(ss, steps);
      WantsStep(ss[i - 1], steps[i - 1], pid);
      WantsAre(ss, steps, i - 1, pid);
    }
  }

  lemma WantsStep(s: State, step: Step, pid: nat)
    requires Inv(s) && Enabled(s, step) && pid in Apply(s, step).procs
    ensures pid in s.procs
    ensures var w := s.procs[pid].wants;
      Apply(s, step).procs[pid].wants ==
        if step.Lock? && step.pid == pid && |w| < STACK_SIZE then w + [step.mode]
        else if step.Unlock? && step.pid == pid && w != [] then w[..|w| - 1]
        else w
  {
    hide Exclusion;
    assert ProcOk(s, s.procs[step.pid]);
  }

  lemma RequestsStep(steps: seq<Step>, i: nat, pid: nat)
    requires i <= |steps|
    ensures i == 0 ==> Requests(steps[..i], pid) == []
    ensures i > 0 ==> var r, last := Requests(steps[..i - 1], pid), steps[i - 1];
      Requests(steps[..i], pid) ==
        if last.Lock? && last.pid == pid && |r| < STACK_SIZE then r + [last.mode]
        else if last.Unlock? && last.pid == pid && r != [] then r[..|r| - 1]
        else r
  {
    if i > 0 {
      assert steps[..i][..i - 1] == steps[..i - 1];
    }
  }

  /** In every state of every run, a process outside nvflock holds exactly the strongest of
      its outstanding requests, and while it holds any lock its mapping and its window are
      those of the file, whatever others did in the gap. */
  lemma HeldIsStrongest(ss: seq<State>, steps: seq<Step>, i: nat, pid: nat)
    requires Run(ss, steps) && i < |ss| && pid in ss[i].procs && ss[i].procs[pid].phase == Ready
    ensures var p, r := ss[i].procs[pid], Requests(steps[..i], pid);
      && p.held == (if ExclLock in r then ExclLock else if ShrdLock in r then ShrdLock else UnLock)
      && (p.held != UnLock ==> p.size == ss[i].size && p.win == ss[i].win)
  {
    RunInv(ss, steps);
    TopStrongest(ss[i].procs[pid]);
    WantsAre(ss, steps, i, pid);
    StrongestIs(ss[i].procs[pid].wants);
  }

  lemma {:induction false} StrongestIs(wants: seq<Mode>)
    ensures Strongest(wants) == if ExclLock in wants then ExclLock else if ShrdLock in wants then ShrdLock else UnLock
  {
    if wants != [] {
      var n := |wants| - 1;
      StrongestIs(wants[..n]);
      assert wants == wants[..n] + [wants[n]];
    }
  }

  // ----- every nesting of requests is possible -----

  const ALONE: Proc := Proc([], [], Ready, UnLock, 1, Window(1, 0))

  predicate OnlyProc(s: State) {
    s.procs.Keys == {0} && s.procs[0].phase == Ready
  }

  /** A process may nest shared and exclusive requests in any order, as deep as the stack. */
  lemma {:induction false} AnyNesting(wants: seq<Mode>) returns (ss: seq<State>, steps: seq<Step>)
    requires |wants| <= STACK_SIZE && UnLock !in wants
    ensures Run(ss, steps) && |ss| == |steps| + 1 && OnlyProc(ss[|steps|]) && Requests(steps, 0) == wants
  {
    hide Run, Inv, Apply, LockProc, Requests;
    if wants == [] {
      ss, steps := [State(map[0 := ALONE], 1, Window(1, 0))], [];
      AloneRuns(ss[0]);
    } else {
      var n := |wants| - 1;
      ss, steps := AnyNesting(wants[..n]);
      RunInv(ss, steps);
      ss, steps := OneMore(ss, steps, wants[n]);
      assert wants == wants[..n] + [wants[n]];
    }
  }

  lemma AloneRuns(s: State)
    requires s == State(map[0 := ALONE], 1, Window(1, 0))
    ensures Run([s], []) && OnlyProc(s) && Requests([], 0) == []
  {
  }

  lemma OneMore(ss: seq<State>, steps: seq<Step>, mode: Mode) returns (tt: seq<State>, more: seq<Step>)
    requires Run(ss, steps) && |ss| == |steps| + 1 && OnlyProc(ss[|steps|]) && mode != UnLock
    requires |Requests(steps, 0)| < STACK_SIZE
    ensures Run(tt, more) && |tt| == |more| + 1 && OnlyProc(tt[|more|])
    ensures Requests(more, 0) == Requests(steps, 0) + [mode]
  {
    hide Run, Requests;
    tt, more := Next(ss, steps, Lock(0, mode));
    if tt[|more|].procs[0].phase == Waiting {
      tt, more := Next(tt, more, Acquire(0));
      tt, more := Next(tt, more, Remap(0));
    }
  }

  lemma Next(ss: seq<State>, steps: seq<Step>, step: Step) returns (tt: seq<State>, more: seq<Step>)
    requires Run(ss, steps) && |ss| == |steps| + 1 && Enabled(ss[|steps|], step)
    ensures Run(tt, more) && |tt| == |more| + 1 && tt[|more|] == Apply(ss[|steps|], step)
    ensures var r := Requests(steps, 0);
      Requests(more, 0) ==
        if step.Lock? && step.pid == 0 && |r| < STACK_SIZE then r + [step.mode]
        else if step.Unlock? && step.pid == 0 && r != [] then r[..|r| - 1]
        else r
  {
    hide Enabled, Apply, Initial;
    tt, more := ss + [Apply(ss[|steps|], step)], steps + [step];
    assert more[..|more| - 1] == steps;
  }

  // ----- no deadlock -----

  /** q stands in the way of pid, and is itself free to go on. */
  ghost predicate Blocks(s: State, q: nat, pid: nat) {
    && q in s.procs && q != pid && (Enabled(s, Unlock(q)) || Enabled(s, Remap(q)))
    && (|| s.procs[q].held == ExclLock
        || (s.procs[q].held == ShrdLock && pid in s.procs && Top(s.procs[pid].stack) == ExclLock))
  }

  /** Upgrading readers do not wait for each other: what keeps a waiting process from its lock is
      always a process that is not waiting. */
  lemma NoUpgradeDeadlock(ss: seq<State>, steps: seq<Step>, i: nat, pid: nat)
    requires Run(ss, steps) && i < |ss| && pid in ss[i].procs && ss[i].procs[pid].phase == Waiting
    ensures !Enabled(ss[i], Acquire(pid)) <==> exists q :: Blocks(ss[i], q, pid)
  {
    hide StackOk, Exclusion, Current, Run;
    RunInv(ss, steps);
    var s := ss[i];
    assert ProcOk(s, s.procs[pid]);
    TopNotIdle(s.procs[pid]);
    if !Enabled(s, Acquire(pid)) {
      var q :| q in s.procs && q != pid && s.procs[q].held != UnLock
        && !(Top(s.procs[pid].stack) == ShrdLock && s.procs[q].held == ShrdLock);
      assert ProcOk(s, s.procs[q]);
      assert Blocks(s, q, pid);
    }
  }

  lemma TopNotIdle(p: Proc)
    requires StackOk(p) && p.stack != []
    ensures Top(p.stack) != UnLock
  {
    var n := |p.stack| - 1;
    assert p.wants[..n + 1][..n] == p.wants[..n];
    assert p.wants[..n + 1][n] == p.wants[n];
  }

  /** Outside nvflock with nothing requested. */
  predicate Idle(p: Proc) {
    p.stack == [] && p.phase == Ready
  }

  predicate AllIdle(s: State) {
    forall q :: q in s.procs ==> Idle(s.procs[q])
  }

  predicate Releasing(steps: seq<Step>) {
    forall i :: 0 <= i < |steps| ==> steps[i].Acquire? || steps[i].Remap? || steps[i].Unlock?
  }

  lemma Before(s: State, step: Step, ss: seq<State>, steps: seq<Step>)
    requires Enabled(s, step) && Path(ss, steps) && ss[0] == Apply(s, step)
    ensures Path([s] + ss, [step] + steps)
  {
    var tt, more := [s] + ss, [step] + steps;
    forall i | 0 <= i < |more|
      ensures Enabled(tt[i], more[i]) && tt[i + 1] == Apply(tt[i], more[i])
    {
      if i > 0 {
        assert tt[i] == ss[i - 1] && more[i] == steps[i - 1];
      }
    }
  }

  lemma After(ss: seq<State>, steps: seq<Step>, tt: seq<State>, more: seq<Step>)
    requires Path(ss, steps) && Path(tt, more) && ss[|ss| - 1] == tt[0]
    ensures var all := ss + tt[1..];
      Path(all, steps + more) && all[0] == ss[0] && |all| == |ss| + |more| && all[|all| - 1] == tt[|tt| - 1]
  {
    var all, way := ss + tt[1..], steps + more;
    forall i | 0 <= i < |way|
      ensures Enabled(all[i], way[i]) && all[i + 1] == Apply(all[i], way[i])
    {
      if i >= |steps| {
        assert all[i] == tt[i - |steps|] && all[i + 1] == tt[i - |steps| + 1];
      }
    }
  }

  /** The mode of an enclosing request is no stronger. */
  lemma EnclosingWeaker(p: Proc)
    requires StackOk(p) && p.stack != []
    ensures Top(p.stack[..|p.stack| - 1]).Rank() <= Top(p.stack).Rank()
  {
    hide Strongest;
    var n := |p.stack| - 1;
    assert p.stack[n] == Strongest(p.wants[..n + 1]);
    StrongestSnoc(p.wants[..n], p.wants[n]);
    assert p.wants[..n + 1] == p.wants[..n] + [p.wants[n]];
    if n > 0 {
      assert p.stack[n - 1] == Strongest(p.wants[..n - 1 + 1]);
      assert p.stack[..n][n - 1] == p.stack[n - 1];
    }
  }

  /** A release inside a request of another mode leaves the way to that mode open. */
  lemma ReleaseOpens(s: State, pid: nat)
    requires Inv(s) && Enabled(s, Unlock(pid)) && s.procs[pid].stack != []
    ensures var t := Apply(s, Unlock(pid)); t.procs[pid].phase == Waiting ==> Enabled(t, Acquire(pid))
  {
    hide StackOk, Current;
    var p, t := s.procs[pid], Apply(s, Unlock(pid));
    assert ProcOk(s, p);
    EnclosingWeaker(p);
    if t.procs[pid].phase == Waiting {
      assert Top(p.stack) == ExclLock && Top(t.procs[pid].stack) == ShrdLock;
      assert forall q :: q in s.procs && q != pid ==> s.procs[q].held == UnLock && t.procs[q] == s.procs[q];
    }
  }

  function ToGo(phase: Phase): nat {
    match phase case Waiting => 2 case Mapping => 1 case Ready => 0
  }

  /** One process goes on until it has released everything, the others standing still. */
  lemma {:induction false} DrainOne(s: State, pid: nat) returns (ss: seq<State>, steps: seq<Step>)
    requires Inv(s) && pid in s.procs && (s.procs[pid].phase == Waiting ==> Enabled(s, Acquire(pid)))
    ensures |ss| == |steps| + 1 && Path(ss, steps) && ss[0] == s && Releasing(steps) && Inv(ss[|ss| - 1])
    ensures var t := ss[|ss| - 1];
      && t.procs.Keys == s.procs.Keys && Idle(t.procs[pid])
      && forall q :: q in s.procs && q != pid ==> t.procs[q] == s.procs[q]
    decreases |s.procs[pid].stack|, ToGo(s.procs[pid].phase)
  {
    hide Inv;
    var p := s.procs[pid];
    ss, steps := [s], [];
    if !Idle(p) {
      var step := match p.phase case Waiting => Acquire(pid) case Mapping => Remap(pid) case Ready => Unlock(pid);
      StepInv(s, step);
      if step.Unlock? {
        ReleaseOpens(s, pid);
      }
      ss, steps := DrainOne(Apply(s, step), pid);
      Before(s, step, ss, steps);
      ss, steps := [s] + ss, [step] + steps;
    }
  }

  lemma NoSteps(s: State)
    ensures Path([s], [])
  {
  }

  /** From every state a run can be in, the processes can all go on until none has a lock or
      waits for one. */
  lemma {:induction false} Drain(s: State, busy: set<nat>) returns (ss: seq<State>, steps: seq<Step>)
    requires Inv(s) && busy == (set q | q in s.procs && !Idle(s.procs[q]))
    ensures |ss| == |steps| + 1 && Path(ss, steps) && ss[0] == s && Releasing(steps)
    ensures AllIdle(ss[|ss| - 1]) && ss[|ss| - 1].procs.Keys == s.procs.Keys
    decreases |busy|
  {
    hide Inv, Path, Idle;
    ss, steps := [s], [];
    if busy == {} {
      NoSteps(s);
      assert forall q :: q in s.procs ==> q in busy || Idle(s.procs[q]);
    } else {
      var pid := Mover(s, busy);
      ss, steps := DrainOne(s, pid);
      var t := ss[|ss| - 1];
      var rest := set q | q in t.procs && !Idle(t.procs[q]);
      assert rest == busy - {pid};
      var tt, more := Drain(t, rest);
      After(ss, steps, tt, more);
      ss, steps := ss + tt[1..], steps + more;
    }
  }

  /** A process that can go on: one that is not waiting, or any if all are. */
  lemma Mover(s: State, busy: set<nat>) returns (pid: nat)
    requires Inv(s) && busy == (set q | q in s.procs && !Idle(s.procs[q])) && busy != {}
    ensures pid in busy && (s.procs[pid].phase == Waiting ==> Enabled(s, Acquire(pid)))
  {
    pid :| pid in busy;
    if exists q :: q in busy && s.procs[q].phase != Waiting {
      pid :| pid in busy && s.procs[pid].phase != Waiting;
    } else {
      forall q | q in s.procs
        ensures s.procs[q].held == UnLock
      {
        assert ProcOk(s, s.procs[q]);
      }
    }
  }

  lemma NoDeadlock(ss: seq<State>, steps: seq<Step>) returns (tt: seq<State>, more: seq<Step>)
    requires Run(ss, steps)
    ensures Run(ss + tt, steps + more) && Releasing(more) && |tt| == |more|
    ensures var last := (ss + tt)[|ss + tt| - 1];
      AllIdle(last) && last.procs.Keys == ss[|ss| - 1].procs.Keys
  {
    RunInv(ss, steps);
    var s := ss[|ss| - 1];
    tt, more := Drain(s, set q | q in s.procs && !Idle(s.procs[q]));
    After(ss, steps, tt, more);
    assert tt[|tt| - 1] == (ss + tt[1..])[|ss + tt[1..]| - 1];
    tt := tt[1..];
  }

  const BEFORE := Window(1, 0)
  const AFTER := Window(1, 9)

  lemma ReaderReads() returns (ss: seq<State>, steps: seq<Step>)
    ensures Run(ss, steps) && |ss| == 4
    ensures ss[3] == State(map[0 := Proc([ShrdLock], [ShrdLock], Ready, ShrdLock, 1, BEFORE),
                               1 := Proc([], [], Ready, UnLock, 1, BEFORE)], 1, BEFORE)
  {
    hide Run;
    ss, steps := ReaderAsks();
    var idle := Proc([], [], Ready, UnLock, 1, BEFORE);
    ss, steps := Then(ss, steps, Acquire(0));
    ss, steps := Then(ss, steps, Remap(0));
    assert ss[3].procs == map[0 := Proc([ShrdLock], [ShrdLock], Ready, ShrdLock, 1, BEFORE), 1 := idle];
  }

  lemma ReaderAsks() returns (ss: seq<State>, steps: seq<Step>)
    ensures Run(ss, steps) && |ss| == 2
    ensures ss[1] == State(map[0 := Proc([ShrdLock], [ShrdLock], Waiting, UnLock, 1, BEFORE),
                               1 := Proc([], [], Ready, UnLock, 1, BEFORE)], 1, BEFORE)
  {
    hide Run;
    var idle := Proc([], [], Ready, UnLock, 1, BEFORE);
    ss, steps := Begin(idle);
    ss, steps := Then(ss, steps, Lock(0, ShrdLock));
    assert ss[1].procs[0] == Proc([ShrdLock], [ShrdLock], Waiting, UnLock, 1, BEFORE);
    assert ss[1].procs == map[0 := Proc([ShrdLock], [ShrdLock], Waiting, UnLock, 1, BEFORE), 1 := idle];
  }

  lemma Begin(idle: Proc) returns (ss: seq<State>, steps: seq<Step>)
    requires idle == Proc([], [], Ready, UnLock, 1, BEFORE)
    ensures Run(ss, steps) && ss == [State(map[0 := idle, 1 := idle], 1, BEFORE)]
  {
    ss, steps := [State(map[0 := idle, 1 := idle], 1, BEFORE)], [];
  }

  lemma OtherEnters(ss: seq<State>, steps: seq<Step>) returns (tt: seq<State>, more: seq<Step>)
    requires Run(ss, steps) && |ss| == 4
    requires ss[3] == State(map[0 := Proc([ShrdLock], [ShrdLock], Ready, ShrdLock, 1, BEFORE),
                                1 := Proc([], [], Ready, UnLock, 1, BEFORE)], 1, BEFORE)
    ensures Run(tt, more) && |tt| == 8 && tt[3] == ss[3]
    ensures tt[7] == State(map[0 := Proc([ShrdLock, ExclLock], [ShrdLock, ExclLock], Waiting, UnLock, 1, BEFORE),
                               1 := Proc([ExclLock], [ExclLock], Ready, ExclLock, 1, BEFORE)], 1, BEFORE)
  {
    hide Run;
    tt, more := Then(ss, steps, Lock(0, ExclLock));
    tt, more := Then(tt, more, Lock(1, ExclLock));
    tt, more := Then(tt, more, Acquire(1));
    tt, more := Then(tt, more, Remap(1));
    assert tt[7].procs[0] == Proc([ShrdLock, ExclLock], [ShrdLock, ExclLock], Waiting, UnLock, 1, BEFORE);
    assert tt[7].procs[1] == Proc([ExclLock], [ExclLock], Ready, ExclLock, 1, BEFORE);
    assert tt[7].procs == map[0 := tt[7].procs[0], 1 := tt[7].procs[1]];
  }

  /** The gap is real: between asking for an upgrade and getting it, a reader can lose the
      file to another process that resizes it and moves the window. */
  lemma UpgradeGap() returns (ss: seq<State>, steps: seq<Step>)
    ensures Run(ss, steps) && |ss| == 13 && 0 in ss[3].procs && 0 in ss[12].procs
    ensures var p, q := ss[3].procs[0], ss[12].procs[0];
      && p.phase == Ready && p.held == ShrdLock && p.wants == [ShrdLock]
      && q.phase == Ready && q.held == ExclLock && q.wants == [ShrdLock, ExclLock]
      && ss[3].size < ss[12].size && ss[3].win != ss[12].win && q.win == ss[12].win
  {
    hide Run;
    ss, steps := ReaderReads();
    ss, steps := OtherEnters(ss, steps);
    ss, steps := Then(ss, steps, Resize(1, 2));
    ss, steps := Then(ss, steps, SetWindow(1, AFTER));
    ss, steps := Then(ss, steps, Unlock(1));
    ss, steps := Then(ss, steps, Acquire(0));
    ss, steps := Then(ss, steps, Remap(0));
  }

  lemma Then(ss: seq<State>, steps: seq<Step>, step: Step) returns (tt: seq<State>, more: seq<Step>)
    requires Run(ss, steps) && Enabled(ss[|ss| - 1], step)
    ensures Run(tt, more) && |tt| == |ss| + 1 && tt[..|ss|] == ss && tt[|ss|] == Apply(ss[|ss| - 1], step)
  {
    tt, more := ss + [Apply(ss[|ss| - 1], step)], steps + [step];
  }

  // ----- the lock stack of one process -----

  /** A process outside nvflock with this stack, holding what is on top. */
  function Resting(stack: seq<Mode>): Proc {
    Proc(stack, stack, Ready, Top(stack), 0, Window(1, 0))
  }

  /** lock(cmd). */
  function Asked(p: Proc, cmd: Mode): Proc {
    if cmd == UnLock then UnlockProc(p) else LockProc(p, cmd)
  }

  class LockStack {
    /** Grows downwards: the innermost request is at lck_stackp. */
    const lck_stack: array<Mode>
    var lck_stackp: nat

    ghost predicate Valid()
      reads this
    {
      lck_stack.Length == STACK_SIZE && lck_stackp <= STACK_SIZE
    }

    /** Outermost request first. */
    ghost function Contents(): (s: seq<Mode>)
      requires Valid()
      reads this, lck_stack
      ensures |s| == STACK_SIZE - lck_stackp
    {
      seq(STACK_SIZE - lck_stackp, i requires 0 <= i < STACK_SIZE - lck_stackp reads this, lck_stack =>
        lck_stack[STACK_SIZE - 1 - i])
    }

    constructor ()
      ensures Valid() && fresh(lck_stack) && Contents() == []
    {
      lck_stack := new Mode[STACK_SIZE](_ => UnLock);
      lck_stackp := STACK_SIZE;
    }

    method GetLock() returns (mode: Mode)
      requires Valid()
      ensures mode == Top(Contents())
    {
      return if lck_stackp < STACK_SIZE then lck_stack[lck_stackp] else UnLock;
    }

    /** lock() up to nvflock: the stack becomes that of the step Lock or Unlock. An overflow or
        underflow throws and changes nothing. relock: nvflock is called, for the given mode,
        which is when the OS lock has to change. */
    method Lock(cmd: Mode) returns (ok: bool, relock: bool, mode: Mode)
      requires Valid()
      modifies this, lck_stack
      ensures Valid()
      ensures ok <==> if cmd == UnLock then old(Contents()) != [] else |old(Contents())| < STACK_SIZE
      ensures Contents() == Asked(Resting(old(Contents())), cmd).stack
      ensures ok ==> mode == Top(Contents()) && (relock <==> mode != Top(old(Contents())))
      ensures ok && !relock ==> Asked(Resting(old(Contents())), cmd).held == mode
      ensures !ok ==> Contents() == old(Contents())
      ensures ok && cmd == UnLock ==> Contents() == old(Contents())[..|old(Contents())| - 1]
      ensures ok && cmd != UnLock ==>
        Contents() == old(Contents()) + [if Top(old(Contents())) == ExclLock then ExclLock else cmd]
    {
      var curLock := GetLock();
      mode := cmd;
      if cmd == UnLock {
        if lck_stackp >= STACK_SIZE {
          return false, false, mode;
        }
        lck_stackp := lck_stackp + 1;
        mode := GetLock();
        assert Contents() == old(Contents())[..|old(Contents())| - 1];
      } else {
        if lck_stackp == 0 {
          return false, false, mode;
        }
        if curLock == ExclLock {
          mode := ExclLock;
        }
        lck_stackp := lck_stackp - 1;
        lck_stack[lck_stackp] := mode;
        assert Contents() == old(Contents()) + [mode];
      }
      return true, curLock != mode, mode;
    }
  }
}
