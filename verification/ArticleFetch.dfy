/** NVNewsgroup::getarticle in several processes, for one article number: the shared lock is held
    while the news server is asked, and given up in setarticle before the exclusive one is had. */
module ArticleFetch {

  /** Idle: outside getarticle(). Looking: has the shared lock. Asking: found the article missing and
      asks the server, still with the shared lock. Waiting: has the answer and no lock. Storing: has
      the exclusive lock. Leaving: has stored the answer and has no lock. Returning: has the shared
      lock again. */
  datatype Pc = Idle | Looking | Asking | Waiting | Storing | Leaving | Returning

  /** within: the number is in the window of the newsgroup. local: the article can be read there. */
  datatype State = State(procs: map<nat, Pc>, within: bool, local: bool, asked: nat)

  datatype Step =
    | Lock(pid: nat)
    | Look(pid: nat)
    | Answer(pid: nat, found: bool)
    | Upgrade(pid: nat)
    | Store(pid: nat)
    | Downgrade(pid: nat)
    | Unlock(pid: nat)
    | Resize(within: bool)
    | Unlink

  predicate Holds(pc: Pc) {
    pc == Looking || pc == Asking || pc == Storing || pc == Returning
  }

  predicate AllFree(s: State) {
    forall q :: q in s.procs ==> !Holds(s.procs[q])
  }

  predicate NoneStores(s: State) {
    forall q :: q in s.procs ==> s.procs[q] != Storing
  }

  predicate Enabled(s: State, step: Step) {
    match step
    case Lock(p) => p in s.procs && s.procs[p] == Idle && NoneStores(s)
    case Look(p) => p in s.procs && s.procs[p] == Looking
    case Answer(p, _) => p in s.procs && s.procs[p] == Asking
    case Upgrade(p) => p in s.procs && s.procs[p] == Waiting && AllFree(s)
    case Store(p) => p in s.procs && s.procs[p] == Storing
    case Downgrade(p) => p in s.procs && s.procs[p] == Leaving && NoneStores(s)
    case Unlock(p) => p in s.procs && s.procs[p] == Returning
    // setsize takes the exclusive lock
    case Resize(_) => AllFree(s)
    // the cleaner takes none
    case Unlink => true
  }

  function Apply(s: State, step: Step): State
    requires Enabled(s, step)
  {
    match step
    case Lock(p) => s.(procs := s.procs[p := Looking])
    case Look(p) =>
      if Missing(s) then s.(procs := s.procs[p := Asking], asked := s.asked + 1)
      else s.(procs := s.procs[p := Returning])
    case Answer(p, found) => s.(procs := s.procs[p := if found then Waiting else Returning])
    case Upgrade(p) => s.(procs := s.procs[p := Storing])
    // a number that has left the window meanwhile is not stored
    case Store(p) => s.(procs := s.procs[p := Leaving], local := s.within)
    case Downgrade(p) => s.(procs := s.procs[p := Returning])
    case Unlock(p) => s.(procs := s.procs[p := Idle])
    case Resize(w) => s.(within := w, local := s.local && w)
    case Unlink => s.(local := false)
  }

  predicate Missing(s: State) {
    s.within && !s.local
  }

  predicate Initial(s: State) {
    s.asked == 0 && (s.local ==> s.within) && forall p :: p in s.procs ==> s.procs[p] == Idle
  }

  ghost predicate Run(ss: seq<State>, steps: seq<Step>) {
    && |ss| == |steps| + 1
    && Initial(ss[0])
    && forall i :: 0 <= i < |steps| ==> Enabled(ss[i], steps[i]) && ss[i + 1] == Apply(ss[i], steps[i])
  }

  ghost predicate Inv(s: State) {
    && (s.local ==> s.within)
    && (forall p, q :: p in s.procs && q in s.procs && s.procs[p] == Storing && Holds(s.procs[q]) ==> p == q)
    && (forall p :: p in s.procs && s.procs[p] == Asking ==> Missing(s))
  }

  /** Nobody changes the newsgroup while another process reads it, and what a process found missing
      is missing until it has its answer. */
  lemma {:induction false} RunInv(ss: seq<State>, steps: seq<Step>)
    requires Run(ss, steps)
    ensures forall i :: 0 <= i < |ss| ==> Inv(ss[i])
  {
    if steps != [] {
      var n := |steps| - 1;
      RunInv(ss[..n + 1], steps[..n]);
      assert Inv(ss[..n + 1][n]);
      StepInv(ss[n], steps[n]);
    }
  }

  lemma StepInv(s: State, step: Step)
    requires Inv(s) && Enabled(s, step)
    ensures Inv(Apply(s, step))
  {
  }

  // ----- how often the server is asked -----

  /** An answer is on its way to the newsgroup. */
  predicate Pending(pc: Pc) {
    pc == Asking || pc == Waiting || pc == Storing
  }

  predicate UnderWay(s: State) {
    exists p :: p in s.procs && Pending(s.procs[p])
  }

  /** The article is not taken away, and the server has it. */
  predicate Quiet(steps: seq<Step>) {
    forall i :: 0 <= i < |steps| ==>
      steps[i] != Unlink && steps[i] != Resize(false) && !(steps[i].Answer? && !steps[i].found)
  }

  /** A process looks for the article while the answer to another is on its way. */
  predicate LooksEarly(s: State, step: Step) {
    step.Look? && Missing(s) && UnderWay(s)
  }

  ghost predicate Known(s: State) {
    && (s.asked >= 1 ==> s.local || UnderWay(s))
    && (UnderWay(s) ==> s.asked >= 1 && s.within)
  }

  lemma StepKnown(s: State, step: Step)
    requires Known(s) && Enabled(s, step) && Quiet([step])
    ensures Known(Apply(s, step))
  {
    var t := Apply(s, step);
    assert [step][0] == step;
    forall p | p in t.procs && Pending(t.procs[p]) && !(step.Look? && step.pid == p)
      ensures UnderWay(s)
    {
      assert Pending(s.procs[p]);
    }
    if UnderWay(s) {
      var p :| p in s.procs && Pending(s.procs[p]);
      assert !step.Store? ==> Pending(t.procs[p]);
    }
    if step.Look? && Missing(s) {
      assert Pending(t.procs[step.pid]);
    }
  }

  /** The server is asked a second time exactly when a process looks before the answer to another is
      stored. The shared lock does not keep it from that. */
  lemma {:induction false} AskedTwiceIff(ss: seq<State>, steps: seq<Step>)
    requires Run(ss, steps) && Quiet(steps)
    ensures ss[|steps|].asked >= 2 <==> exists i :: 0 <= i < |steps| && LooksEarly(ss[i], steps[i])
    ensures Known(ss[|steps|])
  {
    hide Enabled, Apply, Missing, UnderWay;
    if steps == [] {
      NoneUnderWay(ss[0]);
    } else {
      var n := |steps| - 1;
      var front := steps[..n];
      AskedTwiceIff(ss[..n + 1], front);
      assert ss[..n + 1][n] == ss[n] && Quiet([steps[n]]);
      assert forall i :: 0 <= i < n ==> front[i] == steps[i] && ss[..n + 1][i] == ss[i];
      StepKnown(ss[n], steps[n]);
      AskedBy(ss[n], steps[n]);
    }
  }

  lemma NoneUnderWay(s: State)
    requires Initial(s)
    ensures !UnderWay(s)
  {
  }

  lemma AskedBy(s: State, step: Step)
    requires Enabled(s, step)
    ensures Apply(s, step).asked == if step.Look? && Missing(s) then s.asked + 1 else s.asked
    ensures Known(s) && Missing(s) ==> (s.asked >= 1 <==> UnderWay(s))
  {
  }

  /** When all are done, the article is there if anyone asked for it. */
  lemma AnswerStays(ss: seq<State>, steps: seq<Step>)
    requires Run(ss, steps) && Quiet(steps)
    requires forall p :: p in ss[|steps|].procs ==> ss[|steps|].procs[p] == Idle
    ensures ss[|steps|].asked >= 1 ==> ss[|steps|].local
  {
    AskedTwiceIff(ss, steps);
  }

  // ----- everybody comes to an end -----

  /** A step of a process that has begun, on a server that has the article. */
  predicate Ending(step: Step) {
    step.Look? || (step.Answer? && step.found) || step.Upgrade? || step.Store? || step.Downgrade? || step.Unlock?
  }

  ghost predicate Ends(steps: seq<Step>, more: seq<Step>) {
    steps <= more && forall i :: |steps| <= i < |more| ==> Ending(more[i])
  }

  lemma EndsOn(a: seq<Step>, b: seq<Step>, c: seq<Step>)
    requires Ends(a, b) && Ends(b, c)
    ensures Ends(a, c)
  {
  }

  /** The step a process takes next. */
  function NextStep(pc: Pc, p: nat): Step
    requires pc != Idle
  {
    match pc
    case Looking => Look(p)
    case Asking => Answer(p, true)
    case Waiting => Upgrade(p)
    case Storing => Store(p)
    case Leaving => Downgrade(p)
    case Returning => Unlock(p)
  }

  function ToGo(pc: Pc): nat {
    match pc
    case Looking => 6
    case Asking => 5
    case Waiting => 4
    case Storing => 3
    case Leaving => 2
    case Returning => 1
    case Idle => 0
  }

  /** Only p has moved. */
  ghost predicate Others(s: State, t: State, p: nat) {
    t.procs.Keys == s.procs.Keys && forall q :: q in s.procs && q != p ==> t.procs[q] == s.procs[q]
  }

  lemma Go(ss: seq<State>, steps: seq<Step>, p: nat) returns (tt: seq<State>, more: seq<Step>)
    requires Run(ss, steps) && p in ss[|steps|].procs && ss[|steps|].procs[p] != Idle
    requires Enabled(ss[|steps|], NextStep(ss[|steps|].procs[p], p))
    ensures Run(tt, more) && |tt| == |more| + 1 && Ends(steps, more) && Others(ss[|steps|], tt[|more|], p)
    ensures tt[|more|] == Apply(ss[|steps|], NextStep(ss[|steps|].procs[p], p))
    ensures ToGo(tt[|more|].procs[p]) < ToGo(ss[|steps|].procs[p])
  {
    hide Enabled, Initial;
    var step := NextStep(ss[|steps|].procs[p], p);
    tt, more := ss + [Apply(ss[|steps|], step)], steps + [step];
  }

  /** A process with a lock goes on until it has none. */
  lemma {:induction false} Release(ss: seq<State>, steps: seq<Step>, p: nat) returns (tt: seq<State>, more: seq<Step>)
    requires Run(ss, steps) && p in ss[|steps|].procs
    ensures Run(tt, more) && |tt| == |more| + 1 && Ends(steps, more) && Others(ss[|steps|], tt[|more|], p)
    ensures !Holds(tt[|more|].procs[p])
    decreases ToGo(ss[|steps|].procs[p])
  {
    hide Run, Apply;
    tt, more := ss, steps;
    Length(ss, steps);
    if Holds(ss[|steps|].procs[p]) {
      tt, more := Go(ss, steps, p);
      ghost var mid := more;
      tt, more := Release(tt, more, p);
      EndsOn(steps, mid, more);
    }
  }

  lemma {:induction false} ReleaseAll(ss: seq<State>, steps: seq<Step>, holders: set<nat>)
      returns (tt: seq<State>, more: seq<Step>)
    requires Run(ss, steps)
    requires holders == (set q | q in ss[|steps|].procs && Holds(ss[|steps|].procs[q]))
    ensures Run(tt, more) && |tt| == |more| + 1 && Ends(steps, more)
    ensures AllFree(tt[|more|]) && tt[|more|].procs.Keys == ss[|steps|].procs.Keys
    decreases |holders|
  {
    hide Run, Holds;
    tt, more := ss, steps;
    Length(ss, steps);
    if holders == {} {
      assert forall q :: q in ss[|steps|].procs ==> q in holders || !Holds(ss[|steps|].procs[q]);
    } else {
      var p :| p in holders;
      tt, more := Release(ss, steps, p);
      ghost var mid, t := more, tt[|more|];
      var rest := set q | q in t.procs && Holds(t.procs[q]);
      assert rest == holders - {p};
      tt, more := ReleaseAll(tt, more, rest);
      EndsOn(steps, mid, more);
    }
  }

  /** While nobody else has a lock, a process goes on to the end. */
  lemma {:induction false} Settle(ss: seq<State>, steps: seq<Step>, p: nat) returns (tt: seq<State>, more: seq<Step>)
    requires Run(ss, steps) && p in ss[|steps|].procs
    requires forall q :: q in ss[|steps|].procs && q != p ==> !Holds(ss[|steps|].procs[q])
    ensures Run(tt, more) && |tt| == |more| + 1 && Ends(steps, more) && Others(ss[|steps|], tt[|more|], p)
    ensures tt[|more|].procs[p] == Idle
    decreases ToGo(ss[|steps|].procs[p])
  {
    hide Run, Apply;
    tt, more := ss, steps;
    Length(ss, steps);
    if ss[|steps|].procs[p] != Idle {
      tt, more := Go(ss, steps, p);
      ghost var mid := more;
      tt, more := Settle(tt, more, p);
      EndsOn(steps, mid, more);
    }
  }

  lemma {:induction false} SettleAll(ss: seq<State>, steps: seq<Step>, busy: set<nat>)
      returns (tt: seq<State>, more: seq<Step>)
    requires Run(ss, steps) && AllFree(ss[|steps|])
    requires busy == (set q | q in ss[|steps|].procs && ss[|steps|].procs[q] != Idle)
    ensures Run(tt, more) && |tt| == |more| + 1 && Ends(steps, more)
    ensures forall q :: q in tt[|more|].procs ==> tt[|more|].procs[q] == Idle
    ensures tt[|more|].procs.Keys == ss[|steps|].procs.Keys
    decreases |busy|
  {
    hide Run;
    tt, more := ss, steps;
    Length(ss, steps);
    if busy == {} {
      assert forall q :: q in ss[|steps|].procs ==> q in busy || ss[|steps|].procs[q] == Idle;
    } else {
      var p :| p in busy;
      tt, more := Settle(ss, steps, p);
      ghost var mid, t := more, tt[|more|];
      var rest := set q | q in t.procs && t.procs[q] != Idle;
      assert rest == busy - {p};
      tt, more := SettleAll(tt, more, rest);
      EndsOn(steps, mid, more);
    }
  }

  /** Every run goes on to a state where all processes are done; after a quiet run the article is
      then there if anyone asked for it. */
  lemma AllEnd(ss: seq<State>, steps: seq<Step>) returns (tt: seq<State>, more: seq<Step>)
    requires Run(ss, steps)
    ensures Run(tt, more) && |tt| == |more| + 1 && Ends(steps, more)
    ensures forall q :: q in tt[|more|].procs ==> tt[|more|].procs[q] == Idle
    ensures tt[|more|].procs.Keys == ss[|steps|].procs.Keys
    ensures Quiet(steps) && tt[|more|].asked >= 1 ==> tt[|more|].local
  {
    hide Run, Holds;
    Length(ss, steps);
    var s := ss[|steps|];
    tt, more := ReleaseAll(ss, steps, set q | q in s.procs && Holds(s.procs[q]));
    ghost var mid, t := more, tt[|more|];
    tt, more := SettleAll(tt, more, set q | q in t.procs && t.procs[q] != Idle);
    EndsOn(steps, mid, more);
    if Quiet(steps) {
      QuietEnds(steps, more);
      AnswerStays(tt, more);
    }
  }

  lemma QuietEnds(steps: seq<Step>, more: seq<Step>)
    requires Quiet(steps) && Ends(steps, more)
    ensures Quiet(more)
  {
    assert forall i :: 0 <= i < |steps| ==> more[i] == steps[i];
  }

  // ----- everybody asks -----

  /** Of k processes the first m are asking. */
  function Crowd(k: nat, m: nat): State {
    State(Pcs(k, m), true, false, m)
  }

  function Pcs(k: nat, m: nat): (procs: map<nat, Pc>)
    ensures forall p: nat :: p in procs <==> p < k
    ensures forall p: nat :: p in procs ==> procs[p] == if p < m then Asking else Idle
  {
    if k == 0 then map[] else Pcs(k - 1, m)[k - 1 := if k - 1 < m then Asking else Idle]
  }

  lemma Extend(ss: seq<State>, steps: seq<Step>, step: Step)
    requires Run(ss, steps) && Quiet(steps) && Enabled(ss[|steps|], step) && Quiet([step])
    ensures Run(ss + [Apply(ss[|steps|], step)], steps + [step]) && Quiet(steps + [step])
  {
    hide Enabled, Apply, Initial;
    assert [step][0] == step;
  }

  /** However many processes there are, there is a quiet run in which every one of them asks. */
  lemma {:induction false} AllAsk(k: nat, m: nat) returns (ss: seq<State>, steps: seq<Step>)
    requires m <= k
    ensures Run(ss, steps) && Quiet(steps) && ss[|steps|] == Crowd(k, m)
  {
    hide Run, Quiet, Enabled, Apply;
    if m == 0 {
      CrowdStarts(k);
      ss, steps := [Crowd(k, 0)], [];
    } else {
      var p := m - 1;
      ss, steps := AllAsk(k, p);
      NextAsks(k, p);
      Length(ss, steps);
      Extend(ss, steps, Lock(p));
      ss, steps := ss + [Apply(Crowd(k, p), Lock(p))], steps + [Lock(p)];
      Length(ss, steps);
      Extend(ss, steps, Look(p));
      ss, steps := ss + [Crowd(k, m)], steps + [Look(p)];
    }
  }

  lemma Length(ss: seq<State>, steps: seq<Step>)
    requires Run(ss, steps)
    ensures |ss| == |steps| + 1
  {
  }

  lemma CrowdStarts(k: nat)
    ensures Run([Crowd(k, 0)], []) && Quiet([])
  {
  }

  lemma NextAsks(k: nat, p: nat)
    requires p < k
    ensures Enabled(Crowd(k, p), Lock(p)) && Quiet([Lock(p)]) && Quiet([Look(p)])
    ensures var t := Apply(Crowd(k, p), Lock(p)); Enabled(t, Look(p)) && Apply(t, Look(p)) == Crowd(k, p + 1)
  {
    var t := Apply(Crowd(k, p), Lock(p));
    assert t.procs[p := Asking] == Crowd(k, p + 1).procs;
  }
}
