/** NVHash::open: several processes open the same new file and each creates the bucket table
    unless it sees one, first without a lock and again under the exclusive lock. It looks through
    its own mapping, made without a lock and made again under the lock only when the file size has
    changed. A process that creates the table grows the file, then stores the table's offset, and
    then the number of buckets. So there is a gap in which the file has its new size and no table,
    and another in which the table has no number of buckets yet. */
module HashOpen {
  import opened FreeList

  /** Mapped: the file is mapped, the table not yet looked for. Opened: saw no table.
      Locked: holds the exclusive lock, make_current done. Grown: has allocated a table that the
      file does not refer to yet. Published: has stored its offset. Done: has a table. */
  datatype Pc = Start | Mapped | Opened | Locked | Grown | Published | Done

  /** size: the mapping's size. tab, sz: the cached offset of the table, 0 for none, and number of
      its buckets; for a Grown process tab is the table it is about to publish. */
  datatype Proc = Proc(pc: Pc, size: nat, tab: nat, sz: nat)

  /** root: the user data word of the file header. words: the first word of each table allocated,
      for its number of buckets. created: how often the offset of a new table was stored. */
  datatype State = State(procs: map<nat, Proc>, view: View, root: nat, words: map<nat, nat>, created: nat)

  datatype Step =
    | Map(pid: nat)
    | Look(pid: nat)
    | Lock(pid: nat)
    | Grow(pid: nat)
    | Publish(pid: nat)
    | Fill(pid: nat)
    | Use(pid: nat, bytes: nat)

  predicate InLock(p: Proc) {
    p.pc == Locked || p.pc == Grown || p.pc == Published
  }

  predicate Unlocked(s: State) {
    forall q :: q in s.procs ==> !InLock(s.procs[q])
  }

  predicate Enabled(s: State, step: Step) {
    step.pid in s.procs && s.view.free != [] &&
    var p := s.procs[step.pid];
    match step
    case Map(_) => p.pc == Start
    case Look(_) => p.pc == Mapped
    case Lock(_) => p.pc == Opened && Unlocked(s)
    case Grow(_) => p.pc == Locked
    case Publish(_) => p.pc == Grown
    case Fill(_) => p.pc == Published
    case Use(_, _) => p.pc == Done && Unlocked(s)
  }

  /** Room for the number of buckets and the buckets themselves. */
  function TableBytes(nbuckets: nat): nat {
    8 + 8 * nbuckets
  }

  /** What a new table's first word holds before it is written, in bytes as the file has it. */
  function Stale(v: View, nbuckets: nat): nat
    requires v.free != []
  {
    8 * Remnant(v, TableBytes(nbuckets))
  }

  /** The number of buckets as the file has it at present. */
  function Buckets(s: State): nat {
    if s.root in s.words then s.words[s.root] else 0
  }

  /** make_current: nothing is read again when the size is the same. */
  function Current(s: State, p: Proc): Proc {
    if p.size == s.view.size then p else Proc(p.pc, s.view.size, s.root, Buckets(s))
  }

  function Apply(s: State, step: Step, nbuckets: nat): State
    requires Enabled(s, step)
  {
    var p := s.procs[step.pid];
    match step
    case Map(pid) => s.(procs := s.procs[pid := Proc(Mapped, s.view.size, 0, 0)])
    case Look(pid) =>
      s.(procs := s.procs[pid := Proc(if s.root == 0 then Opened else Done, p.size, s.root, Buckets(s))])
    case Lock(pid) => s.(procs := s.procs[pid := Current(s, p).(pc := Locked)])
    case Grow(pid) =>
      if p.tab != 0 then s.(procs := s.procs[pid := p.(pc := Done)])
      else
        // nvalloc, with the growth of the file
        var (w, b) := Alloc(s.view, TableBytes(nbuckets));
        s.(procs := s.procs[pid := Proc(Grown, w.size, b + 1, 0)], view := w,
           words := s.words[b + 1 := Stale(s.view, nbuckets)])
    case Publish(pid) =>
      // setdata
      s.(procs := s.procs[pid := p.(pc := Published)], root := p.tab, created := s.created + 1)
    case Fill(pid) =>
      // the buckets are cleared as well, which nobody looks at without the lock
      s.(procs := s.procs[pid := p.(pc := Done, sz := nbuckets)], words := s.words[p.tab := nbuckets])
    case Use(pid, bytes) =>
      // make_current for the lock, nvalloc, and again for the growth of the file
      var t := s.(view := Alloc(s.view, bytes).0);
      t.(procs := s.procs[pid := Current(t, Current(s, p))])
  }

  predicate Initial(s: State) {
    s.view == FRESH && s.root == 0 && s.words == map[] && s.created == 0 &&
    forall pid :: pid in s.procs ==> s.procs[pid].pc == Start
  }

  ghost predicate Run(ss: seq<State>, steps: seq<Step>, nbuckets: nat) {
    && |ss| == |steps| + 1
    && Initial(ss[0])
    && forall i :: 0 <= i < |steps| ==>
         Enabled(ss[i], steps[i]) && ss[i + 1] == Apply(ss[i], steps[i], nbuckets)
  }

  lemma RunPrefix(ss: seq<State>, steps: seq<Step>, nbuckets: nat)
    requires Run(ss, steps, nbuckets) && steps != []
    ensures var n := |steps| - 1;
      && Run(ss[..n + 1], steps[..n], nbuckets) && ss[..n + 1][n] == ss[n]
      && Enabled(ss[n], steps[n]) && ss[n + 1] == Apply(ss[n], steps[n], nbuckets)
  {
    hide Enabled, Apply, Initial;
  }

  lemma RunLength(ss: seq<State>, steps: seq<Step>, nbuckets: nat)
    requires Run(ss, steps, nbuckets)
    ensures |ss| == |steps| + 1
  {
  }

  ghost predicate OneInLock(s: State) {
    forall p, q :: p in s.procs && q in s.procs && InLock(s.procs[p]) && InLock(s.procs[q]) ==> p == q
  }

  // ----- how many tables a run creates -----

  /** The second check is blind: there is a table, but the process saw none and its mapping has
      the size of the file. */
  predicate Blind(s: State, pid: nat) {
    pid in s.procs && s.root != 0 && s.procs[pid].tab == 0 && s.procs[pid].size == s.view.size
  }

  /** How often a run grants the lock to a process whose second check is blind. */
  function BlindLocks(ss: seq<State>, steps: seq<Step>): nat
    requires |ss| > |steps|
  {
    if steps == [] then 0
    else
      var n := |steps| - 1;
      BlindLocks(ss[..n + 1], steps[..n]) + if steps[n].Lock? && Blind(ss[n], steps[n].pid) then 1 else 0
  }

  /** A process that has found no table under the lock and has not stored one yet. */
  predicate Creating(p: Proc) {
    p.pc == Grown || (p.pc == Locked && p.tab == 0)
  }

  ghost predicate SomeCreating(s: State) {
    exists p :: p in s.procs && Creating(s.procs[p])
  }

  /** Holds in every state of every run: tables stored or about to be, against blind locks. */
  ghost predicate Counted(s: State, blind: nat) {
    && FreeList.Inv(s.view)
    && OneInLock(s)
    && (forall p :: p in s.procs && s.procs[p].pc == Opened ==> s.procs[p].tab == 0)
    && (forall p :: p in s.procs && s.procs[p].pc == Grown ==> s.procs[p].tab != 0)
    && (s.root == 0 ==> s.created == 0 && blind == 0)
    && (s.root == 0 ==> forall p :: p in s.procs && s.procs[p].pc == Locked ==> s.procs[p].tab == 0)
    && (s.root != 0 ==> s.created + (if SomeCreating(s) then 1 else 0) == 1 + blind)
  }

  lemma CountedStep(s: State, step: Step, nbuckets: nat, blind: nat)
    requires Counted(s, blind) && Enabled(s, step)
    ensures Counted(Apply(s, step, nbuckets), blind + if step.Lock? && Blind(s, step.pid) then 1 else 0)
  {
    hide FreeList.Inv, Alloc, Stale, OneInLock, SomeCreating;
    var p, t := s.procs[step.pid], Apply(s, step, nbuckets);
    if step.Grow? && p.tab == 0 {
      AllocInv(s.view, TableBytes(nbuckets));
    } else if step.Use? {
      AllocInv(s.view, step.bytes);
    }
    OneStays(s, step, nbuckets);
    CreatingStep(s, step, nbuckets);
    Alone(s, step.pid);
  }

  lemma OneStays(s: State, step: Step, nbuckets: nat)
    requires OneInLock(s) && Enabled(s, step)
    ensures OneInLock(Apply(s, step, nbuckets))
  {
    hide Alloc, Stale;
  }

  /** A process with the lock has it alone. */
  lemma Alone(s: State, pid: nat)
    requires OneInLock(s) && pid in s.procs
    ensures InLock(s.procs[pid]) ==> forall q :: q in s.procs && InLock(s.procs[q]) ==> q == pid
  {
  }

  /** Who is creating a table after a step. */
  lemma CreatingStep(s: State, step: Step, nbuckets: nat)
    requires Enabled(s, step) && OneInLock(s)
    requires forall p :: p in s.procs && s.procs[p].pc == Opened ==> s.procs[p].tab == 0
    ensures var t := Apply(s, step, nbuckets);
      match step
      case Lock(pid) => !SomeCreating(s) && (SomeCreating(t) <==> s.root == 0 || Blind(s, pid))
      case Publish(_) => SomeCreating(s) && !SomeCreating(t)
      case _ => SomeCreating(t) == SomeCreating(s)
  {
    hide Alloc, Stale;
    var p, t := step.pid, Apply(s, step, nbuckets);
    assert forall q :: q in s.procs && q != p ==> q in t.procs && t.procs[q] == s.procs[q];
    if SomeCreating(s) {
      var q :| q in s.procs && Creating(s.procs[q]);
      assert q != p || step.Grow? || step.Publish?;
      assert q != p ==> Creating(t.procs[q]);
    }
    assert Creating(t.procs[p]) ==> SomeCreating(t);
    assert Creating(s.procs[p]) ==> SomeCreating(s);
    if SomeCreating(t) {
      var q :| q in t.procs && Creating(t.procs[q]);
      assert q != p ==> Creating(s.procs[q]);
    }
  }

  lemma {:induction false} RunCounted(ss: seq<State>, steps: seq<Step>, nbuckets: nat)
    requires Run(ss, steps, nbuckets)
    ensures Counted(ss[|steps|], BlindLocks(ss, steps))
  {
    hide Apply, Counted, Enabled, Run;
    if steps == [] {
      CountedInitial(ss, steps, nbuckets);
    } else {
      var n := |steps| - 1;
      RunPrefix(ss, steps, nbuckets);
      RunLength(ss, steps, nbuckets);
      RunCounted(ss[..n + 1], steps[..n], nbuckets);
      CountedStep(ss[n], steps[n], nbuckets, BlindLocks(ss[..n + 1], steps[..n]));
    }
  }

  lemma CountedInitial(ss: seq<State>, steps: seq<Step>, nbuckets: nat)
    requires Run(ss, steps, nbuckets) && steps == []
    ensures |ss| == 1 && Counted(ss[0], 0)
  {
    FreshInv();
    hide FreeList.Inv;
  }

  /** For every table size and every interleaving: once there is a table and nobody is creating
      another, the number created is one more than the number of times the lock went to a process
      that had seen no table through a mapping of the file's present size. So a run creates a
      second table exactly when that happens. */
  lemma TablesCreated(ss: seq<State>, steps: seq<Step>, nbuckets: nat)
    requires Run(ss, steps, nbuckets) && ss[|steps|].root != 0 && !SomeCreating(ss[|steps|])
    ensures ss[|steps|].created == 1 + BlindLocks(ss, steps)
  {
    RunCounted(ss, steps, nbuckets);
  }

  // ----- who sees a wrong number of buckets -----

  /** A table has been allocated, and the file does not refer to it yet. */
  predicate Unpublished(s: State) {
    exists q :: q in s.procs && s.procs[q].pc == Grown
  }

  /** The file refers to a table without its number of buckets. */
  predicate Unfilled(s: State) {
    exists q :: q in s.procs && s.procs[q].pc == Published
  }

  predicate Writing(p: Proc) {
    p.pc == Grown || p.pc == Published
  }

  /** The number of buckets is in every table but the one being made, whose word is too large. */
  ghost predicate WordsOk(s: State, nbuckets: nat) {
    && FreeList.Inv(s.view)
    && OneInLock(s)
    && (s.root != 0 ==> s.root in s.words)
    && (forall t :: t in s.words ==> t >= 1 && t - 1 in s.view.live)
    && (forall q :: q in s.procs && Writing(s.procs[q]) ==>
          && s.procs[q].tab in s.words && s.words[s.procs[q].tab] > nbuckets
          && (s.procs[q].tab == s.root <==> s.procs[q].pc == Published))
    && (forall t :: t in s.words && s.words[t] != nbuckets ==>
          exists q :: q in s.procs && Writing(s.procs[q]) && s.procs[q].tab == t)
  }

  lemma StaleLarge(v: View, nbuckets: nat)
    requires FreeList.Inv(v)
    ensures v.free != [] && Stale(v, nbuckets) > nbuckets
  {
    hide FreeList.Inv, Remnant;
    RemnantHolds(v, TableBytes(nbuckets));
  }

  lemma WordsStep(s: State, step: Step, nbuckets: nat)
    requires WordsOk(s, nbuckets) && Enabled(s, step)
    ensures WordsOk(Apply(s, step, nbuckets), nbuckets)
  {
    hide FreeList.Inv, Alloc, Stale, WordsOk;
    match step
    case Grow(pid) =>
      if s.procs[pid].tab == 0 {
        WordsGrow(s, pid, nbuckets);
      } else {
        WordsMove(s, step, nbuckets);
      }
    case Publish(pid) => WordsPublish(s, pid, nbuckets);
    case Fill(pid) => WordsFill(s, pid, nbuckets);
    case _ => WordsMove(s, step, nbuckets);
  }

  /** A step that writes nothing and makes nobody a writer. */
  lemma WordsMove(s: State, step: Step, nbuckets: nat)
    requires WordsOk(s, nbuckets) && Enabled(s, step) && !step.Publish? && !step.Fill?
    requires step.Grow? ==> s.procs[step.pid].tab != 0
    ensures WordsOk(Apply(s, step, nbuckets), nbuckets)
  {
    hide FreeList.Inv, Alloc, Stale, Apply, Current;
    var pid, t := step.pid, Apply(s, step, nbuckets);
    if step.Use? {
      AllocInv(s.view, step.bytes);
    }
    MoveFrame(s, step, nbuckets);
    assert !Writing(s.procs[pid]) && !Writing(t.procs[pid]);
    SameWriters(s, t, pid, nbuckets);
  }

  lemma MoveFrame(s: State, step: Step, nbuckets: nat)
    requires Enabled(s, step) && !step.Publish? && !step.Fill?
    requires step.Grow? ==> s.procs[step.pid].tab != 0
    ensures var pid, t := step.pid, Apply(s, step, nbuckets);
      && t.procs.Keys == s.procs.Keys && t.words == s.words && t.root == s.root
      && (forall q :: q in s.procs && q != pid ==> t.procs[q] == s.procs[q])
      && !Writing(s.procs[pid]) && !Writing(t.procs[pid])
      && (InLock(t.procs[pid]) ==> step.Lock? && Unlocked(s))
      && t.view == if step.Use? then Alloc(s.view, step.bytes).0 else s.view
  {
    hide Alloc, Stale;
  }

  lemma SameWriters(s: State, t: State, pid: nat, nbuckets: nat)
    requires WordsOk(s, nbuckets) && pid in s.procs && t.procs.Keys == s.procs.Keys && t.words == s.words
    requires !Writing(s.procs[pid]) && forall q :: q in s.procs && q != pid ==> t.procs[q] == s.procs[q]
    ensures forall x :: x in t.words && t.words[x] != nbuckets ==>
      exists q :: q in t.procs && Writing(t.procs[q]) && t.procs[q].tab == x
  {
    hide FreeList.Inv;
    forall x | x in t.words && t.words[x] != nbuckets
      ensures exists q :: q in t.procs && Writing(t.procs[q]) && t.procs[q].tab == x
    {
      var q :| q in s.procs && Writing(s.procs[q]) && s.procs[q].tab == x;
      assert t.procs[q] == s.procs[q];
    }
  }

  /** Nobody else is writing a table while one process has the lock. */
  lemma OneWriter(s: State, pid: nat, nbuckets: nat)
    requires WordsOk(s, nbuckets) && pid in s.procs && InLock(s.procs[pid])
    ensures forall q :: q in s.procs && Writing(s.procs[q]) ==> q == pid
    ensures forall x :: x in s.words && s.words[x] != nbuckets ==> Writing(s.procs[pid]) && s.procs[pid].tab == x
  {
    hide FreeList.Inv;
  }

  lemma WordsGrow(s: State, pid: nat, nbuckets: nat)
    requires WordsOk(s, nbuckets) && Enabled(s, Grow(pid)) && s.procs[pid].tab == 0
    ensures WordsOk(Apply(s, Grow(pid), nbuckets), nbuckets)
  {
    hide FreeList.Inv, Alloc, Stale;
    OneWriter(s, pid, nbuckets);
    AllocInv(s.view, TableBytes(nbuckets));
    StaleLarge(s.view, nbuckets);
    var t := Apply(s, Grow(pid), nbuckets);
    assert forall q :: q in s.procs && q != pid ==> q in t.procs && t.procs[q] == s.procs[q];
    assert Writing(t.procs[pid]);
  }

  lemma WordsPublish(s: State, pid: nat, nbuckets: nat)
    requires WordsOk(s, nbuckets) && Enabled(s, Publish(pid))
    ensures WordsOk(Apply(s, Publish(pid), nbuckets), nbuckets)
  {
    hide FreeList.Inv;
    OneWriter(s, pid, nbuckets);
    var t := Apply(s, Publish(pid), nbuckets);
    assert forall q :: q in s.procs && q != pid ==> q in t.procs && t.procs[q] == s.procs[q];
    assert Writing(s.procs[pid]) && Writing(t.procs[pid]);
  }

  lemma WordsFill(s: State, pid: nat, nbuckets: nat)
    requires WordsOk(s, nbuckets) && Enabled(s, Fill(pid))
    ensures WordsOk(Apply(s, Fill(pid), nbuckets), nbuckets)
  {
    hide FreeList.Inv;
    OneWriter(s, pid, nbuckets);
    var t := Apply(s, Fill(pid), nbuckets);
    assert forall q :: q in s.procs && q != pid ==> q in t.procs && t.procs[q] == s.procs[q];
    assert Writing(s.procs[pid]) && !Writing(t.procs[pid]);
  }

  lemma {:induction false} RunWords(ss: seq<State>, steps: seq<Step>, nbuckets: nat)
    requires Run(ss, steps, nbuckets)
    ensures forall i :: 0 <= i < |ss| ==> WordsOk(ss[i], nbuckets)
  {
    hide Apply, WordsOk, Enabled;
    if steps == [] {
      WordsInitial(ss[0], nbuckets);
    } else {
      var n := |steps| - 1;
      RunWords(ss[..n + 1], steps[..n], nbuckets);
      assert WordsOk(ss[..n + 1][n], nbuckets);
      WordsStep(ss[n], steps[n], nbuckets);
      forall i | 0 <= i < |ss|
        ensures WordsOk(ss[i], nbuckets)
      {
        assert i < |ss| - 1 ==> WordsOk(ss[..n + 1][i], nbuckets);
      }
    }
  }

  lemma WordsInitial(s: State, nbuckets: nat)
    requires Initial(s)
    ensures WordsOk(s, nbuckets)
  {
    hide FreeList.Inv;
    FreshInv();
  }

  /** In every run, of any table size, a process that finds a table when it looks without the lock
      gets the right number of buckets if and only if that table is not just being filled. */
  lemma LookIsRight(ss: seq<State>, steps: seq<Step>, nbuckets: nat, i: nat)
    requires Run(ss, steps, nbuckets) && i < |steps| && steps[i].Look? && ss[i].root != 0
    ensures steps[i].pid in ss[i + 1].procs
    ensures ss[i + 1].procs[steps[i].pid].sz == nbuckets <==> !Unfilled(ss[i])
  {
    RunWords(ss, steps, nbuckets);
    hide FreeList.Inv, Run;
    RunAt(ss, steps, nbuckets, i);
    RootWord(ss[i], nbuckets);
  }

  lemma RunAt(ss: seq<State>, steps: seq<Step>, nbuckets: nat, i: nat)
    requires Run(ss, steps, nbuckets) && i < |steps|
    ensures |ss| == |steps| + 1 && Enabled(ss[i], steps[i]) && ss[i + 1] == Apply(ss[i], steps[i], nbuckets)
  {
    hide Enabled, Apply;
  }

  lemma RootWord(s: State, nbuckets: nat)
    requires WordsOk(s, nbuckets) && s.root != 0
    ensures Buckets(s) == nbuckets <==> !Unfilled(s)
  {
    hide FreeList.Inv;
    if s.words[s.root] != nbuckets {
      var q :| q in s.procs && Writing(s.procs[q]) && s.procs[q].tab == s.root;
      assert s.procs[q].pc == Published;
    }
  }

  // ----- the run that creates two tables, whatever their size -----

  lemma Then(ss: seq<State>, steps: seq<Step>, nbuckets: nat, step: Step, t: State)
    returns (tt: seq<State>, more: seq<Step>)
    requires Run(ss, steps, nbuckets) && Enabled(ss[|ss| - 1], step)
    requires t == Apply(ss[|ss| - 1], step, nbuckets)
    ensures Run(tt, more, nbuckets) && |tt| == |ss| + 1 && tt[|ss|] == t && tt[..|ss|] == ss && more == steps + [step]
  {
    tt, more := ss + [t], steps + [step];
  }

  /** Two processes that have not opened the file yet. */
  lemma Begin(nbuckets: nat) returns (ss: seq<State>, steps: seq<Step>)
    ensures Run(ss, steps, nbuckets) && Quiet(ss, steps) && |ss| == 1 && steps == []
    ensures ss[0] == State(map[0 := Proc(Start, 0, 0, 0), 1 := Proc(Start, 0, 0, 0)], FRESH, 0, map[], 0)
  {
    ss, steps := [State(map[0 := Proc(Start, 0, 0, 0), 1 := Proc(Start, 0, 0, 0)], FRESH, 0, map[], 0)], [];
  }

  /** Process 0 opens the file before process 1 starts. */
  lemma FirstLooks(nbuckets: nat) returns (ss: seq<State>, steps: seq<Step>)
    ensures Run(ss, steps, nbuckets) && |ss| == 3 && steps == [Map(0), Look(0)]
    ensures ss[2] == State(map[0 := Proc(Opened, PAGE, 0, 0), 1 := Proc(Start, 0, 0, 0)], FRESH, 0, map[], 0)
  {
    hide Run, Quiet;
    var start := Proc(Start, 0, 0, 0);
    ss, steps := Begin(nbuckets);
    ss, steps := Then(ss, steps, nbuckets, Map(0),
                      State(map[0 := Proc(Mapped, PAGE, 0, 0), 1 := start], FRESH, 0, map[], 0));
    ss, steps := Then(ss, steps, nbuckets, Look(0),
                      State(map[0 := Proc(Opened, PAGE, 0, 0), 1 := start], FRESH, 0, map[], 0));
  }

  /** It gets the lock and allocates its table. */
  lemma FirstGrows(nbuckets: nat) returns (ss: seq<State>, steps: seq<Step>)
    ensures var (w, b) := Alloc(FRESH, TableBytes(nbuckets));
      && Run(ss, steps, nbuckets) && |ss| == 5 && steps == [Map(0), Look(0), Lock(0), Grow(0)]
      && ss[4] == State(map[0 := Proc(Grown, w.size, b + 1, 0), 1 := Proc(Start, 0, 0, 0)], w, 0,
                        map[b + 1 := Stale(FRESH, nbuckets)], 0)
  {
    hide FreeList.Inv, Alloc, Run, Quiet, Stale;
    var start, seen := Proc(Start, 0, 0, 0), Proc(Opened, PAGE, 0, 0);
    var (w, b) := Alloc(FRESH, TableBytes(nbuckets));
    FreshInv();
    InvTail(FRESH);
    ss, steps := FirstLooks(nbuckets);
    ss, steps := Then(ss, steps, nbuckets, Lock(0),
                      State(map[0 := seen.(pc := Locked), 1 := start], FRESH, 0, map[], 0));
    ss, steps := Then(ss, steps, nbuckets, Grow(0),
                      State(map[0 := Proc(Grown, w.size, b + 1, 0), 1 := start], w, 0,
                            map[b + 1 := Stale(FRESH, nbuckets)], 0));
  }

  /** Before process 0 stores the table's offset process 1 maps the file and looks. */
  lemma LookInGap(nbuckets: nat) returns (ss: seq<State>, steps: seq<Step>)
    ensures var (w, b) := Alloc(FRESH, TableBytes(nbuckets));
      && Run(ss, steps, nbuckets) && |ss| == 9
      && ss[8] == State(map[0 := Proc(Done, w.size, b + 1, nbuckets), 1 := Proc(Opened, w.size, 0, 0)], w, b + 1,
                        map[b + 1 := nbuckets], 1)
  {
    hide FreeList.Inv, Alloc, Run, Quiet, Stale;
    var (w, b) := Alloc(FRESH, TableBytes(nbuckets));
    FreshInv();
    AllocInv(FRESH, TableBytes(nbuckets));
    InvTail(w);
    var first, seen := Proc(Grown, w.size, b + 1, 0), Proc(Opened, w.size, 0, 0);
    var words := map[b + 1 := Stale(FRESH, nbuckets)];
    ss, steps := FirstGrows(nbuckets);
    ss, steps := Then(ss, steps, nbuckets, Map(1),
                      State(map[0 := first, 1 := Proc(Mapped, w.size, 0, 0)], w, 0, words, 0));
    ss, steps := Then(ss, steps, nbuckets, Look(1), State(map[0 := first, 1 := seen], w, 0, words, 0));
    ss, steps := Then(ss, steps, nbuckets, Publish(0),
                      State(map[0 := first.(pc := Published), 1 := seen], w, b + 1, words, 1));
    ss, steps := Then(ss, steps, nbuckets, Fill(0),
                      State(map[0 := first.(pc := Done, sz := nbuckets), 1 := seen], w, b + 1,
                            map[b + 1 := nbuckets], 1));
  }

  /** Process 1 gets the lock and allocates a second table. */
  lemma SecondGrows(nbuckets: nat) returns (ss: seq<State>, steps: seq<Step>)
    ensures var (w, b) := Alloc(FRESH, TableBytes(nbuckets));
      && w.free != []
      && var (x, c) := Alloc(w, TableBytes(nbuckets));
      && Run(ss, steps, nbuckets) && |ss| == 11
      && ss[10] == State(map[0 := Proc(Done, w.size, b + 1, nbuckets), 1 := Proc(Grown, x.size, c + 1, 0)], x, b + 1,
                         map[b + 1 := nbuckets][c + 1 := Stale(w, nbuckets)], 1)
  {
    hide FreeList.Inv, Alloc, Run, Stale;
    var (w, b) := Alloc(FRESH, TableBytes(nbuckets));
    FreshInv();
    AllocInv(FRESH, TableBytes(nbuckets));
    InvTail(w);
    var (x, c) := Alloc(w, TableBytes(nbuckets));
    var first := Proc(Done, w.size, b + 1, nbuckets);
    ss, steps := LookInGap(nbuckets);
    ss, steps := Then(ss, steps, nbuckets, Lock(1),
                      State(map[0 := first, 1 := Proc(Locked, w.size, 0, 0)], w, b + 1, map[b + 1 := nbuckets], 1));
    ss, steps := Then(ss, steps, nbuckets, Grow(1),
                      State(map[0 := first, 1 := Proc(Grown, x.size, c + 1, 0)], x, b + 1,
                            map[b + 1 := nbuckets][c + 1 := Stale(w, nbuckets)], 1));
  }

  /** The double check of NVHash::open does not work, for no table size: process 1 then gets the
      lock after process 0 has stored its table, finds its own mapping current, and creates a
      second table. Process 0 goes on with a table that the file no longer refers to. */
  lemma CreatedTwice(nbuckets: nat) returns (ss: seq<State>, steps: seq<Step>)
    ensures Run(ss, steps, nbuckets) && |ss| == 13 && ss[12].created == 2
    ensures 0 in ss[12].procs && ss[12].procs[0].pc == Done && ss[12].procs[0].tab != ss[12].root
  {
    hide FreeList.Inv, Alloc, Run, Stale;
    var (w, b) := Alloc(FRESH, TableBytes(nbuckets));
    FreshInv();
    AllocInv(FRESH, TableBytes(nbuckets));
    InvTail(w);
    var (x, c) := Alloc(w, TableBytes(nbuckets));
    AllocInv(w, TableBytes(nbuckets));
    InvTail(x);
    var first := Proc(Done, w.size, b + 1, nbuckets);
    var words := map[b + 1 := nbuckets][c + 1 := Stale(w, nbuckets)];
    ss, steps := SecondGrows(nbuckets);
    ss, steps := Then(ss, steps, nbuckets, Publish(1),
                      State(map[0 := first, 1 := Proc(Published, x.size, c + 1, 0)], x, c + 1, words, 2));
    ss, steps := Then(ss, steps, nbuckets, Fill(1),
                      State(map[0 := first, 1 := Proc(Done, x.size, c + 1, nbuckets)], x, c + 1,
                            words[c + 1 := nbuckets], 2));
  }

  /** Process 1 maps the file when the table's offset is stored, and looks. */
  lemma LookUnfilled(nbuckets: nat) returns (ss: seq<State>, steps: seq<Step>)
    ensures var (w, b) := Alloc(FRESH, TableBytes(nbuckets));
      && Run(ss, steps, nbuckets) && |ss| == 8
      && steps == [Map(0), Look(0), Lock(0), Grow(0), Publish(0), Map(1), Look(1)]
      && ss[7] == State(map[0 := Proc(Published, w.size, b + 1, 0),
                            1 := Proc(Done, w.size, b + 1, Stale(FRESH, nbuckets))], w, b + 1,
                        map[b + 1 := Stale(FRESH, nbuckets)], 1)
  {
    hide FreeList.Inv, Alloc, Run, Quiet, Stale;
    var (w, b) := Alloc(FRESH, TableBytes(nbuckets));
    FreshInv();
    AllocInv(FRESH, TableBytes(nbuckets));
    InvTail(w);
    var first := Proc(Published, w.size, b + 1, 0);
    var words := map[b + 1 := Stale(FRESH, nbuckets)];
    ss, steps := FirstGrows(nbuckets);
    ss, steps := Then(ss, steps, nbuckets, Publish(0),
                      State(map[0 := first, 1 := Proc(Start, 0, 0, 0)], w, b + 1, words, 1));
    ss, steps := Then(ss, steps, nbuckets, Map(1),
                      State(map[0 := first, 1 := Proc(Mapped, w.size, 0, 0)], w, b + 1, words, 1));
    ss, steps := Then(ss, steps, nbuckets, Look(1),
                      State(map[0 := first, 1 := Proc(Done, w.size, b + 1, Stale(FRESH, nbuckets))], w, b + 1,
                            words, 1));
  }

  /** Nor does a process that maps the file only once the table's offset is stored see the right
      number of buckets, for no table size: process 1 looks before the number is stored, and as its
      mapping has the size of the file it will not look again. */
  lemma StaleBuckets(nbuckets: nat) returns (ss: seq<State>, steps: seq<Step>)
    ensures Run(ss, steps, nbuckets) && |ss| == 9
    ensures steps == [Map(0), Look(0), Lock(0), Grow(0), Publish(0), Map(1), Look(1), Fill(0)]
    ensures var s := ss[8];
      && s.created == 1 && Unlocked(s) && 1 in s.procs && s.root != 0
      && s.procs[1] == Current(s, s.procs[1]) == Proc(Done, s.view.size, s.root, Stale(FRESH, nbuckets))
      && s.procs[1].sz > nbuckets == Buckets(s)
  {
    hide FreeList.Inv, Alloc, Run, Stale;
    var (w, b) := Alloc(FRESH, TableBytes(nbuckets));
    FreshInv();
    AllocInv(FRESH, TableBytes(nbuckets));
    InvTail(w);
    StaleLarge(FRESH, nbuckets);
    var second := Proc(Done, w.size, b + 1, Stale(FRESH, nbuckets));
    ss, steps := LookUnfilled(nbuckets);
    ss, steps := Then(ss, steps, nbuckets, Fill(0),
                      State(map[0 := Proc(Done, w.size, b + 1, nbuckets), 1 := second], w, b + 1,
                            map[b + 1 := nbuckets], 1));
  }

  /** The active database's 15013 buckets are then taken for 131024. */
  lemma ActiveStale()
    ensures Stale(FRESH, 15013) == 131024
  {
    assert RoundUp(TableBytes(15013)) == 15016;
    assert FirstFit(FRESH.free, 15016) == 0;
  }

  // ----- no one maps the file in the gap -----

  /** A table has been allocated and is not complete yet. */
  predicate InGap(s: State) {
    Unpublished(s) || Unfilled(s)
  }

  ghost predicate Quiet(ss: seq<State>, steps: seq<Step>)
    requires |ss| > |steps|
  {
    forall i :: 0 <= i < |steps| && steps[i].Map? ==> !InGap(ss[i])
  }

  /** The table does not fit into the page a new file starts with. */
  predicate Outgrows(nbuckets: nat) {
    PAGE - HLEN < RoundUp(TableBytes(nbuckets)) + LINK
  }

  ghost predicate ProcOk(s: State, p: Proc, nbuckets: nat) {
    match p.pc
    case Start => true
    case Mapped => p.size <= s.view.size && (p.size == PAGE || (s.root != 0 && Buckets(s) == nbuckets))
    case Opened => p.tab == 0 && p.size == PAGE
    case Locked => p.size == s.view.size && p.tab == s.root && (s.root != 0 ==> p.sz == nbuckets)
    case Grown => p.size == s.view.size && s.root == 0 && p.tab != 0
    case Published => p.size == s.view.size && p.tab == s.root != 0
    case Done => p.tab == s.root != 0 && p.size <= s.view.size && (p.size == s.view.size ==> p.sz == nbuckets)
  }

  ghost predicate Inv(s: State, nbuckets: nat) {
    && WordsOk(s, nbuckets)
    && (if s.root == 0 then s.created == 0 && (InGap(s) || s.view == FRESH) else s.created == 1)
    && (InGap(s) || s.root != 0 ==> PAGE < s.view.size)
    && forall p :: p in s.procs ==> ProcOk(s, s.procs[p], nbuckets)
  }

  lemma FreshAlloc(nbuckets: nat)
    ensures PAGE < Alloc(FRESH, TableBytes(nbuckets)).0.size <==> Outgrows(nbuckets)
    ensures Alloc(FRESH, TableBytes(nbuckets)).0.size == PAGE || Outgrows(nbuckets)
  {
    FreshInv();
    GrowInv(FRESH, PAGE + RoundUp(TableBytes(nbuckets)) + LINK - (PAGE - HLEN));
  }

  lemma StepInv(s: State, step: Step, nbuckets: nat)
    requires Inv(s, nbuckets) && Enabled(s, step) && Outgrows(nbuckets) && (step.Map? ==> !InGap(s))
    ensures Inv(Apply(s, step, nbuckets), nbuckets)
  {
    hide FreeList.Inv, Alloc, Stale, ProcOk, WordsOk;
    var p, t := s.procs[step.pid], Apply(s, step, nbuckets);
    assert ProcOk(s, p, nbuckets);
    WordsParts(s, nbuckets);
    WordsStep(s, step, nbuckets);
    if step.Grow? && p.tab == 0 {
      LockedAlone(s, step.pid, nbuckets);
      AllocInv(s.view, TableBytes(nbuckets));
      FreshAlloc(nbuckets);
    } else if step.Use? {
      AllocInv(s.view, step.bytes);
    }
    GapStep(s, step, nbuckets);
    GapHolds(s, step.pid, nbuckets);
    forall q | q in t.procs
      ensures ProcOk(t, t.procs[q], nbuckets)
    {
      assert ProcOk(s, s.procs[q], nbuckets);
      if q == step.pid {
        Moved(s, step, nbuckets);
      } else {
        Unmoved(s, step, q, nbuckets);
      }
    }
  }

  lemma WordsParts(s: State, nbuckets: nat)
    requires WordsOk(s, nbuckets)
    ensures FreeList.Inv(s.view) && OneInLock(s)
  {
    hide FreeList.Inv, OneInLock;
  }

  /** A process with the lock that has found no table is the only one that could create one. */
  lemma LockedAlone(s: State, pid: nat, nbuckets: nat)
    requires Inv(s, nbuckets) && pid in s.procs && s.procs[pid].pc == Locked && s.procs[pid].tab == 0
    ensures !InGap(s) && s.root == 0 && s.created == 0 && s.view == FRESH
  {
    hide FreeList.Inv;
    assert ProcOk(s, s.procs[pid], nbuckets);
  }

  lemma GapHolds(s: State, pid: nat, nbuckets: nat)
    requires Inv(s, nbuckets) && pid in s.procs
    ensures s.procs[pid].pc == Grown ==> s.root == 0 && s.procs[pid].tab != 0 && PAGE < s.view.size
    ensures s.procs[pid].pc == Published || s.procs[pid].pc == Done ==> s.root != 0
  {
    hide FreeList.Inv, WordsOk;
    assert ProcOk(s, s.procs[pid], nbuckets);
    assert s.procs[pid].pc == Grown ==> Unpublished(s);
  }

  /** The process that moves. */
  lemma Moved(s: State, step: Step, nbuckets: nat)
    requires Inv(s, nbuckets) && Enabled(s, step) && Outgrows(nbuckets) && (step.Map? ==> !InGap(s))
    ensures step.pid in s.procs && ProcOk(Apply(s, step, nbuckets), Apply(s, step, nbuckets).procs[step.pid], nbuckets)
  {
    hide FreeList.Inv, Alloc, Stale, WordsOk;
    var p := s.procs[step.pid];
    assert ProcOk(s, p, nbuckets);
    WordsParts(s, nbuckets);
    if s.root != 0 {
      RootWord(s, nbuckets);
    }
    if step.Grow? && p.tab == 0 {
      LockedAlone(s, step.pid, nbuckets);
      AllocInv(s.view, TableBytes(nbuckets));
    } else if step.Use? {
      AllocInv(s.view, step.bytes);
    }
  }

  /** The others. */
  lemma Unmoved(s: State, step: Step, q: nat, nbuckets: nat)
    requires Inv(s, nbuckets) && Enabled(s, step) && Outgrows(nbuckets) && q in s.procs && q != step.pid
    ensures ProcOk(Apply(s, step, nbuckets), s.procs[q], nbuckets)
  {
    hide FreeList.Inv, Alloc, Stale, WordsOk;
    assert ProcOk(s, s.procs[q], nbuckets);
    assert ProcOk(s, s.procs[step.pid], nbuckets);
    WordsParts(s, nbuckets);
    if step.Grow? && s.procs[step.pid].tab == 0 {
      AllocInv(s.view, TableBytes(nbuckets));
      LockedAlone(s, step.pid, nbuckets);
    } else if step.Use? {
      AllocInv(s.view, step.bytes);
    }
  }

  lemma GapStep(s: State, step: Step, nbuckets: nat)
    requires Enabled(s, step) && OneInLock(s)
    ensures var t := Apply(s, step, nbuckets);
      match step
      case Grow(pid) => Unpublished(t) == (s.procs[pid].tab == 0) && !Unfilled(t)
      case Publish(_) => !Unpublished(t) && Unfilled(t)
      case Fill(_) => !Unpublished(t) && !Unfilled(t)
      case _ => Unpublished(t) == Unpublished(s) && Unfilled(t) == Unfilled(s)
  {
    hide Alloc, Stale, OneInLock, Unpublished, Unfilled;
    var p, t := step.pid, Apply(s, step, nbuckets);
    assert forall q :: q in s.procs && q != p ==> q in t.procs && t.procs[q] == s.procs[q];
    Alone(s, p);
    AtPc(s, p);
    AtPc(t, p);
    PcStep(s, t, p, Grown);
    PcStep(s, t, p, Published);
  }

  lemma AtPc(s: State, p: nat)
    requires p in s.procs
    ensures Unpublished(s) <==> exists q :: q in s.procs && s.procs[q].pc == Grown
    ensures Unfilled(s) <==> exists q :: q in s.procs && s.procs[q].pc == Published
    ensures s.procs[p].pc == Grown ==> Unpublished(s)
    ensures s.procs[p].pc == Published ==> Unfilled(s)
  {
  }

  /** Whether some process is at pc, when one process has moved. */
  lemma PcStep(s: State, t: State, p: nat, pc: Pc)
    requires p in s.procs && t.procs.Keys == s.procs.Keys
    requires forall q :: q in s.procs && q != p ==> t.procs[q] == s.procs[q]
    ensures t.procs[p].pc == s.procs[p].pc || (t.procs[p].pc != pc && s.procs[p].pc != pc) ==>
      ((exists q :: q in t.procs && t.procs[q].pc == pc) <==> (exists q :: q in s.procs && s.procs[q].pc == pc))
  {
    if q :| q in s.procs && s.procs[q].pc == pc {
      assert q != p ==> t.procs[q].pc == pc;
    }
    if q :| q in t.procs && t.procs[q].pc == pc {
      assert q != p ==> s.procs[q].pc == pc;
    }
  }

  lemma {:induction false} QuietInv(ss: seq<State>, steps: seq<Step>, nbuckets: nat)
    requires Run(ss, steps, nbuckets) && Outgrows(nbuckets) && Quiet(ss, steps)
    ensures forall i :: 0 <= i < |ss| ==> Inv(ss[i], nbuckets)
  {
    hide Apply, Inv, Outgrows, Enabled, InGap;
    if steps == [] {
      InitialInv(ss[0], nbuckets);
    } else {
      var n := |steps| - 1;
      QuietInv(ss[..n + 1], steps[..n], nbuckets);
      assert Inv(ss[..n + 1][n], nbuckets);
      StepInv(ss[n], steps[n], nbuckets);
      forall i | 0 <= i < |ss|
        ensures Inv(ss[i], nbuckets)
      {
        assert i < |ss| - 1 ==> Inv(ss[..n + 1][i], nbuckets);
      }
    }
  }

  lemma InitialInv(s: State, nbuckets: nat)
    requires Initial(s)
    ensures Inv(s, nbuckets)
  {
    FreshInv();
    hide FreeList.Inv;
  }

  /** At most one table, and every process that has opened the file has it, with the right number
      of buckets unless its mapping is out of date; then it gets both when it next has the lock. */
  ghost predicate AllRight(s: State, nbuckets: nat) {
    && s.created <= 1
    && forall pid :: pid in s.procs && s.procs[pid].pc == Done ==>
         && s.procs[pid].tab == s.root != 0
         && (s.procs[pid].size == s.view.size ==> s.procs[pid].sz == nbuckets)
         && (Unlocked(s) ==> Current(s, s.procs[pid]) == Proc(Done, s.view.size, s.root, nbuckets))
  }

  lemma InvRight(s: State, nbuckets: nat)
    requires Inv(s, nbuckets)
    ensures AllRight(s, nbuckets)
  {
    hide FreeList.Inv;
    if s.root != 0 {
      RootWord(s, nbuckets);
    }
    forall pid | pid in s.procs && s.procs[pid].pc == Done
      ensures s.procs[pid].tab == s.root != 0
      ensures s.procs[pid].size == s.view.size ==> s.procs[pid].sz == nbuckets
      ensures Unlocked(s) ==> Current(s, s.procs[pid]) == Proc(Done, s.view.size, s.root, nbuckets)
    {
      assert ProcOk(s, s.procs[pid], nbuckets);
    }
  }

  /** With a table larger than a new file, and no process mapping the file in the gap. */
  lemma CreatedOnce(ss: seq<State>, steps: seq<Step>, nbuckets: nat, i: nat)
    requires Run(ss, steps, nbuckets) && Outgrows(nbuckets) && Quiet(ss, steps) && i < |ss|
    ensures AllRight(ss[i], nbuckets)
  {
    hide Inv, AllRight;
    QuietInv(ss, steps, nbuckets);
    InvRight(ss[i], nbuckets);
  }

  lemma ThenQuiet(ss: seq<State>, steps: seq<Step>, nbuckets: nat, step: Step, t: State)
    returns (tt: seq<State>, more: seq<Step>)
    requires Run(ss, steps, nbuckets) && |ss| > |steps| && Quiet(ss, steps) && Enabled(ss[|ss| - 1], step)
    requires t == Apply(ss[|ss| - 1], step, nbuckets) && (step.Map? ==> !InGap(ss[|ss| - 1]))
    ensures Run(tt, more, nbuckets) && |tt| == |ss| + 1 > |more| && Quiet(tt, more) && tt[|ss|] == t
  {
    hide Enabled, Apply, InGap;
    tt, more := Then(ss, steps, nbuckets, step, t);
    forall i | 0 <= i < |more| && more[i].Map?
      ensures !InGap(tt[i])
    {
      assert tt[i] == tt[..|ss|][i] == ss[i];
    }
  }

  /** Both processes look before either has the lock. */
  lemma BothLook(nbuckets: nat) returns (ss: seq<State>, steps: seq<Step>)
    ensures Run(ss, steps, nbuckets) && |ss| == 5 > |steps| && Quiet(ss, steps)
    ensures ss[4] == State(map[0 := Proc(Opened, PAGE, 0, 0), 1 := Proc(Opened, PAGE, 0, 0)], FRESH, 0, map[], 0)
  {
    hide FreeList.Inv, Alloc, Run, Quiet, Stale;
    var start, mapped, seen := Proc(Start, 0, 0, 0), Proc(Mapped, PAGE, 0, 0), Proc(Opened, PAGE, 0, 0);
    ss, steps := Begin(nbuckets);
    ss, steps := ThenQuiet(ss, steps, nbuckets, Map(0), State(map[0 := mapped, 1 := start], FRESH, 0, map[], 0));
    ss, steps := ThenQuiet(ss, steps, nbuckets, Look(0), State(map[0 := seen, 1 := start], FRESH, 0, map[], 0));
    ss, steps := ThenQuiet(ss, steps, nbuckets, Map(1), State(map[0 := seen, 1 := mapped], FRESH, 0, map[], 0));
    ss, steps := ThenQuiet(ss, steps, nbuckets, Look(1), State(map[0 := seen, 1 := seen], FRESH, 0, map[], 0));
  }

  /** The first gets the lock and allocates its table. */
  lemma FirstLocks(nbuckets: nat) returns (ss: seq<State>, steps: seq<Step>)
    ensures var (w, b) := Alloc(FRESH, TableBytes(nbuckets));
      && Run(ss, steps, nbuckets) && |ss| == 7 > |steps| && Quiet(ss, steps)
      && ss[6] == State(map[0 := Proc(Grown, w.size, b + 1, 0), 1 := Proc(Opened, PAGE, 0, 0)], w, 0,
                        map[b + 1 := Stale(FRESH, nbuckets)], 0)
  {
    hide FreeList.Inv, Alloc, Run, Quiet, Stale;
    var seen := Proc(Opened, PAGE, 0, 0);
    var (w, b) := Alloc(FRESH, TableBytes(nbuckets));
    FreshInv();
    InvTail(FRESH);
    ss, steps := BothLook(nbuckets);
    ss, steps := ThenQuiet(ss, steps, nbuckets, Lock(0),
                           State(map[0 := seen.(pc := Locked), 1 := seen], FRESH, 0, map[], 0));
    ss, steps := ThenQuiet(ss, steps, nbuckets, Grow(0),
                           State(map[0 := Proc(Grown, w.size, b + 1, 0), 1 := seen], w, 0,
                                 map[b + 1 := Stale(FRESH, nbuckets)], 0));
  }

  /** It completes the table. */
  lemma FirstCreates(nbuckets: nat) returns (ss: seq<State>, steps: seq<Step>)
    ensures var (w, b) := Alloc(FRESH, TableBytes(nbuckets));
      && Run(ss, steps, nbuckets) && |ss| == 9 > |steps| && Quiet(ss, steps)
      && ss[8] == State(map[0 := Proc(Done, w.size, b + 1, nbuckets), 1 := Proc(Opened, PAGE, 0, 0)], w, b + 1,
                        map[b + 1 := nbuckets], 1)
  {
    hide FreeList.Inv, Alloc, Run, Quiet, Stale;
    var seen := Proc(Opened, PAGE, 0, 0);
    var (w, b) := Alloc(FRESH, TableBytes(nbuckets));
    FreshInv();
    AllocInv(FRESH, TableBytes(nbuckets));
    InvTail(w);
    var first, words := Proc(Grown, w.size, b + 1, 0), map[b + 1 := Stale(FRESH, nbuckets)];
    ss, steps := FirstLocks(nbuckets);
    ss, steps := ThenQuiet(ss, steps, nbuckets, Publish(0),
                           State(map[0 := first.(pc := Published), 1 := seen], w, b + 1, words, 1));
    ss, steps := ThenQuiet(ss, steps, nbuckets, Fill(0),
                           State(map[0 := first.(pc := Done, sz := nbuckets), 1 := seen], w, b + 1,
                                 map[b + 1 := nbuckets], 1));
  }

  /** With a smaller table the other's second check is blind. */
  lemma SecondLocks(nbuckets: nat) returns (ss: seq<State>, steps: seq<Step>)
    requires !Outgrows(nbuckets)
    ensures var (w, b) := Alloc(FRESH, TableBytes(nbuckets));
      && Run(ss, steps, nbuckets) && |ss| == 10 > |steps| && Quiet(ss, steps) && w.free != []
      && ss[9] == State(map[0 := Proc(Done, w.size, b + 1, nbuckets), 1 := Proc(Locked, PAGE, 0, 0)], w, b + 1,
                        map[b + 1 := nbuckets], 1)
  {
    hide FreeList.Inv, Alloc, Run, Quiet, Stale;
    var (w, b) := Alloc(FRESH, TableBytes(nbuckets));
    FreshInv();
    FreshAlloc(nbuckets);
    AllocInv(FRESH, TableBytes(nbuckets));
    InvTail(w);
    ss, steps := FirstCreates(nbuckets);
    ss, steps := ThenQuiet(ss, steps, nbuckets, Lock(1),
                           State(map[0 := Proc(Done, w.size, b + 1, nbuckets), 1 := Proc(Locked, PAGE, 0, 0)], w, b + 1,
                                 map[b + 1 := nbuckets], 1));
  }

  /** With a smaller table not even that is enough: the size of the file never changes, so the
      second check of the other process is blind. */
  lemma QuietTwice(nbuckets: nat) returns (ss: seq<State>, steps: seq<Step>)
    requires !Outgrows(nbuckets)
    ensures Run(ss, steps, nbuckets) && |ss| == 12 && |steps| == 11 && Quiet(ss, steps) && ss[11].created == 2
  {
    hide FreeList.Inv, Alloc, Run, Quiet, Stale;
    var (w, b) := Alloc(FRESH, TableBytes(nbuckets));
    FreshInv();
    FreshAlloc(nbuckets);
    AllocInv(FRESH, TableBytes(nbuckets));
    InvTail(w);
    var (x, c) := Alloc(w, TableBytes(nbuckets));
    AllocInv(w, TableBytes(nbuckets));
    InvTail(x);
    var first := Proc(Done, w.size, b + 1, nbuckets);
    var words := map[b + 1 := nbuckets][c + 1 := Stale(w, nbuckets)];
    ss, steps := SecondLocks(nbuckets);
    ss, steps := ThenQuiet(ss, steps, nbuckets, Grow(1),
                           State(map[0 := first, 1 := Proc(Grown, x.size, c + 1, 0)], x, b + 1, words, 1));
    ss, steps := ThenQuiet(ss, steps, nbuckets, Publish(1),
                           State(map[0 := first, 1 := Proc(Published, x.size, c + 1, 0)], x, c + 1, words, 2));
    RunLength(ss, steps, nbuckets);
  }

  ghost predicate RightWhenQuiet(nbuckets: nat) {
    forall ss: seq<State>, steps: seq<Step> :: Run(ss, steps, nbuckets) && Quiet(ss, steps) ==>
      AllRight(ss[|steps|], nbuckets)
  }

  /** When callers keep processes from mapping the file in the gap, all goes right if and only if the
      table outgrows a new file. */
  lemma CreatedOnceIff(nbuckets: nat)
    ensures Outgrows(nbuckets) <==> RightWhenQuiet(nbuckets)
  {
    if Outgrows(nbuckets) {
      forall ss: seq<State>, steps: seq<Step> | Run(ss, steps, nbuckets) && Quiet(ss, steps)
        ensures AllRight(ss[|steps|], nbuckets)
      {
        CreatedOnce(ss, steps, nbuckets, |steps|);
      }
    } else {
      var ss, steps := QuietTwice(nbuckets);
      assert !AllRight(ss[|steps|], nbuckets);
    }
  }

  /** The active database's table can be created twice, but not when nobody maps the file in the
      gap; for a table of the default size of NVHash not even that helps. */
  lemma ActiveTable()
    ensures exists ss: seq<State>, steps: seq<Step> :: Run(ss, steps, 15013) && ss[|steps|].created == 2
    ensures RightWhenQuiet(15013) && !RightWhenQuiet(97)
  {
    hide RightWhenQuiet;
    CreatedOnceIff(15013);
    CreatedOnceIff(97);
    var ss, steps := CreatedTwice(15013);
    RunLength(ss, steps, 15013);
  }

  // ----- callers that open one after the other -----

  /** No process starts to open the file while another is at it. */
  ghost predicate Serial(ss: seq<State>, steps: seq<Step>)
    requires |ss| > |steps|
  {
    forall i :: 0 <= i < |steps| && steps[i].Map? ==> AllIdle(ss[i])
  }

  predicate AllIdle(s: State) {
    forall q :: q in s.procs ==> !Busy(s.procs[q])
  }

  predicate Busy(p: Proc) {
    p.pc != Start && p.pc != Done
  }

  ghost predicate SerialInv(s: State, nbuckets: nat) {
    && WordsOk(s, nbuckets)
    && (forall p, q :: p in s.procs && q in s.procs && Busy(s.procs[p]) && Busy(s.procs[q]) ==> p == q)
    && (forall p :: p in s.procs ==> SerialOk(s, s.procs[p], nbuckets))
    && (if s.root == 0 then s.created == 0 else s.created == 1)
  }

  predicate SerialOk(s: State, p: Proc, nbuckets: nat) {
    match p.pc
    case Start => true
    case Mapped => true
    case Opened => p.tab == 0 == s.root
    case Locked => p.tab == 0 == s.root
    case Grown => s.root == 0 && p.tab != 0
    case Published => p.tab == s.root != 0
    case Done => p.tab == s.root != 0 && p.sz == nbuckets
  }

  lemma SerialStep(s: State, step: Step, nbuckets: nat)
    requires SerialInv(s, nbuckets) && Enabled(s, step) && (step.Map? ==> AllIdle(s))
    ensures SerialInv(Apply(s, step, nbuckets), nbuckets)
  {
    hide FreeList.Inv, Alloc, Stale, WordsOk, SerialOk;
    var t := Apply(s, step, nbuckets);
    WordsStep(s, step, nbuckets);
    forall q | q in t.procs
      ensures SerialOk(t, t.procs[q], nbuckets)
    {
      if q == step.pid {
        SerialMoved(s, step, nbuckets);
      } else {
        SerialUnmoved(s, step, q, nbuckets);
      }
    }
    SerialCount(s, step, nbuckets);
  }

  lemma SerialMoved(s: State, step: Step, nbuckets: nat)
    requires SerialInv(s, nbuckets) && Enabled(s, step)
    ensures step.pid in s.procs
    ensures SerialOk(Apply(s, step, nbuckets), Apply(s, step, nbuckets).procs[step.pid], nbuckets)
  {
    hide FreeList.Inv, Alloc, Stale, WordsOk;
    assert SerialOk(s, s.procs[step.pid], nbuckets);
    if s.root != 0 {
      RootWord(s, nbuckets);
    }
    if step.Look? || step.Use? {
      SerialFilled(s, step, nbuckets);
    }
    if step.Grow? && s.procs[step.pid].tab == 0 {
      WordsParts(s, nbuckets);
      AllocInv(s.view, TableBytes(nbuckets));
    }
  }

  lemma SerialFilled(s: State, step: Step, nbuckets: nat)
    requires SerialInv(s, nbuckets) && Enabled(s, step) && (step.Look? || step.Use?)
    ensures !Unfilled(s)
  {
    hide FreeList.Inv, WordsOk, SerialOk;
  }

  lemma SerialUnmoved(s: State, step: Step, q: nat, nbuckets: nat)
    requires SerialInv(s, nbuckets) && Enabled(s, step) && q in s.procs && q != step.pid
    ensures SerialOk(Apply(s, step, nbuckets), s.procs[q], nbuckets)
  {
    hide FreeList.Inv, Alloc, Stale, WordsOk;
    assert SerialOk(s, s.procs[q], nbuckets) && SerialOk(s, s.procs[step.pid], nbuckets);
  }

  lemma SerialCount(s: State, step: Step, nbuckets: nat)
    requires SerialInv(s, nbuckets) && Enabled(s, step)
    ensures var t := Apply(s, step, nbuckets); if t.root == 0 then t.created == 0 else t.created == 1
  {
    hide FreeList.Inv, Alloc, Stale, WordsOk;
    assert SerialOk(s, s.procs[step.pid], nbuckets);
  }

  lemma {:induction false} SerialRun(ss: seq<State>, steps: seq<Step>, nbuckets: nat)
    requires Run(ss, steps, nbuckets) && Serial(ss, steps)
    ensures SerialInv(ss[|steps|], nbuckets)
  {
    hide Apply, SerialInv, Enabled, AllIdle;
    if steps == [] {
      SerialInitial(ss[0], nbuckets);
    } else {
      var n := |steps| - 1;
      SerialRun(ss[..n + 1], steps[..n], nbuckets);
      assert SerialInv(ss[..n + 1][n], nbuckets);
      SerialStep(ss[n], steps[n], nbuckets);
    }
  }

  lemma SerialInitial(s: State, nbuckets: nat)
    requires Initial(s)
    ensures SerialInv(s, nbuckets)
  {
    WordsInitial(s, nbuckets);
    hide FreeList.Inv;
  }

  /** Opens that callers serialize create one table, of any size, and all use it with the right
      number of buckets. */
  lemma SerialOnce(ss: seq<State>, steps: seq<Step>, nbuckets: nat, pid: nat)
    requires Run(ss, steps, nbuckets) && Serial(ss, steps) && pid in ss[|steps|].procs
    ensures var s := ss[|steps|];
      s.created <= 1 && (s.procs[pid].pc == Done ==> s.procs[pid].tab == s.root != 0 && s.procs[pid].sz == nbuckets)
  {
    SerialRun(ss, steps, nbuckets);
    hide FreeList.Inv, WordsOk;
    assert SerialOk(ss[|steps|], ss[|steps|].procs[pid], nbuckets);
  }
}
