/** The worker pool of thread/thread_pool.hpp as interleaved steps.

    Lock, condition variable, queue and the program counters of all threads form one
    state.  A critical section is two steps, taking the mutex and acting under it, so
    other threads can be scheduled in between.  Tasks are opaque. */
module ThreadPool {
  import opened Multisets

  type Task = int

  datatype Owner = Free | Worker(i: nat) | Adder(j: nat) | Destructor

  // Want: about to lock, at the loop head or after waking up.  Locked: evaluating the wait predicate.
  datatype WorkerPc = Want | Locked | Waiting | Running(task: Task) | Exited

  datatype AdderPc = Add(task: Task) | AddLocked(task: Task) | AddNotify | Added

  datatype DtorPc = Alive | DWant | DLocked | DNotify | Joining(k: nat) | Gone

  // added, started and finished are history: what was pushed, popped and run to its end.
  datatype State = State(
    owner: Owner, stop: bool, queue: seq<Task>,
    workers: seq<WorkerPc>, adders: seq<AdderPc>, dtor: DtorPc,
    added: seq<Task>, started: seq<Task>, finished: multiset<Task>)

  datatype Option = None | Some(w: nat)

  datatype Step =
    | StartAdd(task: Task)                 // a client calls AddTask
    | AdderLock(j: nat) | AdderPush(j: nat) | AdderNotify(j: nat, woken: Option)
    | WorkerLock(i: nat) | WorkerCheck(i: nat) | WorkerFinish(i: nat)
    | Spurious(i: nat)                     // a wait returns without a notification
    | StartDestructor                      // the owner ends the pool's life, after every AddTask has returned
    | DtorLock | DtorStop | DtorNotify | DtorJoin

  ghost predicate Init(s: State) {
    && s.owner == Free && !s.stop && s.queue == [] && s.adders == [] && s.dtor == Alive
    && s.added == [] && s.started == [] && s.finished == multiset{}
    && forall i :: 0 <= i < |s.workers| ==> s.workers[i] == Want
  }

  ghost predicate Enabled(s: State, step: Step) {
    match step
    case StartAdd(_) => s.dtor == Alive
    case AdderLock(j) => j < |s.adders| && s.adders[j].Add? && s.owner == Free
    case AdderPush(j) => j < |s.adders| && s.adders[j].AddLocked?
    case AdderNotify(j, woken) =>
      && j < |s.adders| && s.adders[j] == AddNotify
      && (match woken
          case Some(w) => w < |s.workers| && s.workers[w] == Waiting
          case None => forall i :: 0 <= i < |s.workers| ==> s.workers[i] != Waiting)
    case WorkerLock(i) => i < |s.workers| && s.workers[i] == Want && s.owner == Free
    case WorkerCheck(i) => i < |s.workers| && s.workers[i] == Locked
    case WorkerFinish(i) => i < |s.workers| && s.workers[i].Running?
    case Spurious(i) => i < |s.workers| && s.workers[i] == Waiting
    case StartDestructor => s.dtor == Alive && forall j :: 0 <= j < |s.adders| ==> s.adders[j] == Added
    case DtorLock => s.dtor == DWant && s.owner == Free
    case DtorStop => s.dtor == DLocked
    case DtorNotify => s.dtor == DNotify
    case DtorJoin => s.dtor.Joining? && (s.dtor.k < |s.workers| ==> s.workers[s.dtor.k] == Exited)
  }

  ghost function Wake(pc: WorkerPc): WorkerPc { if pc == Waiting then Want else pc }

  // What a worker does under the lock: wait, leave, or take the first task.
  ghost function Checked(s: State, i: nat): State
    requires i < |s.workers|
  {
    if !s.stop && s.queue == [] then s.(owner := Free, workers := s.workers[i := Waiting])
    else if s.queue == [] then s.(owner := Free, workers := s.workers[i := Exited])
    else s.(owner := Free, workers := s.workers[i := Running(s.queue[0])],
            queue := s.queue[1..], started := s.started + [s.queue[0]])
  }

  ghost function Apply(s: State, step: Step): State
    requires Enabled(s, step)
  {
    match step
    case StartAdd(t) => s.(adders := s.adders + [Add(t)])
    case AdderLock(j) => s.(owner := Adder(j), adders := s.adders[j := AddLocked(s.adders[j].task)])
    case AdderPush(j) =>
      var t := s.adders[j].task;
      s.(owner := Free, queue := s.queue + [t], added := s.added + [t], adders := s.adders[j := AddNotify])
    case AdderNotify(j, woken) =>
      var s' := s.(adders := s.adders[j := Added]);
      if woken.Some? then s'.(workers := s.workers[woken.w := Want]) else s'
    case WorkerLock(i) => s.(owner := Worker(i), workers := s.workers[i := Locked])
    case WorkerCheck(i) => Checked(s, i)
    case WorkerFinish(i) =>
      s.(workers := s.workers[i := Want], finished := s.finished + multiset{s.workers[i].task})
    case Spurious(i) => s.(workers := s.workers[i := Want])
    case StartDestructor => s.(dtor := DWant)
    case DtorLock => s.(owner := Destructor, dtor := DLocked)
    case DtorStop => s.(owner := Free, stop := true, dtor := DNotify)
    case DtorNotify =>
      s.(workers := seq(|s.workers|, i requires 0 <= i < |s.workers| => Wake(s.workers[i])), dtor := Joining(0))
    case DtorJoin => s.(dtor := if s.dtor.k < |s.workers| then Joining(s.dtor.k + 1) else Gone)
  }

  // trace is a run of a pool of n workers: step k leads from state k to state k + 1.
  ghost predicate Run(trace: seq<State>, steps: seq<Step>, n: nat) {
    && |trace| == |steps| + 1 && Init(trace[0]) && |trace[0].workers| == n
    && forall k {:trigger steps[k]} :: 0 <= k < |steps| ==>
         Enabled(trace[k], steps[k]) && trace[k + 1] == Apply(trace[k], steps[k])
  }

  // ---------- what every step keeps ----------

  ghost predicate MutexInv(s: State) {
    && (forall i {:trigger s.workers[i]} :: 0 <= i < |s.workers| ==> (s.workers[i] == Locked <==> s.owner == Worker(i)))
    && (forall j {:trigger s.adders[j]} :: 0 <= j < |s.adders| ==> (s.adders[j].AddLocked? <==> s.owner == Adder(j)))
    && (s.dtor == DLocked <==> s.owner == Destructor)
    && (s.owner.Worker? ==> s.owner.i < |s.workers|)
    && (s.owner.Adder? ==> s.owner.j < |s.adders|)
  }

  ghost function Load(pc: WorkerPc): multiset<Task> {
    if pc.Running? then multiset{pc.task} else multiset{}
  }

  ghost function InFlight(ws: seq<WorkerPc>): multiset<Task> {
    if ws == [] then multiset{} else Load(ws[0]) + InFlight(ws[1..])
  }

  // Tasks leave the queue in the order they came, and each started one is running or finished.
  ghost predicate TaskInv(s: State) {
    && s.added == s.started + s.queue
    && multiset(s.started) == s.finished + InFlight(s.workers)
    && (s.workers == [] ==> s.started == [])
  }

  ghost predicate Awake(pc: WorkerPc) { pc == Want || pc == Locked || pc.Running? }

  ghost predicate SomeoneAwake(s: State) {
    exists i :: 0 <= i < |s.workers| && Awake(s.workers[i])
  }

  ghost predicate NotifyPending(s: State) {
    exists j :: 0 <= j < |s.adders| && s.adders[j] == AddNotify
  }

  // No wakeup is lost: with a task in the queue a worker is up, or will be notified.
  ghost predicate WakeInv(s: State) {
    s.queue != [] && s.workers != [] ==> SomeoneAwake(s) || NotifyPending(s)
  }

  // A worker about to look at the queue, without a task of its own.
  predicate Ready(pc: WorkerPc) { pc == Want || pc == Locked }

  ghost function ReadyCount(ws: seq<WorkerPc>): nat {
    if ws == [] then 0 else ReadyCount(ws[1..]) + if Ready(ws[0]) then 1 else 0
  }

  ghost function NotifyCount(ps: seq<AdderPc>): nat {
    if ps == [] then 0 else NotifyCount(ps[1..]) + if ps[0] == AddNotify then 1 else 0
  }

  ghost predicate SomeoneSleeps(s: State) {
    exists i :: 0 <= i < |s.workers| && s.workers[i] == Waiting
  }

  // While a worker sleeps, each task in the queue has a worker about to look for it or a notification to come.
  ghost predicate SleepInv(s: State) {
    SomeoneSleeps(s) ==> |s.queue| <= ReadyCount(s.workers) + NotifyCount(s.adders)
  }

  ghost predicate LifeInv(s: State) {
    && (s.stop <==> s.dtor == DNotify || s.dtor.Joining? || s.dtor == Gone)
    && (s.dtor != Alive ==> forall j {:trigger s.adders[j]} :: 0 <= j < |s.adders| ==> s.adders[j] == Added)
    && (forall i {:trigger s.workers[i]} :: 0 <= i < |s.workers| && s.workers[i] == Exited ==> s.stop && s.queue == [])
    && (s.dtor.Joining? || s.dtor == Gone ==>
          forall i {:trigger s.workers[i]} :: 0 <= i < |s.workers| ==> s.workers[i] != Waiting)
    && (s.dtor.Joining? ==>
          s.dtor.k <= |s.workers| && forall i {:trigger s.workers[i]} :: 0 <= i < s.dtor.k ==> s.workers[i] == Exited)
    && (s.dtor == Gone ==> forall i {:trigger s.workers[i]} :: 0 <= i < |s.workers| ==> s.workers[i] == Exited)
  }

  ghost predicate Inv(s: State) {
    MutexInv(s) && TaskInv(s) && WakeInv(s) && SleepInv(s) && LifeInv(s)
  }

  lemma StepMutex(s: State, step: Step)
    requires MutexInv(s) && Enabled(s, step)
    ensures MutexInv(Apply(s, step))
  {
  }

  lemma StepLife(s: State, step: Step)
    requires LifeInv(s) && MutexInv(s) && Enabled(s, step)
    ensures LifeInv(Apply(s, step))
  {
  }

  lemma {:induction false} InFlightUpdate(ws: seq<WorkerPc>, i: nat, pc: WorkerPc)
    requires i < |ws|
    ensures InFlight(ws[i := pc]) + Load(ws[i]) == InFlight(ws) + Load(pc)
  {
    var ws' := ws[i := pc];
    if i == 0 {
      assert ws'[1..] == ws[1..];
    } else {
      InFlightUpdate(ws[1..], i - 1, pc);
      assert ws'[1..] == ws[1..][i - 1 := pc];
      Regroup(Load(ws[0]), InFlight(ws'[1..]), Load(ws[i]), InFlight(ws[1..]), Load(pc));
    }
  }

  lemma {:induction false} InFlightWake(ws: seq<WorkerPc>, ws': seq<WorkerPc>)
    requires |ws'| == |ws| && forall i :: 0 <= i < |ws| ==> ws'[i] == Wake(ws[i])
    ensures InFlight(ws') == InFlight(ws)
  {
    if ws != [] { InFlightWake(ws[1..], ws'[1..]); }
  }

  lemma {:induction false} InFlightNone(ws: seq<WorkerPc>)
    requires forall i :: 0 <= i < |ws| ==> !ws[i].Running?
    ensures InFlight(ws) == multiset{}
  {
    if ws != [] { InFlightNone(ws[1..]); }
  }

  // A worker that neither takes up nor puts down a task.
  lemma IdleMove(s: State, s': State, i: nat)
    requires TaskInv(s) && i < |s.workers| && !s.workers[i].Running? && |s'.workers| == |s.workers|
    requires !s'.workers[i].Running? && s'.workers == s.workers[i := s'.workers[i]]
    requires s'.added == s.added && s'.started == s.started && s'.queue == s.queue && s'.finished == s.finished
    ensures TaskInv(s')
  {
    InFlightUpdate(s.workers, i, s'.workers[i]);
    AddNothing(InFlight(s.workers));
    AddNothing(InFlight(s'.workers));
  }

  lemma TakeTask(s: State, i: nat)
    requires TaskInv(s) && i < |s.workers| && s.workers[i] == Locked && s.queue != []
    ensures TaskInv(Checked(s, i))
  {
    var t := s.queue[0];
    var before, after := InFlight(s.workers), InFlight(s.workers[i := Running(t)]);
    InFlightUpdate(s.workers, i, Running(t));
    hide InFlight;
    AddNothing(after);
    Associate(s.finished, before, multiset{t});
    assert multiset(s.started + [t]) == multiset(s.started) + multiset{t};
    assert s.added == (s.started + [t]) + s.queue[1..];
  }

  lemma EndTask(s: State, i: nat)
    requires TaskInv(s) && i < |s.workers| && s.workers[i].Running?
    ensures TaskInv(Apply(s, WorkerFinish(i)))
  {
    var t := s.workers[i].task;
    var before, after := InFlight(s.workers), InFlight(s.workers[i := Want]);
    InFlightUpdate(s.workers, i, Want);
    hide InFlight;
    AddNothing(before);
    Associate(s.finished, after, multiset{t});
    SwapLast(s.finished, after, multiset{t});
  }

  lemma StepTasks(s: State, step: Step)
    requires TaskInv(s) && Enabled(s, step)
    ensures TaskInv(Apply(s, step))
  {
    hide InFlight;
    var s' := Apply(s, step);
    match step
    case WorkerLock(i) => IdleMove(s, s', i);
    case WorkerCheck(i) => if s.queue != [] { TakeTask(s, i); } else { IdleMove(s, s', i); }
    case WorkerFinish(i) => EndTask(s, i);
    case Spurious(i) => IdleMove(s, s', i);
    case AdderNotify(j, woken) => if woken.Some? { IdleMove(s, s', woken.w); }
    case DtorNotify => InFlightWake(s.workers, s'.workers);
    case _ =>
  }

  // Only a worker that finds the queue empty goes to sleep or leaves, and a push leaves a notification pending.
  lemma StepWake(s: State, step: Step)
    requires WakeInv(s) && LifeInv(s) && Enabled(s, step)
    ensures WakeInv(Apply(s, step))
  {
    var s' := Apply(s, step);
    if s'.queue != [] && s'.workers != [] {
      match step
      case StartAdd(_) => WakeSame(s, s');
      case AdderLock(j) =>
        if !SomeoneAwake(s) {
          var n :| 0 <= n < |s.adders| && s.adders[n] == AddNotify;
          assert s'.adders[n] == AddNotify;
        } else {
          var i :| 0 <= i < |s.workers| && Awake(s.workers[i]);
          assert Awake(s'.workers[i]);
        }
      case AdderPush(j) => assert s'.adders[j] == AddNotify;
      case AdderNotify(j, woken) =>
        if woken.Some? {
          assert Awake(s'.workers[woken.w]);
        } else {
          assert s.workers[0] != Waiting;
          assert Awake(s'.workers[0]);
        }
      case WorkerLock(i) => assert Awake(s'.workers[i]);
      case WorkerCheck(i) => assert Awake(s'.workers[i]);
      case WorkerFinish(i) => assert Awake(s'.workers[i]);
      case Spurious(i) => assert Awake(s'.workers[i]);
      case DtorNotify =>
        var i :| 0 <= i < |s.workers| && Awake(s.workers[i]);
        assert Awake(s'.workers[i]);
      case _ => WakeSame(s, s');
    }
  }

  lemma WakeSame(s: State, s': State)
    requires SomeoneAwake(s) || NotifyPending(s)
    requires s.workers <= s'.workers && s.adders <= s'.adders
    ensures SomeoneAwake(s') || NotifyPending(s')
  {
  }

  lemma {:induction false} ReadyUpdate(ws: seq<WorkerPc>, i: nat, pc: WorkerPc)
    requires i < |ws|
    ensures ReadyCount(ws[i := pc])
      == ReadyCount(ws) - (if Ready(ws[i]) then 1 else 0) + (if Ready(pc) then 1 else 0)
  {
    if i == 0 {
      assert ws[i := pc][1..] == ws[1..];
    } else {
      ReadyUpdate(ws[1..], i - 1, pc);
      assert ws[i := pc][1..] == ws[1..][i - 1 := pc];
    }
  }

  lemma {:induction false} NotifyUpdate(ps: seq<AdderPc>, j: nat, pc: AdderPc)
    requires j < |ps|
    ensures NotifyCount(ps[j := pc])
      == NotifyCount(ps) - (if ps[j] == AddNotify then 1 else 0) + (if pc == AddNotify then 1 else 0)
  {
    if j == 0 {
      assert ps[j := pc][1..] == ps[1..];
    } else {
      NotifyUpdate(ps[1..], j - 1, pc);
      assert ps[j := pc][1..] == ps[1..][j - 1 := pc];
    }
  }

  lemma {:induction false} NotifyOneMore(ps: seq<AdderPc>, task: Task)
    ensures NotifyCount(ps + [Add(task)]) == NotifyCount(ps)
  {
    if ps != [] {
      NotifyOneMore(ps[1..], task);
      assert (ps + [Add(task)])[1..] == ps[1..] + [Add(task)];
    } else {
      assert [Add(task)][1..] == [];
    }
  }

  // Only the last check before sleeping puts a ready worker away without a task, and then the queue is empty.
  lemma StepSleep(s: State, step: Step)
    requires SleepInv(s) && Enabled(s, step)
    ensures SleepInv(Apply(s, step))
  {
    hide ReadyCount, NotifyCount;
    var s' := Apply(s, step);
    if SomeoneSleeps(s') {
      var i :| 0 <= i < |s'.workers| && s'.workers[i] == Waiting;
      assert SomeoneSleeps(s) || (step.WorkerCheck? && s.queue == []) by {
        if !step.WorkerCheck? { assert s.workers[i] == Waiting; }
      }
      match step
      case StartAdd(task) => NotifyOneMore(s.adders, task);
      case AdderLock(j) => NotifyUpdate(s.adders, j, s'.adders[j]);
      case AdderPush(j) => NotifyUpdate(s.adders, j, AddNotify);
      case AdderNotify(j, woken) =>
        NotifyUpdate(s.adders, j, Added);
        if woken.Some? { ReadyUpdate(s.workers, woken.w, Want); }
      case WorkerLock(w) => ReadyUpdate(s.workers, w, Locked);
      case WorkerCheck(w) => ReadyUpdate(s.workers, w, s'.workers[w]);
      case WorkerFinish(w) => ReadyUpdate(s.workers, w, Want);
      case Spurious(w) => ReadyUpdate(s.workers, w, Want);
      case _ =>
    }
  }

  lemma {:induction false} SomeReady(ws: seq<WorkerPc>)
    requires 0 < ReadyCount(ws)
    ensures exists i :: 0 <= i < |ws| && Ready(ws[i])
  {
    if !Ready(ws[0]) {
      SomeReady(ws[1..]);
      var i :| 0 <= i < |ws[1..]| && Ready(ws[1..][i]);
      assert Ready(ws[i + 1]);
    }
  }

  lemma {:induction false} SomeNotify(ps: seq<AdderPc>)
    requires 0 < NotifyCount(ps)
    ensures exists j :: 0 <= j < |ps| && ps[j] == AddNotify
  {
    if ps[0] != AddNotify {
      SomeNotify(ps[1..]);
      var j :| 0 <= j < |ps[1..]| && ps[1..][j] == AddNotify;
      assert ps[j + 1] == AddNotify;
    }
  }

  // ---------- every run ----------

  lemma InitInv(s: State)
    requires Init(s)
    ensures Inv(s)
  {
    InFlightNone(s.workers);
    assert s.added == s.started + s.queue;
  }

  lemma StepInv(s: State, step: Step)
    requires Inv(s) && Enabled(s, step)
    ensures Inv(Apply(s, step)) && |Apply(s, step).workers| == |s.workers|
  {
    hide MutexInv, TaskInv, WakeInv, SleepInv, LifeInv;
    StepMutex(s, step);
    StepTasks(s, step);
    StepWake(s, step);
    StepSleep(s, step);
    StepLife(s, step);
  }

  lemma {:induction false} RunInv(trace: seq<State>, steps: seq<Step>, n: nat, k: nat)
    requires Run(trace, steps, n) && k < |trace|
    ensures Inv(trace[k]) && |trace[k].workers| == n
  {
    hide Inv, Enabled, Apply;
    if k == 0 {
      InitInv(trace[0]);
    } else {
      RunInv(trace, steps, n, k - 1);
      assert Enabled(trace[k - 1], steps[k - 1]) && trace[k - 1 + 1] == Apply(trace[k - 1], steps[k - 1]);
      StepInv(trace[k - 1], steps[k - 1]);
    }
  }

  // ---------- the tasks the callers asked for ----------

  // The tasks AddTask was called with, in the order of the calls.
  ghost function Requested(steps: seq<Step>): seq<Task> {
    if steps == [] then []
    else
      var n := |steps| - 1;
      Requested(steps[..n]) + if steps[n].StartAdd? then [steps[n].task] else []
  }

  // The same tasks in the order in which the calls got to the queue.
  ghost function Pushed(steps: seq<Step>): seq<Task> {
    if steps == [] then []
    else
      var n := |steps| - 1;
      var asked := Requested(steps[..n]);
      Pushed(steps[..n]) + if steps[n].AdderPush? && steps[n].j < |asked| then [asked[steps[n].j]] else []
  }

  // What a call still has to push.
  ghost function Unpushed(pc: AdderPc): multiset<Task> {
    if pc.Add? || pc.AddLocked? then multiset{pc.task} else multiset{}
  }

  ghost function AllUnpushed(ps: seq<AdderPc>): multiset<Task> {
    if ps == [] then multiset{} else Unpushed(ps[0]) + AllUnpushed(ps[1..])
  }

  // The j-th call of AddTask carries the j-th task asked for until it is in the queue.
  ghost predicate OwnTasks(ps: seq<AdderPc>, asked: seq<Task>) {
    && |ps| == |asked|
    && forall j {:trigger ps[j]} :: 0 <= j < |ps| && (ps[j].Add? || ps[j].AddLocked?) ==> ps[j].task == asked[j]
  }

  ghost predicate RequestInv(s: State, steps: seq<Step>) {
    && OwnTasks(s.adders, Requested(steps)) && s.added == Pushed(steps)
    && multiset(Requested(steps)) == multiset(s.added) + AllUnpushed(s.adders)
  }

  lemma {:induction false} UnpushedUpdate(ps: seq<AdderPc>, j: nat, pc: AdderPc)
    requires j < |ps|
    ensures AllUnpushed(ps[j := pc]) + Unpushed(ps[j]) == AllUnpushed(ps) + Unpushed(pc)
  {
    var ps' := ps[j := pc];
    if j == 0 {
      assert ps'[1..] == ps[1..];
    } else {
      UnpushedUpdate(ps[1..], j - 1, pc);
      assert ps'[1..] == ps[1..][j - 1 := pc];
      Regroup(Unpushed(ps[0]), AllUnpushed(ps'[1..]), Unpushed(ps[j]), AllUnpushed(ps[1..]), Unpushed(pc));
    }
  }

  lemma {:induction false} UnpushedOneMore(ps: seq<AdderPc>, t: Task)
    ensures AllUnpushed(ps + [Add(t)]) == AllUnpushed(ps) + multiset{t}
  {
    if ps == [] {
      assert [Add(t)][1..] == [];
      assert [] + [Add(t)] == [Add(t)];
    } else {
      UnpushedOneMore(ps[1..], t);
      assert (ps + [Add(t)])[1..] == ps[1..] + [Add(t)];
      Associate(Unpushed(ps[0]), AllUnpushed(ps[1..]), multiset{t});
    }
  }

  lemma {:induction false} NoneUnpushed(ps: seq<AdderPc>)
    requires forall j :: 0 <= j < |ps| ==> ps[j] == Added
    ensures AllUnpushed(ps) == multiset{}
  {
    if ps != [] { NoneUnpushed(ps[1..]); }
  }

  lemma RequestsMore(steps: seq<Step>, step: Step)
    ensures Requested(steps + [step]) == Requested(steps) + if step.StartAdd? then [step.task] else []
    ensures var asked := Requested(steps);
      Pushed(steps + [step]) == Pushed(steps) + if step.AdderPush? && step.j < |asked| then [asked[step.j]] else []
  {
    assert (steps + [step])[..|steps|] == steps;
  }

  // A push moves the task from the call to the queue.
  lemma PushMoves(s: State, j: nat, asked: seq<Task>)
    requires Enabled(s, AdderPush(j)) && multiset(asked) == multiset(s.added) + AllUnpushed(s.adders)
    ensures var s' := Apply(s, AdderPush(j)); multiset(asked) == multiset(s'.added) + AllUnpushed(s'.adders)
  {
    var t, rest := s.adders[j].task, AllUnpushed(s.adders[j := AddNotify]);
    UnpushedUpdate(s.adders, j, AddNotify);
    hide AllUnpushed;
    AddNothing(AllUnpushed(s.adders));
    Associate(multiset(s.added), rest, multiset{t});
    SwapLast(multiset(s.added), rest, multiset{t});
    assert multiset(s.added + [t]) == multiset(s.added) + multiset{t};
  }

  lemma AdderKeeps(s: State, j: nat, pc: AdderPc)
    requires j < |s.adders| && Unpushed(pc) == Unpushed(s.adders[j])
    ensures AllUnpushed(s.adders[j := pc]) == AllUnpushed(s.adders)
  {
    UnpushedUpdate(s.adders, j, pc);
    hide AllUnpushed, Unpushed;
    CancelLast(AllUnpushed(s.adders[j := pc]), AllUnpushed(s.adders), Unpushed(pc));
  }

  lemma StepUnpushed(s: State, step: Step, asked: seq<Task>)
    requires Enabled(s, step) && multiset(asked) == multiset(s.added) + AllUnpushed(s.adders)
    ensures var s' := Apply(s, step);
      multiset(asked + if step.StartAdd? then [step.task] else []) == multiset(s'.added) + AllUnpushed(s'.adders)
  {
    hide AllUnpushed;
    assert asked + [] == asked;
    match step
    case StartAdd(t) =>
      UnpushedOneMore(s.adders, t);
      Associate(multiset(s.added), AllUnpushed(s.adders), multiset{t});
    case AdderLock(j) => AdderKeeps(s, j, AddLocked(s.adders[j].task));
    case AdderPush(j) => PushMoves(s, j, asked);
    case AdderNotify(j, _) => AdderKeeps(s, j, Added);
    case _ =>
  }

  lemma StepOwnTasks(s: State, step: Step, asked: seq<Task>)
    requires OwnTasks(s.adders, asked) && Enabled(s, step)
    ensures OwnTasks(Apply(s, step).adders, asked + if step.StartAdd? then [step.task] else [])
    ensures Apply(s, step).added
      == s.added + if step.AdderPush? && step.j < |asked| then [asked[step.j]] else []
  {
  }

  lemma StepRequests(s: State, step: Step, steps: seq<Step>)
    requires RequestInv(s, steps) && Enabled(s, step)
    ensures RequestInv(Apply(s, step), steps + [step])
  {
    hide AllUnpushed, Requested, Pushed, OwnTasks, Enabled, Apply;
    RequestsMore(steps, step);
    StepOwnTasks(s, step, Requested(steps));
    StepUnpushed(s, step, Requested(steps));
  }

  lemma {:induction false} RunRequests(trace: seq<State>, steps: seq<Step>, n: nat, k: nat)
    requires Run(trace, steps, n) && k < |trace|
    ensures RequestInv(trace[k], steps[..k])
  {
    hide Enabled, Apply, RequestInv;
    if k == 0 {
      assert steps[..0] == [];
      NothingRequested(trace[0]);
    } else {
      RunRequests(trace, steps, n, k - 1);
      assert Enabled(trace[k - 1], steps[k - 1]) && trace[k - 1 + 1] == Apply(trace[k - 1], steps[k - 1]);
      StepRequests(trace[k - 1], steps[k - 1], steps[..k - 1]);
      assert steps[..k] == steps[..k - 1] + [steps[k - 1]];
    }
  }

  lemma NothingRequested(s: State)
    requires Init(s)
    ensures RequestInv(s, [])
  {
  }

  // The tasks put into the queue are those the callers asked for, each once, in the order in which the calls
  // got there; those not yet there are carried by their calls.
  lemma TasksAreTheCallers(trace: seq<State>, steps: seq<Step>, n: nat, k: nat)
    requires Run(trace, steps, n) && k < |trace|
    ensures |trace[k].adders| == |Requested(steps[..k])|
    ensures var s := trace[k]; forall j :: 0 <= j < |s.adders| && (s.adders[j].Add? || s.adders[j].AddLocked?) ==>
      s.adders[j].task == Requested(steps[..k])[j]
    ensures trace[k].added == Pushed(steps[..k])
    ensures multiset(Requested(steps[..k])) == multiset(trace[k].added) + AllUnpushed(trace[k].adders)
  {
    RunRequests(trace, steps, n, k);
  }

  // No lost wakeup, in every state of every run of a pool with a worker: while a task waits, a worker is up or
  // a notification is pending; and a worker sleeps beside it only while another, with no task of its own, is
  // about to look at the queue or a notification is pending, one for each task.
  lemma NoLostWakeup(trace: seq<State>, steps: seq<Step>, n: nat, k: nat)
    requires Run(trace, steps, n) && k < |trace| && 0 < n && trace[k].queue != []
    ensures SomeoneAwake(trace[k]) || NotifyPending(trace[k])
    ensures var s := trace[k]; SomeoneSleeps(s) ==> |s.queue| <= ReadyCount(s.workers) + NotifyCount(s.adders)
    ensures var s := trace[k]; SomeoneSleeps(s) ==>
      (exists i :: 0 <= i < |s.workers| && Ready(s.workers[i])) || NotifyPending(s)
  {
    hide MutexInv, TaskInv, LifeInv;
    RunInv(trace, steps, n, k);
    var s := trace[k];
    if 0 < ReadyCount(s.workers) {
      SomeReady(s.workers);
    } else if 0 < NotifyCount(s.adders) {
      SomeNotify(s.adders);
    }
  }

  // Tasks are started in the order they were added, and each started one is running or finished, once.
  lemma StartOrder(trace: seq<State>, steps: seq<Step>, n: nat, k: nat)
    requires Run(trace, steps, n) && k < |trace|
    ensures trace[k].started <= trace[k].added == Pushed(steps[..k])
    ensures multiset(trace[k].started) == trace[k].finished + InFlight(trace[k].workers)
  {
    RunInv(trace, steps, n, k);
    RunRequests(trace, steps, n, k);
  }

  // At most one thread, worker, caller or destructor, is inside a critical section.
  lemma MutualExclusion(trace: seq<State>, steps: seq<Step>, n: nat, k: nat)
    requires Run(trace, steps, n) && k < |trace|
    ensures var ws := trace[k].workers;
      forall i, i' :: 0 <= i < |ws| && 0 <= i' < |ws| && ws[i] == ws[i'] == Locked ==> i == i'
    ensures var ps := trace[k].adders;
      forall j, j' :: 0 <= j < |ps| && 0 <= j' < |ps| && ps[j].AddLocked? && ps[j'].AddLocked? ==> j == j'
    ensures var ws, ps := trace[k].workers, trace[k].adders;
      forall i, j :: 0 <= i < |ws| && 0 <= j < |ps| ==> !(ws[i] == Locked && ps[j].AddLocked?)
    ensures var ws, ps := trace[k].workers, trace[k].adders; trace[k].dtor == DLocked ==>
      (forall i :: 0 <= i < |ws| ==> ws[i] != Locked) && (forall j :: 0 <= j < |ps| ==> !ps[j].AddLocked?)
  {
    RunInv(trace, steps, n, k);
  }

  // When the destructor's joins are over, a pool of n workers has executed every task AddTask was called
  // with exactly once, in the order of adding, if and only if it has a worker or no task was asked for.
  lemma JoinedMeansDone(trace: seq<State>, steps: seq<Step>, n: nat, k: nat)
    requires Run(trace, steps, n) && k < |trace| && trace[k].dtor == Gone
    ensures trace[k].started == Pushed(steps[..k]) && trace[k].finished == multiset(Requested(steps[..k]))
      <==> 0 < n || Requested(steps[..k]) == []
  {
    RunInv(trace, steps, n, k);
    RunRequests(trace, steps, n, k);
    var s := trace[k];
    InFlightNone(s.workers);
    NoneUnpushed(s.adders);
    hide InFlight, AllUnpushed, Requested, Pushed;
    AddNothing(s.finished);
    AddNothing(multiset(s.added));
    if 0 < n {
      assert s.workers[0] == Exited;
      assert s.added == s.started + [];
    } else if Requested(steps[..k]) != [] {
      assert Requested(steps[..k])[0] in multiset(Requested(steps[..k]));
    }
  }

  lemma RunOn(trace: seq<State>, steps: seq<Step>, n: nat, step: Step) returns (trace': seq<State>, steps': seq<Step>)
    requires Run(trace, steps, n) && Enabled(trace[|trace| - 1], step)
    ensures Run(trace', steps', n) && trace'[|trace'| - 1] == Apply(trace[|trace| - 1], step)
    ensures steps' == steps + [step]
  {
    hide Apply, Enabled, Init;
    trace', steps' := trace + [Apply(trace[|trace| - 1], step)], steps + [step];
    forall k {:trigger steps'[k]} | 0 <= k < |steps'|
      ensures Enabled(trace'[k], steps'[k]) && trace'[k + 1] == Apply(trace'[k], steps'[k])
    {
      if k < |steps| { assert steps'[k] == steps[k]; }
    }
  }

  // A pool without workers ends its life with the task it was given not executed.
  lemma EmptyPoolDropsTask(task: Task) returns (trace: seq<State>, steps: seq<Step>)
    ensures Run(trace, steps, 0) && Requested(steps) == [task]
    ensures var s := trace[|trace| - 1]; s.dtor == Gone && s.started == [] && s.finished == multiset{}
  {
    var s := State(Free, false, [], [], [], Alive, [], [], multiset{});
    trace, steps := [s], [];
    trace, steps := RunOn(trace, steps, 0, StartAdd(task));
    trace, steps := RunOn(trace, steps, 0, AdderLock(0));
    trace, steps := RunOn(trace, steps, 0, AdderPush(0));
    trace, steps := RunOn(trace, steps, 0, AdderNotify(0, None));
    hide Run;
    trace, steps := RunOn(trace, steps, 0, StartDestructor);
    trace, steps := RunOn(trace, steps, 0, DtorLock);
    trace, steps := RunOn(trace, steps, 0, DtorStop);
    trace, steps := RunOn(trace, steps, 0, DtorNotify);
    trace, steps := RunOn(trace, steps, 0, DtorJoin);
    OneRequest(trace, steps, 0, task);
  }

  lemma OneRequest(trace: seq<State>, steps: seq<Step>, n: nat, task: Task)
    requires Run(trace, steps, n) && trace[|trace| - 1].adders == [Added] && trace[|trace| - 1].added == [task]
    ensures Requested(steps) == [task]
  {
    RunRequests(trace, steps, n, |steps|);
    assert steps[..|steps|] == steps;
    NoneUnpushed([Added]);
    AddNothing(multiset([task]));
    var asked := Requested(steps);
    assert asked == [asked[0]] && asked[0] in multiset(asked);
  }

  // A pool of one worker that is asleep when its task comes, from its start to its end.
  lemma SleeperExecutesTask(task: Task) returns (trace: seq<State>, steps: seq<Step>)
    ensures Run(trace, steps, 1) && Requested(steps) == [task]
    ensures var s := trace[|trace| - 1]; s.dtor == Gone && s.started == [task] && s.finished == multiset{task}
  {
    var s := State(Free, false, [], [Want], [], Alive, [], [], multiset{});
    trace, steps := [s], [];
    assert Run(trace, steps, 1);
    hide Run;
    trace, steps := RunOn(trace, steps, 1, WorkerLock(0));
    trace, steps := RunOn(trace, steps, 1, WorkerCheck(0));
    trace, steps := RunOn(trace, steps, 1, StartAdd(task));
    trace, steps := RunOn(trace, steps, 1, AdderLock(0));
    trace, steps := RunOn(trace, steps, 1, AdderPush(0));
    trace, steps := RunOn(trace, steps, 1, AdderNotify(0, Some(0)));
    trace, steps := RunOn(trace, steps, 1, WorkerLock(0));
    trace, steps := RunOn(trace, steps, 1, WorkerCheck(0));
    trace, steps := RunOn(trace, steps, 1, WorkerFinish(0));
    trace, steps := ShutDown(trace, steps);
    OneRequest(trace, steps, 1, task);
  }

  // The end of a pool whose one worker has nothing left to do.
  lemma ShutDown(trace0: seq<State>, steps0: seq<Step>) returns (trace: seq<State>, steps: seq<Step>)
    requires Run(trace0, steps0, 1)
    requires var s := trace0[|trace0| - 1];
      s.owner == Free && s.dtor == Alive && s.queue == [] && s.workers == [Want] && s.adders == [Added] && !s.stop
    ensures Run(trace, steps, 1)
    ensures trace[|trace| - 1] == trace0[|trace0| - 1].(dtor := Gone, stop := true, workers := [Exited])
  {
    trace, steps := AskToStop(trace0, steps0);
    hide Run;
    trace, steps := RunOn(trace, steps, 1, WorkerLock(0));
    trace, steps := RunOn(trace, steps, 1, WorkerCheck(0));
    trace, steps := RunOn(trace, steps, 1, DtorJoin);
    trace, steps := RunOn(trace, steps, 1, DtorJoin);
  }

  lemma AskToStop(trace0: seq<State>, steps0: seq<Step>) returns (trace: seq<State>, steps: seq<Step>)
    requires Run(trace0, steps0, 1)
    requires var s := trace0[|trace0| - 1];
      s.owner == Free && s.dtor == Alive && s.workers == [Want] && s.adders == [Added] && !s.stop
    ensures Run(trace, steps, 1)
    ensures trace[|trace| - 1] == trace0[|trace0| - 1].(dtor := Joining(0), stop := true)
  {
    trace, steps := RunOn(trace0, steps0, 1, StartDestructor);
    hide Run;
    trace, steps := RunOn(trace, steps, 1, DtorLock);
    trace, steps := RunOn(trace, steps, 1, DtorStop);
    trace, steps := RunOn(trace, steps, 1, DtorNotify);
    assert trace[|trace| - 1].workers == [Want];
  }

  // ---------- progress ----------

  // Steps of the pool's own threads and of calls in progress: no new call, no spurious wakeup.
  predicate Internal(step: Step) {
    !step.StartAdd? && !step.StartDestructor? && !step.Spurious?
  }

  ghost predicate CanMove(s: State) {
    exists step :: Internal(step) && Enabled(s, step)
  }

  ghost predicate Pending(s: State) {
    || s.queue != []
    || (exists j :: 0 <= j < |s.adders| && s.adders[j] != Added)
    || (s.dtor != Alive && s.dtor != Gone)
  }

  lemma CanMoveBy(s: State, step: Step)
    requires Internal(step) && Enabled(s, step)
    ensures CanMove(s)
  {
  }

  lemma LockedMoves(s: State)
    requires Inv(s) && s.owner != Free
    ensures CanMove(s)
  {
    match s.owner
    case Worker(i) => CanMoveBy(s, WorkerCheck(i));
    case Adder(j) => CanMoveBy(s, AdderPush(j));
    case Destructor => CanMoveBy(s, DtorStop);
  }

  lemma AwakeMoves(s: State, i: nat)
    requires Inv(s) && s.owner == Free && i < |s.workers| && Awake(s.workers[i])
    ensures CanMove(s)
  {
    if s.workers[i] == Want { CanMoveBy(s, WorkerLock(i)); } else { CanMoveBy(s, WorkerFinish(i)); }
  }

  lemma AdderMoves(s: State, j: nat)
    requires Inv(s) && s.owner == Free && j < |s.adders| && s.adders[j] != Added
    ensures CanMove(s)
  {
    if s.adders[j].Add? {
      CanMoveBy(s, AdderLock(j));
    } else if i :| 0 <= i < |s.workers| && s.workers[i] == Waiting {
      CanMoveBy(s, AdderNotify(j, Some(i)));
    } else {
      CanMoveBy(s, AdderNotify(j, None));
    }
  }

  lemma DtorMoves(s: State)
    requires Inv(s) && s.owner == Free && s.dtor != Alive && s.dtor != Gone
    ensures CanMove(s)
  {
    match s.dtor
    case DWant => CanMoveBy(s, DtorLock);
    case DNotify => CanMoveBy(s, DtorNotify);
    case Joining(k) =>
      if k < |s.workers| && s.workers[k] != Exited {
        AwakeMoves(s, k);
      } else {
        CanMoveBy(s, DtorJoin);
      }
    case _ =>
  }

  // No deadlock: while a task waits, a call is in progress or the destructor runs, some thread can move.
  lemma NoDeadlock(trace: seq<State>, steps: seq<Step>, n: nat, k: nat)
    requires Run(trace, steps, n) && k < |trace| && 0 < n && Pending(trace[k])
    ensures CanMove(trace[k])
  {
    RunInv(trace, steps, n, k);
    var s := trace[k];
    if s.owner != Free {
      LockedMoves(s);
    } else if j :| 0 <= j < |s.adders| && s.adders[j] != Added {
      AdderMoves(s, j);
    } else if s.dtor != Alive && s.dtor != Gone {
      DtorMoves(s);
    } else {
      var i :| 0 <= i < |s.workers| && Awake(s.workers[i]);
      AwakeMoves(s, i);
    }
  }

  // ---------- every burst of internal steps ends ----------

  function WorkerWork(pc: WorkerPc): nat {
    match pc case Exited => 0 case Waiting => 1 case Locked => 2 case Want => 3 case Running(_) => 4
  }

  function AdderWork(pc: AdderPc): nat {
    match pc case Added => 0 case AddNotify => 3 case AddLocked(_) => 7 case Add(_) => 8
  }

  function DtorWork(pc: DtorPc, n: nat): int {
    match pc
    case Alive => 0 case DWant => 3 * n + 4 case DLocked => 3 * n + 3 case DNotify => 3 * n + 2
    case Joining(k) => n - k + 1 case Gone => 0
  }

  function WorkersWork(ws: seq<WorkerPc>): nat {
    if ws == [] then 0 else WorkerWork(ws[0]) + WorkersWork(ws[1..])
  }

  function AddersWork(ps: seq<AdderPc>): nat {
    if ps == [] then 0 else AdderWork(ps[0]) + AddersWork(ps[1..])
  }

  function Work(s: State): int {
    WorkersWork(s.workers) + AddersWork(s.adders) + 3 * |s.queue| + DtorWork(s.dtor, |s.workers|)
  }

  lemma {:induction false} WorkersUpdate(ws: seq<WorkerPc>, i: nat, pc: WorkerPc)
    requires i < |ws|
    ensures WorkersWork(ws[i := pc]) == WorkersWork(ws) - WorkerWork(ws[i]) + WorkerWork(pc)
  {
    if i == 0 {
      assert ws[i := pc][1..] == ws[1..];
    } else {
      WorkersUpdate(ws[1..], i - 1, pc);
      assert ws[i := pc][1..] == ws[1..][i - 1 := pc];
    }
  }

  lemma {:induction false} AddersUpdate(ps: seq<AdderPc>, j: nat, pc: AdderPc)
    requires j < |ps|
    ensures AddersWork(ps[j := pc]) == AddersWork(ps) - AdderWork(ps[j]) + AdderWork(pc)
  {
    if j == 0 {
      assert ps[j := pc][1..] == ps[1..];
    } else {
      AddersUpdate(ps[1..], j - 1, pc);
      assert ps[j := pc][1..] == ps[1..][j - 1 := pc];
    }
  }

  lemma {:induction false} WakeWork(ws: seq<WorkerPc>, ws': seq<WorkerPc>)
    requires |ws'| == |ws| && forall i :: 0 <= i < |ws| ==> ws'[i] == Wake(ws[i])
    ensures WorkersWork(ws') <= WorkersWork(ws) + 2 * |ws|
  {
    if ws != [] { WakeWork(ws[1..], ws'[1..]); }
  }

  lemma WorkShrinks(s: State, step: Step)
    requires Inv(s) && Internal(step) && Enabled(s, step)
    ensures 0 <= Work(Apply(s, step)) < Work(s)
  {
    hide MutexInv, TaskInv, WakeInv, WorkersWork, AddersWork;
    var s' := Apply(s, step);
    match step
    case AdderLock(j) => AddersUpdate(s.adders, j, s'.adders[j]);
    case AdderPush(j) => AddersUpdate(s.adders, j, AddNotify);
    case AdderNotify(j, woken) =>
      AddersUpdate(s.adders, j, Added);
      if woken.Some? { WorkersUpdate(s.workers, woken.w, Want); }
    case WorkerLock(i) => WorkersUpdate(s.workers, i, Locked);
    case WorkerCheck(i) => WorkersUpdate(s.workers, i, s'.workers[i]);
    case WorkerFinish(i) => WorkersUpdate(s.workers, i, Want);
    case DtorNotify => WakeWork(s.workers, s'.workers);
    case _ =>
  }

  // From any state of a run, no more internal steps can follow one another than its work allows.
  lemma {:induction false} BurstsEnd(trace: seq<State>, steps: seq<Step>, n: nat, k: nat, m: nat)
    requires Run(trace, steps, n) && k <= m < |trace|
    requires forall i {:trigger steps[i]} :: k <= i < m ==> Internal(steps[i])
    ensures m - k <= Work(trace[k]) - Work(trace[m])
    ensures k < m ==> 0 <= Work(trace[m])
  {
    if k < m {
      BurstsEnd(trace, steps, n, k, m - 1);
      RunInv(trace, steps, n, m - 1);
      assert Enabled(trace[m - 1], steps[m - 1]) && trace[m - 1 + 1] == Apply(trace[m - 1], steps[m - 1]);
      WorkShrinks(trace[m - 1], steps[m - 1]);
    }
  }

  // Once its destructor has begun, a pool with a worker that can move no further is gone,
  // and has executed every task AddTask was called with exactly once, in order of adding.
  lemma DestructorCompletes(trace: seq<State>, steps: seq<Step>, n: nat, k: nat)
    requires Run(trace, steps, n) && k < |trace| && 0 < n && trace[k].dtor != Alive && !CanMove(trace[k])
    ensures trace[k].dtor == Gone
    ensures trace[k].started == Pushed(steps[..k]) && trace[k].finished == multiset(Requested(steps[..k]))
  {
    if trace[k].dtor != Gone { NoDeadlock(trace, steps, n, k); }
    JoinedMeansDone(trace, steps, n, k);
  }
}
