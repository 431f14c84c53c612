/** The lock-free mask machine of design/mode/states/ex_ver_3/mask_state_machine.hpp as interleaved
    steps: one atomic load, one compare-and-swap, one observer callback at a time.

    Every invocation of cas_update or set_field_atomic is an entry of `calls`, so any number of
    threads may be anywhere inside them.  The word has w bits; compute functions and validators
    are arbitrary functions. */
module MaskCas {
  import opened Bits
  import opened Fields
  import opened Multisets
  import opened Power

  datatype Validator = NoValidator | Validator(test: (nat, nat) -> bool)

  datatype Call =
    | Update(compute: nat -> nat, check: Validator)
    | SetField(offset: nat, width: nat, value: nat, check: Validator)

  datatype Pair = Pair(from: nat, to: nat)

  datatype Outcome = Success(seen: nat) | Rejected(seen: nat) | OutOfRange

  // since and at: the number of commits at the call's first read of the word, and when oldv was read.
  // lost: how many compare-and-swaps have failed because the word had changed.
  datatype Pc =
    | Start
    | Loaded(oldv: nat, at: nat, lost: nat, since: nat)
    | Trying(oldv: nat, newv: nat, at: nat, lost: nat, since: nat)
    | Announce(pair: Pair)
    | Announcing(pair: Pair, k: nat)
    | Returned(outcome: Outcome)

  datatype Invocation = Invocation(call: Call, pc: Pc)

  datatype Commit = Commit(j: nat, pair: Pair)

  // since: how many announcements had begun when the observer was registered.
  datatype Observer = Observer(received: seq<Pair>, since: nat)

  datatype Owner = Free | HeldBy(j: nat)

  // commits: the successful compare-and-swaps.  announced: the pairs in the order of obs_mtx_.
  datatype State = State(
    word: nat, calls: seq<Invocation>, owner: Owner, observers: seq<Observer>,
    commits: seq<Commit>, announced: seq<Pair>)

  datatype Step =
    | Invoke(call: Call) | Load(j: nat) | Compute(j: nat) | Cas(j: nat, spurious: bool)
    | LockObservers(j: nat) | Deliver(j: nat) | UnlockObservers(j: nat) | Subscribe

  // The check of set_field_atomic, in 32-bit unsigned arithmetic.
  predicate RangeError(offset: nat, width: nat, w: nat) {
    offset >= w || width == 0 || (offset + width) % 0x1_0000_0000 > w
  }

  // Calls whose meaning the language defines: no shift by the width of the word or more.
  predicate Defined(call: Call, w: nat) {
    call.SetField? && !RangeError(call.offset, call.width, w) ==> call.width < w
  }

  predicate InRange(call: Call, w: nat) {
    call.SetField? ==> call.offset + call.width <= w
  }

  // What the call makes of an old word; an Update's result is converted to the word's type.
  function NewWord(call: Call, from: nat, w: nat): nat
    requires InRange(call, w)
  {
    match call
    case Update(compute, _) => compute(from) % Pow2(w)
    case SetField(offset, width, value, _) => Set(from, offset, width, value, w)
  }

  predicate Accepts(call: Call, from: nat, to: nat) {
    call.check.Validator? ==> call.check.test(from, to)
  }

  ghost predicate Init(s: State, w: nat) {
    && s.word < Pow2(w) && s.calls == [] && s.owner == Free && s.observers == []
    && s.commits == [] && s.announced == []
  }

  predicate At(s: State, j: nat) { j < |s.calls| }

  ghost predicate Enabled(s: State, step: Step, w: nat) {
    match step
    case Invoke(call) => Defined(call, w)
    case Load(j) => At(s, j) && s.calls[j].pc == Start
    case Compute(j) => At(s, j) && s.calls[j].pc.Loaded? && InRange(s.calls[j].call, w)
    case Cas(j, _) => At(s, j) && s.calls[j].pc.Trying?
    case LockObservers(j) => At(s, j) && s.calls[j].pc.Announce? && s.owner == Free
    case Deliver(j) => At(s, j) && s.calls[j].pc.Announcing? && s.calls[j].pc.k < |s.observers|
    case UnlockObservers(j) => At(s, j) && s.calls[j].pc.Announcing? && s.calls[j].pc.k >= |s.observers|
    case Subscribe => s.owner == Free
  }

  function Goto(s: State, j: nat, pc: Pc): State
    requires At(s, j)
  {
    s.(calls := s.calls[j := s.calls[j].(pc := pc)])
  }

  ghost function Loading(s: State, j: nat, w: nat): State
    requires At(s, j)
  {
    var call := s.calls[j].call;
    if call.SetField? && RangeError(call.offset, call.width, w) then Goto(s, j, Returned(OutOfRange))
    else Goto(s, j, Loaded(s.word, |s.commits|, 0, |s.commits|))
  }

  ghost function Computing(s: State, j: nat, w: nat): State
    requires Enabled(s, Compute(j), w)
  {
    var i := s.calls[j];
    var newv := NewWord(i.call, i.pc.oldv, w);
    if !Accepts(i.call, i.pc.oldv, newv) then Goto(s, j, Returned(Rejected(i.pc.oldv)))
    else Goto(s, j, Trying(i.pc.oldv, newv, i.pc.at, i.pc.lost, i.pc.since))
  }

  // A weak compare-and-swap may fail although the word is the expected one; failing, it reads the word.
  ghost function Swapping(s: State, j: nat, spurious: bool): State
    requires At(s, j) && s.calls[j].pc.Trying?
  {
    var pc := s.calls[j].pc;
    if s.word != pc.oldv then Goto(s, j, Loaded(s.word, |s.commits|, pc.lost + 1, pc.since))
    else if spurious then Goto(s, j, Loaded(s.word, |s.commits|, pc.lost, pc.since))
    else
      var p := Pair(pc.oldv, pc.newv);
      Goto(s, j, Announce(p)).(word := pc.newv, commits := s.commits + [Commit(j, p)])
  }

  ghost function Apply(s: State, step: Step, w: nat): State
    requires Enabled(s, step, w)
  {
    match step
    case Invoke(call) => s.(calls := s.calls + [Invocation(call, Start)])
    case Load(j) => Loading(s, j, w)
    case Compute(j) => Computing(s, j, w)
    case Cas(j, spurious) => Swapping(s, j, spurious)
    case LockObservers(j) =>
      var p := s.calls[j].pc.pair;
      Goto(s, j, Announcing(p, 0)).(owner := HeldBy(j), announced := s.announced + [p])
    case Deliver(j) =>
      var pc := s.calls[j].pc;
      var o := s.observers[pc.k];
      Goto(s, j, pc.(k := pc.k + 1)).(observers := s.observers[pc.k := o.(received := o.received + [pc.pair])])
    case UnlockObservers(j) =>
      Goto(s, j, Returned(Success(s.calls[j].pc.pair.from))).(owner := Free)
    case Subscribe => s.(observers := s.observers + [Observer([], |s.announced|)])
  }

  ghost predicate Run(trace: seq<State>, steps: seq<Step>, w: nat) {
    && 0 < w <= 64 && |trace| == |steps| + 1 && Init(trace[0], w)
    && forall m {:trigger steps[m]} :: 0 <= m < |steps| ==>
         Enabled(trace[m], steps[m], w) && trace[m + 1] == Apply(trace[m], steps[m], w)
  }

  // ---------- the commits ----------

  // Each commit starts from the word the one before left.
  ghost predicate Chained(commits: seq<Commit>, start: nat, end: nat) {
    if commits == [] then start == end
    else
      var last := commits[|commits| - 1].pair;
      last.to == end && Chained(commits[..|commits| - 1], start, last.from)
  }

  // A commit is the call's own computation on the word it replaced, and its validator passed on that very pair.
  ghost predicate Sound(s: State, c: Commit, w: nat) {
    && c.j < |s.calls| && InRange(s.calls[c.j].call, w)
    && c.pair.from < Pow2(w) && c.pair.to == NewWord(s.calls[c.j].call, c.pair.from, w)
    && Accepts(s.calls[c.j].call, c.pair.from, c.pair.to)
  }

  ghost predicate AllSound(s: State, w: nat) {
    forall n {:trigger s.commits[n]} :: 0 <= n < |s.commits| ==> Sound(s, s.commits[n], w)
  }

  ghost predicate Committed(pc: Pc) {
    pc.Announce? || pc.Announcing? || (pc.Returned? && pc.outcome.Success?)
  }

  ghost function CommitsOf(commits: seq<Commit>, j: nat): nat {
    if commits == [] then 0
    else CommitsOf(commits[..|commits| - 1], j) + if commits[|commits| - 1].j == j then 1 else 0
  }

  ghost predicate CommittedFrom(commits: seq<Commit>, j: nat, from: nat) {
    exists n :: 0 <= n < |commits| && commits[n].j == j && commits[n].pair.from == from
  }

  // What is known of an invocation from where it is.
  ghost predicate CallInv(s: State, j: nat, w: nat)
    requires At(s, j)
  {
    var call, pc := s.calls[j].call, s.calls[j].pc;
    && Defined(call, w)
    && (!pc.Start? && pc != Returned(OutOfRange) ==> InRange(call, w) && (call.SetField? ==> 0 < call.width))
    && (pc == Returned(OutOfRange) ==> call.SetField? && RangeError(call.offset, call.width, w))
    && (pc.Loaded? || pc.Trying? ==>
          && pc.lost + pc.since <= pc.at <= |s.commits| && pc.oldv < Pow2(w)
          && (pc.at == |s.commits| ==> pc.oldv == s.word))
    && (pc.Trying? ==> pc.newv == NewWord(call, pc.oldv, w) && Accepts(call, pc.oldv, pc.newv))
    && (pc.Returned? && pc.outcome.Rejected? ==>
          !Accepts(call, pc.outcome.seen, NewWord(call, pc.outcome.seen, w)))
    && CommitsOf(s.commits, j) == (if Committed(pc) then 1 else 0)
    && (pc.Announce? || pc.Announcing? ==> CommittedFrom(s.commits, j, pc.pair.from))
    && (pc.Returned? && pc.outcome.Success? ==> CommittedFrom(s.commits, j, pc.outcome.seen))
  }

  ghost predicate CallsInv(s: State, w: nat) {
    forall j: nat {:trigger CallInv(s, j, w)} :: At(s, j) ==> CallInv(s, j, w)
  }

  ghost predicate WordInv(s: State, start: nat, w: nat) {
    s.word < Pow2(w) && Chained(s.commits, start, s.word) && AllSound(s, w)
  }

  lemma NewWordFits(call: Call, from: nat, w: nat)
    requires InRange(call, w) && from < Pow2(w)
    ensures NewWord(call, from, w) < Pow2(w)
  {
    hide Set;
    if call.SetField? { SetFits(from, call.offset, call.width, call.value, w); }
  }

  lemma RangeIsTrue(call: Call, w: nat)
    requires call.SetField? && Defined(call, w) && 0 < w <= 64 && !RangeError(call.offset, call.width, w)
    ensures call.offset + call.width <= w && 0 < call.width
  {
  }

  lemma ChainOneMore(commits: seq<Commit>, start: nat, c: Commit)
    requires Chained(commits, start, c.pair.from)
    ensures Chained(commits + [c], start, c.pair.to)
  {
    assert (commits + [c])[..|commits|] == commits;
  }

  lemma CountOneMore(commits: seq<Commit>, c: Commit, j: nat)
    ensures CommitsOf(commits + [c], j) == CommitsOf(commits, j) + if c.j == j then 1 else 0
    ensures forall from :: CommittedFrom(commits, j, from) ==> CommittedFrom(commits + [c], j, from)
    ensures CommittedFrom(commits + [c], c.j, c.pair.from)
  {
    var more := commits + [c];
    assert more[..|commits|] == commits && more[|commits|] == c;
    forall from | CommittedFrom(commits, j, from) ensures CommittedFrom(more, j, from) {
      var n :| 0 <= n < |commits| && commits[n].j == j && commits[n].pair.from == from;
      assert more[n] == commits[n];
    }
  }

  lemma {:induction false} NoCommitOf(commits: seq<Commit>, j: nat)
    requires forall n :: 0 <= n < |commits| ==> commits[n].j != j
    ensures CommitsOf(commits, j) == 0
  {
    if commits != [] { NoCommitOf(commits[..|commits| - 1], j); }
  }

  // Nothing was committed, or an invocation other than j committed.
  ghost predicate Beside(s: State, s': State, j: nat) {
    || (s'.commits == s.commits && s'.word == s.word)
    || exists c: Commit :: c.j != j && s'.commits == s.commits + [c]
  }

  ghost predicate Knows(s: State, j: nat, w: nat) { At(s, j) && CallInv(s, j, w) }

  // What an invocation knows survives the steps of the others, their commits included.
  lemma OtherCall(s: State, s': State, j: nat, w: nat)
    requires At(s, j) && CallInv(s, j, w) && At(s', j) && s'.calls[j] == s.calls[j]
    requires Beside(s, s', j)
    ensures CallInv(s', j, w)
  {
    hide InRange, NewWord, Accepts, Defined, RangeError, CommitsOf, CommittedFrom;
    if c: Commit :| c.j != j && s'.commits == s.commits + [c] { CountOneMore(s.commits, c, j); }
  }

  lemma NewCall(s: State, call: Call, w: nat)
    requires AllSound(s, w) && Defined(call, w)
    ensures var s' := Apply(s, Invoke(call), w); CallInv(s', |s.calls|, w)
  {
    hide InRange, NewWord, Accepts, CommitsOf, CommittedFrom;
    forall n | 0 <= n < |s.commits| ensures s.commits[n].j != |s.calls| { assert Sound(s, s.commits[n], w); }
    NoCommitOf(s.commits, |s.calls|);
  }

  lemma LoadCall(s: State, j: nat, w: nat)
    requires At(s, j) && CallInv(s, j, w) && s.calls[j].pc == Start && s.word < Pow2(w) && 0 < w <= 64
    ensures CallInv(Loading(s, j, w), j, w)
  {
    hide NewWord, Accepts, Defined, RangeError, CommitsOf, CommittedFrom;
    var call := s.calls[j].call;
    if call.SetField? && !RangeError(call.offset, call.width, w) { RangeIsTrue(call, w); }
  }

  lemma ComputeCall(s: State, j: nat, w: nat)
    requires Knows(s, j, w) && Enabled(s, Compute(j), w)
    ensures CallInv(Computing(s, j, w), j, w)
  {
    hide NewWord, Accepts, Defined, RangeError, CommitsOf, CommittedFrom, InRange;
  }

  lemma SwapCall(s: State, j: nat, spurious: bool, w: nat)
    requires Knows(s, j, w) && s.calls[j].pc.Trying? && s.word < Pow2(w)
    ensures CallInv(Swapping(s, j, spurious), j, w)
  {
    hide NewWord, Accepts, Defined, RangeError, CommitsOf, CommittedFrom, InRange;
    var pc := s.calls[j].pc;
    CountOneMore(s.commits, Commit(j, Pair(pc.oldv, pc.newv)), j);
  }

  lemma AnnounceCall(s: State, s': State, j: nat, w: nat)
    requires Knows(s, j, w) && At(s', j) && s'.calls[j].call == s.calls[j].call && s'.commits == s.commits
    requires s.calls[j].pc.Announce? || s.calls[j].pc.Announcing?
    requires s'.calls[j].pc.Announcing? ==> s'.calls[j].pc.pair == s.calls[j].pc.pair
    requires s'.calls[j].pc.Announcing? || s'.calls[j].pc == Returned(Success(s.calls[j].pc.pair.from))
    ensures CallInv(s', j, w)
  {
    hide NewWord, Accepts, Defined, RangeError, CommitsOf, CommittedFrom, InRange;
  }

  ghost function Actor(s: State, step: Step): nat {
    match step
    case Invoke(_) => |s.calls|
    case Subscribe => |s.calls|
    case _ => step.j
  }

  lemma OwnCall(s: State, step: Step, w: nat)
    requires CallsInv(s, w) && s.word < Pow2(w) && AllSound(s, w) && Enabled(s, step, w) && 0 < w <= 64
    requires step != Subscribe
    ensures Knows(Apply(s, step, w), Actor(s, step), w)
  {
    hide NewWord, Accepts, Defined, RangeError, CommitsOf, CommittedFrom, InRange, Sound, CallInv;
    var s' := Apply(s, step, w);
    match step
    case Invoke(call) => NewCall(s, call, w);
    case Load(j) => assert CallInv(s, j, w); LoadCall(s, j, w);
    case Compute(j) => assert CallInv(s, j, w); ComputeCall(s, j, w);
    case Cas(j, spurious) => assert CallInv(s, j, w); SwapCall(s, j, spurious, w);
    case LockObservers(j) => assert CallInv(s, j, w); AnnounceCall(s, s', j, w);
    case Deliver(j) => assert CallInv(s, j, w); AnnounceCall(s, s', j, w);
    case UnlockObservers(j) => assert CallInv(s, j, w); AnnounceCall(s, s', j, w);
  }

  // A step changes no other invocation, and at most adds a commit of its own.
  lemma StepFrame(s: State, step: Step, w: nat, j: nat)
    requires Enabled(s, step, w) && At(s, j) && j != Actor(s, step)
    ensures var s' := Apply(s, step, w);
      At(s', j) && s'.calls[j] == s.calls[j] && Beside(s, s', j)
  {
    hide NewWord, Accepts, Defined, RangeError, InRange;
    var s' := Apply(s, step, w);
    if step.Cas? && s'.commits != s.commits {
      var c := Commit(step.j, Pair(s.calls[step.j].pc.oldv, s.calls[step.j].pc.newv));
      assert c.j != j && s'.commits == s.commits + [c];
    }
  }

  lemma StepCalls(s: State, step: Step, w: nat)
    requires CallsInv(s, w) && s.word < Pow2(w) && AllSound(s, w) && Enabled(s, step, w) && 0 < w <= 64
    ensures CallsInv(Apply(s, step, w), w)
  {
    var s' := Apply(s, step, w);
    if step != Subscribe { OwnCall(s, step, w); }
    forall j: nat | At(s', j) && j != Actor(s, step) ensures CallInv(s', j, w) {
      StepOther(s, step, w, j);
    }
  }

  lemma StepOther(s: State, step: Step, w: nat, j: nat)
    requires CallsInv(s, w) && Enabled(s, step, w) && j != Actor(s, step) && At(Apply(s, step, w), j)
    ensures CallInv(Apply(s, step, w), j, w)
  {
    hide NewWord, Accepts, Defined, RangeError, CommitsOf, CommittedFrom, InRange, CallInv;
    assert At(s, j);
    StepFrame(s, step, w, j);
    OtherCall(s, Apply(s, step, w), j, w);
  }

  // Commits already made stay sound: their invocations keep their calls.
  lemma StepSound(s: State, step: Step, w: nat)
    requires AllSound(s, w) && CallsInv(s, w) && s.word < Pow2(w) && Enabled(s, step, w)
    ensures AllSound(Apply(s, step, w), w)
  {
    hide NewWord, Accepts, Defined, RangeError, InRange, CommitsOf, CommittedFrom;
    var s' := Apply(s, step, w);
    if step.Cas? { assert CallInv(s, step.j, w); }
    forall n | 0 <= n < |s'.commits| ensures Sound(s', s'.commits[n], w) {
      if n < |s.commits| { assert Sound(s, s.commits[n], w) && s'.commits[n] == s.commits[n]; }
    }
  }

  lemma StepWord(s: State, step: Step, start: nat, w: nat)
    requires WordInv(s, start, w) && CallsInv(s, w) && Enabled(s, step, w)
    ensures WordInv(Apply(s, step, w), start, w)
  {
    hide NewWord, Accepts, Defined, RangeError, InRange, CommitsOf, CommittedFrom, Chained;
    StepSound(s, step, w);
    if step.Cas? {
      var i := s.calls[step.j];
      assert CallInv(s, step.j, w);
      if s.word == i.pc.oldv {
        NewWordFits(i.call, i.pc.oldv, w);
        ChainOneMore(s.commits, start, Commit(step.j, Pair(i.pc.oldv, i.pc.newv)));
      }
    }
  }

  // ---------- the observers ----------

  ghost predicate LockInv(s: State) {
    && (forall j: nat {:trigger At(s, j)} :: At(s, j) ==> (s.calls[j].pc.Announcing? <==> s.owner == HeldBy(j)))
    && (s.owner.HeldBy? ==>
          && At(s, s.owner.j) && s.calls[s.owner.j].pc.Announcing?
          && s.announced != [] && s.announced[|s.announced| - 1] == s.calls[s.owner.j].pc.pair
          && s.calls[s.owner.j].pc.k <= |s.observers|)
  }

  // How many announcements have reached the i-th observer: the one in progress goes round in order.
  ghost function Reached(s: State, i: nat): int {
    if s.owner.HeldBy? && At(s, s.owner.j) && s.calls[s.owner.j].pc.Announcing? && s.calls[s.owner.j].pc.k <= i
    then |s.announced| - 1 else |s.announced|
  }

  // An observer has received the announcements made since it subscribed, each once, in order.
  ghost predicate UpToDate(s: State, i: nat)
    requires i < |s.observers|
  {
    var o := s.observers[i];
    o.since <= Reached(s, i) <= |s.announced| && o.received == s.announced[o.since..Reached(s, i)]
  }

  ghost predicate ObserversInv(s: State) {
    forall i: nat {:trigger UpToDate(s, i)} :: i < |s.observers| ==> UpToDate(s, i)
  }

  lemma StepLock(s: State, step: Step, w: nat)
    requires LockInv(s) && Enabled(s, step, w)
    ensures LockInv(Apply(s, step, w))
  {
    hide NewWord, Accepts, Defined, RangeError, InRange;
    var s' := Apply(s, step, w);
    forall j: nat | At(s', j) ensures s'.calls[j].pc.Announcing? <==> s'.owner == HeldBy(j) {
      if j < |s.calls| { assert At(s, j); }
    }
    if s.owner.HeldBy? { assert At(s, s.owner.j); }
    match step
    case Deliver(j) => assert At(s, j);
    case UnlockObservers(j) => assert At(s, j);
    case _ =>
  }

  lemma DeliverObserver(s: State, j: nat, w: nat, i: nat)
    requires LockInv(s) && Enabled(s, Deliver(j), w) && i < |s.observers| && UpToDate(s, i)
    ensures UpToDate(Apply(s, Deliver(j), w), i)
  {
    assert At(s, j);
    if s.calls[j].pc.k == i {
      var o := s.observers[i];
      assert s.announced[o.since..] == s.announced[o.since..|s.announced| - 1] + [s.announced[|s.announced| - 1]];
    }
  }

  lemma AnnounceObserver(s: State, j: nat, w: nat, i: nat)
    requires LockInv(s) && Enabled(s, LockObservers(j), w) && i < |s.observers| && UpToDate(s, i)
    ensures UpToDate(Apply(s, LockObservers(j), w), i)
  {
    var o, s' := s.observers[i], Apply(s, LockObservers(j), w);
    assert At(s', j) && Reached(s', i) == |s.announced|;
    assert s'.announced[o.since..|s.announced|] == s.announced[o.since..|s.announced|];
  }

  lemma StepObserver(s: State, step: Step, w: nat, i: nat)
    requires LockInv(s) && ObserversInv(s) && Enabled(s, step, w) && i < |Apply(s, step, w).observers|
    ensures UpToDate(Apply(s, step, w), i)
  {
    hide NewWord, Accepts, Defined, RangeError, InRange;
    if i < |s.observers| { assert UpToDate(s, i); }
    match step
    case Deliver(j) => DeliverObserver(s, j, w, i);
    case LockObservers(j) => AnnounceObserver(s, j, w, i);
    case UnlockObservers(j) => assert At(s, j);
    case Subscribe =>
    case _ => SameObserver(s, Apply(s, step, w), step, w, i);
  }

  lemma SameObserver(s: State, s': State, step: Step, w: nat, i: nat)
    requires LockInv(s) && Enabled(s, step, w) && s' == Apply(s, step, w) && i < |s.observers| && UpToDate(s, i)
    requires step.Invoke? || step.Load? || step.Compute? || step.Cas?
    ensures UpToDate(s', i)
  {
    hide NewWord, Accepts, Defined, RangeError, InRange;
    if s.owner.HeldBy? {
      assert At(s, s.owner.j) && s'.calls[s.owner.j] == s.calls[s.owner.j];
    }
    assert Reached(s', i) == Reached(s, i);
  }

  // Pairs committed whose announcement has not begun.
  ghost function PairOf(i: Invocation): multiset<Pair> {
    if i.pc.Announce? then multiset{i.pc.pair} else multiset{}
  }

  ghost function Unannounced(calls: seq<Invocation>): multiset<Pair> {
    if calls == [] then multiset{} else Unannounced(calls[..|calls| - 1]) + PairOf(calls[|calls| - 1])
  }

  ghost function Pairs(commits: seq<Commit>): multiset<Pair> {
    if commits == [] then multiset{}
    else Pairs(commits[..|commits| - 1]) + multiset{commits[|commits| - 1].pair}
  }

  ghost predicate ConservationInv(s: State) {
    Pairs(s.commits) == multiset(s.announced) + Unannounced(s.calls)
  }

  lemma UnannouncedLast(calls: seq<Invocation>)
    requires calls != []
    ensures Unannounced(calls) == Unannounced(calls[..|calls| - 1]) + PairOf(calls[|calls| - 1])
  {
  }

  lemma {:induction false} UnannouncedUpdate(calls: seq<Invocation>, j: nat, i: Invocation)
    requires j < |calls|
    ensures Unannounced(calls[j := i]) + PairOf(calls[j]) == Unannounced(calls) + PairOf(i)
  {
    hide Unannounced, PairOf;
    var n := |calls| - 1;
    var calls' := calls[j := i];
    UnannouncedLast(calls);
    UnannouncedLast(calls');
    if j == n {
      assert calls'[..n] == calls[..n];
      SwapLast(Unannounced(calls[..n]), PairOf(i), PairOf(calls[j]));
    } else {
      UnannouncedUpdate(calls[..n], j, i);
      assert calls'[..n] == calls[..n][j := i];
      Regroup(PairOf(calls[n]), Unannounced(calls'[..n]), PairOf(calls[j]), Unannounced(calls[..n]), PairOf(i));
    }
  }

  lemma {:induction false} NoneUnannounced(calls: seq<Invocation>)
    requires forall j :: 0 <= j < |calls| ==> !calls[j].pc.Announce?
    ensures Unannounced(calls) == multiset{}
  {
    if calls != [] { NoneUnannounced(calls[..|calls| - 1]); }
  }

  lemma PairsOneMore(commits: seq<Commit>, c: Commit)
    ensures Pairs(commits + [c]) == Pairs(commits) + multiset{c.pair}
  {
    assert (commits + [c])[..|commits|] == commits;
  }

  lemma UnannouncedOneMore(calls: seq<Invocation>, i: Invocation)
    requires !i.pc.Announce?
    ensures Unannounced(calls + [i]) == Unannounced(calls)
  {
    assert (calls + [i])[..|calls|] == calls;
    AddNothing(Unannounced(calls));
  }

  // A step that neither commits nor begins an announcement.
  lemma Elsewhere(s: State, s': State, j: nat)
    requires ConservationInv(s) && At(s, j) && s'.commits == s.commits && s'.announced == s.announced
    requires |s'.calls| == |s.calls| && s'.calls == s.calls[j := s'.calls[j]]
    requires !s.calls[j].pc.Announce? && !s'.calls[j].pc.Announce?
    ensures ConservationInv(s')
  {
    UnannouncedUpdate(s.calls, j, s'.calls[j]);
    AddNothing(Unannounced(s.calls));
    AddNothing(Unannounced(s'.calls));
  }

  lemma CommitConserves(s: State, j: nat)
    requires ConservationInv(s) && At(s, j) && s.calls[j].pc.Trying? && s.word == s.calls[j].pc.oldv
    ensures ConservationInv(Swapping(s, j, false))
  {
    hide Unannounced, Pairs;
    var s' := Swapping(s, j, false);
    var p := s'.calls[j].pc.pair;
    PairsOneMore(s.commits, Commit(j, p));
    UnannouncedUpdate(s.calls, j, s'.calls[j]);
    AddNothing(Unannounced(s'.calls));
    Associate(multiset(s.announced), Unannounced(s.calls), multiset{p});
  }

  lemma AnnounceConserves(s: State, j: nat, w: nat)
    requires ConservationInv(s) && Enabled(s, LockObservers(j), w)
    ensures ConservationInv(Apply(s, LockObservers(j), w))
  {
    hide Unannounced, Pairs;
    var s' := Apply(s, LockObservers(j), w);
    var p := s.calls[j].pc.pair;
    UnannouncedUpdate(s.calls, j, s'.calls[j]);
    AddNothing(Unannounced(s.calls));
    assert multiset(s'.announced) == multiset(s.announced) + multiset{p};
    Associate(multiset(s.announced), multiset{p}, Unannounced(s'.calls));
    SwapLast(multiset{}, multiset{p}, Unannounced(s'.calls));
  }

  lemma StepConserves(s: State, step: Step, w: nat)
    requires ConservationInv(s) && Enabled(s, step, w)
    ensures ConservationInv(Apply(s, step, w))
  {
    hide NewWord, Accepts, Defined, RangeError, InRange, Unannounced, Pairs;
    var s' := Apply(s, step, w);
    match step
    case Invoke(call) => UnannouncedOneMore(s.calls, Invocation(call, Start));
    case Cas(j, spurious) =>
      if s.word == s.calls[j].pc.oldv && !spurious { CommitConserves(s, j); } else { Elsewhere(s, s', j); }
    case LockObservers(j) => AnnounceConserves(s, j, w);
    case Subscribe =>
    case _ => Elsewhere(s, s', step.j);
  }

  // ---------- every run ----------

  ghost predicate Inv(s: State, start: nat, w: nat) {
    WordInv(s, start, w) && CallsInv(s, w) && LockInv(s) && ObserversInv(s) && ConservationInv(s)
  }

  lemma InitInv(s: State, w: nat)
    requires Init(s, w)
    ensures Inv(s, s.word, w)
  {
  }

  lemma StepInv(s: State, step: Step, start: nat, w: nat)
    requires Inv(s, start, w) && Enabled(s, step, w) && 0 < w <= 64
    ensures Inv(Apply(s, step, w), start, w)
  {
    hide Enabled, Apply, CallsInv, LockInv, ConservationInv, UpToDate, Chained, AllSound;
    StepWord(s, step, start, w);
    StepCalls(s, step, w);
    StepLock(s, step, w);
    StepConserves(s, step, w);
    forall i: nat | i < |Apply(s, step, w).observers| ensures UpToDate(Apply(s, step, w), i) {
      StepObserver(s, step, w, i);
    }
  }

  lemma {:induction false} RunInv(trace: seq<State>, steps: seq<Step>, w: nat, m: nat)
    requires Run(trace, steps, w) && m < |trace|
    ensures Inv(trace[m], trace[0].word, w)
  {
    hide Inv, Enabled, Apply;
    if m == 0 {
      InitInv(trace[0], w);
    } else {
      RunInv(trace, steps, w, m - 1);
      assert Enabled(trace[m - 1], steps[m - 1], w) && trace[m - 1 + 1] == Apply(trace[m - 1], steps[m - 1], w);
      StepInv(trace[m - 1], steps[m - 1], trace[0].word, w);
    }
  }

  lemma {:induction false} ChainAt(commits: seq<Commit>, start: nat, end: nat, n: nat)
    requires Chained(commits, start, end) && n < |commits|
    ensures commits[n].pair.from == if n == 0 then start else commits[n - 1].pair.to
    ensures commits[|commits| - 1].pair.to == end
  {
    var m := |commits| - 1;
    if n < m {
      ChainAt(commits[..m], start, commits[m].pair.from, n);
    } else if 0 < n {
      ChainAt(commits[..m], start, commits[m].pair.from, n - 1);
    }
  }

  // The calls made, in order.
  ghost function Invoked(steps: seq<Step>): seq<Call> {
    if steps == [] then []
    else
      var n := |steps| - 1;
      Invoked(steps[..n]) + if steps[n].Invoke? then [steps[n].call] else []
  }

  ghost predicate KeepsCalls(s: State, calls: seq<Call>) {
    |s.calls| == |calls| && forall j {:trigger s.calls[j]} :: 0 <= j < |calls| ==> s.calls[j].call == calls[j]
  }

  lemma StepCallsKept(s: State, step: Step, w: nat, calls: seq<Call>)
    requires KeepsCalls(s, calls) && Enabled(s, step, w)
    ensures KeepsCalls(Apply(s, step, w), calls + if step.Invoke? then [step.call] else [])
  {
    hide NewWord, Accepts, Defined, RangeError, InRange;
    assert calls + [] == calls;
  }

  // The j-th invocation works on the call that was made j-th.
  lemma {:induction false} CallsAreInvoked(trace: seq<State>, steps: seq<Step>, w: nat, m: nat)
    requires Run(trace, steps, w) && m < |trace|
    ensures |trace[m].calls| == |Invoked(steps[..m])|
    ensures forall j {:trigger trace[m].calls[j]} :: 0 <= j < |trace[m].calls| ==>
      trace[m].calls[j].call == Invoked(steps[..m])[j]
  {
    hide Enabled, Apply;
    if m == 0 {
      assert steps[..0] == [];
    } else {
      CallsAreInvoked(trace, steps, w, m - 1);
      assert Enabled(trace[m - 1], steps[m - 1], w) && trace[m - 1 + 1] == Apply(trace[m - 1], steps[m - 1], w);
      StepCallsKept(trace[m - 1], steps[m - 1], w, Invoked(steps[..m - 1]));
      assert steps[..m][..m - 1] == steps[..m - 1] && steps[..m][m - 1] == steps[m - 1];
    }
  }

  // The changes of the word form one chain.  Each is what its call makes of the word it really replaced:
  // the compute function's result, cut to the word, or the value in the field and all else as it was; and
  // the call's validator accepted that very pair.
  lemma CommitsAreGenuine(trace: seq<State>, steps: seq<Step>, w: nat, m: nat, n: nat)
    requires Run(trace, steps, w) && m < |trace| && n < |trace[m].commits|
    ensures var s := trace[m]; var c := s.commits[n];
      c.pair.from == if n == 0 then trace[0].word else s.commits[n - 1].pair.to
    ensures var s := trace[m]; s.word == s.commits[|s.commits| - 1].pair.to
    ensures trace[m].commits[n].j < |Invoked(steps[..m])|
    ensures var c := trace[m].commits[n]; var call := Invoked(steps[..m])[c.j];
      call.Update? ==> c.pair.to == call.compute(c.pair.from) % Pow2(w)
    ensures var c := trace[m].commits[n]; var call := Invoked(steps[..m])[c.j];
      call.SetField? ==> call.offset + call.width <= w && forall i: nat {:trigger Bit(c.pair.to, i)} ::
        Bit(c.pair.to, i) ==
          if call.offset <= i < call.offset + call.width then Bit(call.value, i - call.offset) else Bit(c.pair.from, i)
    ensures var c := trace[m].commits[n]; var call := Invoked(steps[..m])[c.j];
      call.check.Validator? ==> call.check.test(c.pair.from, c.pair.to)
  {
    hide Bit, Set, Chained, CallsInv, LockInv, ObserversInv, ConservationInv;
    RunInv(trace, steps, w, m);
    CallsAreInvoked(trace, steps, w, m);
    var s := trace[m];
    var c := s.commits[n];
    ChainAt(s.commits, trace[0].word, s.word, n);
    assert Sound(s, c, w);
    var call := s.calls[c.j].call;
    if call.SetField? {
      forall i: nat
        ensures Bit(c.pair.to, i) ==
          if call.offset <= i < call.offset + call.width then Bit(call.value, i - call.offset) else Bit(c.pair.from, i)
      {
        SetBit(c.pair.from, call.offset, call.width, call.value, w, i);
      }
    }
  }

  // A call returns true exactly when it has committed, once, and with it the word it replaced.  It returns
  // false when its validator refused the change it computed from the word it returns.  It reports the range
  // error exactly when the field is empty or does not fit.  In the last two cases it committed nothing.
  lemma OutcomesAreTrue(trace: seq<State>, steps: seq<Step>, w: nat, m: nat, j: nat)
    requires Run(trace, steps, w) && m < |trace| && j < |trace[m].calls| && trace[m].calls[j].pc.Returned?
    ensures j < |Invoked(steps[..m])|
    ensures var s, out := trace[m], trace[m].calls[j].pc.outcome;
      && CommitsOf(s.commits, j) == (if out.Success? then 1 else 0)
      && (out.Success? ==>
            exists n :: 0 <= n < |s.commits| && s.commits[n].j == j && s.commits[n].pair.from == out.seen)
    ensures var call, out := Invoked(steps[..m])[j], trace[m].calls[j].pc.outcome;
      && (out.Rejected? ==> call.check.Validator? && (call.SetField? ==> call.offset + call.width <= w))
      && (out.Rejected? && call.Update? ==> !call.check.test(out.seen, call.compute(out.seen) % Pow2(w)))
      && (out.Rejected? && call.SetField? ==>
            !call.check.test(out.seen, Set(out.seen, call.offset, call.width, call.value, w)))
    ensures var call, out := Invoked(steps[..m])[j], trace[m].calls[j].pc.outcome;
      out.OutOfRange? <==> call.SetField? && (call.offset >= w || call.width == 0 || call.offset + call.width > w)
  {
    hide WordInv, LockInv, ObserversInv, ConservationInv, CommitsOf, Set;
    RunInv(trace, steps, w, m);
    CallsAreInvoked(trace, steps, w, m);
    assert CallInv(trace[m], j, w);
  }

  // A compare-and-swap that fails for a changed word has been overtaken by a commit: a call loses the race
  // no more often than others have committed since it first read the word.
  lemma RetriesArePaidFor(trace: seq<State>, steps: seq<Step>, w: nat, m: nat, j: nat)
    requires Run(trace, steps, w) && m < |trace| && j < |trace[m].calls|
    requires trace[m].calls[j].pc.Loaded? || trace[m].calls[j].pc.Trying?
    ensures var s := trace[m]; CommitsOf(s.commits, j) == 0
    ensures var s := trace[m]; s.calls[j].pc.lost <= |s.commits| - s.calls[j].pc.since
    ensures var s := trace[m]; s.calls[j].pc.oldv != s.word ==> s.calls[j].pc.at < |s.commits|
  {
    hide WordInv, LockInv, ObserversInv, ConservationInv, NewWord, Accepts, RangeError, CommitsOf, CommittedFrom;
    RunInv(trace, steps, w, m);
    assert CallInv(trace[m], j, w);
  }

  lemma RunOn(trace: seq<State>, steps: seq<Step>, w: nat, step: Step) returns (trace': seq<State>, steps': seq<Step>)
    requires Run(trace, steps, w) && Enabled(trace[|trace| - 1], step, w)
    ensures Run(trace', steps', w) && trace'[|trace'| - 1] == Apply(trace[|trace| - 1], step, w)
    ensures steps' == steps + [step]
  {
    hide Apply, Enabled, Init;
    trace', steps' := trace + [Apply(trace[|trace| - 1], step, w)], steps + [step];
    forall m {:trigger steps'[m]} | 0 <= m < |steps'|
      ensures Enabled(trace'[m], steps'[m], w) && trace'[m + 1] == Apply(trace'[m], steps'[m], w)
    {
      if m < |steps| { assert steps'[m] == steps[m]; }
    }
  }

  // Any run without observers in which no call is notifying goes on with an update that meets no other call:
  // if its validator accepts the pair it returns true and the word is what it computed; otherwise it returns
  // false and the word stays.
  lemma UpdateAlone(trace: seq<State>, steps: seq<Step>, w: nat, compute: nat -> nat, check: Validator)
    returns (trace': seq<State>, steps': seq<Step>)
    requires Run(trace, steps, w)
    requires var s := trace[|trace| - 1]; s.owner == Free && s.observers == []
    ensures Run(trace', steps', w) && Invoked(steps') == Invoked(steps) + [Update(compute, check)]
    ensures var s, s' := trace[|trace| - 1], trace'[|trace'| - 1];
      var newv := compute(s.word) % Pow2(w);
      |s'.calls| == |s.calls| + 1 &&
      if check.Validator? && !check.test(s.word, newv)
      then s'.word == s.word && s'.calls[|s.calls|].pc == Returned(Rejected(s.word))
      else s'.word == newv && s'.calls[|s.calls|].pc == Returned(Success(s.word))
  {
    var s, call := trace[|trace| - 1], Update(compute, check);
    var j, newv := |s.calls|, compute(s.word) % Pow2(w);
    trace', steps' := RunOn(trace, steps, w, Invoke(call));
    hide Run, RangeError, Invoked;
    InvokedMore(steps, Invoke(call));
    trace', steps' := OwnStep(trace', steps', w, Load(j));
    trace', steps' := OwnStep(trace', steps', w, Compute(j));
    if !check.Validator? || check.test(s.word, newv) {
      trace', steps' := OwnStep(trace', steps', w, Cas(j, false));
      trace', steps' := OwnStep(trace', steps', w, LockObservers(j));
      trace', steps' := OwnStep(trace', steps', w, UnlockObservers(j));
    }
  }

  lemma InvokedMore(steps: seq<Step>, step: Step)
    ensures Invoked(steps + [step]) == Invoked(steps) + if step.Invoke? then [step.call] else []
  {
    assert (steps + [step])[..|steps|] == steps;
  }

  lemma OwnStep(trace: seq<State>, steps: seq<Step>, w: nat, step: Step) returns (trace': seq<State>, steps': seq<Step>)
    requires Run(trace, steps, w) && Enabled(trace[|trace| - 1], step, w) && !step.Invoke?
    ensures Run(trace', steps', w) && trace'[|trace'| - 1] == Apply(trace[|trace| - 1], step, w)
    ensures Invoked(steps') == Invoked(steps)
  {
    hide Run, Apply, Enabled;
    trace', steps' := RunOn(trace, steps, w, step);
    InvokedMore(steps, step);
  }

  // ---------- fields ----------

  // The bit that the last of the first n commits covering position i put there.
  ghost function LastBit(s: State, start: nat, n: nat, i: nat): bool
    requires n <= |s.commits| && forall m :: 0 <= m < n ==> s.commits[m].j < |s.calls|
  {
    if n == 0 then Bit(start, i)
    else
      var call := s.calls[s.commits[n - 1].j].call;
      if call.SetField? && call.offset <= i < call.offset + call.width then Bit(call.value, i - call.offset)
      else LastBit(s, start, n - 1, i)
  }

  ghost predicate OnlyFields(s: State) {
    forall n {:trigger s.commits[n]} :: 0 <= n < |s.commits| ==>
      s.commits[n].j < |s.calls| && s.calls[s.commits[n].j].call.SetField?
  }

  ghost function WordAfter(s: State, start: nat, n: nat): nat
    requires n <= |s.commits|
  {
    if n == 0 then start else s.commits[n - 1].pair.to
  }

  lemma {:induction false} BitsAfter(s: State, start: nat, n: nat, i: nat, w: nat)
    requires WordInv(s, start, w) && OnlyFields(s) && n <= |s.commits|
    ensures Bit(WordAfter(s, start, n), i) == LastBit(s, start, n, i)
  {
    if n > 0 {
      hide Set, Bit, Chained;
      BitsAfter(s, start, n - 1, i, w);
      ChainAt(s.commits, start, s.word, n - 1);
      var c := s.commits[n - 1];
      assert Sound(s, c, w);
      var call := s.calls[c.j].call;
      SetBit(c.pair.from, call.offset, call.width, call.value, w, i);
    }
  }

  // No write to a bit is lost: when all commits are field writes, however interleaved and overlapping,
  // each bit of the word is the one the last committed write covering it put there.
  lemma NoWriteIsLost(trace: seq<State>, steps: seq<Step>, w: nat, m: nat, i: nat)
    requires Run(trace, steps, w) && m < |trace| && OnlyFields(trace[m])
    ensures var s := trace[m]; Bit(s.word, i) == LastBit(s, trace[0].word, |s.commits|, i)
  {
    hide Bit, LastBit, Chained;
    RunInv(trace, steps, w, m);
    var s := trace[m];
    BitsAfter(s, trace[0].word, |s.commits|, i, w);
    if s.commits == [] {
      EmptyChain(s.commits, trace[0].word, s.word);
    } else {
      ChainAt(s.commits, trace[0].word, s.word, 0);
    }
  }

  lemma EmptyChain(commits: seq<Commit>, start: nat, end: nat)
    requires Chained(commits, start, end) && commits == []
    ensures start == end
  {
  }

  ghost predicate Writes(call: Call, offset: nat, width: nat) {
    call.SetField? && call.offset == offset && call.width == width
  }

  // A commit that leaves the field alone: a write to a disjoint field, or an update that kept it.
  ghost predicate Spares(s: State, c: Commit, offset: nat, width: nat, w: nat)
    requires c.j < |s.calls| && offset + width <= w
  {
    var call := s.calls[c.j].call;
    if call.SetField? then Disjoint(call.offset, call.width, offset, width)
    else Get(c.pair.to, offset, width, w) == Get(c.pair.from, offset, width, w)
  }

  // Updates to the rest of the word, concurrent or not, never undo a committed write to a field:
  // after the n-th commit wrote it, it keeps that value up to the m-th if those between spare it.
  lemma {:induction false} FieldIsKept(s: State, start: nat, w: nat, n: nat, m: nat, offset: nat, width: nat)
    requires WordInv(s, start, w) && n < m <= |s.commits| && offset + width <= w
    requires s.commits[n].j < |s.calls| && Writes(s.calls[s.commits[n].j].call, offset, width)
    requires forall l {:trigger s.commits[l]} :: n < l < m ==>
      s.commits[l].j < |s.calls| && Spares(s, s.commits[l], offset, width, w)
    ensures Get(WordAfter(s, start, m), offset, width, w) == s.calls[s.commits[n].j].call.value % Pow2(width)
  {
    hide Set, Get, Chained, Pow2;
    ChainAt(s.commits, start, s.word, m - 1);
    var c := s.commits[m - 1];
    assert Sound(s, c, w);
    var call := s.calls[c.j].call;
    if m - 1 == n {
      GetAfterSet(c.pair.from, offset, width, call.value, w);
    } else {
      FieldIsKept(s, start, w, n, m - 1, offset, width);
      assert Spares(s, c, offset, width, w);
      if call.SetField? { GetOther(c.pair.from, call.offset, call.width, call.value, offset, width, w); }
    }
  }

  // The same in every run: a committed write to a field is what the field reads as from then on,
  // until another commit touches the field.
  lemma WrittenFieldReads(trace: seq<State>, steps: seq<Step>, w: nat, m: nat, n: nat, offset: nat, width: nat)
    requires Run(trace, steps, w) && m < |trace| && n < |trace[m].commits| && offset + width <= w
    requires var s := trace[m];
      && s.commits[n].j < |s.calls| && Writes(s.calls[s.commits[n].j].call, offset, width)
      && forall l {:trigger s.commits[l]} :: n < l < |s.commits| ==>
           s.commits[l].j < |s.calls| && Spares(s, s.commits[l], offset, width, w)
    ensures var s := trace[m];
      Get(s.word, offset, width, w) == s.calls[s.commits[n].j].call.value % Pow2(width)
  {
    hide Set, Get, Chained, Pow2, Spares, Writes;
    RunInv(trace, steps, w, m);
    var s := trace[m];
    FieldIsKept(s, trace[0].word, w, n, |s.commits|, offset, width);
    ChainAt(s.commits, trace[0].word, s.word, n);
  }

  // ---------- what observers get ----------

  ghost predicate Quiet(s: State) {
    forall j: nat {:trigger At(s, j)} :: At(s, j) ==> !s.calls[j].pc.Announce? && !s.calls[j].pc.Announcing?
  }

  // All observers receive the announcements in one common order, each from its subscription on.
  lemma OneOrder(trace: seq<State>, steps: seq<Step>, w: nat, m: nat, i: nat)
    requires Run(trace, steps, w) && m < |trace| && i < |trace[m].observers|
    ensures var s := trace[m]; var o := s.observers[i];
      o.since <= |s.announced| && o.received <= s.announced[o.since..]
    ensures var s := trace[m]; |s.announced| - 1 <= s.observers[i].since + |s.observers[i].received|
  {
    hide WordInv, CallsInv, ConservationInv, LockInv;
    RunInv(trace, steps, w, m);
    var s := trace[m];
    assert UpToDate(s, i);
  }

  // Once no call is announcing, the announcements are exactly the commits, each observer has received
  // all those since it subscribed, and one subscribed from the start exactly the committed pairs.
  lemma ObserversGetTheCommits(trace: seq<State>, steps: seq<Step>, w: nat, m: nat, i: nat)
    requires Run(trace, steps, w) && m < |trace| && Quiet(trace[m]) && i < |trace[m].observers|
    ensures var s := trace[m]; multiset(s.announced) == Pairs(s.commits)
    ensures var s := trace[m]; var o := s.observers[i];
      o.since <= |s.announced| && o.received == s.announced[o.since..]
    ensures var s := trace[m]; var o := s.observers[i];
      o.since == 0 ==> multiset(o.received) == Pairs(s.commits)
  {
    hide WordInv, CallsInv, Pairs, Unannounced;
    RunInv(trace, steps, w, m);
    var s := trace[m];
    assert UpToDate(s, i);
    forall j | 0 <= j < |s.calls| ensures !s.calls[j].pc.Announce? { assert At(s, j); }
    NoneUnannounced(s.calls);
    AddNothing(multiset(s.announced));
    assert s.owner.HeldBy? ==> At(s, s.owner.j);
    assert s.announced[s.observers[i].since..|s.announced|] == s.announced[s.observers[i].since..];
    assert s.observers[i].since == 0 ==> s.announced[0..] == s.announced;
  }

  // ---------- progress ----------

  // Steps of the calls in progress, without compare-and-swaps that fail for no reason.
  predicate Productive(s: State, step: Step) {
    && !step.Invoke? && !step.Subscribe?
    && (step.Cas? && At(s, step.j) && s.calls[step.j].pc.Trying? ==>
          step.spurious == (s.word != s.calls[step.j].pc.oldv))
  }

  ghost predicate CanMove(s: State, w: nat) {
    exists step :: Productive(s, step) && Enabled(s, step, w)
  }

  lemma CanMoveBy(s: State, step: Step, w: nat)
    requires Productive(s, step) && Enabled(s, step, w)
    ensures CanMove(s, w)
  {
  }

  // No deadlock: while any call has not returned, some call can take a step.
  lemma NoDeadlock(trace: seq<State>, steps: seq<Step>, w: nat, m: nat, j: nat)
    requires Run(trace, steps, w) && m < |trace| && j < |trace[m].calls| && !trace[m].calls[j].pc.Returned?
    ensures CanMove(trace[m], w)
  {
    hide WordInv, ObserversInv, ConservationInv, RangeError, Run;
    RunInv(trace, steps, w, m);
    var s := trace[m];
    assert At(s, j) && CallInv(s, j, w);
    if s.owner.HeldBy? {
      var h := s.owner.j;
      if s.calls[h].pc.k < |s.observers| { CanMoveBy(s, Deliver(h), w); } else { CanMoveBy(s, UnlockObservers(h), w); }
    } else {
      match s.calls[j].pc
      case Start => CanMoveBy(s, Load(j), w);
      case Loaded(_, _, _, _) => CanMoveBy(s, Compute(j), w);
      case Trying(oldv, _, _, _, _) => CanMoveBy(s, Cas(j, s.word != oldv), w);
      case Announce(_) => CanMoveBy(s, LockObservers(j), w);
      case _ =>
    }
  }

  // What is left to do for one of n calls, with m observers: a commit may cost each other call a retry.
  function CallWork(pc: Pc, word: nat, n: nat, m: nat): int {
    var base := m + 3 + 2 * n;
    match pc
    case Start => base + 2
    case Loaded(oldv, _, _, _) => if oldv == word then base + 1 else base + 3
    case Trying(oldv, _, _, _, _) => if oldv == word then base else base + 2
    case Announce(_) => m + 2
    case Announcing(_, k) => if k <= m then m - k + 1 else 1
    case Returned(_) => 0
  }

  function CallsWork(calls: seq<Invocation>, word: nat, n: nat, m: nat): int {
    if calls == [] then 0
    else CallsWork(calls[..|calls| - 1], word, n, m) + CallWork(calls[|calls| - 1].pc, word, n, m)
  }

  function Work(s: State): int { CallsWork(s.calls, s.word, |s.calls|, |s.observers|) }

  lemma {:induction false} WorkUpdate(calls: seq<Invocation>, j: nat, i: Invocation, word: nat, n: nat, m: nat)
    requires j < |calls|
    ensures CallsWork(calls[j := i], word, n, m)
      == CallsWork(calls, word, n, m) - CallWork(calls[j].pc, word, n, m) + CallWork(i.pc, word, n, m)
  {
    hide CallWork;
    var l := |calls| - 1;
    if j == l {
      assert calls[j := i][..l] == calls[..l];
    } else {
      WorkUpdate(calls[..l], j, i, word, n, m);
      assert calls[j := i][..l] == calls[..l][j := i];
    }
  }

  lemma {:induction false} WorkNewWord(calls: seq<Invocation>, word: nat, word': nat, n: nat, m: nat)
    ensures CallsWork(calls, word', n, m) <= CallsWork(calls, word, n, m) + 2 * |calls|
  {
    if calls != [] { WorkNewWord(calls[..|calls| - 1], word, word', n, m); }
  }

  lemma {:induction false} WorkNonNegative(calls: seq<Invocation>, word: nat, n: nat, m: nat)
    ensures 0 <= CallsWork(calls, word, n, m)
  {
    if calls != [] { WorkNonNegative(calls[..|calls| - 1], word, n, m); }
  }

  lemma WorkShrinks(s: State, step: Step, w: nat)
    requires Productive(s, step) && Enabled(s, step, w)
    ensures Work(Apply(s, step, w)) < Work(s)
  {
    hide NewWord, Accepts, Defined, RangeError, InRange, CallsWork;
    var s' := Apply(s, step, w);
    var n, m := |s.calls|, |s.observers|;
    WorkUpdate(s.calls, step.j, s'.calls[step.j], s.word, n, m);
    assert s'.calls == s.calls[step.j := s'.calls[step.j]];
    if step.Cas? { WorkNewWord(s'.calls, s.word, s'.word, n, m); }
  }

  // Lock-free: however the calls interleave, no more productive steps can follow a state than its work
  // allows, unless calls or observers are added.
  lemma {:induction false} BurstsEnd(trace: seq<State>, steps: seq<Step>, w: nat, k: nat, m: nat)
    requires Run(trace, steps, w) && k <= m < |trace|
    requires forall i {:trigger steps[i]} :: k <= i < m ==> Productive(trace[i], steps[i])
    ensures 0 <= Work(trace[m]) && m - k <= Work(trace[k]) - Work(trace[m])
  {
    hide Work, Productive, Enabled, Apply;
    WorkIs(trace[m]);
    if k < m {
      BurstsEnd(trace, steps, w, k, m - 1);
      assert Enabled(trace[m - 1], steps[m - 1], w) && trace[m - 1 + 1] == Apply(trace[m - 1], steps[m - 1], w);
      WorkShrinks(trace[m - 1], steps[m - 1], w);
    }
  }

  lemma WorkIs(s: State)
    ensures 0 <= Work(s)
  {
    WorkNonNegative(s.calls, s.word, |s.calls|, |s.observers|);
  }
}
