/** The single-producer single-consumer ring of data_struct/buffer/ring_buffer.cpp as interleaved
    steps, one per atomic load or store and one per access to a slot.

    The capacity is 2^k for any k.  An index keeps all the values it ever held, in the order of
    its stores: a load by its own thread returns the last one, an acquire load by the other
    thread any one that is not older than what that thread has already seen. */
module RingBuffer {
  import opened Arithmetic
  import opened Power
  import opened Bits

  // Start: push was called.  Have: own index loaded.  Write: room was seen.  Publish: the slot is written.
  datatype Producer<T> =
    | PIdle | PStart(item: T) | PHave(item: T, w: nat) | PWrite(item: T, w: nat) | PPublish(item: T, w: nat)

  datatype Consumer<T> = CIdle | CStart | CHave(r: nat) | CRead(r: nat) | CPublish(r: nat, item: T)

  // writeIdx and readIdx: the values of write_ptr and read_ptr so far.  seenR and seenW: how far into
  // the other side's values the producer and the consumer have looked.  pushed and popped: the
  // items of the calls that returned true.
  datatype State<T> = State(
    buffer: seq<T>, writeIdx: seq<nat>, readIdx: seq<nat>, seenR: nat, seenW: nat,
    prod: Producer<T>, cons: Consumer<T>, pushed: seq<T>, popped: seq<T>)

  datatype Step<T> =
    | PushCall(item: T) | LoadOwnWrite | LoadRead(j: nat) | WriteSlot | StoreWrite
    | PopCall | LoadOwnRead | LoadWrite(j: nat) | ReadSlot | StoreRead

  // The index after x, by masking.
  function Next(x: nat, k: nat): nat { And(x + 1, Ones(k)) }

  // The slot of the i-th item.
  function Slot(i: nat, k: nat): nat { i % Pow2(k) }

  ghost predicate Init<T>(s: State<T>, k: nat) {
    && |s.buffer| == Pow2(k) && s.writeIdx == [0] && s.readIdx == [0] && s.seenR == 0 && s.seenW == 0
    && s.prod == PIdle && s.cons == CIdle && s.pushed == [] && s.popped == []
  }

  ghost predicate Enabled<T>(s: State<T>, step: Step<T>) {
    match step
    case PushCall(_) => s.prod == PIdle
    case LoadOwnWrite => s.prod.PStart? && s.writeIdx != []
    case LoadRead(j) => s.prod.PHave? && s.seenR <= j < |s.readIdx|
    case WriteSlot => s.prod.PWrite? && s.prod.w < |s.buffer|
    case StoreWrite => s.prod.PPublish?
    case PopCall => s.cons == CIdle
    case LoadOwnRead => s.cons == CStart && s.readIdx != []
    case LoadWrite(j) => s.cons.CHave? && s.seenW <= j < |s.writeIdx|
    case ReadSlot => s.cons.CRead? && s.cons.r < |s.buffer|
    case StoreRead => s.cons.CPublish?
  }

  // The test of a push: the slot after the next one is the oldest unread one it knows of.
  ghost predicate SaysFull<T>(s: State<T>, j: nat, k: nat)
    requires s.prod.PHave? && j < |s.readIdx|
  {
    Next(s.prod.w, k) == s.readIdx[j]
  }

  ghost predicate SaysEmpty<T>(s: State<T>, j: nat)
    requires s.cons.CHave? && j < |s.writeIdx|
  {
    s.cons.r == s.writeIdx[j]
  }

  ghost function Apply<T>(s: State<T>, step: Step<T>, k: nat): State<T>
    requires Enabled(s, step)
  {
    match step
    case PushCall(x) => s.(prod := PStart(x))
    case LoadOwnWrite => s.(prod := PHave(s.prod.item, s.writeIdx[|s.writeIdx| - 1]))
    case LoadRead(j) =>
      s.(seenR := j, prod := if SaysFull(s, j, k) then PIdle else PWrite(s.prod.item, s.prod.w))
    case WriteSlot => s.(buffer := s.buffer[s.prod.w := s.prod.item], prod := PPublish(s.prod.item, s.prod.w))
    case StoreWrite =>
      s.(writeIdx := s.writeIdx + [Next(s.prod.w, k)], pushed := s.pushed + [s.prod.item], prod := PIdle)
    case PopCall => s.(cons := CStart)
    case LoadOwnRead => s.(cons := CHave(s.readIdx[|s.readIdx| - 1]))
    case LoadWrite(j) => s.(seenW := j, cons := if SaysEmpty(s, j) then CIdle else CRead(s.cons.r))
    case ReadSlot => s.(cons := CPublish(s.cons.r, s.buffer[s.cons.r]))
    case StoreRead =>
      s.(readIdx := s.readIdx + [Next(s.cons.r, k)], popped := s.popped + [s.cons.item], cons := CIdle)
  }

  // trace is a run on a ring of capacity 2^k: step m leads from state m to state m + 1.
  ghost predicate Run<T>(trace: seq<State<T>>, steps: seq<Step<T>>, k: nat) {
    && |trace| == |steps| + 1 && Init(trace[0], k)
    && forall m {:trigger steps[m]} :: 0 <= m < |steps| ==>
         Enabled(trace[m], steps[m]) && trace[m + 1] == Apply(trace[m], steps[m], k)
  }

  // ---------- slots ----------

  // Masking moves on to the next slot.
  lemma NextIsSlot(i: nat, k: nat)
    ensures Next(Slot(i, k), k) == Slot(i + 1, k) && Slot(i, k) < Pow2(k)
  {
    var c := Pow2(k);
    var r := i % c;
    AndOnes(r + 1, k);
    ModOffset(i, 1, c);
    DivisionIsUnique(c, 0, r);
    ModOffset(r, 1, c);
  }

  // Two items at most a ring apart share a slot if and only if they are the same or exactly a ring apart.
  lemma SameSlot(i: nat, j: nat, k: nat)
    requires i <= j <= i + Pow2(k)
    ensures Slot(i, k) == Slot(j, k) <==> j == i || j == i + Pow2(k)
  {
    ModOffset(i, j - i, Pow2(k));
  }

  // ---------- what every step keeps ----------

  ghost predicate Counts(values: seq<nat>, n: nat, k: nat) {
    |values| == n + 1 && forall i {:trigger values[i]} :: 0 <= i <= n ==> values[i] == Slot(i, k)
  }

  ghost predicate HoldsAt<T>(buffer: seq<T>, pushed: seq<T>, i: nat, k: nat)
    requires i < |pushed|
  {
    Slot(i, k) < |buffer| && buffer[Slot(i, k)] == pushed[i]
  }

  // The slots between the two ends hold the items not yet popped.
  ghost predicate Holds<T>(buffer: seq<T>, pushed: seq<T>, from: nat, k: nat) {
    && |buffer| == Pow2(k)
    && forall i {:trigger HoldsAt(buffer, pushed, i, k)} :: from <= i < |pushed| ==> HoldsAt(buffer, pushed, i, k)
  }

  ghost predicate ProducerInv<T>(s: State<T>, k: nat) {
    match s.prod
    case PHave(_, w) => w == Slot(|s.pushed|, k)
    case PWrite(_, w) => w == Slot(|s.pushed|, k) && |s.pushed| - s.seenR < Pow2(k) - 1
    case PPublish(x, w) =>
      && w == Slot(|s.pushed|, k) && |s.pushed| - s.seenR < Pow2(k) - 1
      && w < |s.buffer| && s.buffer[w] == x
    case _ => true
  }

  ghost predicate ConsumerInv<T>(s: State<T>, k: nat) {
    match s.cons
    case CHave(r) => r == Slot(|s.popped|, k)
    case CRead(r) => r == Slot(|s.popped|, k) && |s.popped| < s.seenW
    case CPublish(r, x) => r == Slot(|s.popped|, k) && |s.popped| < s.seenW <= |s.pushed| && x == s.pushed[|s.popped|]
    case _ => true
  }

  ghost predicate Bounds<T>(s: State<T>, k: nat) {
    s.seenR <= |s.popped| <= s.seenW <= |s.pushed| <= s.seenR + Pow2(k) - 1
  }

  ghost predicate Inv<T>(s: State<T>, k: nat) {
    && Bounds(s, k) && s.popped <= s.pushed
    && Counts(s.writeIdx, |s.pushed|, k) && Counts(s.readIdx, |s.popped|, k)
    && Holds(s.buffer, s.pushed, |s.popped|, k)
    && ProducerInv(s, k) && ConsumerInv(s, k)
  }

  // A push sees the ring full if and only if, by the reads it knows of, all but one slot is in use.
  lemma FullIff<T>(s: State<T>, j: nat, k: nat)
    requires Inv(s, k) && s.prod.PHave? && s.seenR <= j < |s.readIdx|
    ensures SaysFull(s, j, k) <==> |s.pushed| - j == Pow2(k) - 1
  {
    hide Next, Slot;
    NextIsSlot(|s.pushed|, k);
    SameSlot(j, |s.pushed| + 1, k);
  }

  // A pop sees the ring empty if and only if it knows of no item beyond those it has popped.
  lemma EmptyIff<T>(s: State<T>, j: nat, k: nat)
    requires Inv(s, k) && s.cons.CHave? && s.seenW <= j < |s.writeIdx|
    ensures SaysEmpty(s, j) <==> j == |s.popped|
  {
    hide Slot;
    SameSlot(|s.popped|, j, k);
  }

  lemma CountOneMore(values: seq<nat>, n: nat, k: nat)
    requires Counts(values, n, k)
    ensures Counts(values + [Next(Slot(n, k), k)], n + 1, k)
  {
    hide Next, Slot;
    NextIsSlot(n, k);
  }

  // The slot of the item being pushed holds none of the items still to be popped.
  lemma WriteKeeps<T>(buffer: seq<T>, pushed: seq<T>, from: nat, x: T, k: nat)
    requires Holds(buffer, pushed, from, k) && |pushed| - from < Pow2(k) && Slot(|pushed|, k) < |buffer|
    ensures Holds(buffer[Slot(|pushed|, k) := x], pushed, from, k)
  {
    hide Slot;
    var b := buffer[Slot(|pushed|, k) := x];
    forall i | from <= i < |pushed| ensures HoldsAt(b, pushed, i, k) {
      assert HoldsAt(buffer, pushed, i, k);
      SameSlot(i, |pushed|, k);
    }
  }

  lemma OneMoreHeld<T>(buffer: seq<T>, pushed: seq<T>, from: nat, x: T, k: nat)
    requires Holds(buffer, pushed, from, k) && Slot(|pushed|, k) < |buffer| && buffer[Slot(|pushed|, k)] == x
    ensures Holds(buffer, pushed + [x], from, k)
  {
    hide Slot;
    forall i | from <= i <= |pushed| ensures HoldsAt(buffer, pushed + [x], i, k) {
      if i < |pushed| { assert HoldsAt(buffer, pushed, i, k); }
    }
  }

  lemma OneFewerHeld<T>(buffer: seq<T>, pushed: seq<T>, from: nat, k: nat)
    requires Holds(buffer, pushed, from, k)
    ensures Holds(buffer, pushed, from + 1, k)
  {
  }

  lemma WriteSlotInv<T>(s: State<T>, k: nat)
    requires Inv(s, k) && s.prod.PWrite? && s.prod.w < |s.buffer|
    ensures Inv(Apply(s, WriteSlot, k), k)
  {
    hide Slot, Next;
    WriteKeeps(s.buffer, s.pushed, |s.popped|, s.prod.item, k);
  }

  lemma StoreWriteInv<T>(s: State<T>, k: nat)
    requires Inv(s, k) && s.prod.PPublish?
    ensures Inv(Apply(s, StoreWrite, k), k)
  {
    hide Slot, Next;
    CountOneMore(s.writeIdx, |s.pushed|, k);
    OneMoreHeld(s.buffer, s.pushed, |s.popped|, s.prod.item, k);
    hide Counts, Holds;
    assert s.pushed <= s.pushed + [s.prod.item];
  }

  lemma StoreReadInv<T>(s: State<T>, k: nat)
    requires Inv(s, k) && s.cons.CPublish?
    ensures Inv(Apply(s, StoreRead, k), k)
  {
    hide Slot, Next;
    CountOneMore(s.readIdx, |s.popped|, k);
    OneFewerHeld(s.buffer, s.pushed, |s.popped|, k);
    hide Counts, Holds;
    assert s.popped + [s.cons.item] <= s.pushed;
  }

  lemma ReadSlotInv<T>(s: State<T>, k: nat)
    requires Inv(s, k) && s.cons.CRead? && s.cons.r < |s.buffer|
    ensures Inv(Apply(s, ReadSlot, k), k)
  {
    hide Slot, Next, Counts;
    assert HoldsAt(s.buffer, s.pushed, |s.popped|, k);
  }

  lemma StepInv<T>(s: State<T>, step: Step<T>, k: nat)
    requires Inv(s, k) && Enabled(s, step)
    ensures Inv(Apply(s, step, k), k)
  {
    hide Slot, Next, Holds, SaysFull, SaysEmpty;
    match step
    case LoadRead(j) => FullIff(s, j, k);
    case LoadWrite(j) => EmptyIff(s, j, k);
    case WriteSlot => WriteSlotInv(s, k);
    case StoreWrite => StoreWriteInv(s, k);
    case StoreRead => StoreReadInv(s, k);
    case ReadSlot => ReadSlotInv(s, k);
    case _ =>
  }

  lemma InitInv<T>(s: State<T>, k: nat)
    requires Init(s, k)
    ensures Inv(s, k)
  {
    DivisionIsUnique(Pow2(k), 0, 0);
  }

  lemma {:induction false} RunInv<T>(trace: seq<State<T>>, steps: seq<Step<T>>, k: nat, m: nat)
    requires Run(trace, steps, k) && m < |trace|
    ensures Inv(trace[m], k)
  {
    hide Inv, Enabled, Apply;
    if m == 0 {
      InitInv(trace[0], k);
    } else {
      RunInv(trace, steps, k, m - 1);
      assert Enabled(trace[m - 1], steps[m - 1]) && trace[m - 1 + 1] == Apply(trace[m - 1], steps[m - 1], k);
      StepInv(trace[m - 1], steps[m - 1], k);
    }
  }

  // ---------- every run ----------

  // The items push was called with.
  ghost function Asked<T>(steps: seq<Step<T>>): seq<T> {
    if steps == [] then []
    else
      var n := |steps| - 1;
      Asked(steps[..n]) + if steps[n].PushCall? then [steps[n].item] else []
  }

  // The items of the pushes that succeeded: at each store of write_ptr, the item of the last call before it.
  ghost function Offered<T>(steps: seq<Step<T>>): seq<T> {
    if steps == [] then []
    else
      var n := |steps| - 1;
      var asked := Asked(steps[..n]);
      Offered(steps[..n]) + if steps[n].StoreWrite? && asked != [] then [asked[|asked| - 1]] else []
  }

  // How many pops have succeeded.
  ghost function Taken<T>(steps: seq<Step<T>>): nat {
    if steps == [] then 0
    else
      var n := |steps| - 1;
      Taken(steps[..n]) + if steps[n].StoreRead? then 1 else 0
  }

  // A push in progress works on the item it was called with.
  ghost predicate OwnItem<T>(prod: Producer<T>, asked: seq<T>) {
    prod != PIdle ==> asked != [] && prod.item == asked[|asked| - 1]
  }

  lemma {:induction false} RunOffers<T>(trace: seq<State<T>>, steps: seq<Step<T>>, k: nat, m: nat)
    requires Run(trace, steps, k) && m < |trace|
    ensures OwnItem(trace[m].prod, Asked(steps[..m]))
    ensures trace[m].pushed == Offered(steps[..m]) && |trace[m].popped| == Taken(steps[..m])
  {
    hide Next, SaysFull, SaysEmpty;
    if m == 0 {
      assert steps[..0] == [];
    } else {
      RunOffers(trace, steps, k, m - 1);
      assert steps[..m][..m - 1] == steps[..m - 1] && steps[..m][m - 1] == steps[m - 1];
      assert Enabled(trace[m - 1], steps[m - 1]) && trace[m - 1 + 1] == Apply(trace[m - 1], steps[m - 1], k);
    }
  }

  // Whatever was popped is what push was called with, in the same order, and one slot is always spare.
  lemma FirstInFirstOut<T>(trace: seq<State<T>>, steps: seq<Step<T>>, k: nat, m: nat)
    requires Run(trace, steps, k) && m < |trace|
    ensures trace[m].popped <= trace[m].pushed == Offered(steps[..m])
    ensures |trace[m].pushed| - |trace[m].popped| <= Pow2(k) - 1
  {
    RunInv(trace, steps, k, m);
    RunOffers(trace, steps, k, m);
  }

  // The i-th pop that succeeds hands out the item of the i-th push that did.
  lemma PopsInOrder<T>(trace: seq<State<T>>, steps: seq<Step<T>>, k: nat, m: nat)
    requires Run(trace, steps, k) && m < |steps| && steps[m] == StoreRead
    ensures Taken(steps[..m]) < |Offered(steps[..m])|
    ensures trace[m].cons.CPublish? && trace[m].cons.item == Offered(steps[..m])[Taken(steps[..m])]
  {
    hide Next, SaysFull, SaysEmpty, Apply;
    RunInv(trace, steps, k, m);
    RunOffers(trace, steps, k, m);
    assert Enabled(trace[m], steps[m]);
  }

  // How many steps of its own a call can still take.
  function PushLeft<T>(prod: Producer<T>): nat {
    match prod
    case PIdle => 0 case PStart(_) => 4 case PHave(_, _) => 3 case PWrite(_, _) => 2 case PPublish(_, _) => 1
  }

  function PopLeft<T>(cons: Consumer<T>): nat {
    match cons case CIdle => 0 case CStart => 4 case CHave(_) => 3 case CRead(_) => 2 case CPublish(_, _) => 1
  }

  predicate OfPush<T>(step: Step<T>) { step.LoadOwnWrite? || step.LoadRead? || step.WriteSlot? || step.StoreWrite? }

  predicate OfPop<T>(step: Step<T>) { step.LoadOwnRead? || step.LoadWrite? || step.ReadSlot? || step.StoreRead? }

  // Wait-free: in every state of a run a call in progress can take its next step, whatever the other side is
  // doing, and it ends after at most four of them; the other side's steps do not set it back.
  lemma WaitFree<T>(trace: seq<State<T>>, steps: seq<Step<T>>, k: nat, m: nat)
    requires Run(trace, steps, k) && m < |trace|
    ensures trace[m].prod != PIdle ==> exists step :: OfPush(step) && Enabled(trace[m], step)
    ensures trace[m].cons != CIdle ==> exists step :: OfPop(step) && Enabled(trace[m], step)
    ensures 0 < m && OfPush(steps[m - 1]) ==> PushLeft(trace[m].prod) < PushLeft(trace[m - 1].prod) <= 4
    ensures 0 < m && OfPop(steps[m - 1]) ==> PopLeft(trace[m].cons) < PopLeft(trace[m - 1].cons) <= 4
    ensures 0 < m && !OfPush(steps[m - 1]) && trace[m - 1].prod != PIdle ==> trace[m].prod == trace[m - 1].prod
    ensures 0 < m && !OfPop(steps[m - 1]) && trace[m - 1].cons != CIdle ==> trace[m].cons == trace[m - 1].cons
  {
    RunInv(trace, steps, k, m);
    CanStep(trace[m], k);
    if 0 < m {
      hide Next, SaysFull, SaysEmpty, Inv;
      assert Enabled(trace[m - 1], steps[m - 1]) && trace[m - 1 + 1] == Apply(trace[m - 1], steps[m - 1], k);
    }
  }

  lemma CanStep<T>(s: State<T>, k: nat)
    requires Inv(s, k)
    ensures s.prod != PIdle ==> exists step :: OfPush(step) && Enabled(s, step)
    ensures s.cons != CIdle ==> exists step :: OfPop(step) && Enabled(s, step)
  {
    NextIsSlot(|s.pushed|, k);
    NextIsSlot(|s.popped|, k);
    hide Slot, Next;
    if s.prod != PIdle {
      var step := match s.prod
        case PStart(_) => LoadOwnWrite
        case PHave(_, _) => LoadRead(|s.readIdx| - 1)
        case PWrite(_, _) => WriteSlot
        case _ => StoreWrite;
      assert OfPush(step) && Enabled(s, step);
    }
    if s.cons != CIdle {
      var step := match s.cons
        case CStart => LoadOwnRead
        case CHave(_) => LoadWrite(|s.writeIdx| - 1)
        case CRead(_) => ReadSlot
        case _ => StoreRead;
      assert OfPop(step) && Enabled(s, step);
    }
  }

  // No slot access is out of range: both indices stay below the capacity.
  lemma IndicesInRange<T>(trace: seq<State<T>>, steps: seq<Step<T>>, k: nat, m: nat)
    requires Run(trace, steps, k) && m < |trace|
    ensures trace[m].prod.PWrite? ==> trace[m].prod.w < |trace[m].buffer|
    ensures trace[m].cons.CRead? ==> trace[m].cons.r < |trace[m].buffer|
  {
    RunInv(trace, steps, k, m);
    NextIsSlot(|trace[m].pushed|, k);
    NextIsSlot(|trace[m].popped|, k);
  }

  lemma RunOn<T>(trace: seq<State<T>>, steps: seq<Step<T>>, k: nat, step: Step<T>)
    returns (trace': seq<State<T>>, steps': seq<Step<T>>)
    requires Run(trace, steps, k) && Enabled(trace[|trace| - 1], step)
    ensures Run(trace', steps', k) && trace'[|trace'| - 1] == Apply(trace[|trace| - 1], step, k)
    ensures steps' == steps + [step]
  {
    hide Apply, Enabled, Init;
    trace', steps' := trace + [Apply(trace[|trace| - 1], step, k)], steps + [step];
    forall m {:trigger steps'[m]} | 0 <= m < |steps'|
      ensures Enabled(trace'[m], steps'[m]) && trace'[m + 1] == Apply(trace'[m], steps'[m], k)
    {
      if m < |steps| { assert steps'[m] == steps[m]; }
    }
  }

  // Any run in which no push is in progress and the ring has room goes on with a push that succeeds.
  lemma PushSucceeds<T>(trace: seq<State<T>>, steps: seq<Step<T>>, k: nat, x: T)
    returns (trace': seq<State<T>>, steps': seq<Step<T>>)
    requires Run(trace, steps, k)
    requires var s := trace[|trace| - 1]; s.prod == PIdle && |s.pushed| - |s.popped| < Pow2(k) - 1
    ensures Run(trace', steps', k)
    ensures var s := trace[|trace| - 1];
      steps' == steps + [PushCall(x), LoadOwnWrite, LoadRead(|s.popped|), WriteSlot, StoreWrite]
    ensures var s, s' := trace[|trace| - 1], trace'[|trace'| - 1];
      s'.pushed == s.pushed + [x] && s'.popped == s.popped && s'.prod == PIdle && s'.cons == s.cons
  {
    var s := trace[|trace| - 1];
    RunInv(trace, steps, k, |trace| - 1);
    trace', steps' := RunOn(trace, steps, k, PushCall(x));
    trace', steps' := RunOn(trace', steps', k, LoadOwnWrite);
    hide Next, Slot, SaysFull, Run;
    RunInv(trace', steps', k, |trace'| - 1);
    FullIff(trace'[|trace'| - 1], |s.popped|, k);
    trace', steps' := RunOn(trace', steps', k, LoadRead(|s.popped|));
    IndicesInRange(trace', steps', k, |trace'| - 1);
    trace', steps' := RunOn(trace', steps', k, WriteSlot);
    trace', steps' := RunOn(trace', steps', k, StoreWrite);
  }

  // And with a pop that succeeds, if no pop is in progress and there is an item: it takes out the oldest.
  lemma PopSucceeds<T>(trace: seq<State<T>>, steps: seq<Step<T>>, k: nat)
    returns (trace': seq<State<T>>, steps': seq<Step<T>>)
    requires Run(trace, steps, k)
    requires var s := trace[|trace| - 1]; s.cons == CIdle && |s.popped| < |s.pushed|
    ensures Run(trace', steps', k)
    ensures var s := trace[|trace| - 1];
      steps' == steps + [PopCall, LoadOwnRead, LoadWrite(|s.pushed|), ReadSlot, StoreRead]
    ensures var s, s' := trace[|trace| - 1], trace'[|trace'| - 1];
      && s'.popped == s.popped + [s.pushed[|s.popped|]] && s'.pushed == s.pushed
      && s'.cons == CIdle && s'.prod == s.prod
  {
    var s := trace[|trace| - 1];
    RunInv(trace, steps, k, |trace| - 1);
    trace', steps' := RunOn(trace, steps, k, PopCall);
    trace', steps' := RunOn(trace', steps', k, LoadOwnRead);
    hide Next, Slot, SaysEmpty, Run;
    RunInv(trace', steps', k, |trace'| - 1);
    EmptyIff(trace'[|trace'| - 1], |s.pushed|, k);
    trace', steps' := RunOn(trace', steps', k, LoadWrite(|s.pushed|));
    IndicesInRange(trace', steps', k, |trace'| - 1);
    trace', steps' := RunOn(trace', steps', k, ReadSlot);
    RunInv(trace', steps', k, |trace'| - 1);
    trace', steps' := RunOn(trace', steps', k, StoreRead);
  }

  // The two sides never touch the same slot at once.
  lemma NoSharedSlot<T>(trace: seq<State<T>>, steps: seq<Step<T>>, k: nat, m: nat)
    requires Run(trace, steps, k) && m < |trace|
    ensures trace[m].prod.PWrite? && trace[m].cons.CRead? ==> trace[m].prod.w != trace[m].cons.r
  {
    RunInv(trace, steps, k, m);
    var s := trace[m];
    if s.prod.PWrite? && s.cons.CRead? { SameSlot(|s.popped|, |s.pushed|, k); }
  }

  // Every slot access is ordered after the other side's last access to that slot by a value it has
  // itself seen: the item that was in the slot a ring before is among the reads the producer knows
  // of, and the item the consumer fetches is among the writes it knows of.
  lemma Synchronised<T>(trace: seq<State<T>>, steps: seq<Step<T>>, k: nat, m: nat, i: nat)
    requires Run(trace, steps, k) && m < |trace|
    ensures trace[m].prod.PWrite? && i < |trace[m].pushed| && Slot(i, k) == trace[m].prod.w ==> i < trace[m].seenR
    ensures trace[m].cons.CRead? ==> |trace[m].popped| < trace[m].seenW
  {
    RunInv(trace, steps, k, m);
    var s := trace[m];
    if s.prod.PWrite? && s.seenR <= i < |s.pushed| { SameSlot(i, |s.pushed|, k); }
  }

  // A call that returns false leaves slots, indices and items as they were; with an up-to-date view
  // of the other index a push fails exactly on a full ring and a pop exactly on an empty one.
  lemma FailureIsExact<T>(trace: seq<State<T>>, steps: seq<Step<T>>, k: nat, m: nat, j: nat)
    requires Run(trace, steps, k) && m < |trace|
    ensures
      var s := trace[m];
      s.prod.PHave? && Enabled(s, LoadRead(j)) ==>
        && (Apply(s, LoadRead(j), k).prod == PIdle <==> |s.pushed| - j == Pow2(k) - 1)
        && Apply(s, LoadRead(j), k) == s.(seenR := j, prod := Apply(s, LoadRead(j), k).prod)
    ensures
      var s := trace[m];
      s.cons.CHave? && Enabled(s, LoadWrite(j)) ==>
        && (Apply(s, LoadWrite(j), k).cons == CIdle <==> j == |s.popped|)
        && Apply(s, LoadWrite(j), k) == s.(seenW := j, cons := Apply(s, LoadWrite(j), k).cons)
    ensures |trace[m].readIdx| - 1 == |trace[m].popped| && |trace[m].writeIdx| - 1 == |trace[m].pushed|
  {
    RunInv(trace, steps, k, m);
    var s := trace[m];
    if s.prod.PHave? && Enabled(s, LoadRead(j)) { FullIff(s, j, k); }
    if s.cons.CHave? && Enabled(s, LoadWrite(j)) { EmptyIff(s, j, k); }
  }
}
