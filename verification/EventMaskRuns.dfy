/** What the runs of the event-mask machine of craft/states/multi_event/test.cpp can do, depending on the
    table of rules: exactly when a rule with a window can fire on an event that was not posted since the
    last reset or transition, or longer ago than the window. */
module EventMaskRuns {
  import opened Arithmetic
  import opened Bits
  import opened EventMask
  import opened Power

  datatype Input = Post(e: nat, at: int) | Tick(at: int)

  // round: the events posted since the last reset or transition.  left: what that transition kept.
  datatype Tracked = Tracked(machine: Machine, round: seq<Input>, left: nat)

  ghost function Next(t: Tracked, rules: seq<Rule>, input: Input): Tracked {
    match input
    case Post(e, now) =>
      var a := Posted(t.machine, rules, e, now);
      if a.fired.Fired? then Tracked(a.machine, [], a.machine.collected)
      else if a.discarded then Tracked(a.machine, [], 0)
      else Tracked(a.machine, t.round + [input], t.left)
    case Tick(now) =>
      var m := Ticked(t.machine, rules, now);
      if m == t.machine then t else Tracked(m, [], 0)
  }

  ghost function After(s0: State, rules: seq<Rule>, inputs: seq<Input>): Tracked {
    if inputs == [] then Tracked(Machine(s0, 0, 0), [], 0)
    else Next(After(s0, rules, inputs[..|inputs| - 1]), rules, inputs[|inputs| - 1])
  }

  lemma AfterMore(s0: State, rules: seq<Rule>, inputs: seq<Input>, input: Input)
    ensures After(s0, rules, inputs + [input]) == Next(After(s0, rules, inputs), rules, input)
  {
    assert (inputs + [input])[..|inputs|] == inputs;
  }

  // Time does not run backwards, and every event is a 32-bit word.
  ghost predicate Timely(inputs: seq<Input>) {
    && (forall i, j :: 0 <= i < j < |inputs| ==> inputs[i].at <= inputs[j].at)
    && (forall i :: 0 <= i < |inputs| && inputs[i].Post? ==> inputs[i].e < Pow2(32))
  }

  // ---------- what the table of rules allows ----------

  // No earlier rule of the same state is met whenever the k-th is.
  ghost predicate Unshadowed(rules: seq<Rule>, k: nat) {
    && k < |rules|
    && forall j {:trigger rules[j]} :: 0 <= j < k && rules[j].from == rules[k].from ==>
         !Within(rules[j].required, rules[k].required)
  }

  // The i-th rule can fire while bit b is collected, and keeps it.
  ghost predicate Carries(rules: seq<Rule>, i: nat, b: nat) {
    && i < |rules| && !rules[i].clear && b < 32 && !Bit(rules[i].required, b)
    && forall j {:trigger rules[j]} :: 0 <= j < i && rules[j].from == rules[i].from ==>
         !Within(rules[j].required, Or(rules[i].required, OneBit(b)))
  }

  // With bit b kept from before, the d-th rule can be the first to expire.  It requires no event, so
  // dropping all of them is its only effect, and the k-th, which requires none either, fires in its stead.
  ghost predicate Skips(rules: seq<Rule>, d: nat, k: nat, b: nat) {
    && d < k < |rules| && rules[k].from == rules[d].from
    && rules[d].required == 0 && rules[k].required == 0 && rules[d].window > 0
    && (forall j {:trigger rules[j]} :: 0 <= j < d && rules[j].from == rules[d].from ==>
          !Within(rules[j].required, OneBit(b)) && (rules[j].window > 0 ==> rules[d].window < rules[j].window))
    && (forall j {:trigger rules[j]} :: d < j < k && rules[j].from == rules[d].from ==> rules[j].required != 0)
  }

  ghost predicate SkipStep(rules: seq<Rule>, i: nat, d: nat, k: nat, b: nat, s: State, s': State) {
    && Carries(rules, i, b) && rules[i].from == s && Skips(rules, d, k, b)
    && rules[d].from == rules[i].to && rules[k].to == s'
  }

  ghost predicate FireStep(rules: seq<Rule>, k: nat, s: State, s': State) {
    Unshadowed(rules, k) && rules[k].from == s && rules[k].to == s'
  }

  ghost predicate Step(rules: seq<Rule>, s: State, s': State) {
    || (exists k: nat :: FireStep(rules, k, s, s'))
    || (exists i: nat, d: nat, k: nat, b: nat :: SkipStep(rules, i, d, k, b, s, s'))
  }

  // There are three states, so two steps reach all that can be reached.
  ghost predicate Reaches(s0: State, rules: seq<Rule>, s: State) {
    s == s0 || Step(rules, s0, s) || exists via: State :: Step(rules, s0, via) && Step(rules, via, s)
  }

  lemma ReachesOn(s0: State, rules: seq<Rule>, s: State, s': State)
    requires Reaches(s0, rules, s) && Step(rules, s, s')
    ensures Reaches(s0, rules, s')
  {
    hide Step;
    if s != s0 && !Step(rules, s0, s) {
      var via: State :| Step(rules, s0, via) && Step(rules, via, s);
      OnlyThree(s0, via, s, s');
    }
  }

  lemma OnlyThree(a: State, b: State, c: State, d: State)
    ensures a == b || a == c || a == d || b == c || b == d || c == d
  {
    assert (a.Idle? || a.Arming? || a.Active?) && (b.Idle? || b.Arming? || b.Active?);
    assert (c.Idle? || c.Arming? || c.Active?) && (d.Idle? || d.Arming? || d.Active?);
  }

  ghost predicate CarriedInto(s0: State, rules: seq<Rule>, s: State, b: nat) {
    exists i: nat :: Carries(rules, i, b) && rules[i].to == s && Reaches(s0, rules, rules[i].from)
  }

  // A reachable rule keeps bit b on its way into a state where a rule with a window requires it.
  ghost predicate Leaks(s0: State, rules: seq<Rule>, i: nat, k: nat, b: nat) {
    && Carries(rules, i, b) && Reaches(s0, rules, rules[i].from)
    && Unshadowed(rules, k) && rules[k].from == rules[i].to && rules[k].window > 0 && Bit(rules[k].required, b)
  }

  ghost predicate Leaky(s0: State, rules: seq<Rule>) {
    exists i: nat, k: nat, b: nat :: Leaks(s0, rules, i, k, b)
  }

  // ---------- what every run keeps ----------

  ghost predicate PostedIn(round: seq<Input>, b: nat) {
    exists i :: 0 <= i < |round| && round[i].Post? && Bit(round[i].e, b)
  }

  // What is collected is what the last transition left and what was posted since.
  ghost predicate Accounted(m: Machine, round: seq<Input>, left: nat) {
    forall b: nat {:trigger Bit(m.collected, b)} :: Bit(m.collected, b) <==> Bit(left, b) || PostedIn(round, b)
  }

  // The clock of the round started no later than any of its events.
  ghost predicate Clocked(m: Machine, round: seq<Input>) {
    forall i {:trigger round[i]} :: 0 <= i < |round| ==>
      round[i].Post? && (round[i].e != 0 ==> m.collected != 0 && m.first <= round[i].at)
  }

  ghost predicate NoFreeRule(rules: seq<Rule>, s: State) {
    forall j {:trigger rules[j]} :: 0 <= j < |rules| && rules[j].from == s ==> rules[j].required != 0
  }

  ghost predicate Traced(s0: State, rules: seq<Rule>, t: Tracked) {
    && Reaches(s0, rules, t.machine.state)
    && forall b: nat {:trigger Bit(t.left, b)} :: Bit(t.left, b) ==> CarriedInto(s0, rules, t.machine.state, b)
  }

  ghost predicate RunInv(s0: State, rules: seq<Rule>, t: Tracked, time: int) {
    && Accounted(t.machine, t.round, t.left) && Clocked(t.machine, t.round)
    && (t.machine.collected != 0 ==> t.machine.first <= time)
    && (t.round != [] ==> NoFreeRule(rules, t.machine.state))
    && Traced(s0, rules, t)
  }

  lemma PostedMore(round: seq<Input>, e: nat, now: int, b: nat)
    ensures PostedIn(round + [Post(e, now)], b) <==> PostedIn(round, b) || Bit(e, b)
  {
    hide Bit;
    var more := round + [Post(e, now)];
    assert more[|round|] == Post(e, now);
    if i :| 0 <= i < |round| && round[i].Post? && Bit(round[i].e, b) { assert more[i] == round[i]; }
  }

  // Collecting an event keeps every bit accounted for.
  lemma CollectKeeps(t: Tracked, e: nat, now: int)
    requires Accounted(t.machine, t.round, t.left) && Clocked(t.machine, t.round)
    ensures var m := Collect(t.machine, e, now);
      && Accounted(m, t.round + [Post(e, now)], t.left) && (m.collected == 0 <==> t.machine.collected == 0 && e == 0)
  {
    hide Bit, Or, PostedIn;
    var m := Collect(t.machine, e, now);
    forall b: nat ensures Bit(m.collected, b) <==> Bit(t.left, b) || PostedIn(t.round + [Post(e, now)], b) {
      BitOr(t.machine.collected, e, b);
      PostedMore(t.round, e, now, b);
      assert Bit(t.machine.collected, b) <==> Bit(t.left, b) || PostedIn(t.round, b);
    }
    OrZero(t.machine.collected, e);
  }

  lemma CollectClocked(t: Tracked, e: nat, now: int)
    requires Accounted(t.machine, t.round, t.left) && Clocked(t.machine, t.round)
    requires t.machine.collected != 0 ==> t.machine.first <= now
    ensures var m := Collect(t.machine, e, now);
      Clocked(m, t.round + [Post(e, now)]) && m.first <= now
  {
    hide Accounted, Or;
    CollectKeeps(t, e, now);
  }

  // A rule that fires in time is unshadowed, and carries every bit it leaves.
  lemma FiredSteps(m: Machine, rules: seq<Rule>, now: int, d: nat)
    requires FirstToDecide(m, rules, now, 0, d) && d < |rules| && !Expired(m, rules[d], now)
    ensures Met(m, rules[d]) && FireStep(rules, d, m.state, rules[d].to)
  {
    hide Expired, Within;
    forall j | 0 <= j < d && rules[j].from == rules[d].from ensures !Within(rules[j].required, rules[d].required) {
      assert !Decides(m, rules[j], now);
      WithinTrans(rules[j].required, rules[d].required, m.collected);
    }
  }

  lemma WithinTrans(x: nat, y: nat, z: nat)
    ensures Within(x, y) && Within(y, z) ==> Within(x, z)
  {
    hide Bit, Within;
    if Within(x, y) && Within(y, z) {
      forall i: nat | Bit(x, i) ensures Bit(z, i) {
        WithinBit(x, y, i);
        WithinBit(y, z, i);
      }
      WithinByBits(x, z);
    }
  }

  lemma FiredCarries(m: Machine, rules: seq<Rule>, now: int, d: nat, b: nat)
    requires FirstToDecide(m, rules, now, 0, d) && d < |rules| && !Expired(m, rules[d], now)
    requires Bit(Enter(m, rules[d], now).collected, b)
    ensures Carries(rules, d, b)
  {
    hide Expired, Within, Bit, And, Or, Not, OneBit;
    var r := rules[d];
    ZeroBit(b);
    LowBits(r.required, 32, b);
    BitAnd(m.collected, Not(r.required % Pow2(32), 32), b);
    BitNot(r.required % Pow2(32), 32, b);
    forall j | 0 <= j < d && rules[j].from == r.from ensures !Within(rules[j].required, Or(r.required, OneBit(b))) {
      assert !Decides(m, rules[j], now);
      WithinBoth(r.required, b, m.collected);
      WithinTrans(rules[j].required, Or(r.required, OneBit(b)), m.collected);
    }
  }

  lemma WithinBoth(x: nat, b: nat, z: nat)
    requires Within(x, z) && Bit(z, b)
    ensures Within(Or(x, OneBit(b)), z)
  {
    hide Bit, Within, Or, OneBit;
    forall i: nat | Bit(Or(x, OneBit(b)), i) ensures Bit(z, i) {
      BitOr(x, OneBit(b), i);
      OneBitBits(b, i);
      if Bit(x, i) { WithinBit(x, z, i); }
    }
    WithinByBits(Or(x, OneBit(b)), z);
  }

  lemma WithinOne(b: nat, z: nat)
    requires Bit(z, b)
    ensures Within(OneBit(b), z)
  {
    hide Bit, Within, OneBit;
    forall i: nat | Bit(OneBit(b), i) ensures Bit(z, i) { OneBitBits(b, i); }
    WithinByBits(OneBit(b), z);
  }

  // A rule that fires after the events were dropped is unshadowed, or takes the place of the expired one.
  lemma DroppedSteps(m: Machine, rules: seq<Rule>, now: int, d: nat, k: nat, a: Attempt, b: nat)
    requires FirstToDecide(m, rules, now, 0, d) && d < |rules| && Expired(m, rules[d], now)
    requires Dropped(m, rules, now, d, k, a) && k < |rules|
    requires rules[d].required == 0 ==> Bit(m.collected, b)
    ensures if rules[d].required == 0 then Skips(rules, d, k, b) else Unshadowed(rules, k)
  {
    hide Within, Bit;
    if rules[d].required == 0 {
      forall j | 0 <= j < d && rules[j].from == rules[d].from
        ensures !Within(rules[j].required, OneBit(b)) && (rules[j].window > 0 ==> rules[d].window < rules[j].window)
      {
        assert !Decides(m, rules[j], now);
        WithinOne(b, m.collected);
        WithinTrans(rules[j].required, OneBit(b), m.collected);
      }
    } else {
      forall j | 0 <= j < k && rules[j].from == rules[k].from ensures !Within(rules[j].required, rules[k].required) {
        WithinNothing(rules[j].required);
        NothingWithin(m.collected);
        if j < d { assert !Decides(m, rules[j], now); }
      }
    }
  }

  lemma WithinNothing(x: nat)
    ensures Within(x, 0) <==> x == 0
  {
  }

  lemma NothingWithin(y: nat)
    ensures Within(0, y)
  {
  }

  // ---------- every step keeps the invariant ----------

  lemma EmptyRound(m: Machine, left: nat)
    requires m.collected == left
    ensures Accounted(m, [], left) && Clocked(m, [])
  {
    assert forall b: nat :: !PostedIn([], b);
  }

  lemma NothingCarried(s0: State, rules: seq<Rule>, t: Tracked)
    requires Reaches(s0, rules, t.machine.state) && t.left == 0
    ensures Traced(s0, rules, t)
  {
    hide Reaches;
    forall b: nat ensures !Bit(t.left, b) { ZeroBit(b); }
  }

  lemma PostFires(s0: State, rules: seq<Rule>, t: Tracked, e: nat, now: int, d: nat)
    requires Reaches(s0, rules, t.machine.state)
    requires var m := Collect(t.machine, e, now);
      FirstToDecide(m, rules, now, 0, d) && d < |rules| && !Expired(m, rules[d], now)
    ensures var m' := Enter(Collect(t.machine, e, now), rules[d], now);
      RunInv(s0, rules, Tracked(m', [], m'.collected), now)
  {
    hide Enter, Expired, Decides, Carries, Reaches, Step;
    var m := Collect(t.machine, e, now);
    var t' := Tracked(Enter(m, rules[d], now), [], Enter(m, rules[d], now).collected);
    EmptyRound(t'.machine, t'.left);
    FiredSteps(m, rules, now, d);
    StepByFire(rules, d, t.machine.state, rules[d].to);
    ReachesOn(s0, rules, t.machine.state, rules[d].to);
    EnterIs(m, rules[d], now);
    forall b: nat | Bit(t'.left, b) ensures CarriedInto(s0, rules, rules[d].to, b) {
      FiredCarries(m, rules, now, d, b);
    }
    assert Traced(s0, rules, t') by { hide CarriedInto; }
    hide Traced, Accounted, Clocked;
  }

  lemma EnterIs(m: Machine, r: Rule, now: int)
    ensures Enter(m, r, now).state == r.to && Enter(m, r, now).first == now
    ensures m.collected == 0 ==> Enter(m, r, now).collected == 0
  {
  }

  lemma StepByFire(rules: seq<Rule>, k: nat, s: State, s': State)
    requires FireStep(rules, k, s, s')
    ensures Step(rules, s, s')
  {
  }

  lemma StepBySkip(rules: seq<Rule>, i: nat, d: nat, k: nat, b: nat, s: State, s': State)
    requires SkipStep(rules, i, d, k, b, s, s')
    ensures Step(rules, s, s')
  {
  }

  lemma FreeRule(rules: seq<Rule>, s: State, d: nat)
    requires d < |rules| && rules[d].from == s && rules[d].required == 0
    ensures !NoFreeRule(rules, s)
  {
  }

  // When a rule that requires no event expires, the collected events were left by a transition.
  lemma FreeRuleExpired(s0: State, rules: seq<Rule>, t: Tracked, e: nat, now: int, d: nat) returns (b: nat)
    requires RunInv(s0, rules, t, now) && d < |rules| && rules[d].required == 0 && rules[d].from == t.machine.state
    requires Expired(Collect(t.machine, e, now), rules[d], now)
    ensures Bit(t.left, b) && Bit(Collect(t.machine, e, now).collected, b)
  {
    hide Bit, Or, Traced;
    FreeRule(rules, t.machine.state, d);
    assert t.round == [];
    assert t.machine.collected != 0;
    b := SomeBit(t.machine.collected);
    assert !PostedIn(t.round, b);
    BitOr(t.machine.collected, e, b);
  }

  lemma PostDrops(s0: State, rules: seq<Rule>, t: Tracked, e: nat, now: int, d: nat, k: nat, a: Attempt)
    requires RunInv(s0, rules, t, now)
    requires var m := Collect(t.machine, e, now);
      && FirstToDecide(m, rules, now, 0, d) && d < |rules| && Expired(m, rules[d], now)
      && Dropped(m, rules, now, d, k, a)
    ensures a.machine.collected == 0 && RunInv(s0, rules, Tracked(a.machine, [], 0), now)
  {
    hide Enter, Expired, Carries, Skips, Unshadowed, Accounted, Clocked, Bit, Within;
    var m := Collect(t.machine, e, now);
    assert Reaches(s0, rules, a.machine.state) by {
      if k < |rules| {
        EnterIs(m.(collected := 0, first := now), rules[k], now);
        var b := 0;
        if rules[d].required == 0 { b := FreeRuleExpired(s0, rules, t, e, now, d); }
        DroppedSteps(m, rules, now, d, k, a, b);
        if rules[d].required == 0 {
          SkipReaches(s0, rules, t.machine.state, d, k, b);
        } else {
          StepByFire(rules, k, t.machine.state, rules[k].to);
          ReachesOn(s0, rules, t.machine.state, rules[k].to);
        }
      }
    }
    if k < |rules| { EnterIs(m.(collected := 0, first := now), rules[k], now); }
    EmptyRound(a.machine, 0);
    NothingCarried(s0, rules, Tracked(a.machine, [], 0));
  }

  lemma SkipReaches(s0: State, rules: seq<Rule>, s: State, d: nat, k: nat, b: nat)
    requires CarriedInto(s0, rules, s, b) && Skips(rules, d, k, b) && rules[d].from == s
    ensures Reaches(s0, rules, rules[k].to)
  {
    hide Reaches, Step, Within, Bit;
    var i: nat :| Carries(rules, i, b) && rules[i].to == s && Reaches(s0, rules, rules[i].from);
    StepBySkip(rules, i, d, k, b, rules[i].from, rules[k].to);
    ReachesOn(s0, rules, rules[i].from, rules[k].to);
  }

  lemma PostStays(s0: State, rules: seq<Rule>, t: Tracked, e: nat, now: int)
    requires RunInv(s0, rules, t, now) && FirstToDecide(Collect(t.machine, e, now), rules, now, 0, |rules|)
    ensures RunInv(s0, rules, Tracked(Collect(t.machine, e, now), t.round + [Post(e, now)], t.left), now)
  {
    hide Expired, Reaches, CarriedInto, Bit, Or, Within;
    var m := Collect(t.machine, e, now);
    CollectKeeps(t, e, now);
    CollectClocked(t, e, now);
    forall j | 0 <= j < |rules| && rules[j].from == m.state ensures rules[j].required != 0 {
      assert !Decides(m, rules[j], now);
      NothingWithin(m.collected);
    }
    hide Accounted, Clocked;
  }

  lemma PostKeeps(s0: State, rules: seq<Rule>, t: Tracked, e: nat, now: int)
    requires RunInv(s0, rules, t, now)
    ensures RunInv(s0, rules, Next(t, rules, Post(e, now)), now)
  {
    hide Expired, Try, RunInv, FirstToDecide;
    var m := Collect(t.machine, e, now);
    var d, k := TryExactly(m, rules, now);
    assert Reaches(s0, rules, t.machine.state) by { InvReaches(s0, rules, t, now); }
    assert d <= |rules| by { DeciderInRange(m, rules, now, d); }
    hide Reaches;
    if d == |rules| {
      PostStays(s0, rules, t, e, now);
    } else if !Expired(m, rules[d], now) {
      PostFires(s0, rules, t, e, now, d);
    } else {
      PostDrops(s0, rules, t, e, now, d, k, Try(m, rules, now, 0, false));
    }
  }

  lemma DeciderInRange(m: Machine, rules: seq<Rule>, now: int, d: nat)
    requires FirstToDecide(m, rules, now, 0, d)
    ensures d <= |rules|
  {
  }

  lemma InvReaches(s0: State, rules: seq<Rule>, t: Tracked, time: int)
    requires RunInv(s0, rules, t, time)
    ensures Reaches(s0, rules, t.machine.state)
  {
  }

  lemma TickKeeps(s0: State, rules: seq<Rule>, t: Tracked, now: int)
    requires RunInv(s0, rules, t, now)
    ensures RunInv(s0, rules, Next(t, rules, Tick(now)), now)
  {
    hide SomeTimedOut, Reaches, CarriedInto, Bit;
    var m := Ticked(t.machine, rules, now);
    if m != t.machine {
      EmptyRound(m, 0);
      NothingCarried(s0, rules, Tracked(m, [], 0));
    }
  }

  lemma LaterInv(s0: State, rules: seq<Rule>, t: Tracked, time: int, time': int)
    requires RunInv(s0, rules, t, time) && (t.machine.collected == 0 || time <= time')
    ensures RunInv(s0, rules, t, time')
  {
    hide Accounted, Clocked, Traced, NoFreeRule;
  }

  ghost function LastTime(inputs: seq<Input>): int { if inputs == [] then 0 else inputs[|inputs| - 1].at }

  lemma {:induction false} RunKeeps(s0: State, rules: seq<Rule>, inputs: seq<Input>)
    requires Timely(inputs)
    ensures RunInv(s0, rules, After(s0, rules, inputs), LastTime(inputs))
    ensures inputs == [] ==> After(s0, rules, inputs).machine.collected == 0
  {
    hide RunInv, Next;
    if inputs == [] {
      StartInv(s0, rules);
    } else {
      var n := |inputs| - 1;
      var t := After(s0, rules, inputs[..n]);
      RunKeeps(s0, rules, inputs[..n]);
      LaterInv(s0, rules, t, LastTime(inputs[..n]), inputs[n].at);
      match inputs[n]
      case Post(e, now) => PostKeeps(s0, rules, t, e, now);
      case Tick(now) => TickKeeps(s0, rules, t, now);
    }
  }

  lemma StartInv(s0: State, rules: seq<Rule>)
    ensures RunInv(s0, rules, Tracked(Machine(s0, 0, 0), [], 0), 0)
  {
    EmptyRound(Machine(s0, 0, 0), 0);
    NothingCarried(s0, rules, Tracked(Machine(s0, 0, 0), [], 0));
  }

  // ---------- when a rule fires on events of its own round ----------

  // Some event of the round carried bit b, no earlier than `since`.
  ghost predicate PostedSince(round: seq<Input>, b: nat, since: int) {
    exists i :: 0 <= i < |round| && round[i].Post? && Bit(round[i].e, b) && since <= round[i].at
  }

  // If the event makes a rule with a window fire, each event it requires was posted since the last reset or
  // transition, no longer ago than the window.
  ghost predicate FiresFresh(t: Tracked, rules: seq<Rule>, e: nat, now: int) {
    var fired := Posted(t.machine, rules, e, now).fired;
    fired.Fired? && fired.rule.window > 0 ==>
      forall b: nat {:trigger Bit(fired.rule.required, b)} :: Bit(fired.rule.required, b) ==>
        PostedSince(t.round + [Post(e, now)], b, now - fired.rule.window * NANOS_PER_MILLI)
  }

  // If it does, each required event that was left by the last transition was posted again.
  ghost predicate FiresReposted(t: Tracked, rules: seq<Rule>, e: nat, now: int) {
    var fired := Posted(t.machine, rules, e, now).fired;
    fired.Fired? && fired.rule.window > 0 ==>
      forall b: nat {:trigger Bit(fired.rule.required, b)} :: Bit(fired.rule.required, b) && Bit(t.left, b) ==>
        PostedIn(t.round + [Post(e, now)], b)
  }

  // The rule that fires on posting e, at an index of the table, if its window is open.
  lemma WindowedFires(s0: State, rules: seq<Rule>, t: Tracked, e: nat, now: int, b: nat) returns (d: nat)
    requires var fired := Posted(t.machine, rules, e, now).fired;
      fired.Fired? && Bit(fired.rule.required, b)
    ensures var m := Collect(t.machine, e, now);
      && FirstToDecide(m, rules, now, 0, d) && d < |rules| && !Expired(m, rules[d], now)
      && Posted(t.machine, rules, e, now).fired == Fired(rules[d]) && Bit(m.collected, b)
  {
    hide Expired, Try, Enter, Within, Bit;
    var m, k := Collect(t.machine, e, now), 0;
    d, k := TryExactly(m, rules, now);
    ZeroBit(b);
    if d < |rules| && !Expired(m, rules[d], now) { WithinBit(rules[d].required, m.collected, b); }
  }

  lemma PostedInTime(m: Machine, round: seq<Input>, b: nat)
    requires Clocked(m, round) && PostedIn(round, b)
    ensures PostedSince(round, b, m.first) && m.collected != 0
  {
    var i :| 0 <= i < |round| && round[i].Post? && Bit(round[i].e, b);
    ZeroBit(b);
    assert round[i].e != 0;
  }

  lemma PostedEarlier(round: seq<Input>, b: nat, since: int, since': int)
    requires PostedSince(round, b, since) && since' <= since
    ensures PostedSince(round, b, since') && PostedIn(round, b)
  {
  }

  lemma LastBefore(inputs: seq<Input>, next: Input)
    requires Timely(inputs + [next])
    ensures Timely(inputs) && (inputs == [] || LastTime(inputs) <= next.at)
  {
    var all := inputs + [next];
    assert forall i :: 0 <= i < |inputs| ==> all[i] == inputs[i];
    if inputs != [] { assert all[|inputs| - 1].at <= all[|inputs|].at; }
  }

  lemma RunKeepsTo(s0: State, rules: seq<Rule>, inputs: seq<Input>, next: Input)
    requires Timely(inputs + [next])
    ensures RunInv(s0, rules, After(s0, rules, inputs), next.at)
  {
    hide RunInv;
    LastBefore(inputs, next);
    RunKeeps(s0, rules, inputs);
    LaterInv(s0, rules, After(s0, rules, inputs), LastTime(inputs), next.at);
  }

  lemma FreshIfReposted(s0: State, rules: seq<Rule>, t: Tracked, e: nat, now: int, b: nat)
    requires RunInv(s0, rules, t, now)
    requires var fired := Posted(t.machine, rules, e, now).fired;
      && fired.Fired? && fired.rule.window > 0 && Bit(fired.rule.required, b)
      && (Bit(t.left, b) ==> PostedIn(t.round + [Post(e, now)], b))
    ensures var w := Posted(t.machine, rules, e, now).fired.rule.window;
      PostedSince(t.round + [Post(e, now)], b, now - w * NANOS_PER_MILLI)
  {
    hide Posted, Traced, NoFreeRule, Bit, Or, FirstToDecide, PostedIn, PostedSince;
    var m, round := Collect(t.machine, e, now), t.round + [Post(e, now)];
    var d := WindowedFires(s0, rules, t, e, now, b);
    CollectKeeps(t, e, now);
    CollectClocked(t, e, now);
    PostedInTime(m, round, b);
    PostedEarlier(round, b, m.first, now - rules[d].window * NANOS_PER_MILLI);
  }

  // In every run, a windowed rule fires on events of its own round, within its window, if and only if those it
  // requires among the events left by the last transition were posted again.
  lemma FiresFreshIffReposted(s0: State, rules: seq<Rule>, inputs: seq<Input>, e: nat, now: int)
    requires Timely(inputs + [Post(e, now)])
    ensures var t := After(s0, rules, inputs); FiresFresh(t, rules, e, now) <==> FiresReposted(t, rules, e, now)
  {
    hide Posted, RunInv, Bit, PostedSince, PostedIn;
    RunKeepsTo(s0, rules, inputs, Post(e, now));
    var t := After(s0, rules, inputs);
    var fired := Posted(t.machine, rules, e, now).fired;
    if fired.Fired? && fired.rule.window > 0 {
      forall b: nat | Bit(fired.rule.required, b)
        ensures PostedSince(t.round + [Post(e, now)], b, now - fired.rule.window * NANOS_PER_MILLI)
          <==> (Bit(t.left, b) ==> PostedIn(t.round + [Post(e, now)], b))
      {
        if Bit(t.left, b) ==> PostedIn(t.round + [Post(e, now)], b) {
          FreshIfReposted(s0, rules, t, e, now, b);
        } else if PostedSince(t.round + [Post(e, now)], b, now - fired.rule.window * NANOS_PER_MILLI) {
          PostedEarlier(t.round + [Post(e, now)], b, now - fired.rule.window * NANOS_PER_MILLI,
            now - fired.rule.window * NANOS_PER_MILLI);
        }
      }
    }
  }

  // ---------- when it does so in every run ----------

  // The rules' masks are 32-bit words.
  ghost predicate WordRules(rules: seq<Rule>) {
    forall i {:trigger rules[i]} :: 0 <= i < |rules| ==> rules[i].required < Pow2(32)
  }

  // Whatever is posted and however time passes, rules with a window fire on events of their own round only.
  ghost predicate AlwaysFresh(s0: State, rules: seq<Rule>) {
    forall inputs, e, now {:trigger FiresFresh(After(s0, rules, inputs), rules, e, now)} ::
      Timely(inputs + [Post(e, now)]) ==> FiresFresh(After(s0, rules, inputs), rules, e, now)
  }

  // A required event that the last transition left has leaked.
  lemma LeftoverLeaks(s0: State, rules: seq<Rule>, t: Tracked, e: nat, now: int, b: nat)
    requires RunInv(s0, rules, t, now) && Bit(t.left, b)
    requires var fired := Posted(t.machine, rules, e, now).fired;
      fired.Fired? && fired.rule.window > 0 && Bit(fired.rule.required, b)
    ensures Leaky(s0, rules)
  {
    hide Posted, Bit, FirstToDecide, Carries, Unshadowed, Reaches, Expired, Accounted, Clocked;
    var d := WindowedFires(s0, rules, t, e, now, b);
    FiredSteps(Collect(t.machine, e, now), rules, now, d);
    LeaksInto(s0, rules, t.machine.state, d, b);
  }

  lemma LeaksInto(s0: State, rules: seq<Rule>, s: State, k: nat, b: nat)
    requires CarriedInto(s0, rules, s, b)
    requires Unshadowed(rules, k) && rules[k].from == s && rules[k].window > 0 && Bit(rules[k].required, b)
    ensures Leaky(s0, rules)
  {
    hide Reaches, Within, Bit;
    var i: nat :| Carries(rules, i, b) && rules[i].to == s && Reaches(s0, rules, rules[i].from);
    assert Leaks(s0, rules, i, k, b);
  }

  lemma TightIsFresh(s0: State, rules: seq<Rule>, inputs: seq<Input>, e: nat, now: int)
    requires !Leaky(s0, rules) && Timely(inputs + [Post(e, now)])
    ensures FiresFresh(After(s0, rules, inputs), rules, e, now)
  {
    hide Posted, RunInv, Bit, PostedIn, FiresFresh, Leaky;
    var t := After(s0, rules, inputs);
    FiresFreshIffReposted(s0, rules, inputs, e, now);
    RunKeepsTo(s0, rules, inputs, Post(e, now));
    var fired := Posted(t.machine, rules, e, now).fired;
    if fired.Fired? && fired.rule.window > 0 {
      forall b: nat | Bit(fired.rule.required, b) ensures !Bit(t.left, b) { NoLeftover(s0, rules, t, e, now, b); }
    }
  }

  lemma NoLeftover(s0: State, rules: seq<Rule>, t: Tracked, e: nat, now: int, b: nat)
    requires RunInv(s0, rules, t, now) && !Leaky(s0, rules)
    requires var fired := Posted(t.machine, rules, e, now).fired;
      fired.Fired? && fired.rule.window > 0 && Bit(fired.rule.required, b)
    ensures !Bit(t.left, b)
  {
    hide Posted, RunInv, Bit, Leaky;
    if Bit(t.left, b) { LeftoverLeaks(s0, rules, t, e, now, b); }
  }

  // ---------- a leaky table has a run that shows it ----------

  // A run that ends in state s with nothing collected.
  ghost predicate Clean(s0: State, rules: seq<Rule>, inputs: seq<Input>, s: State) {
    Timely(inputs) && After(s0, rules, inputs) == Tracked(Machine(s, 0, After(s0, rules, inputs).machine.first), [], 0)
  }

  lemma TimelyMore(inputs: seq<Input>, e: nat, now: int)
    requires Timely(inputs) && LastTime(inputs) <= now && e < Pow2(32)
    ensures Timely(inputs + [Post(e, now)]) && LastTime(inputs + [Post(e, now)]) == now
  {
    hide Pow2;
    var all := inputs + [Post(e, now)];
    forall i, j | 0 <= i < j < |all| ensures all[i].at <= all[j].at {
      if j == |inputs| { assert inputs[i].at <= inputs[|inputs| - 1].at; }
    }
  }

  // A post from a clean state starts the clock anew.
  lemma FirstPost(s0: State, rules: seq<Rule>, inputs: seq<Input>, s: State, e: nat, now: int)
    requires Clean(s0, rules, inputs, s)
    ensures var t := After(s0, rules, inputs);
      t.round == [] && t.machine.state == s && Collect(t.machine, e, now) == Machine(s, e, now)
    ensures After(s0, rules, inputs + [Post(e, now)]) == Next(After(s0, rules, inputs), rules, Post(e, now))
    ensures forall r: Rule :: !Expired(Machine(s, e, now), r, now)
  {
    AfterMore(s0, rules, inputs, Post(e, now));
  }

  lemma WithinSelf(x: nat)
    ensures Within(x, x)
  {
    WithinByBits(x, x);
  }

  lemma ExactlyUsed(m: Machine, r: Rule, now: int)
    requires m.collected == r.required
    ensures Enter(m, r, now) == Machine(r.to, 0, now)
  {
    if !r.clear {
      hide Bit, Enter;
      EnterIs(m, r, now);
      forall b: nat ensures Bit(Enter(m, r, now).collected, b) == Bit(0, b) {
        EnterBit(m, r, now, b);
        ZeroBit(b);
      }
      SameBits(Enter(m, r, now).collected, 0);
    }
  }

  // Posting exactly what an unshadowed rule requires fires it and leaves nothing.
  lemma FireRun(s0: State, rules: seq<Rule>, inputs: seq<Input>, k: nat, s: State, s': State)
    returns (more: seq<Input>)
    requires WordRules(rules) && Clean(s0, rules, inputs, s) && FireStep(rules, k, s, s')
    ensures Clean(s0, rules, more, s')
  {
    hide Within, Try, Enter, Or, Pow2, Timely, Expired;
    var now, e := LastTime(inputs), rules[k].required;
    var m := Machine(s, e, now);
    TimelyMore(inputs, e, now);
    more := inputs + [Post(e, now)];
    FirstPost(s0, rules, inputs, s, e, now);
    WithinSelf(e);
    FiresAt(m, rules, now, k);
    ExactlyUsed(m, rules[k], now);
  }

  // Posting what a carrying rule requires together with bit b fires it and leaves b.
  lemma CarryRun(s0: State, rules: seq<Rule>, inputs: seq<Input>, i: nat, b: nat) returns (more: seq<Input>)
    requires WordRules(rules) && Carries(rules, i, b) && Clean(s0, rules, inputs, rules[i].from)
    ensures Timely(more)
    ensures After(s0, rules, more) == Tracked(Machine(rules[i].to, OneBit(b), LastTime(more)), [], OneBit(b))
  {
    hide Within, Try, Enter, Or, Pow2, Timely, Expired, OneBit, Bit;
    var now, e := LastTime(inputs), Or(rules[i].required, OneBit(b));
    var m := Machine(rules[i].from, e, now);
    CarryWord(rules[i].required, b);
    TimelyMore(inputs, e, now);
    more := inputs + [Post(e, now)];
    FirstPost(s0, rules, inputs, rules[i].from, e, now);
    FiresAt(m, rules, now, i);
    CarryLeaves(m, rules[i], now, b);
  }

  lemma CarryWord(x: nat, b: nat)
    requires x < Pow2(32) && b < 32
    ensures Or(x, OneBit(b)) < Pow2(32) && Within(x, Or(x, OneBit(b)))
  {
    hide Bit, Or, OneBit, Pow2, Within;
    var e := Or(x, OneBit(b));
    forall i: nat ensures Bit(e, i) <==> Bit(x, i) || i == b {
      BitOr(x, OneBit(b), i);
      OneBitBits(b, i);
    }
    forall i: nat | 32 <= i ensures !Bit(e, i) { FitsNoBit(x, 32, i); }
    FitsByBits(e, 32);
    WithinByBits(x, e);
  }

  lemma CarryLeaves(m: Machine, r: Rule, now: int, b: nat)
    requires !r.clear && b < 32 && !Bit(r.required, b) && m.collected == Or(r.required, OneBit(b))
    ensures Enter(m, r, now) == Machine(r.to, OneBit(b), now)
  {
    hide Bit, Enter, OneBit, Or;
    EnterIs(m, r, now);
    forall i: nat ensures Bit(Enter(m, r, now).collected, i) == Bit(OneBit(b), i) {
      EnterBit(m, r, now, i);
      BitOr(r.required, OneBit(b), i);
      OneBitBits(b, i);
    }
    SameBits(Enter(m, r, now).collected, OneBit(b));
  }

  lemma OneBitIsSome(b: nat)
    ensures OneBit(b) != 0
  {
    OneBitBits(b, b);
    ZeroBit(b);
  }

  // Just past the window of the rule that expires first, an empty post fires the one in its stead.
  lemma SkipRun(s0: State, rules: seq<Rule>, inputs: seq<Input>, i: nat, d: nat, k: nat, b: nat, s: State, s': State)
    returns (more: seq<Input>)
    requires WordRules(rules) && Clean(s0, rules, inputs, s) && SkipStep(rules, i, d, k, b, s, s')
    ensures Clean(s0, rules, more, s')
  {
    hide Within, Try, Enter, Or, Pow2, Timely, OneBit, Carries;
    var mid := CarryRun(s0, rules, inputs, i, b);
    var first := LastTime(mid);
    var now := first + rules[d].window * NANOS_PER_MILLI + 1;
    var m := Machine(rules[d].from, OneBit(b), first);
    OneBitIsSome(b);
    OrZeroRight(OneBit(b));
    TimelyMore(mid, 0, now) by { PowPositive(); }
    more := mid + [Post(0, now)];
    AfterMore(s0, rules, mid, Post(0, now));
    DropsAt(m, rules, now, d, k);
    EnterIs(Machine(m.state, 0, now), rules[k], now);
  }

  lemma PowPositive()
    ensures 0 < Pow2(32)
  {
  }

  lemma OrZeroRight(x: nat)
    ensures Or(x, 0) == x
  {
  }

  lemma StepRun(s0: State, rules: seq<Rule>, inputs: seq<Input>, s: State, s': State) returns (more: seq<Input>)
    requires WordRules(rules) && Clean(s0, rules, inputs, s) && Step(rules, s, s')
    ensures Clean(s0, rules, more, s')
  {
    hide Clean, FireStep, SkipStep, WordRules;
    if k: nat :| FireStep(rules, k, s, s') {
      more := FireRun(s0, rules, inputs, k, s, s');
    } else {
      var i: nat, d: nat, k: nat, b: nat :| SkipStep(rules, i, d, k, b, s, s');
      more := SkipRun(s0, rules, inputs, i, d, k, b, s, s');
    }
  }

  lemma CleanRun(s0: State, rules: seq<Rule>, s: State) returns (inputs: seq<Input>)
    requires WordRules(rules) && Reaches(s0, rules, s)
    ensures Clean(s0, rules, inputs, s)
  {
    hide Step, WordRules;
    inputs := [];
    if s != s0 {
      if Step(rules, s0, s) {
        inputs := StepRun(s0, rules, inputs, s0, s);
      } else {
        var via: State :| Step(rules, s0, via) && Step(rules, via, s);
        inputs := StepRun(s0, rules, inputs, s0, via);
        inputs := StepRun(s0, rules, inputs, via, s);
      }
    }
  }

  // The events a leaking rule still needs.
  lemma RestWord(x: nat, b: nat)
    requires x < Pow2(32) && Bit(x, b)
    ensures b < 32 && OneBit(b) < Pow2(32)
    ensures var e := And(x, Not(OneBit(b), 32)); e < Pow2(32) && Or(OneBit(b), e) == x && !Bit(e, b)
  {
    hide Bit, And, Or, Not, OneBit, Pow2;
    if 32 <= b { FitsNoBit(x, 32, b); }
    forall i: nat | 32 <= i ensures !Bit(OneBit(b), i) { OneBitBits(b, i); }
    FitsByBits(OneBit(b), 32);
    var e := And(x, Not(OneBit(b), 32));
    forall i: nat ensures Bit(e, i) == (Bit(x, i) && i < 32 && i != b) && Bit(Or(OneBit(b), e), i) == Bit(x, i) {
      BitAnd(x, Not(OneBit(b), 32), i);
      BitNot(OneBit(b), 32, i);
      OneBitBits(b, i);
      BitOr(OneBit(b), e, i);
      if 32 <= i { FitsNoBit(x, 32, i); }
    }
    FitsByBits(e, 32);
    SameBits(Or(OneBit(b), e), x);
  }

  // Carry b into the state, then post the rest of what the rule requires: it fires although b was not posted again.
  lemma LeakRun(s0: State, rules: seq<Rule>, i: nat, k: nat, b: nat) returns (inputs: seq<Input>, e: nat, now: int)
    requires WordRules(rules) && Leaks(s0, rules, i, k, b)
    ensures Timely(inputs + [Post(e, now)]) && !FiresFresh(After(s0, rules, inputs), rules, e, now)
  {
    assert i < |rules| && k < |rules|;
    hide Within, Try, Enter, Or, And, Not, Pow2, Timely, OneBit, Bit, Carries, Reaches;
    inputs := CleanRun(s0, rules, rules[i].from);
    inputs := CarryRun(s0, rules, inputs, i, b);
    now := LastTime(inputs);
    RestWord(rules[k].required, b);
    e := And(rules[k].required, Not(OneBit(b), 32));
    TimelyMore(inputs, e, now);
    OneBitIsSome(b);
    var m := Machine(rules[k].from, rules[k].required, now);
    WithinSelf(rules[k].required);
    FiresAt(m, rules, now, k);
    var since := now - rules[k].window * NANOS_PER_MILLI;
    assert !PostedSince([] + [Post(e, now)], b, since);
    assert Posted(After(s0, rules, inputs).machine, rules, e, now).fired == Fired(rules[k]);
  }

  // Rules with a window fire on events of their own round in every run if and only if the table does not leak:
  // no reachable rule that does not clear keeps, past the earlier rules of its state, an event that an
  // unshadowed rule with a window requires in the state it enters.
  lemma AlwaysFreshIff(s0: State, rules: seq<Rule>)
    requires WordRules(rules)
    ensures AlwaysFresh(s0, rules) <==> !Leaky(s0, rules)
  {
    hide Leaks, FiresFresh, WordRules;
    if !Leaky(s0, rules) {
      forall inputs, e, now | Timely(inputs + [Post(e, now)])
        ensures FiresFresh(After(s0, rules, inputs), rules, e, now)
      {
        TightIsFresh(s0, rules, inputs, e, now);
      }
    } else {
      var i: nat, k: nat, b: nat :| Leaks(s0, rules, i, k, b);
      var inputs, e, now := LeakRun(s0, rules, i, k, b);
    }
  }

  // In particular it does not when every rule into a state with a windowed rule clears.
  lemma ClearingIsFresh(s0: State, rules: seq<Rule>)
    requires WordRules(rules)
    requires forall i, k {:trigger rules[i], rules[k]} :: 0 <= i < |rules| && 0 <= k < |rules| ==>
      rules[k].window > 0 && rules[k].from == rules[i].to ==> rules[i].clear
    ensures AlwaysFresh(s0, rules)
  {
    AlwaysFreshIff(s0, rules);
    assert forall i: nat, k: nat, b: nat :: !Leaks(s0, rules, i, k, b);
  }

  // ---------- late events, and tables that leak ----------

  // An event that comes after a window has run out is lost with the older ones, if no rule is met first and
  // every rule of the state requires an event.
  lemma LatePostIsLost(m: Machine, rules: seq<Rule>, e: nat, now: int, d: nat)
    requires NoFreeRule(rules, m.state) && FirstToDecide(Collect(m, e, now), rules, now, 0, d)
    requires d < |rules| && Expired(Collect(m, e, now), rules[d], now)
    ensures Posted(m, rules, e, now) == Attempt(Machine(m.state, 0, now), NoRule, true)
  {
    hide Expired, Met, Try, Enter;
    var m' := Collect(m, e, now);
    var d', k := TryExactly(m', rules, now);
    assert d' == d;
    if k < |rules| { FreeRule(rules, m.state, k); }
  }

  // A at 0 ms, B at 600 ms and A at 700 ms do not fire a rule that requires both within 500 ms, although
  // the last two came within the window: B was lost.
  lemma LateEventNeverFires()
    ensures var rules := [Rule(Idle, Active, 3, 500, true)];
      var inputs := [Post(1, 0), Post(2, 600_000_000), Post(1, 700_000_000)];
      After(Idle, rules, inputs) == Tracked(Machine(Idle, 1, 700_000_000), [inputs[2]], 0)
  {
    var rules := [Rule(Idle, Active, 3, 500, true)];
    var t0 := Tracked(Machine(Idle, 0, 0), [], 0);
    var a, b, c := Post(1, 0), Post(2, 600_000_000), Post(1, 700_000_000);
    LateWords();
    var t1 := Tracked(Machine(Idle, 1, 0), [a], 0);
    var t2 := Tracked(Machine(Idle, 0, 600_000_000), [], 0);
    assert Next(t0, rules, a) == t1;
    assert Next(t1, rules, b) == t2;
    assert After(Idle, rules, []) == t0;
    AfterMore(Idle, rules, [], a);
    AfterMore(Idle, rules, [a], b);
    AfterMore(Idle, rules, [a, b], c);
    assert [] + [a] == [a] && [a] + [b] == [a, b] && [a, b] + [c] == [a, b, c];
  }

  lemma LateWords()
    ensures Or(0, 1) == 1 && Or(1, 2) == 3 && !Within(3, 1) && !Within(3, 0) && Within(3, 3)
  {
    assert Or(0, 1) == 1;
    assert And(0, 1) == 0 && And(1, 3) == 1;
    WithinSelf(3);
  }

  const OWN_RULES := [Rule(Idle, Arming, 3, 500, true), Rule(Arming, Active, 6, 0, true)]

  // The run of the source's own main: A, a tick and B after 120 ms lead to Arming, B and C at once to Active.
  lemma OwnRun()
    ensures var early := [Post(1, 0), Tick(120_000_000), Post(2, 120_000_000)];
      && After(Idle, OWN_RULES, early) == Tracked(Machine(Arming, 0, 120_000_000), [], 0)
      && After(Idle, OWN_RULES, early + [Post(2, 120_000_000)] + [Post(4, 120_000_000)])
        == Tracked(Machine(Active, 0, 120_000_000), [], 0)
  {
    var at := 120_000_000;
    var a, tick, b, c := Post(1, 0), Tick(at), Post(2, at), Post(4, at);
    LateWords();
    SmallWords();
    OwnSteps(at);
    assert After(Idle, OWN_RULES, []) == Tracked(Machine(Idle, 0, 0), [], 0);
    AfterMore(Idle, OWN_RULES, [], a);
    AfterMore(Idle, OWN_RULES, [a], tick);
    AfterMore(Idle, OWN_RULES, [a, tick], b);
    AfterMore(Idle, OWN_RULES, [a, tick, b], b);
    AfterMore(Idle, OWN_RULES, [a, tick, b] + [b], c);
    assert [] + [a] == [a] && [a] + [tick] == [a, tick] && [a, tick] + [b] == [a, tick, b];
  }

  lemma OwnSteps(at: int)
    requires at == 120_000_000
    ensures Next(Tracked(Machine(Idle, 0, 0), [], 0), OWN_RULES, Post(1, 0))
      == Tracked(Machine(Idle, 1, 0), [Post(1, 0)], 0)
    ensures Next(Tracked(Machine(Idle, 1, 0), [Post(1, 0)], 0), OWN_RULES, Tick(at))
      == Tracked(Machine(Idle, 1, 0), [Post(1, 0)], 0)
    ensures Next(Tracked(Machine(Idle, 1, 0), [Post(1, 0)], 0), OWN_RULES, Post(2, at))
      == Tracked(Machine(Arming, 0, at), [], 0)
    ensures Next(Tracked(Machine(Arming, 0, at), [], 0), OWN_RULES, Post(2, at))
      == Tracked(Machine(Arming, 2, at), [Post(2, at)], 0)
    ensures Next(Tracked(Machine(Arming, 2, at), [Post(2, at)], 0), OWN_RULES, Post(4, at))
      == Tracked(Machine(Active, 0, at), [], 0)
  {
    LateWords();
    SmallWords();
    assert And(2, 6) == 2;
    hide Or, And, Not, Pow2;
  }

  const STALE_RULES := [Rule(Idle, Arming, 1, 0, false), Rule(Arming, Active, 6, 500, true)]

  lemma StaleSteps(late: int)
    ensures Next(Tracked(Machine(Idle, 0, 0), [], 0), STALE_RULES, Post(2, 0))
      == Tracked(Machine(Idle, 2, 0), [Post(2, 0)], 0)
    ensures Next(Tracked(Machine(Idle, 2, 0), [Post(2, 0)], 0), STALE_RULES, Post(1, late))
      == Tracked(Machine(Arming, 2, late), [], 2)
  {
    SmallWords();
    hide Or, And, Within, Not, Pow2;
  }

  // A leaking table: B is posted long before A leads to Arming, and still completes the next rule, although
  // its window is half a second.
  lemma StaleEventFires()
    ensures var inputs := [Post(2, 0), Post(1, 10_000_000_000)];
      var t := After(Idle, STALE_RULES, inputs);
      && t == Tracked(Machine(Arming, 2, 10_000_000_000), [], 2)
      && Posted(t.machine, STALE_RULES, 4, 10_000_000_000).fired == Fired(STALE_RULES[1])
      && !FiresFresh(t, STALE_RULES, 4, 10_000_000_000)
  {
    var late := 10_000_000_000;
    var inputs := [Post(2, 0), Post(1, late)];
    assert After(Idle, STALE_RULES, []) == Tracked(Machine(Idle, 0, 0), [], 0);
    StaleSteps(late);
    AfterMore(Idle, STALE_RULES, [], Post(2, 0));
    AfterMore(Idle, STALE_RULES, [Post(2, 0)], Post(1, late));
    assert [] + [Post(2, 0)] == [Post(2, 0)] && [Post(2, 0)] + [Post(1, late)] == inputs;
    StaleFires(late);
  }

  lemma StaleFires(late: int)
    ensures var t := Tracked(Machine(Arming, 2, late), [], 2);
      Posted(t.machine, STALE_RULES, 4, late).fired == Fired(STALE_RULES[1]) && !FiresFresh(t, STALE_RULES, 4, late)
  {
    var t := Tracked(Machine(Arming, 2, late), [], 2);
    SmallWords();
    assert Posted(t.machine, STALE_RULES, 4, late).fired == Fired(STALE_RULES[1]) by { hide Or, Within; }
    StaleBit(late);
    hide Posted;
    assert Bit(STALE_RULES[1].required, 1);
  }

  lemma StaleBit(late: int)
    ensures Bit(6, 1) && !PostedSince([] + [Post(4, late)], 1, late - 500 * NANOS_PER_MILLI)
  {
    assert Bit(3, 0) && !Bit(2, 0);
    assert Bit(6, 1) && !Bit(4, 1);
  }

  lemma SmallWords()
    ensures Or(0, 2) == 2 && Or(2, 1) == 3 && Or(2, 4) == 6
    ensures !Within(1, 2) && Within(1, 3) && Within(6, 6)
    ensures And(3, Not(1 % Pow2(32), 32)) == 2
  {
    assert Or(1, 2) == 3 && Or(1, 0) == 1;
    assert And(2, 1) == 0 && And(3, 1) == 1;
    WithinSelf(6);
    Pow2Mono(1, 32);
    DivisionIsUnique(Pow2(32), 0, 1);
    hide Pow2;
    NotStep(1, 32);
    NotStep(0, 31);
    SecondBit(Not(1, 32));
  }

  lemma SecondBit(n: nat)
    requires n % 2 == 0 && n / 2 % 2 == 1
    ensures And(3, n) == 2
  {
    assert And(1, n / 2) == 1;
  }

  lemma LeftoverUnused(rules: seq<Rule>, i: nat, k: nat, b: nat)
    requires rules == [Rule(Idle, Arming, 1, 0, false), Rule(Arming, Active, 1, 500, true)]
    ensures !Leaks(Idle, rules, i, k, b)
  {
    hide Reaches, Bit, Within, Or, OneBit;
  }

  // A table that does not leak although a rule leaves events behind: what it leaves is never required again.
  lemma HarmlessLeftover()
    ensures AlwaysFresh(Idle, [Rule(Idle, Arming, 1, 0, false), Rule(Arming, Active, 1, 500, true)])
  {
    var rules := [Rule(Idle, Arming, 1, 0, false), Rule(Arming, Active, 1, 500, true)];
    Pow2Mono(1, 32);
    assert WordRules(rules);
    forall i: nat, k: nat, b: nat ensures !Leaks(Idle, rules, i, k, b) { LeftoverUnused(rules, i, k, b); }
    hide Leaks, AlwaysFresh, WordRules;
    AlwaysFreshIff(Idle, rules);
  }
}
