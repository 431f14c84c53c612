/** The timed event-mask machine of craft/states/multi_event/test.cpp.  The clock is a parameter, in
    nanoseconds; windows are in milliseconds; masks are 32-bit words. */
module EventMask {
  import opened Bits
  import opened Power

  datatype State = Idle | Arming | Active

  // window <= 0: no time limit.  clear: entering the target state forgets all collected events.
  datatype Rule = Rule(from: State, to: State, required: nat, window: int, clear: bool)

  const NANOS_PER_MILLI := 1_000_000

  // ---------- what the methods compute ----------

  datatype Machine = Machine(state: State, collected: nat, first: int)

  // fired: the rule that fired, or none.  discarded: an expired round was dropped on the way.
  datatype Fired = NoRule | Fired(rule: Rule)

  datatype Attempt = Attempt(machine: Machine, fired: Fired, discarded: bool)

  predicate Expired(m: Machine, r: Rule, now: int) {
    r.window > 0 && m.collected != 0 && now - m.first > r.window * NANOS_PER_MILLI
  }

  predicate Met(m: Machine, r: Rule) { Within(r.required, m.collected) }

  function Enter(m: Machine, r: Rule, now: int): Machine {
    Machine(r.to, if r.clear then 0 else And(m.collected, Not(r.required % Pow2(32), 32)), now)
  }

  // The rules from the i-th on are tried in order.
  function Try(m: Machine, rules: seq<Rule>, now: int, i: nat, discarded: bool): Attempt
    requires i <= |rules|
    decreases |rules| - i
  {
    if i == |rules| then Attempt(m, NoRule, discarded)
    else
      var r := rules[i];
      if r.from != m.state then Try(m, rules, now, i + 1, discarded)
      else if Expired(m, r, now) then Try(m.(collected := 0, first := now), rules, now, i + 1, true)
      else if Met(m, r) then Attempt(Enter(m, r, now), Fired(r), discarded)
      else Try(m, rules, now, i + 1, discarded)
  }

  function Collect(m: Machine, e: nat, now: int): Machine {
    m.(collected := Or(m.collected, e), first := if m.collected == 0 then now else m.first)
  }

  function Posted(m: Machine, rules: seq<Rule>, e: nat, now: int): Attempt {
    Try(Collect(m, e, now), rules, now, 0, false)
  }

  // duration_cast truncates the elapsed time to whole milliseconds.
  predicate TimedOut(m: Machine, r: Rule, now: int) {
    r.from == m.state && r.window > 0 && Millis(now - m.first) > r.window
  }

  function Millis(nanos: int): int {
    if nanos >= 0 then nanos / NANOS_PER_MILLI else -(-nanos / NANOS_PER_MILLI)
  }

  ghost predicate SomeTimedOut(m: Machine, rules: seq<Rule>, now: int) {
    exists i :: 0 <= i < |rules| && TimedOut(m, rules[i], now)
  }

  ghost function Ticked(m: Machine, rules: seq<Rule>, now: int): Machine {
    if m.collected != 0 && SomeTimedOut(m, rules, now) then m.(collected := 0) else m
  }

  class MaskAndStateMachine {
    var state: State
    var collected: nat
    var first: int
    var rules: seq<Rule>

    function View(): Machine
      reads this
    {
      Machine(state, collected, first)
    }

    constructor (s0: State)
      ensures View() == Machine(s0, 0, 0) && rules == []
    {
      state, collected, first, rules := s0, 0, 0, [];
    }

    method AddRule(r: Rule)
      modifies this`rules
      ensures rules == old(rules) + [r]
    {
      rules := rules + [r];
    }

    method Post(e: nat, now: int) returns (ghost result: Attempt)
      modifies this`state, this`collected, this`first
      ensures result == Posted(old(View()), rules, e, now) && View() == result.machine
    {
      if collected == 0 { first := now; }
      collected := Or(collected, e);
      result := TryTransition(now);
    }

    method Tick(now: int)
      modifies this`collected
      ensures View() == Ticked(old(View()), rules, now)
    {
      if collected == 0 { return; }
      var i := 0;
      while i < |rules|
        invariant 0 <= i <= |rules| && View() == old(View())
        invariant forall j :: 0 <= j < i ==> !TimedOut(View(), rules[j], now)
      {
        var r := rules[i];
        if r.from == state && r.window > 0 && Millis(now - first) > r.window {
          assert TimedOut(View(), rules[i], now);
          collected := 0;
          break;
        }
        i := i + 1;
      }
    }

    method TryTransition(now: int) returns (ghost result: Attempt)
      modifies this`state, this`collected, this`first
      ensures result == Try(old(View()), rules, now, 0, false) && View() == result.machine
    {
      ghost var discarded := false;
      var i := 0;
      while i < |rules|
        invariant 0 <= i <= |rules|
        invariant Try(old(View()), rules, now, 0, false) == Try(View(), rules, now, i, discarded)
      {
        var r := rules[i];
        if r.from == state {
          if r.window > 0 && collected != 0 && now - first > r.window * NANOS_PER_MILLI {
            collected := 0;
            first := now;
            discarded := true;
          } else if And(collected, r.required) == r.required {
            result := Try(View(), rules, now, i, discarded);
            state := r.to;
            collected := if r.clear then 0 else And(collected, Not(r.required % Pow2(32), 32));
            first := now;
            return;
          }
        }
        i := i + 1;
      }
      result := Try(View(), rules, now, |rules|, discarded);
    }
  }

  // ---------- exactly what an attempt does ----------

  predicate Decides(m: Machine, r: Rule, now: int) {
    r.from == m.state && (Expired(m, r, now) || Met(m, r))
  }

  // The k-th rule is the first from the i-th on that is met or expired, or there is none.
  ghost predicate FirstToDecide(m: Machine, rules: seq<Rule>, now: int, i: nat, k: nat) {
    && i <= k <= |rules|
    && (k < |rules| ==> Decides(m, rules[k], now))
    && (forall j {:trigger rules[j]} :: i <= j < k ==> !Decides(m, rules[j], now))
  }

  lemma {:induction false} FirstDecider(m: Machine, rules: seq<Rule>, now: int, i: nat, discarded: bool)
    returns (k: nat)
    requires i <= |rules|
    ensures FirstToDecide(m, rules, now, i, k)
    ensures Try(m, rules, now, i, discarded) == Try(m, rules, now, k, discarded)
    decreases |rules| - i
  {
    if i == |rules| || Decides(m, rules[i], now) {
      k := i;
    } else {
      k := FirstDecider(m, rules, now, i + 1, discarded);
    }
  }

  // All events were dropped at the d-th rule; the first rule behind it that requires no event fires.
  ghost predicate Dropped(m: Machine, rules: seq<Rule>, now: int, d: nat, k: nat, a: Attempt) {
    var m0 := m.(collected := 0, first := now);
    && d < k <= |rules|
    && (forall j {:trigger rules[j]} :: d < j < k && rules[j].from == m.state ==> rules[j].required != 0)
    && (k == |rules| ==> a == Attempt(m0, NoRule, true))
    && (k < |rules| ==> rules[k].from == m.state && rules[k].required == 0)
    && (k < |rules| ==> a == Attempt(Enter(m0, rules[k], now), Fired(rules[k]), true))
  }

  ghost predicate Decided(m: Machine, rules: seq<Rule>, now: int, d: nat, k: nat, a: Attempt) {
    && FirstToDecide(m, rules, now, 0, d)
    && (d == |rules| ==> a == Attempt(m, NoRule, false))
    && (d < |rules| && !Expired(m, rules[d], now) ==> a == Attempt(Enter(m, rules[d], now), Fired(rules[d]), false))
    && (d < |rules| && Expired(m, rules[d], now) ==> Dropped(m, rules, now, d, k, a))
  }

  // The first rule that is met or expired decides.  If it is met in time it fires.  If it has expired, all
  // events are dropped, the one just posted included, and only a rule behind it that requires no event can
  // still fire; the first such rule does.  Without a deciding rule nothing changes.
  lemma TryExactly(m: Machine, rules: seq<Rule>, now: int) returns (d: nat, k: nat)
    ensures Decided(m, rules, now, d, k, Try(m, rules, now, 0, false))
  {
    hide Expired, Met, Enter;
    d := FirstDecider(m, rules, now, 0, false);
    k := 0;
    if d < |rules| && Expired(m, rules[d], now) {
      var m0 := m.(collected := 0, first := now);
      k := FirstDecider(m0, rules, now, d + 1, true);
      forall j | d < j <= k && j < |rules|
        ensures Decides(m0, rules[j], now) <==> rules[j].from == m.state && rules[j].required == 0
      {
        DecidesOnNothing(m0, rules[j], now);
      }
      if k < |rules| { DecidesOnNothing(m0, rules[k], now); }
    }
  }

  lemma DecidesOnNothing(m: Machine, r: Rule, now: int)
    requires m.collected == 0
    ensures !Expired(m, r, now) && (Decides(m, r, now) <==> r.from == m.state && r.required == 0)
  {
  }

  // The first rule that is met, none before it having expired, fires.
  lemma FiresAt(m: Machine, rules: seq<Rule>, now: int, k: nat)
    requires k < |rules| && rules[k].from == m.state && Met(m, rules[k]) && !Expired(m, rules[k], now)
    requires forall j {:trigger rules[j]} :: 0 <= j < k && rules[j].from == m.state ==>
      !Expired(m, rules[j], now) && !Met(m, rules[j])
    ensures Try(m, rules, now, 0, false) == Attempt(Enter(m, rules[k], now), Fired(rules[k]), false)
  {
    hide Met, Expired, Try, Enter;
    var d, l := TryExactly(m, rules, now);
    assert Decides(m, rules[k], now);
  }

  // Behind the first rule that has expired, the first that requires no event fires.
  lemma DropsAt(m: Machine, rules: seq<Rule>, now: int, d: nat, k: nat)
    requires d < k < |rules| && rules[d].from == rules[k].from == m.state && Expired(m, rules[d], now)
    requires rules[k].required == 0
    requires forall j {:trigger rules[j]} :: 0 <= j < d && rules[j].from == m.state ==>
      !Expired(m, rules[j], now) && !Met(m, rules[j])
    requires forall j {:trigger rules[j]} :: d < j < k && rules[j].from == m.state ==> rules[j].required != 0
    ensures var m0 := m.(collected := 0, first := now);
      Try(m, rules, now, 0, false) == Attempt(Enter(m0, rules[k], now), Fired(rules[k]), true)
  {
    hide Met, Expired, Try, Enter;
    var d', l := TryExactly(m, rules, now);
    assert Decides(m, rules[d], now);
    assert d' == d;
  }

  lemma EnterBit(m: Machine, r: Rule, now: int, b: nat)
    requires !r.clear
    ensures Bit(Enter(m, r, now).collected, b) == (Bit(m.collected, b) && b < 32 && !Bit(r.required, b))
  {
    hide Bit, And, Not;
    LowBits(r.required, 32, b);
    BitAnd(m.collected, Not(r.required % Pow2(32), 32), b);
    BitNot(r.required % Pow2(32), 32, b);
  }

  // A tick drops a round only if an attempt at the same time would find it expired too.
  lemma TickDropsOnlyExpired(m: Machine, rules: seq<Rule>, now: int)
    requires Ticked(m, rules, now) != m
    ensures exists i :: 0 <= i < |rules| && rules[i].from == m.state && Expired(m, rules[i], now)
  {
    var i :| 0 <= i < |rules| && TimedOut(m, rules[i], now);
    assert Expired(m, rules[i], now);
  }
}
