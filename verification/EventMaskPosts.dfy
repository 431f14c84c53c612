/** What an event or a tick does to the machine of craft/states/multi_event/test.cpp, bit by bit and in plain
    nanoseconds: between them the laws of the first half cover every post. */
module EventMaskPosts {
  import opened Bits
  import opened EventMask
  import opened Power

  // Some event of the mask is neither collected nor in e.
  ghost predicate Lacks(required: nat, collected: nat, e: nat) {
    exists b: nat {:trigger Bit(required, b)} :: Bit(required, b) && !Bit(collected, b) && !Bit(e, b)
  }

  // Events have been collected for longer than the rule's window.
  predicate Late(m: Machine, r: Rule, now: int) {
    r.window > 0 && m.collected != 0 && now - m.first > r.window * 1_000_000
  }

  // No rule of the state before the d-th is met by the collected events and e, or is late.
  ghost predicate NoneBefore(m: Machine, rules: seq<Rule>, e: nat, now: int, d: nat) {
    forall j {:trigger rules[j]} :: 0 <= j < d && j < |rules| && rules[j].from == m.state ==>
      Lacks(rules[j].required, m.collected, e) && !Late(m, rules[j], now)
  }

  lemma CollectBit(m: Machine, e: nat, now: int, b: nat)
    ensures Bit(Collect(m, e, now).collected, b) == (Bit(m.collected, b) || Bit(e, b))
  {
    BitOr(m.collected, e, b);
  }

  lemma MetUnlessLacking(m: Machine, r: Rule, e: nat, now: int)
    ensures Met(Collect(m, e, now), r) <==> !Lacks(r.required, m.collected, e)
  {
    hide Bit, Within, Or, Collect;
    var m' := Collect(m, e, now);
    if Met(m', r) {
      forall b: nat | Bit(r.required, b) ensures Bit(m.collected, b) || Bit(e, b) {
        WithinBit(r.required, m'.collected, b);
        CollectBit(m, e, now, b);
      }
    } else if !Lacks(r.required, m.collected, e) {
      forall b: nat | Bit(r.required, b) ensures Bit(m'.collected, b) { CollectBit(m, e, now, b); }
      WithinByBits(r.required, m'.collected);
    }
  }

  // The clock starts with the first event, so a round that begins now has not expired.
  lemma ExpiredIfLate(m: Machine, r: Rule, e: nat, now: int)
    ensures Expired(Collect(m, e, now), r, now) <==> Late(m, r, now)
  {
    hide Or;
    OrZero(m.collected, e);
    if m.collected == 0 && r.window > 0 { assert 0 <= r.window * 1_000_000; }
  }

  lemma NoneDecides(m: Machine, rules: seq<Rule>, e: nat, now: int, d: nat)
    requires NoneBefore(m, rules, e, now, d)
    ensures forall j {:trigger rules[j]} :: 0 <= j < d && j < |rules| && rules[j].from == m.state ==>
      !Expired(Collect(m, e, now), rules[j], now) && !Met(Collect(m, e, now), rules[j])
  {
    hide Expired, Met, Lacks, Late;
    forall j {:trigger rules[j]} | 0 <= j < d && j < |rules| && rules[j].from == m.state
      ensures !Expired(Collect(m, e, now), rules[j], now) && !Met(Collect(m, e, now), rules[j])
    {
      MetUnlessLacking(m, rules[j], e, now);
      ExpiredIfLate(m, rules[j], e, now);
    }
  }

  // The first rule of the state whose events are all there fires, if neither it nor one before it is late.  It
  // forgets all events or those it used, and the clock starts again.
  lemma MetInTimeFires(m: Machine, rules: seq<Rule>, e: nat, now: int, k: nat)
    requires k < |rules| && rules[k].from == m.state && NoneBefore(m, rules, e, now, k)
    requires forall b: nat {:trigger Bit(rules[k].required, b)} ::
      Bit(rules[k].required, b) ==> Bit(m.collected, b) || Bit(e, b)
    requires rules[k].window > 0 && m.collected != 0 ==> now - m.first <= rules[k].window * 1_000_000
    ensures var a := Posted(m, rules, e, now);
      && a.fired == Fired(rules[k]) && !a.discarded
      && a.machine.state == rules[k].to && a.machine.first == now
    ensures var a := Posted(m, rules, e, now);
      if rules[k].clear then a.machine.collected == 0
      else forall b: nat {:trigger Bit(a.machine.collected, b)} ::
        Bit(a.machine.collected, b) <==> b < 32 && !Bit(rules[k].required, b) && (Bit(m.collected, b) || Bit(e, b))
  {
    hide Bit, Expired, Met, Collect, And, Not;
    var m' := Collect(m, e, now);
    NoneDecides(m, rules, e, now, k);
    MetUnlessLacking(m, rules[k], e, now);
    ExpiredIfLate(m, rules[k], e, now);
    assert m'.state == m.state by { CollectState(m, e, now); }
    FiresAt(m', rules, now, k);
    var a := Posted(m, rules, e, now);
    if !rules[k].clear {
      forall b: nat ensures Bit(a.machine.collected, b)
        <==> b < 32 && !Bit(rules[k].required, b) && (Bit(m.collected, b) || Bit(e, b))
      {
        CollectBit(m, e, now, b);
        EnterBit(m', rules[k], now, b);
      }
    }
  }

  lemma CollectState(m: Machine, e: nat, now: int)
    ensures Collect(m, e, now).state == m.state
  {
  }

  // If the first such rule is late instead, all events are dropped, e included.  Only a rule behind it that
  // requires no event can still fire, and the first of them does.
  lemma LateDrops(m: Machine, rules: seq<Rule>, e: nat, now: int, d: nat) returns (k: nat)
    requires d < |rules| && rules[d].from == m.state && NoneBefore(m, rules, e, now, d)
    requires rules[d].window > 0 && m.collected != 0 && now - m.first > rules[d].window * 1_000_000
    ensures d < k <= |rules| && (k < |rules| ==> rules[k].from == m.state && rules[k].required == 0)
    ensures forall j {:trigger rules[j]} :: d < j < k && rules[j].from == m.state ==> rules[j].required != 0
    ensures Posted(m, rules, e, now) ==
      if k < |rules| then Attempt(Machine(rules[k].to, 0, now), Fired(rules[k]), true)
      else Attempt(Machine(m.state, 0, now), NoRule, true)
  {
    hide Bit, Expired, Met, Collect, Try, Enter;
    var m' := Collect(m, e, now);
    NoneDecides(m, rules, e, now, d);
    ExpiredIfLate(m, rules[d], e, now);
    CollectState(m, e, now);
    var d', l := TryExactly(m', rules, now);
    k := l;
    assert Decides(m', rules[d], now);
    assert d' == d;
    if k < |rules| { EnterEmpty(m'.(collected := 0, first := now), rules[k], now); }
  }

  lemma EnterEmpty(m: Machine, r: Rule, now: int)
    requires m.collected == 0
    ensures Enter(m, r, now) == Machine(r.to, 0, now)
  {
  }

  // Without such a rule the event is collected, and nothing else happens.
  lemma UnmetWaits(m: Machine, rules: seq<Rule>, e: nat, now: int)
    requires NoneBefore(m, rules, e, now, |rules|)
    ensures var a := Posted(m, rules, e, now);
      && a.fired == NoRule && !a.discarded && a.machine.state == m.state
      && a.machine.first == if m.collected == 0 then now else m.first
    ensures var a := Posted(m, rules, e, now);
      forall b: nat {:trigger Bit(a.machine.collected, b)} ::
        Bit(a.machine.collected, b) <==> Bit(m.collected, b) || Bit(e, b)
  {
    var m' := Collect(m, e, now);
    assert m'.first == if m.collected == 0 then now else m.first;
    hide Bit, Expired, Met, Collect, Try;
    NoneDecides(m, rules, e, now, |rules|);
    CollectState(m, e, now);
    var d, k := TryExactly(m', rules, now);
    forall b: nat ensures Bit(m'.collected, b) <==> Bit(m.collected, b) || Bit(e, b) { CollectBit(m, e, now, b); }
  }

  // ---------- ticks ----------

  // The rule's window is over by a whole millisecond.
  predicate Over(m: Machine, r: Rule, now: int) {
    r.window > 0 && now - m.first >= (r.window + 1) * 1_000_000
  }

  // A tick drops the events if and only if some rule of the state is over; the clock and the state stay.
  lemma TickExactly(m: Machine, rules: seq<Rule>, now: int)
    ensures (exists i :: 0 <= i < |rules| && rules[i].from == m.state && Over(m, rules[i], now)) ==>
      Ticked(m, rules, now) == Machine(m.state, 0, m.first)
    ensures (forall i :: 0 <= i < |rules| && rules[i].from == m.state ==> !Over(m, rules[i], now)) ==>
      Ticked(m, rules, now) == m
  {
  }
}
