/**
 * The busy flag of the two _wrapcheck functions of riffa_driver.c: one caller at a time inside chnl_recv or
 * chnl_send.
 */
module BusyFlag {
  /** Where a thread is: before test_and_set_bit, inside the transfer, back with a result, or sent away with -EBUSY. */
  datatype Caller = Outside | Inside | Returned | Rejected

  datatype State = State(busy: bool, callers: seq<Caller>)

  /** `Reset` is reset(), which clears the flag of every channel. */
  datatype Action = Arrive | TestAndSet(caller: nat) | ClearBit(caller: nat) | Reset

  function Step(s: State, a: Action): State {
    match a
    case Arrive => s.(callers := s.callers + [Outside])
    case TestAndSet(c) =>
      if c < |s.callers| && s.callers[c].Outside? then
        State(true, s.callers[c := if s.busy then Rejected else Inside])
      else s
    case ClearBit(c) =>
      if c < |s.callers| && s.callers[c].Inside? then State(false, s.callers[c := Returned]) else s
    case Reset => s.(busy := false)
  }

  function Run(s: State, actions: seq<Action>): State
    decreases |actions|
  {
    if actions == [] then s else Run(Step(s, actions[0]), actions[1..])
  }

  ghost predicate Inv(s: State) {
    && (s.busy <==> exists c :: 0 <= c < |s.callers| && s.callers[c].Inside?)
    && (forall c, d | 0 <= c < |s.callers| && 0 <= d < |s.callers|
          && s.callers[c].Inside? && s.callers[d].Inside? :: c == d)
  }

  lemma StepKeepsInv(s: State, a: Action)
    requires Inv(s) && !a.Reset?
    ensures Inv(Step(s, a))
  {
    var n := Step(s, a);
    match a
    case Arrive =>
      assert forall c | 0 <= c < |n.callers| && n.callers[c].Inside? :: c < |s.callers| && s.callers[c].Inside?;
      if s.busy {
        var c :| 0 <= c < |s.callers| && s.callers[c].Inside?;
        assert n.callers[c].Inside?;
      }
    case TestAndSet(c) =>
      if n != s {
        if s.busy {
          var d :| 0 <= d < |s.callers| && s.callers[d].Inside?;
          assert n.callers[d].Inside?;
        } else {
          assert n.callers[c].Inside?;
        }
      }
    case ClearBit(c) =>
  }

  ghost predicate NobodyInside(s: State) {
    forall c | 0 <= c < |s.callers| :: !s.callers[c].Inside?
  }

  /** Every reset comes at a moment when nobody is inside. */
  ghost predicate HarmlessResets(s: State, actions: seq<Action>)
    decreases |actions|
  {
    actions != [] ==> (actions[0].Reset? ==> NobodyInside(s)) && HarmlessResets(Step(s, actions[0]), actions[1..])
  }

  lemma {:induction false} RunKeepsInv(s: State, actions: seq<Action>)
    requires Inv(s) && HarmlessResets(s, actions)
    ensures Inv(Run(s, actions))
    decreases |actions|
  {
    if actions != [] {
      if !actions[0].Reset? { StepKeepsInv(s, actions[0]); }
      RunKeepsInv(Step(s, actions[0]), actions[1..]);
    }
  }

  ghost predicate Exclusive(s: State) {
    forall i, j | 0 <= i < |s.callers| && 0 <= j < |s.callers| && s.callers[i].Inside? && s.callers[j].Inside? :: i == j
  }

  /**
   * In every interleaving whose resets are harmless, at most one thread is inside; and a thread that tests the flag is
   * sent away exactly when another one is.
   */
  lemma OneAtATime(actions: seq<Action>, c: nat)
    requires HarmlessResets(State(false, []), actions)
    requires c < |Run(State(false, []), actions).callers| && Run(State(false, []), actions).callers[c].Outside?
    ensures var s := Run(State(false, []), actions);
            Exclusive(s) && (Step(s, TestAndSet(c)).callers[c].Rejected? <==> !NobodyInside(s))
  {
    RunKeepsInv(State(false, []), actions);
  }

  /** A thread that leaves takes its result with it, and the next one that comes gets in, whichever it is. */
  lemma LeavingLetsNextIn(actions: seq<Action>, c: nat, d: nat)
    requires HarmlessResets(State(false, []), actions)
    requires var s := Run(State(false, []), actions);
             && c < |s.callers| && s.callers[c].Inside? && d < |s.callers| && s.callers[d].Outside?
    ensures var n := Step(Run(State(false, []), actions), ClearBit(c));
            && n.callers[c].Returned? && NobodyInside(n)
            && Step(n, TestAndSet(d)).callers[d].Inside? && Step(n, TestAndSet(d)).busy
  {
    RunKeepsInv(State(false, []), actions);
  }

  lemma {:induction false} NoResetIsHarmless(s: State, actions: seq<Action>)
    requires forall a | a in actions :: !a.Reset?
    ensures HarmlessResets(s, actions)
    decreases |actions|
  {
    if actions != [] {
      assert actions[0] in actions;
      NoResetIsHarmless(Step(s, actions[0]), actions[1..]);
    }
  }

  /** After a reset, every continuation without another one is exclusive exactly when nobody was inside at the reset. */
  lemma ResetIsHarmlessIff(s: State)
    requires Inv(s)
    ensures NobodyInside(s) <==>
            forall actions: seq<Action> :: (forall a | a in actions :: !a.Reset?) ==>
              Exclusive(Run(Step(s, Reset), actions))
  {
    if NobodyInside(s) {
      forall actions: seq<Action> | forall a | a in actions :: !a.Reset?
        ensures Exclusive(Run(Step(s, Reset), actions))
      {
        NoResetIsHarmless(Step(s, Reset), actions);
        RunKeepsInv(Step(s, Reset), actions);
      }
    } else {
      var c :| 0 <= c < |s.callers| && s.callers[c].Inside?;
      ResetLetsASecondIn(s, c);
      var more := [Arrive, TestAndSet(|s.callers|)];
      assert [Reset, Arrive, TestAndSet(|s.callers|)][1..] == more;
      assert forall a | a in more :: !a.Reset?;
      assert !Exclusive(Run(Step(s, Reset), more));
    }
  }

  /** A reset in between lets a second thread in, whichever thread is inside. */
  lemma ResetLetsASecondIn(s: State, c: nat)
    requires c < |s.callers| && s.callers[c].Inside?
    ensures var n := Run(s, [Reset, Arrive, TestAndSet(|s.callers|)]);
            |n.callers| == |s.callers| + 1 && n.callers[c].Inside? && n.callers[|s.callers|].Inside?
  {
    var a := [Reset, Arrive, TestAndSet(|s.callers|)];
    assert a[1..] == [Arrive, TestAndSet(|s.callers|)];
    assert a[1..][1..] == [TestAndSet(|s.callers|)];
    assert a[1..][1..][1..] == [];
    var s2 := Step(Step(s, Reset), Arrive);
    assert Run(s, a) == Run(s2, [TestAndSet(|s.callers|)]);
    assert Run(s2, [TestAndSet(|s.callers|)]) == Run(Step(s2, TestAndSet(|s.callers|)), []);
  }
}
