/** Acquisitions and releases balance, masks come back, and the rule for destroying guards is exact. */
module SignalConservation {
  import opened Options
  import opened SignalProtocol
  import opened SignalSafety

  // ----- holds are live guards -----

  /** The guards that hold mutex `m` in the given mode. */
  function Holders(st: State, m: Mid, mode: Mode): set<Gid> {
    set g | g in st.guards && st.guards[g].phase == Locked && st.guards[g].mutex == Some(m) && st.guards[g].mode == mode
  }

  predicate Balanced(st: State) {
    forall m | m in st.mutexes :: BalancedMutex(st, m)
  }

  predicate BalancedMutex(st: State, m: Mid)
    requires m in st.mutexes
  {
    && st.mutexes[m].exclusive == |Holders(st, m, Exclusive)|
    && st.mutexes[m].shared == |Holders(st, m, Shared)|
    && (st.mutexes[m].exclusive == 0 || (st.mutexes[m].exclusive == 1 && st.mutexes[m].shared == 0))
  }

  lemma SameHolders(st: State, st': State)
    requires Balanced(st) && st'.mutexes == st.mutexes
    requires forall g | g in st.guards && st.guards[g].phase == Locked && st.guards[g].mutex.Some? ::
               g in st'.guards && st'.guards[g] == st.guards[g]
    requires forall g | g in st'.guards && st'.guards[g].phase == Locked && st'.guards[g].mutex.Some? ::
               g in st.guards && st'.guards[g] == st.guards[g]
    ensures Balanced(st')
  {
    forall m | m in st.mutexes
      ensures BalancedMutex(st', m)
    {
      assert BalancedMutex(st, m);
      assert Holders(st', m, Exclusive) == Holders(st, m, Exclusive);
      assert Holders(st', m, Shared) == Holders(st, m, Shared);
    }
  }

  /** One guard more is locked in `b` than in `a`. */
  lemma OneMoreHolder(a: State, b: State, g: Gid, m: Mid, mode: Mode)
    requires g in a.guards && a.guards[g].phase != Locked && b.guards == a.guards[g := a.guards[g].(phase := Locked)]
    ensures var mine := a.guards[g].mutex == Some(m) && a.guards[g].mode == mode;
            |Holders(b, m, mode)| == |Holders(a, m, mode)| + (if mine then 1 else 0)
  {
    var mine := a.guards[g].mutex == Some(m) && a.guards[g].mode == mode;
    assert g !in Holders(a, m, mode);
    assert Holders(b, m, mode) == Holders(a, m, mode) + (if mine then {g} else {});
  }

  lemma HoldersLocked(st: State, e: Step, m: Mid, mode: Mode)
    requires e.Lock? && Enabled(st, e)
    ensures var mine := st.guards[e.g].mutex == Some(m) && st.guards[e.g].mode == mode;
            |Holders(After(st, e), m, mode)| == |Holders(st, m, mode)| + (if mine then 1 else 0)
  {
    hide Holders;
    OneMoreHolder(st, After(st, e), e.g, m, mode);
  }

  lemma LockBalances(st: State, e: Step)
    requires Balanced(st) && e.Lock? && Enabled(st, e)
    ensures Balanced(After(st, e))
  {
    var st' := After(st, e);
    forall m | m in st'.mutexes
      ensures BalancedMutex(st', m)
    {
      HoldersLocked(st, e, m, Exclusive);
      HoldersLocked(st, e, m, Shared);
      assert BalancedMutex(st, m);
    }
  }

  lemma HoldersUnlocked(st: State, e: Step, m: Mid, mode: Mode)
    requires e.Unlock? && Enabled(st, e)
    ensures var mine := st.guards[e.g].mutex == Some(m) && st.guards[e.g].mode == mode;
            |Holders(st, m, mode)| == |Holders(After(st, e), m, mode)| + (if mine then 1 else 0)
  {
    hide Holders;
    var st' := After(st, e);
    assert st'.guards[e.g := st'.guards[e.g].(phase := Locked)] == st.guards;
    OneMoreHolder(st', st, e.g, m, mode);
  }

  /** What is unlocked was locked. */
  lemma UnlockBalances(st: State, e: Step)
    requires Balanced(st) && e.Unlock? && Enabled(st, e)
    ensures Balanced(After(st, e))
    ensures var h := st.mutexes[st.guards[e.g].mutex.value];
            (if st.guards[e.g].mode == Exclusive then h.exclusive else h.shared) > 0
  {
    var st' := After(st, e);
    forall m | m in st'.mutexes
      ensures BalancedMutex(st', m)
    {
      HoldersUnlocked(st, e, m, Exclusive);
      HoldersUnlocked(st, e, m, Shared);
      assert BalancedMutex(st, m);
    }
    var m := st.guards[e.g].mutex.value;
    assert e.g in Holders(st, m, st.guards[e.g].mode);
    assert BalancedMutex(st, m);
  }

  predicate Holds1(guards: map<Gid, Guard>, g: Gid, m: Mid, mode: Mode) {
    g in guards && guards[g].phase == Locked && guards[g].mutex == Some(m) && guards[g].mode == mode
  }

  lemma MovedHolds(guards: map<Gid, Guard>, g: Gid, g': Gid, m: Mid, mode: Mode)
    requires g in guards && g' !in guards
    ensures var guards' := guards[g' := guards[g]][g := guards[g].(mutex := None)];
            forall h :: Holds1(guards', h, m, mode)
                <==> (h != g && Holds1(guards, h, m, mode)) || (h == g' && Holds1(guards, g, m, mode))
  {
  }

  lemma HoldersMoved(st: State, e: Step, m: Mid, mode: Mode)
    requires e.Move? && Enabled(st, e)
    ensures |Holders(After(st, e), m, mode)| == |Holders(st, m, mode)|
  {
    var guards, guards' := st.guards, After(st, e).guards;
    assert guards' == guards[e.g' := guards[e.g]][e.g := guards[e.g].(mutex := None)];
    MovedHolds(guards, e.g, e.g', m, mode);
    var hs, hs' := Holders(st, m, mode), Holders(After(st, e), m, mode);
    assert forall h :: h in hs <==> Holds1(guards, h, m, mode);
    assert forall h :: h in hs' <==> Holds1(guards', h, m, mode);
    if e.g in hs {
      assert hs' == (hs - {e.g}) + {e.g'};
    } else {
      assert hs' == hs;
    }
  }

  lemma MoveBalances(st: State, e: Step)
    requires Balanced(st) && e.Move? && Enabled(st, e)
    ensures Balanced(After(st, e))
  {
    var st' := After(st, e);
    forall m | m in st'.mutexes
      ensures BalancedMutex(st', m)
    {
      HoldersMoved(st, e, m, Exclusive);
      HoldersMoved(st, e, m, Shared);
      assert BalancedMutex(st, m);
    }
  }

  /** Every step, disciplined or not, keeps the holds equal to the live guards that were locked. */
  lemma StepBalances(st: State, e: Step)
    requires Balanced(st) && Enabled(st, e)
    ensures Balanced(After(st, e))
  {
    match e
    case Lock(_, _) => LockBalances(st, e);
    case Unlock(_, _) => UnlockBalances(st, e);
    case Move(_, _, _) => MoveBalances(st, e);
    case _ => SameHolders(st, After(st, e));
  }

  lemma {:induction false} RunBalances(states: seq<State>, steps: seq<Step>, n: nat)
    requires Run(states, steps) && Initial(states[0]) && n < |states|
    ensures Balanced(states[n])
  {
    if n == 0 {
      forall m | m in states[0].mutexes
        ensures BalancedMutex(states[0], m)
      {
        assert Holders(states[0], m, Exclusive) == {} == Holders(states[0], m, Shared);
      }
    } else {
      RunBalances(states, steps, n - 1);
      StepBalances(states[n - 1], steps[n - 1]);
    }
  }

  // ----- the mask comes back -----

  /** How many signal handlers the thread is in. */
  function Depth(st: State, t: Tid): nat
    requires t in st.threads
  {
    |st.threads[t].saved|
  }

  /**
   Between states `i` and `j` handlers may come and go on the thread; only they may set its mask, and none of
   before returns.
   */
  predicate Undisturbed(states: seq<State>, steps: seq<Step>, t: Tid, i: nat, j: nat)
    requires |states| == |steps| + 1 && i <= j <= |steps| && t in states[i].threads
  {
    && (forall k | i <= k <= j :: t in states[k].threads && Depth(states[k], t) >= Depth(states[i], t))
    && (forall k | i <= k < j && steps[k].t == t && steps[k].SetMask? :: Depth(states[k], t) > Depth(states[i], t))
  }

  /** What the thread will have as its own mask once the handlers that came since have returned. */
  function OwnMask(st: State, t: Tid, depth: nat): set<Signal>
    requires t in st.threads && Depth(st, t) >= depth
  {
    if Depth(st, t) == depth then st.threads[t].base else st.threads[t].saved[depth].1
  }

  lemma OwnMaskStep(st: State, e: Step, t: Tid, depth: nat)
    requires Enabled(st, e) && t in st.threads && Depth(st, t) >= depth
    requires t in After(st, e).threads && Depth(After(st, e), t) >= depth
    requires e.t == t && e.SetMask? ==> Depth(st, t) > depth
    ensures OwnMask(After(st, e), t, depth) == OwnMask(st, t, depth)
  {
  }

  lemma {:induction false} OwnMaskKept(states: seq<State>, steps: seq<Step>, t: Tid, i: nat, j: nat)
    requires Run(states, steps) && i <= j <= |steps| && t in states[i].threads && Undisturbed(states, steps, t, i, j)
    ensures OwnMask(states[j], t, Depth(states[i], t)) == states[i].threads[t].base
    decreases j
  {
    if i < j {
      OwnMaskKept(states, steps, t, i, j - 1);
      assert states[j] == After(states[j - 1], steps[j - 1]);
      assert t in states[j].threads && Depth(states[j], t) >= Depth(states[i], t);
      hide After;
      OwnMaskStep(states[j - 1], steps[j - 1], t, Depth(states[i], t));
    }
  }

  /**
   However guards were nested, moved and destroyed in between, and whatever signals were handled: once no guard
   is left and the handlers have returned, the mask is what it was before the first.
   */
  lemma MaskComesBack(states: seq<State>, steps: seq<Step>, t: Tid, i: nat, j: nat)
    requires DisciplinedRun(states, steps) && i <= j <= |steps| && t in states[i].threads
             && Undisturbed(states, steps, t, i, j)
    requires states[i].threads[t].chain == []
    ensures states[j].threads[t].chain == [] && Depth(states[j], t) == Depth(states[i], t)
            ==> states[j].threads[t].mask == states[i].threads[t].mask
    ensures states[j].threads[t].chain != [] ==> states[j].threads[t].mask == FULL
  {
    OwnMaskKept(states, steps, t, i, j);
    SignalSafety.RunKeeps(states, steps, i);
    SignalSafety.RunKeeps(states, steps, j);
    assert ThreadOk(states[i], t) && ThreadOk(states[j], t);
  }

  /** In every disciplined interleaving a handler starts only on a thread whose guards hold nothing. */
  lemma NoHandlerUnderLockEver(states: seq<State>, steps: seq<Step>, n: nat, m: Mid, mode: Mode)
    requires DisciplinedRun(states, steps) && n < |steps| && steps[n].Deliver?
    ensures forall g | g in Holders(states[n], m, mode) :: states[n].guards[g].owner != steps[n].t
  {
    SignalSafety.RunKeeps(states, steps, n);
    NoHandlerUnderLock(states[n], steps[n]);
  }

  // ----- the rule is exact -----

  /** After the whole destructor of `g`. */
  function Destroyed(st: State, t: Tid, g: Gid): State
    requires Enabled(st, Unlock(t, g))
  {
    var st1 := After(st, Unlock(t, g));
    After(st1, Restore(t, g))
  }

  /** A thread with engaged guards cannot be interrupted. */
  ghost predicate Protected(st: State, t: Tid)
    requires t in st.threads
  {
    st.threads[t].chain != [] ==> forall s | Maskable(s) :: !Enabled(st, Deliver(t, s, {}))
  }

  /** Destroying a guard leaves its thread protected if and only if the rule allows it. */
  lemma MayDestroyExactly(st: State, t: Tid, g: Gid)
    requires Shape(st) && Enabled(st, Unlock(t, g))
    ensures Protected(Destroyed(st, t, g), t) <==> MayDestroy(st, t, g)
  {
    var st' := Destroyed(st, t, g);
    var k := Index(st.threads[t].chain, g);
    assert ThreadOk(st, t) && Engaged(st, t, k);
    assert st'.threads[t].mask == st.guards[g].original <= FULL;
    if !MayDestroy(st, t, g) {
      var s :| s in FULL && s !in st.guards[g].original;
      assert Enabled(st', Deliver(t, s, {}));
    }
  }

  /** Destroying guards in the reverse order of their acquisition obeys the rule. */
  lemma ReverseAcquisitionObeys(st: State, t: Tid, g: Gid)
    requires Shape(st) && Enabled(st, Unlock(t, g))
    requires g == st.threads[t].chain[|st.threads[t].chain| - 1]
    ensures MayDestroy(st, t, g)
  {
    assert ThreadOk(st, t) && Engaged(st, t, |st.threads[t].chain| - 1);
  }

  // A run of one thread: two nested guards, the first moved to a new object, and that object destroyed.

  const GUARD_A := Guard(0, {}, Some(0), Exclusive, Locked)
  const GUARD_B := Guard(0, FULL, Some(1), Exclusive, Locked)
  const NONE_HELD := map[0 := Holds(0, 0), 1 := Holds(0, 0)]
  const BOTH_HELD := map[0 := Holds(1, 0), 1 := Holds(1, 0)]

  const STEPS := [Mask(0, 10, 0, Exclusive, FULL), Lock(0, 10), Mask(0, 11, 1, Exclusive, FULL), Lock(0, 11),
                  Move(0, 10, 12), Unlock(0, 12), Restore(0, 12)]

  function OneThread(mask: set<Signal>, chain: seq<Gid>): map<Tid, Thread> {
    map[0 := Thread(mask, {}, chain, [])]
  }

  function Nested(k: nat): State {
    match k
    case 0 => State(OneThread({}, []), map[], NONE_HELD)
    case 1 => State(OneThread(FULL, [10]), map[10 := GUARD_A.(phase := Masked)], NONE_HELD)
    case 2 => State(OneThread(FULL, [10]), map[10 := GUARD_A], NONE_HELD[0 := Holds(1, 0)])
    case 3 => State(OneThread(FULL, [10, 11]), map[10 := GUARD_A, 11 := GUARD_B.(phase := Masked)],
        NONE_HELD[0 := Holds(1, 0)])
    case 4 => State(OneThread(FULL, [10, 11]), map[10 := GUARD_A, 11 := GUARD_B], BOTH_HELD)
    case 5 => State(OneThread(FULL, [12, 11]), map[10 := GUARD_A.(mutex := None), 11 := GUARD_B, 12 := GUARD_A],
        BOTH_HELD)
    case 6 => State(OneThread(FULL, [12, 11]),
        map[10 := GUARD_A.(mutex := None), 11 := GUARD_B, 12 := GUARD_A.(phase := Unlocked)],
                    NONE_HELD[1 := Holds(1, 0)])
    case _ => State(OneThread({}, [11]), map[10 := GUARD_A.(mutex := None), 11 := GUARD_B], NONE_HELD[1 := Holds(1, 0)])
  }

  lemma NestedMask(k: nat)
    requires k == 0 || k == 2
    ensures Enabled(Nested(k), STEPS[k]) && After(Nested(k), STEPS[k]) == Nested(k + 1)
  {
    hide Index, Without, Release, Acquire;
    assert FULL * FULL == FULL;
    if k == 0 {
      assert [] + [10] == [10];
      assert After(Nested(0), STEPS[0]).threads == Nested(1).threads;
    } else {
      assert [10] + [11] == [10, 11];
      assert After(Nested(2), STEPS[2]).threads == Nested(3).threads;
      assert Nested(2).guards[11 := GUARD_B.(phase := Masked)] == Nested(3).guards;
    }
  }

  lemma NestedLock(k: nat)
    requires k == 1 || k == 3
    ensures Enabled(Nested(k), STEPS[k]) && After(Nested(k), STEPS[k]) == Nested(k + 1)
  {
    hide Index, Without, Release, KernelMask;
    if k == 1 {
      assert After(Nested(1), STEPS[1]).guards == Nested(2).guards;
    } else {
      assert NONE_HELD[0 := Holds(1, 0)][1 := Holds(1, 0)] == BOTH_HELD;
      assert Nested(3).guards[11 := GUARD_B] == Nested(4).guards;
    }
  }

  lemma NestedMove()
    ensures Enabled(Nested(4), STEPS[4]) && After(Nested(4), STEPS[4]) == Nested(5)
  {
    assert Index([10, 11], 10) == 0;
    assert [10, 11][0 := 12] == [12, 11];
  }

  lemma NestedUnlock()
    ensures Enabled(Nested(5), STEPS[5]) && After(Nested(5), STEPS[5]) == Nested(6)
  {
    var st := Nested(5);
    assert Release(st.mutexes[0], Exclusive) == Holds(0, 0);
    assert st.mutexes[0 := Holds(0, 0)] == NONE_HELD[1 := Holds(1, 0)];
    assert st.guards[12 := GUARD_A.(phase := Unlocked)] == Nested(6).guards;
  }

  lemma NestedRestore()
    ensures Enabled(Nested(6), STEPS[6]) && After(Nested(6), STEPS[6]) == Nested(7)
  {
    assert Index([12, 11], 12) == 0;
    assert Without([12, 11], 0) == [11];
    assert Nested(6).guards - {12} == Nested(7).guards;
  }

  lemma NestedRun(states: seq<State>)
    requires |states| == 8 && forall k | 0 <= k < 8 :: states[k] == Nested(k)
    ensures Run(states, STEPS)
  {
    hide After, Enabled, Nested;
    forall k | 0 <= k < 7
      ensures Enabled(states[k], STEPS[k]) && states[k + 1] == After(states[k], STEPS[k])
    {
      if k == 0 || k == 2 {
        NestedMask(k);
      } else if k < 4 {
        NestedLock(k);
      } else if k == 4 {
        NestedMove();
      } else if k == 5 {
        NestedUnlock();
      } else {
        NestedRestore();
      }
    }
  }

  lemma NestedExposed()
    ensures Initial(Nested(0))
    ensures var st := Nested(7);
            Enabled(st, Deliver(0, 10, {})) && 11 in Holders(st, 1, Exclusive) && st.guards[11].owner == 0
  {
  }

  /**
   The reverse order of construction of the objects does not: guard 12 is constructed last, by moving from
   guard 10, and destroyed first; then a signal reaches the thread while guard 11 holds its mutex.
   */
  lemma ReverseConstructionFails() returns (states: seq<State>, s: Signal)
    ensures Run(states, STEPS) && Initial(states[0])
    ensures STEPS[4] == Move(0, 10, 12) && STEPS[5] == Unlock(0, 12)
    ensures Enabled(states[7], Deliver(0, s, {})) && 11 in Holders(states[7], 1, Exclusive)
            && states[7].guards[11].owner == 0
  {
    s := 10;
    states := seq(8, k requires 0 <= k < 8 => Nested(k));
    NestedRun(states);
    NestedExposed();
  }
}
