/** What every disciplined interleaving keeps. */
module SignalSafety {
  import opened Options
  import opened SignalProtocol

  /** An engaged guard of thread `t` at position `i` of its chain. */
  predicate Engaged(st: State, t: Tid, i: nat)
    requires t in st.threads && i < |st.threads[t].chain|
  {
    var g := st.threads[t].chain[i];
    && g in st.guards && st.guards[g].owner == t && st.guards[g].mutex.Some? && st.guards[g].mutex.value in st.mutexes
    && st.guards[g].original == (if i == 0 then st.threads[t].base else FULL)
    && (st.guards[g].phase == Unlocked ==> MayDestroy(st, t, g))
    && (st.guards[g].phase != Locked ==> forall j | 0 <= j < |st.threads[t].chain| && j != i ::
          st.threads[t].chain[j] in st.guards && st.guards[st.threads[t].chain[j]].phase == Locked)
  }

  predicate ThreadOk(st: State, t: Tid)
    requires t in st.threads
  {
    var th := st.threads[t];
    && th.base <= FULL
    && th.mask == (if th.chain == [] then th.base else FULL)
    && (forall i | 0 <= i < |th.saved| :: th.saved[i].0 == th.saved[i].1 && th.saved[i].1 <= FULL)
    && (forall i, j | 0 <= i < j < |th.chain| :: th.chain[i] != th.chain[j])
    && (forall i | 0 <= i < |th.chain| :: Engaged(st, t, i))
  }

  /** Every guard that is not moved from is in the chain of its owner. */
  predicate GuardOk(st: State, g: Gid)
    requires g in st.guards
  {
    var gd := st.guards[g];
    gd.mutex.Some? ==> gd.owner in st.threads && g in st.threads[gd.owner].chain
  }

  predicate Shape(st: State) {
    && (forall t | t in st.threads :: ThreadOk(st, t))
    && (forall g | g in st.guards :: GuardOk(st, g))
  }

  // ----- threads keep to themselves -----

  /** A change to guards that are not in the chain of `t` does not concern `t`. */
  lemma OtherThread(st: State, st': State, t: Tid)
    requires t in st.threads && ThreadOk(st, t)
    requires t in st'.threads && st'.threads[t] == st.threads[t] && st.mutexes.Keys <= st'.mutexes.Keys
    requires forall g | g in st.threads[t].chain :: g in st.guards && g in st'.guards && st'.guards[g] == st.guards[g]
    ensures ThreadOk(st', t)
  {
    forall i | 0 <= i < |st.threads[t].chain|
      ensures Engaged(st', t, i)
    {
      assert Engaged(st, t, i);
      assert forall j | 0 <= j < |st.threads[t].chain| :: st.threads[t].chain[j] in st.threads[t].chain;
    }
  }

  lemma ChainsDisjoint(st: State, t: Tid, u: Tid, g: Gid)
    requires Shape(st) && t in st.threads && u in st.threads && g in st.threads[t].chain && g in st.threads[u].chain
    ensures t == u
  {
    var i :| 0 <= i < |st.threads[t].chain| && st.threads[t].chain[i] == g;
    var j :| 0 <= j < |st.threads[u].chain| && st.threads[u].chain[j] == g;
    assert ThreadOk(st, t) && ThreadOk(st, u);
    assert Engaged(st, t, i) && Engaged(st, u, j);
  }

  /** The rest of the system when thread `t` makes a step that touches guard `g` of its own only. */
  lemma OthersKeep(st: State, st': State, t: Tid, touched: set<Gid>)
    requires Shape(st) && t in st.threads
    requires st'.threads.Keys == st.threads.Keys && st.mutexes.Keys == st'.mutexes.Keys
    requires forall u | u in st.threads && u != t :: st'.threads[u] == st.threads[u]
    requires forall g | g in touched && g in st.guards :: st.guards[g].mutex == None || g in st.threads[t].chain
    requires forall g | g in st.guards && g !in touched :: g in st'.guards && st'.guards[g] == st.guards[g]
    ensures forall u | u in st.threads && u != t :: ThreadOk(st', u)
  {
    forall u | u in st.threads && u != t
      ensures ThreadOk(st', u)
    {
      forall g | g in st.threads[u].chain
        ensures g in st.guards && g in st'.guards && st'.guards[g] == st.guards[g]
      {
        var j :| 0 <= j < |st.threads[u].chain| && st.threads[u].chain[j] == g;
        assert ThreadOk(st, u) && Engaged(st, u, j);
        if g in touched { ChainsDisjoint(st, t, u, g); }
      }
      assert ThreadOk(st, u);
      OtherThread(st, st', u);
    }
  }

  // ----- the steps -----

  lemma IdleChain(st: State, t: Tid, i: nat)
    requires t in st.threads && Idle(st, t) && i < |st.threads[t].chain|
    ensures st.threads[t].chain[i] in st.guards && st.guards[st.threads[t].chain[i]].phase == Locked
  {
  }

  lemma MaskKeeps(st: State, e: Step)
    requires Shape(st) && e.Mask? && Enabled(st, e) && Disciplined(st, e)
    ensures Shape(After(st, e))
  {
    hide ThreadOk, GuardOk, KernelMask;
    OthersKeep(st, After(st, e), e.t, {e.g});
    MaskedThread(st, e);
    GuardsMasked(st, e);
  }

  lemma MaskedThread(st: State, e: Step)
    requires Shape(st) && e.Mask? && Enabled(st, e) && Disciplined(st, e)
    ensures ThreadOk(After(st, e), e.t)
  {
    hide GuardOk, MayDestroy;
    var st', t := After(st, e), e.t;
    var chain := st.threads[t].chain;
    assert ThreadOk(st, t);
    FullMask(e.mask);
    forall i | 0 <= i < |chain|
      ensures chain[i] != e.g
    {
      assert Engaged(st, t, i);
    }
    forall i | 0 <= i < |chain| + 1
      ensures Engaged(st', t, i)
    {
      if i < |chain| { assert Engaged(st, t, i); IdleChain(st, t, i); }
      forall j | 0 <= j < |chain|
        ensures chain[j] in st'.guards && st'.guards[chain[j]].phase == Locked
      {
        IdleChain(st, t, j);
      }
    }
  }

  lemma FullMask(mask: set<Signal>)
    requires FULL <= mask
    ensures KernelMask(mask) == FULL
  {
  }

  lemma GuardsMasked(st: State, e: Step)
    requires Shape(st) && e.Mask? && Enabled(st, e)
    ensures forall g | g in After(st, e).guards :: GuardOk(After(st, e), g)
  {
    var st' := After(st, e);
    forall g | g in st'.guards
      ensures GuardOk(st', g)
    {
      if g == e.g {
        assert st'.threads[e.t].chain[|st.threads[e.t].chain|] == g;
      } else {
        assert GuardOk(st, g);
      }
    }
  }

  /** A step that changes only the phase of one engaged guard, and mutex counts. */
  lemma PhaseKeeps(st: State, st': State, t: Tid, g: Gid, phase: Phase)
    requires Shape(st) && t in st.threads && g in st.threads[t].chain && g in st.guards
    requires st'.threads == st.threads && st'.guards == st.guards[g := st.guards[g].(phase := phase)]
    requires st'.mutexes.Keys == st.mutexes.Keys
    requires forall j | 0 <= j < |st.threads[t].chain| && st.threads[t].chain[j] != g ::
               st.threads[t].chain[j] in st.guards && st.guards[st.threads[t].chain[j]].phase == Locked
    requires phase == Unlocked ==> MayDestroy(st, t, g)
    ensures Shape(st')
  {
    hide ThreadOk;
    OthersKeep(st, st', t, {g});
    PhaseThread(st, st', t, g, phase);
    forall h | h in st'.guards
      ensures GuardOk(st', h)
    {
      assert GuardOk(st, h);
    }
  }

  lemma PhaseThread(st: State, st': State, t: Tid, g: Gid, phase: Phase)
    requires Shape(st) && t in st.threads && g in st.threads[t].chain && g in st.guards
    requires st'.threads == st.threads && st'.guards == st.guards[g := st.guards[g].(phase := phase)]
    requires st'.mutexes.Keys == st.mutexes.Keys
    requires forall j | 0 <= j < |st.threads[t].chain| && st.threads[t].chain[j] != g ::
               st.threads[t].chain[j] in st.guards && st.guards[st.threads[t].chain[j]].phase == Locked
    requires phase == Unlocked ==> MayDestroy(st, t, g)
    ensures ThreadOk(st', t)
  {
    hide GuardOk;
    assert ThreadOk(st, t);
    forall i | 0 <= i < |st.threads[t].chain|
      ensures Engaged(st', t, i)
    {
      assert Engaged(st, t, i);
    }
  }

  lemma LockKeeps(st: State, e: Step)
    requires Shape(st) && e.Lock? && Enabled(st, e)
    ensures Shape(After(st, e))
  {
    var i :| 0 <= i < |st.threads[e.t].chain| && st.threads[e.t].chain[i] == e.g;
    assert ThreadOk(st, e.t) && Engaged(st, e.t, i);
    PhaseKeeps(st, After(st, e), e.t, e.g, Locked);
  }

  lemma UnlockKeeps(st: State, e: Step)
    requires Shape(st) && e.Unlock? && Enabled(st, e) && Disciplined(st, e)
    ensures Shape(After(st, e))
  {
    PhaseKeeps(st, After(st, e), e.t, e.g, Unlocked);
  }

  lemma MoveKeeps(st: State, e: Step)
    requires Shape(st) && e.Move? && Enabled(st, e)
    ensures Shape(After(st, e))
  {
    hide ThreadOk, GuardOk;
    OthersKeep(st, After(st, e), e.t, {e.g, e.g'});
    MovedThread(st, e);
    MovedGuards(st, e);
  }

  lemma MovedThread(st: State, e: Step)
    requires Shape(st) && e.Move? && Enabled(st, e)
    ensures ThreadOk(After(st, e), e.t)
  {
    hide GuardOk, Index;
    var st', t, chain := After(st, e), e.t, st.threads[e.t].chain;
    var k := Index(chain, e.g);
    assert ThreadOk(st, t);
    forall i | 0 <= i < |chain|
      ensures chain[i] != e.g' && (i != k ==> chain[i] != e.g)
    {
      assert Engaged(st, t, i);
    }
    forall i | 0 <= i < |chain|
      ensures Engaged(st', t, i)
    {
      assert Engaged(st, t, i);
      IdleChain(st, t, i);
    }
  }

  lemma MovedGuards(st: State, e: Step)
    requires Shape(st) && e.Move? && Enabled(st, e)
    ensures forall h | h in After(st, e).guards :: GuardOk(After(st, e), h)
  {
    hide ThreadOk, Index;
    var st', k := After(st, e), Index(st.threads[e.t].chain, e.g);
    forall h | h in st'.guards
      ensures GuardOk(st', h)
    {
      if h == e.g' {
        assert st'.threads[e.t].chain[k] == h;
      } else if h != e.g {
        assert GuardOk(st, h);
        StaysInChain(st, e, h);
      }
    }
  }

  lemma StaysInChain(st: State, e: Step, h: Gid)
    requires e.Move? && Enabled(st, e) && h in st.guards && GuardOk(st, h) && h != e.g
    ensures st.guards[h].mutex.Some? ==> h in After(st, e).threads[st.guards[h].owner].chain
  {
    var u := st.guards[h].owner;
    if st.guards[h].mutex.Some? && u == e.t {
      var i :| 0 <= i < |st.threads[u].chain| && st.threads[u].chain[i] == h;
      assert After(st, e).threads[u].chain[i] == h;
    }
  }

  lemma RestoreKeeps(st: State, e: Step)
    requires Shape(st) && e.Restore? && Enabled(st, e)
    ensures Shape(After(st, e))
  {
    hide ThreadOk, GuardOk, Without;
    OthersKeep(st, After(st, e), e.t, {e.g});
    RestoredThread(st, e);
    RestoredGuards(st, e);
  }

  lemma RestoredGuards(st: State, e: Step)
    requires Shape(st) && e.Restore? && Enabled(st, e)
    ensures forall h | h in After(st, e).guards :: GuardOk(After(st, e), h)
  {
    hide ThreadOk, Index;
    var st', t, chain := After(st, e), e.t, st.threads[e.t].chain;
    var k := Index(chain, e.g);
    forall h | h in st'.guards
      ensures GuardOk(st', h)
    {
      assert GuardOk(st, h);
      if st.guards[h].mutex.Some? && st.guards[h].owner == t {
        var i :| 0 <= i < |chain| && chain[i] == h;
        assert st'.threads[t].chain[if i < k then i else i - 1] == h;
      }
    }
  }

  lemma RestoredThread(st: State, e: Step)
    requires Shape(st) && e.Restore? && Enabled(st, e)
    ensures ThreadOk(After(st, e), e.t)
  {
    var st', t, chain := After(st, e), e.t, st.threads[e.t].chain;
    var k := Index(chain, e.g);
    assert ThreadOk(st, t) && Engaged(st, t, k);
    assert MayDestroy(st, t, e.g);
    forall i | 0 <= i < |st'.threads[t].chain|
      ensures Engaged(st', t, i)
    {
      RestoredEngaged(st, e, i);
    }
  }

  lemma RestoredEngaged(st: State, e: Step, i: nat)
    requires Shape(st) && e.Restore? && Enabled(st, e) && i < |After(st, e).threads[e.t].chain|
    ensures Engaged(After(st, e), e.t, i)
  {
    hide GuardOk, Index;
    var st', t, chain := After(st, e), e.t, st.threads[e.t].chain;
    var k := Index(chain, e.g);
    assert ThreadOk(st, t) && Engaged(st, t, k);
    var chain' := st'.threads[t].chain;
    var j := if i < k then i else i + 1;
    assert chain'[i] == chain[j] && Engaged(st, t, j);
    assert chain[j] != e.g;
    forall n | 0 <= n < |chain'| && n != i
      ensures chain'[n] in st'.guards && st'.guards[chain'[n]].phase == Locked
    {
      var n' := if n < k then n else n + 1;
      assert chain'[n] == chain[n'] && Engaged(st, t, n') && chain[n'] != e.g;
    }
  }

  lemma MovedFromKeeps(st: State, e: Step)
    requires Shape(st) && e.DestroyMovedFrom? && Enabled(st, e)
    ensures Shape(After(st, e))
  {
    var st' := After(st, e);
    OthersKeep(st, st', e.t, {e.g});
    assert ThreadOk(st, e.t);
    forall h | h in st.threads[e.t].chain
      ensures h in st.guards && h in st'.guards && st'.guards[h] == st.guards[h]
    {
      var i :| 0 <= i < |st.threads[e.t].chain| && st.threads[e.t].chain[i] == h;
      assert Engaged(st, e.t, i);
    }
    OtherThread(st, st', e.t);
    forall h | h in st'.guards
      ensures GuardOk(st', h)
    {
      assert GuardOk(st, h);
    }
  }

  /** Moving from a guard that was moved from makes another inert one. */
  lemma MoveMovedFromKeeps(st: State, e: Step)
    requires Shape(st) && e.MoveMovedFrom? && Enabled(st, e)
    ensures Shape(After(st, e))
  {
    hide MayDestroy;
    var st' := After(st, e);
    OthersKeep(st, st', e.t, {e.g'});
    assert ThreadOk(st, e.t);
    forall h | h in st.threads[e.t].chain
      ensures h in st.guards && h in st'.guards && st'.guards[h] == st.guards[h]
    {
      var i :| 0 <= i < |st.threads[e.t].chain| && st.threads[e.t].chain[i] == h;
      assert Engaged(st, e.t, i);
    }
    OtherThread(st, st', e.t);
    forall h | h in st'.guards
      ensures GuardOk(st', h)
    {
      if h != e.g' { assert GuardOk(st, h); }
    }
  }

  /** Steps that change the masks of a thread without guards. */
  lemma MaskOnlyKeeps(st: State, e: Step)
    requires Shape(st) && Enabled(st, e) && Disciplined(st, e) && (e.Deliver? || e.HandlerReturn? || e.SetMask?)
    ensures Shape(After(st, e))
  {
    hide ThreadOk;
    var st' := After(st, e);
    OthersKeep(st, st', e.t, {});
    MaskOnlyThread(st, e);
    forall h | h in st'.guards
      ensures GuardOk(st', h)
    {
      assert GuardOk(st, h);
    }
  }

  lemma MaskOnlyThread(st: State, e: Step)
    requires Shape(st) && Enabled(st, e) && Disciplined(st, e) && (e.Deliver? || e.HandlerReturn? || e.SetMask?)
    ensures ThreadOk(After(st, e), e.t)
  {
    hide GuardOk, Engaged;
    assert ThreadOk(st, e.t);
    if e.Deliver? { NoHandlerUnderLock(st, e); }
  }

  /**
   No signal handler starts on a thread that has an engaged guard, so it cannot find a mutex held by its own
   thread.
   */
  lemma NoHandlerUnderLock(st: State, e: Step)
    requires Shape(st) && Enabled(st, e) && e.Deliver?
    ensures st.threads[e.t].chain == []
    ensures forall g | g in st.guards && st.guards[g].owner == e.t :: st.guards[g].mutex == None
  {
    assert ThreadOk(st, e.t);
    assert e.s in FULL;
    forall g | g in st.guards && st.guards[g].owner == e.t
      ensures st.guards[g].mutex == None
    {
      assert GuardOk(st, g);
    }
  }

  lemma StepKeeps(st: State, e: Step)
    requires Shape(st) && Enabled(st, e) && Disciplined(st, e)
    ensures Shape(After(st, e))
  {
    match e
    case Mask(_, _, _, _, _) => MaskKeeps(st, e);
    case Lock(_, _) => LockKeeps(st, e);
    case Move(_, _, _) => MoveKeeps(st, e);
    case MoveMovedFrom(_, _, _) => MoveMovedFromKeeps(st, e);
    case Unlock(_, _) => UnlockKeeps(st, e);
    case Restore(_, _) => RestoreKeeps(st, e);
    case DestroyMovedFrom(_, _) => MovedFromKeeps(st, e);
    case Deliver(_, _, _) => MaskOnlyKeeps(st, e);
    case HandlerReturn(_) => MaskOnlyKeeps(st, e);
    case SetMask(_, _) => MaskOnlyKeeps(st, e);
  }

  /** In every state of every disciplined interleaving. */
  lemma {:induction false} RunKeeps(states: seq<State>, steps: seq<Step>, n: nat)
    requires DisciplinedRun(states, steps) && n < |states|
    ensures Shape(states[n])
  {
    if n > 0 {
      RunKeeps(states, steps, n - 1);
      StepKeeps(states[n - 1], steps[n - 1]);
    }
  }
}
