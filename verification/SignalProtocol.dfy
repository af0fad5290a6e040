/**
 Guards that mask signals while a mutex is held, as a protocol between threads, mutexes and signal
 deliveries. A guard's constructor and destructor are two steps each, between which anything may happen on
 other threads and any unmasked signal may interrupt the thread itself.
 */
module SignalProtocol {
  import opened Options

  type Tid = nat
  type Mid = nat
  type Gid = nat
  type Signal = nat

  datatype Mode = Exclusive | Shared

  /** The kernel takes SIGKILL (9) and SIGSTOP (19) out of every mask. */
  predicate Maskable(s: Signal) {
    1 <= s <= 64 && s != 9 && s != 19
  }

  const FULL: set<Signal> := set s: nat | 1 <= s <= 64 && Maskable(s)

  /** `rt_sigprocmask(SIG_SETMASK, ...)`. */
  function KernelMask(mask: set<Signal>): set<Signal> {
    mask * FULL
  }

  /** `Masked` and `Unlocked` are the moments inside the constructor and the destructor. */
  datatype Phase = Masked | Locked | Unlocked

  /** A guard object; once it is moved from, `mutex` is null. */
  datatype Guard = Guard(owner: Tid, original: set<Signal>, mutex: Option<Mid>, mode: Mode, phase: Phase)

  /**
   `base` is the mask the thread set outside all guards, `chain` its engaged guards in the order in which they
   were acquired, `saved` what running signal handlers will restore.
   */
  datatype Thread = Thread(mask: set<Signal>, base: set<Signal>, chain: seq<Gid>,
      saved: seq<(set<Signal>, set<Signal>)>)

  datatype Holds = Holds(exclusive: nat, shared: nat)

  datatype State = State(threads: map<Tid, Thread>, guards: map<Gid, Guard>, mutexes: map<Mid, Holds>)

  datatype Step =
    | Mask(t: Tid, g: Gid, m: Mid, mode: Mode, mask: set<Signal>)
    | Lock(t: Tid, g: Gid)
    | Move(t: Tid, g: Gid, g': Gid)
    | MoveMovedFrom(t: Tid, g: Gid, g': Gid)
    | Unlock(t: Tid, g: Gid)
    | Restore(t: Tid, g: Gid)
    | DestroyMovedFrom(t: Tid, g: Gid)
    | Deliver(t: Tid, s: Signal, also: set<Signal>)
    | HandlerReturn(t: Tid)
    | SetMask(t: Tid, mask: set<Signal>)

  function Index(chain: seq<Gid>, g: Gid): (i: nat)
    requires g in chain
    ensures i < |chain| && chain[i] == g
  {
    if chain[0] == g then 0 else 1 + Index(chain[1..], g)
  }

  function Without(chain: seq<Gid>, i: nat): seq<Gid>
    requires i < |chain|
  {
    chain[..i] + chain[i + 1..]
  }

  /** The thread is not inside a constructor or destructor of a guard. */
  predicate Idle(st: State, t: Tid)
    requires t in st.threads
  {
    forall i | 0 <= i < |st.threads[t].chain| ::
      st.threads[t].chain[i] in st.guards && st.guards[st.threads[t].chain[i]].phase == Locked
  }

  predicate Owns(st: State, t: Tid, g: Gid, phase: Phase) {
    && t in st.threads && g in st.guards && g in st.threads[t].chain
    && st.guards[g].owner == t && st.guards[g].mutex.Some? && st.guards[g].phase == phase
    && st.guards[g].mutex.value in st.mutexes
  }

  function Acquire(h: Holds, mode: Mode): Holds {
    match mode
    case Exclusive => h.(exclusive := h.exclusive + 1)
    case Shared => h.(shared := h.shared + 1)
  }

  /** Unlocking what is not locked is undefined; the count is left alone. */
  function Release(h: Holds, mode: Mode): Holds {
    match mode
    case Exclusive => h.(exclusive := if h.exclusive > 0 then h.exclusive - 1 else 0)
    case Shared => h.(shared := if h.shared > 0 then h.shared - 1 else 0)
  }

  predicate CanAcquire(h: Holds, mode: Mode) {
    h.exclusive == 0 && (mode == Exclusive ==> h.shared == 0)
  }

  predicate Enabled(st: State, e: Step) {
    match e
    case Mask(t, g, m, _, _) => t in st.threads && Idle(st, t) && g !in st.guards && m in st.mutexes
    case Lock(t, g) => Owns(st, t, g, Masked) && CanAcquire(st.mutexes[st.guards[g].mutex.value], st.guards[g].mode)
    case Move(t, g, g') => Owns(st, t, g, Locked) && Idle(st, t) && g' !in st.guards
    case MoveMovedFrom(t, g, g') => t in st.threads && g in st.guards && st.guards[g].mutex == None && g' !in st.guards
    case Unlock(t, g) => Owns(st, t, g, Locked) && Idle(st, t)
    case Restore(t, g) => Owns(st, t, g, Unlocked)
    case DestroyMovedFrom(t, g) => t in st.threads && g in st.guards && st.guards[g].mutex == None
    case Deliver(t, s, _) => t in st.threads && Maskable(s) && s !in st.threads[t].mask
    case HandlerReturn(t) => t in st.threads && Idle(st, t) && st.threads[t].saved != []
    case SetMask(t, _) => t in st.threads && Idle(st, t)
  }

  function After(st: State, e: Step): State
    requires Enabled(st, e)
  {
    var th := st.threads[e.t];
    match e
    case Mask(t, g, m, mode, mask) =>
      st.(guards := st.guards[g := Guard(t, th.mask, Some(m), mode, Masked)],
          threads := st.threads[t := th.(mask := KernelMask(mask), chain := th.chain + [g])])
    case Lock(t, g) =>
      var gd := st.guards[g];
      st.(guards := st.guards[g := gd.(phase := Locked)],
          mutexes := st.mutexes[gd.mutex.value := Acquire(st.mutexes[gd.mutex.value], gd.mode)])
    case Move(t, g, g') =>
      st.(guards := st.guards[g' := st.guards[g]][g := st.guards[g].(mutex := None)],
          threads := st.threads[t := th.(chain := th.chain[Index(th.chain, g) := g'])])
    case MoveMovedFrom(t, g, g') => st.(guards := st.guards[g' := st.guards[g]])
    case Unlock(t, g) =>
      var gd := st.guards[g];
      st.(guards := st.guards[g := gd.(phase := Unlocked)],
          mutexes := st.mutexes[gd.mutex.value := Release(st.mutexes[gd.mutex.value], gd.mode)])
    case Restore(t, g) =>
      st.(guards := st.guards - {g},
          threads := st.threads[t := th.(mask := st.guards[g].original,
              chain := Without(th.chain, Index(th.chain, g)))])
    case DestroyMovedFrom(t, g) => st.(guards := st.guards - {g})
    case Deliver(t, s, also) =>
      var inHandler := KernelMask(th.mask + {s} + also);
      st.(threads := st.threads[t := th.(mask := inHandler, base := inHandler,
          saved := th.saved + [(th.mask, th.base)])])
    case HandlerReturn(t) =>
      var last := th.saved[|th.saved| - 1];
      st.(threads := st.threads[t := th.(mask := last.0, base := last.1, saved := th.saved[..|th.saved| - 1])])
    case SetMask(t, mask) =>
      st.(threads := st.threads[t := th.(mask := KernelMask(mask), base := KernelMask(mask))])
  }

  /** A guard may go before the others only if it would leave the mask full. */
  predicate MayDestroy(st: State, t: Tid, g: Gid)
    requires t in st.threads && g in st.guards
  {
    st.guards[g].original == FULL || |st.threads[t].chain| == 1
  }

  /** The rules for users: default mask, scoped handlers, and the outermost guard goes last. */
  predicate Disciplined(st: State, e: Step)
    requires Enabled(st, e)
  {
    match e
    case Mask(_, _, _, _, mask) => FULL <= mask
    case Unlock(t, g) => MayDestroy(st, t, g)
    case HandlerReturn(t) => st.threads[t].chain == []
    case SetMask(t, _) => st.threads[t].chain == []
    case _ => true
  }

  /** No guards, no handlers, nothing locked. */
  predicate Initial(st: State) {
    && st.guards == map[]
    && (forall t | t in st.threads :: st.threads[t].chain == [] && st.threads[t].saved == []
          && st.threads[t].base == st.threads[t].mask && st.threads[t].mask <= FULL)
    && (forall m | m in st.mutexes :: st.mutexes[m] == Holds(0, 0))
  }

  predicate Run(states: seq<State>, steps: seq<Step>) {
    && |states| == |steps| + 1
    && forall i | 0 <= i < |steps| :: Enabled(states[i], steps[i]) && states[i + 1] == After(states[i], steps[i])
  }

  predicate DisciplinedRun(states: seq<State>, steps: seq<Step>) {
    && Run(states, steps) && Initial(states[0])
    && forall i | 0 <= i < |steps| :: Disciplined(states[i], steps[i])
  }
}
