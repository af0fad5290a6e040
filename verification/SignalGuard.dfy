/**
 The guard object itself, on one thread. A lock may have to wait, and returns once the mutex is free; what
 other threads have made of the mutex by then is a parameter. The two steps of its constructor and destructor
 are those of the protocol.
 */
module SignalGuard {
  import opened SignalProtocol

  class Mutex {
    var holds: Holds

    constructor ()
      ensures holds == Holds(0, 0)
    {
      holds := Holds(0, 0);
    }

    /** `whenFree` is the state in which the wait ends. */
    method Lock(mode: Mode, whenFree: Holds)
      requires CanAcquire(whenFree, mode)
      modifies this
      ensures holds == Acquire(whenFree, mode)
    {
      holds := Acquire(whenFree, mode);
    }

    method Unlock(mode: Mode)
      modifies this
      ensures holds == Release(old(holds), mode)
    {
      holds := Release(holds, mode);
    }
  }

  class SignalMask {
    var mask: set<Signal>

    /** `rt_sigprocmask(SIG_SETMASK, &new, &old)`. */
    method Set(mask: set<Signal>) returns (original: set<Signal>)
      modifies this
      ensures original == old(this.mask) && this.mask == KernelMask(mask)
    {
      original := this.mask;
      this.mask := KernelMask(mask);
    }
  }

  class ScopedSignalMask {
    const mode: Mode
    var originalMask: set<Signal>
    var mutex: Mutex?

    constructor (m: Mutex, signals: SignalMask, mode: Mode, mask: set<Signal>, whenFree: Holds)
      requires CanAcquire(whenFree, mode)
      modifies m, signals
      ensures mutex == m && this.mode == mode && originalMask == old(signals.mask)
      ensures signals.mask == KernelMask(mask) && m.holds == Acquire(whenFree, mode)
    {
      this.mode := mode;
      mutex := m;
      originalMask := {};
      new;
      originalMask := signals.Set(mask);
      m.Lock(mode, whenFree);
    }

    constructor MoveFrom(rhs: ScopedSignalMask)
      modifies rhs`mutex
      ensures mode == rhs.mode && originalMask == rhs.originalMask && mutex == old(rhs.mutex) && rhs.mutex == null
    {
      mode := rhs.mode;
      originalMask := rhs.originalMask;
      mutex := rhs.mutex;
      new;
      rhs.mutex := null;
    }

    /** The destructor; a guard that was moved from does nothing. */
    method Destroy(signals: SignalMask)
      modifies mutex, signals
      ensures old(mutex) == null ==> unchanged(signals)
      ensures old(mutex) != null ==>
                signals.mask == KernelMask(originalMask) && old(mutex).holds == Release(old(mutex.holds), mode)
    {
      if mutex != null {
        mutex.Unlock(mode);
        var previous := signals.Set(originalMask);
      }
    }
  }

  /** A guard that is made, moved and destroyed, both objects, leaves the mask as it was and the mutex as it got it. */
  method MakeMoveDestroy(m: Mutex, signals: SignalMask, mode: Mode, whenFree: Holds)
    requires CanAcquire(whenFree, mode) && signals.mask <= FULL
    modifies m, signals
    ensures m.holds == whenFree && signals.mask == old(signals.mask)
  {
    var guard := new ScopedSignalMask(m, signals, mode, FULL, whenFree);
    assert signals.mask == FULL;
    var moved := new ScopedSignalMask.MoveFrom(guard);
    moved.Destroy(signals);
    guard.Destroy(signals);
  }
}
