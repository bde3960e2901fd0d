/** The atomic state and its write guard.

    A `State` keeps its committed value twice: `mutexVal` is the copy behind
    the mutex, `snapVal` the snapshot lock-free readers load from the swap.
    `lock` is the shared write flag. A `StateGuard` is the write lease: a
    private working copy that is committed to both slots when the guard is
    dropped, which also clears the flag.

    Every suspending wait for the flag to clear (`wait_unlock`) becomes the
    precondition `!IsLocked()`; the `unsafe_*` operations have none. The value
    type's `Default` is passed in as `dflt`, and `map`'s mutation closure is a
    total function `T -> T`. */
module States {
  import opened Flags

  class State<T> {
    /** The authoritative copy behind the mutex. */
    var mutexVal: T
    /** The snapshot behind the lock-free swap pointer. */
    var snapVal: T
    /** The write flag shared with every guard. */
    const lock: Flag

    /** Both slots hold the last committed value. */
    ghost predicate Valid()
      reads this
    {
      mutexVal == snapVal
    }

    /** `State::new`: both slots hold the default value, the flag is clear. */
    constructor (dflt: T)
      ensures Valid() && snapVal == dflt && !lock.state
      ensures fresh(lock)
    {
      mutexVal := dflt;
      snapVal := dflt;
      lock := new Flag.From(false);
    }

    /** `Default::default`: `new` followed by `unsafe_set(T::default())`. */
    constructor Default(dflt: T)
      ensures Valid() && snapVal == dflt && !lock.state
      ensures fresh(lock)
    {
      mutexVal := dflt;
      snapVal := dflt;
      lock := new Flag.From(false);
      new;
      UnsafeSet(dflt);
    }

    /** `From<T>`: `new` followed by `unsafe_set(value)`. The default the
        lazily built slots hold before the `unsafe_set` is never observable,
        so the slots start from `value` here. */
    constructor From(value: T)
      ensures Valid() && snapVal == value && !lock.state
      ensures fresh(lock)
    {
      mutexVal := value;
      snapVal := value;
      lock := new Flag.From(false);
      new;
      UnsafeSet(value);
    }

    /** `is_locked`: whether some guard holds the write flag. */
    function IsLocked(): (b: bool)
      reads this, lock
      ensures b == lock.state
    {
      lock.IsTrue()
    }

    /** `unsafe_lock`: raise the flag (even when already raised) and hand out a
        guard seeded with the last committed snapshot. */
    method UnsafeLock() returns (g: StateGuard<T>)
      modifies lock
      ensures IsLocked()
      ensures fresh(g) && g.owner == this && g.live
      ensures g.data == snapVal
    {
      lock.Set(true);
      var data := UnsafeGetCloned();
      g := new StateGuard(this, data);
    }

    /** `lock`: once the flag is clear, raise it and hand out a guard seeded
        with the current snapshot. */
    method Lock() returns (g: StateGuard<T>)
      requires !IsLocked()
      modifies lock
      ensures IsLocked()
      ensures fresh(g) && g.owner == this && g.live
      ensures g.data == snapVal
    {
      g := UnsafeLock();
    }

    /** `get`: once no guard is outstanding, the committed snapshot. */
    method Get() returns (v: T)
      requires !IsLocked()
      ensures v == snapVal
    {
      v := UnsafeGet();
    }

    /** `unsafe_get`: the snapshot, whatever the flag says. */
    method UnsafeGet() returns (v: T)
      ensures v == snapVal
    {
      v := snapVal;
    }

    /** `get_cloned`: once no guard is outstanding, a copy of the snapshot. */
    method GetCloned() returns (v: T)
      requires !IsLocked()
      ensures v == snapVal
    {
      v := UnsafeGetCloned();
    }

    /** `unsafe_get_cloned`: a copy of the snapshot, whatever the flag says. */
    method UnsafeGetCloned() returns (v: T)
      ensures v == snapVal
    {
      v := snapVal;
    }

    /** `set`: lock, overwrite the working copy, drop. */
    method Set(value: T)
      requires !IsLocked()
      modifies this, lock
      ensures Valid() && snapVal == value && !IsLocked()
    {
      var g := Lock();
      g.Assign(value);
      g.Drop();
    }

    /** `unsafe_set`: the same round trip without waiting for the flag. */
    method UnsafeSet(value: T)
      modifies this, lock
      ensures Valid() && snapVal == value && !IsLocked()
    {
      var g := UnsafeLock();
      g.Assign(value);
      g.Drop();
    }

    /** `map`: lock, apply `f` to a copy of the working copy, store it back, drop. */
    method Map(f: T -> T)
      requires !IsLocked()
      modifies this, lock
      ensures Valid() && snapVal == f(old(snapVal)) && !IsLocked()
    {
      var g := Lock();
      var data := g.Deref();
      data := f(data);
      g.Assign(data);
      g.Drop();
    }

    /** `unsafe_map`: the same round trip without waiting for the flag. */
    method UnsafeMap(f: T -> T)
      modifies this, lock
      ensures Valid() && snapVal == f(old(snapVal)) && !IsLocked()
    {
      var g := UnsafeLock();
      var data := g.Deref();
      data := f(data);
      g.Assign(data);
      g.Drop();
    }
  }

  class StateGuard<T> {
    /** The State whose mutex, swap and flag this guard holds clones of. */
    const owner: State<T>
    /** The private working copy. */
    var data: T
    /** False once dropped: Rust's ownership lets `drop` run exactly once. */
    var live: bool

    constructor (owner: State<T>, data: T)
      ensures this.owner == owner && this.data == data && live
    {
      this.owner := owner;
      this.data := data;
      live := true;
    }

    /** `Deref`: exactly the working copy. */
    function Deref(): (v: T)
      reads this
      requires live
      ensures v == data
    {
      data
    }

    /** A write through `DerefMut`: only the working copy changes. */
    method Assign(value: T)
      requires live
      modifies this
      ensures live && data == value
      ensures unchanged(owner) && unchanged(owner.lock)
    {
      data := value;
    }

    /** `Drop::drop`: commit the working copy to the mutex slot and the swap,
        then clear the write flag, whatever other guard is still alive. */
    method Drop()
      requires live
      modifies this, owner, owner.lock
      ensures !live && data == old(data)
      ensures owner.mutexVal == data && owner.snapVal == data
      ensures owner.Valid() && !owner.IsLocked()
    {
      owner.mutexVal := data;
      owner.snapVal := data;
      owner.lock.Set(false);
      live := false;
    }
  }

  /** Locking and dropping a guard without editing it leaves the committed
      value as it was, and the State unlocked. */
  method LockDropUnchanged<T>(s: State<T>)
    requires !s.IsLocked()
    modifies s, s.lock
    ensures s.snapVal == old(s.snapVal) && !s.IsLocked()
  {
    var g := s.Lock();
    g.Drop();
  }

  /** Two overlapping guards (the second obtained through `unsafe_lock`):
      the second is seeded from the committed snapshot, not from the first's
      edits; the first drop clears the flag while the second is still alive;
      the committed value is that of the guard dropped last. */
  method LastCommitWins<T>(s: State<T>, a: T, b: T, firstDropsLast: bool)
    modifies s, s.lock
    ensures s.snapVal == (if firstDropsLast then a else b)
    ensures s.Valid() && !s.IsLocked()
  {
    var committed := s.snapVal;
    var g1 := s.UnsafeLock();
    g1.Assign(a);
    var g2 := s.UnsafeLock();
    assert g2.data == committed;
    g2.Assign(b);
    if firstDropsLast {
      g2.Drop();
      g1.Drop();
    } else {
      g1.Drop();
      assert !s.IsLocked() && g2.live;
      g2.Drop();
    }
  }
}
