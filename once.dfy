/** A resettable once: Do runs its callback only while the done flag is 0,
    under the lean build's spin lock; a nil callback just sets the flag; Reset
    clears it.  The callbacks' effect is that their ids are appended to
    `called`, in order. */
module Once {
  import opened LockWord
  import SpinLockRelease

  /** A callback: nil, or a function known by its id. */
  datatype Callback = Nil | Func(id: int)

  /** The flag and the ids of the callbacks that ran so far. */
  datatype OnceState = OnceState(done: nat, called: seq<int>)

  /** One Do(f). */
  function DoStep(s: OnceState, f: Callback): (r: OnceState)
    ensures f.Nil? ==> r == s.(done := 1)
    ensures f.Func? && s.done == 0 ==> r == OnceState(1, s.called + [f.id])
    ensures f.Func? && s.done != 0 ==> r == s
  {
    match f
    case Nil => s.(done := 1)
    case Func(id) => if s.done == 0 then OnceState(1, s.called + [id]) else s
  }

  function ResetStep(s: OnceState): (r: OnceState)
    ensures r.done == 0 && r.called == s.called
  {
    s.(done := 0)
  }

  /** A run of Do calls without Reset. */
  function DoAll(s: OnceState, fs: seq<Callback>): OnceState
  {
    if fs == [] then s else DoStep(DoAll(s, fs[..|fs| - 1]), fs[|fs| - 1])
  }

  /** Between two Resets at most one callback runs: the first one, and only if
      the flag was clear and the first Do was not given nil.  After any Do the
      flag is set. */
  lemma {:induction false} DoAllAtMostOnce(s: OnceState, fs: seq<Callback>)
    requires s.done <= 1
    ensures DoAll(s, fs).called ==
      s.called + (if s.done == 0 && |fs| > 0 && fs[0].Func? then [fs[0].id] else [])
    ensures DoAll(s, fs).done == if fs == [] then s.done else 1
  {
    if fs != [] {
      var init := fs[..|fs| - 1];
      DoAllAtMostOnce(s, init);
      if init != [] {
        assert init[0] == fs[0];
      }
    }
  }

  /** After Reset the next non-nil Do runs its callback again. */
  lemma ResetRearms(s: OnceState, id: int)
    ensures DoStep(ResetStep(s), Func(id)).called == s.called + [id]
    ensures DoStep(ResetStep(s), Func(id)).done == 1
  {
  }

  class Once {
    var done: nat
    const m: SpinLockRelease.SpinLock
    var called: seq<int>

    function Abs(): OnceState
      reads this
    {
      OnceState(done, called)
    }

    /** Between calls the flag is 0 or 1 and the lock is free. */
    ghost predicate Valid()
      reads this, m
    {
      done <= 1 && m.isLocked == Unlocked
    }

    /** The zero value. */
    constructor ()
      ensures Abs() == OnceState(0, []) && Valid() && fresh(m)
    {
      done := 0;
      m := new SpinLockRelease.SpinLock();
      called := [];
    }

    method Reset()
      requires Valid()
      modifies this
      ensures Abs() == ResetStep(old(Abs())) && Valid()
    {
      done := 0;
    }

    method Do(f: Callback)
      requires Valid()
      modifies this, m
      ensures Abs() == DoStep(old(Abs()), f) && Valid()
    {
      if f.Nil? {
        done := 1;
        return;
      }
      if done == 0 {
        DoSlow(f);
      }
    }

    /** Re-checks the flag under the lock, runs the callback and sets the flag. */
    method DoSlow(f: Callback)
      requires Valid() && f.Func?
      modifies this, m
      ensures Abs() == DoStep(old(Abs()), f) && Valid()
    {
      ghost var rounds := m.Lock([]);
      if done == 0 {
        called := called + [f.id];
        done := 1;
      }
      m.Unlock();
    }
  }
}
