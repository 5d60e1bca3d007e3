/** The older lease lock, kept beside the two builds of the current one: the
    same key and release script, a ten-second default lease, a plain held flag,
    Lock as a retry loop of TryLock, and an Unlock that does nothing unless the
    flag is set.  The gate is the lean build's spin lock.  The WaitGroup that
    pairs the handle with its renewal task is kept as its counter, because the
    task's give-up exit drives it below zero. */
module RedisLockLegacy {
  import opened LockWord
  import opened KvStore
  import RedisProtocol
  import SpinLockRelease
  import Backoff

  /** The default lease time of the older lease lock. */
  const DefaultTtl := 10 * RedisProtocol.Second

  /** One handle: key, token, local gate, held flag, whether its renewal task
      runs (the task sets and clears the timer itself), and the counter of the
      WaitGroup `wg`. */
  datatype Legacy = Legacy(key: string, token: string, gate: Word, isLock: bool, dog: bool, wg: int)

  datatype LOut = LOut(l: Legacy, kv: Kv, ok: bool)

  /** The handle's invariant between calls: the flag is set exactly while the
      task runs and exactly while the gate is held, and no one waits on `wg`. */
  predicate LegacyValid(l: Legacy)
  {
    (l.isLock <==> l.dog) && (l.isLock <==> l.gate == Locked) && l.wg == 0
  }

  /** `wg.Done()` took the counter below zero: the renewal task panics with a
      negative WaitGroup counter, and the unrecovered panic ends the process. */
  predicate Crashed(l: Legacy)
  {
    l.wg < 0
  }

  /** The gate is held but the flag is clear. */
  predicate Wedged(l: Legacy)
  {
    l.gate == Locked && !l.isLock
  }

  /** TryLock: a busy gate fails with no store call; otherwise the flag takes
      SetNX's reply, and a failure releases the gate.  On success `wg.Add(1)`
      is matched by the new task's `wg.Done()` before `wg.Wait()` returns. */
  function TryLockStep(l: Legacy, kv: Kv): (r: LOut)
    ensures l.gate == Locked ==> r == LOut(l, kv, false)
    ensures r.ok <==> l.gate == Unlocked && l.key !in kv
    ensures r.ok ==> r.kv == kv[l.key := l.token] && r.l == l.(gate := Locked, isLock := true, dog := true)
    ensures l.gate == Unlocked && !r.ok ==> r.kv == kv && r.l == l.(isLock := false)
  {
    if l.gate.Locked? then LOut(l, kv, false)
    else
      var s := SetNXStep(kv, l.key, l.token);
      if s.ok then LOut(l.(gate := Locked, isLock := true, dog := true), s.kv, true)
      else LOut(l.(isLock := false), s.kv, false)
  }

  /** One fire of the renewal timer: it renews while the flag is set and EXPIRE
      succeeds; otherwise the task exits, clearing the flag and calling
      `wg.Done()`; the gate is left as it is. */
  function Tick(l: Legacy, kv: Kv): (r: Legacy)
    requires l.dog
    ensures l.isLock && l.key in kv ==> r == l
    ensures !(l.isLock && l.key in kv) ==> r == l.(isLock := false, dog := false, wg := l.wg - 1)
  {
    if !l.isLock || !ExpireStep(kv, l.key) then l.(isLock := false, dog := false, wg := l.wg - 1) else l
  }

  /** Unlock: with the flag set, the script runs, the flag is cleared, and
      `wg.Add(1)` is matched by the woken task's exit before the gate is
      released; with the flag clear, nothing at all happens. */
  function UnlockStep(l: Legacy, kv: Kv): (r: LOut)
    requires l.isLock ==> l.dog
    ensures !l.isLock ==> r == LOut(l, kv, false)
    ensures l.isLock ==> Reply(r.kv, r.ok) == CompareAndDelete(kv, l.key, l.token)
    ensures l.isLock ==> r.l == l.(gate := Unlocked, isLock := false, dog := false)
  {
    if l.isLock then
      var d := CompareAndDelete(kv, l.key, l.token);
      var t := Tick(l.(isLock := false, wg := l.wg + 1), d.kv);
      LOut(t.(gate := Unlocked), d.kv, d.ok)
    else LOut(l, kv, false)
  }

  /** TryLock and Unlock keep the invariant; a timer fire keeps it while the key
      is there and crashes the process once it is gone. */
  lemma StepsKeepValid(l: Legacy, kv: Kv)
    requires LegacyValid(l)
    ensures LegacyValid(TryLockStep(l, kv).l)
    ensures LegacyValid(UnlockStep(l, kv).l)
    ensures l.dog && l.key in kv ==> Tick(l, kv) == l
    ensures l.dog && l.key !in kv ==> Crashed(Tick(l, kv))
  {
  }

  /** The fire after a lapse makes the task give up: `wg.Done()` runs a second
      time, the counter goes to -1 and the process crashes, with the gate held
      and the flag clear. */
  lemma LapseCrashes(l: Legacy, kv: Kv)
    requires LegacyValid(l) && l.isLock
    ensures Crashed(Tick(l, kv - {l.key})) && Tick(l, kv - {l.key}).wg == -1
    ensures Wedged(Tick(l, kv - {l.key}))
  {
  }

  /** What the handle's own goroutine and the store can do. */
  datatype LOp = LTryLock | LUnlock | LTick | LLapse(key: string)

  /** A run of operations from one handle state; a tick with no task running
      does nothing, nor does an Unlock with the flag set and no task (a state
      the invariant excludes), and after a crash nothing runs at all. */
  function Run(l: Legacy, kv: Kv, ops: seq<LOp>): LOut
  {
    if ops == [] then LOut(l, kv, false)
    else
      var p := Run(l, kv, ops[..|ops| - 1]);
      if Crashed(p.l) then p.(ok := false)
      else
        match ops[|ops| - 1]
        case LTryLock => TryLockStep(p.l, p.kv)
        case LUnlock => if p.l.isLock && !p.l.dog then p.(ok := false) else UnlockStep(p.l, p.kv)
        case LTick => if p.l.dog then LOut(Tick(p.l, p.kv), p.kv, false) else p.(ok := false)
        case LLapse(key) => LOut(p.l, p.kv - {key}, false)
  }

  /** A crashed process does nothing more. */
  lemma {:induction false} CrashedStops(l: Legacy, kv: Kv, ops: seq<LOp>)
    requires Crashed(l)
    ensures Run(l, kv, ops) == LOut(l, kv, false)
  {
    if ops != [] {
      CrashedStops(l, kv, ops[..|ops| - 1]);
    }
  }

  /** Were the process to survive with the gate held and the flag clear, no
      sequence of operations would change the handle, and none would acquire:
      Unlock skips everything and TryLock finds the gate busy. */
  lemma {:induction false} WedgedForever(l: Legacy, kv: Kv, ops: seq<LOp>)
    requires Wedged(l) && !l.dog && !Crashed(l)
    ensures Run(l, kv, ops).l == l
    ensures !Run(l, kv, ops).ok
  {
    if ops != [] {
      WedgedForever(l, kv, ops[..|ops| - 1]);
    }
  }

  /** The whole trace from a fresh handle: acquire, the lease lapses, and the
      next fire crashes the process with the gate held, so no later Unlock or
      TryLock runs.  Had the process survived the panic, Unlock would do nothing
      and TryLock would fail forever. */
  lemma LegacyLapseTrace(ops: seq<LOp>)
    ensures
      var key := RedisProtocol.KeyFor("order-42");
      var l0 := Legacy(key, "tokenA", Unlocked, false, false, 0);
      var r := Run(l0, map[], [LTryLock, LLapse(key), LTick]);
      Crashed(r.l) && r.l.wg == -1 && Wedged(r.l) && r.kv == map[] &&
      Run(r.l, r.kv, ops) == LOut(r.l, r.kv, false) &&
      var survived := r.l.(wg := 0);
      UnlockStep(survived, r.kv) == LOut(survived, r.kv, false) &&
      !TryLockStep(survived, r.kv).ok &&
      Run(survived, r.kv, ops).l == survived
  {
    var key := RedisProtocol.KeyFor("order-42");
    var l0 := Legacy(key, "tokenA", Unlocked, false, false, 0);
    var ops3 := [LTryLock, LLapse(key), LTick];
    assert ops3[..2] == [LTryLock, LLapse(key)];
    assert ops3[..2][..1] == [LTryLock];
    assert [LTryLock][..0] == [];
    var r1 := Run(l0, map[], [LTryLock]);
    assert r1.l == l0.(gate := Locked, isLock := true, dog := true);
    var r2 := Run(l0, map[], [LTryLock, LLapse(key)]);
    assert r2.kv == map[] && r2.l == r1.l;
    var r := Run(l0, map[], ops3);
    assert r.l == r1.l.(isLock := false, dog := false, wg := -1);
    CrashedStops(r.l, r.kv, ops);
    WedgedForever(r.l.(wg := 0), r.kv, ops);
  }

  class RedisLock {
    const gate: SpinLockRelease.SpinLock
    const store: Store
    const key: string
    const value: string
    const ttl: int
    var isLock: bool
    /** The renewal task runs; its timer `tr` is set exactly then. */
    var dog: bool
    /** The counter of `wg`. */
    var wg: int

    function Abs(): Legacy
      reads this, gate
    {
      Legacy(key, value, gate.isLocked, isLock, dog, wg)
    }

    constructor (store: Store, name: string, ttl: seq<int>, token: string)
      ensures this.store == store && fresh(gate)
      ensures key == RedisProtocol.KeyFor(name) && value == token
      ensures this.ttl == RedisProtocol.EffectiveTtl(ttl, DefaultTtl)
      ensures Abs() == Legacy(RedisProtocol.KeyFor(name), token, Unlocked, false, false, 0)
    {
      this.store := store;
      gate := new SpinLockRelease.SpinLock();
      key := RedisProtocol.KeyFor(name);
      value := token;
      this.ttl := RedisProtocol.EffectiveTtl(ttl, DefaultTtl);
      isLock := false;
      dog := false;
      wg := 0;
    }

    method TryLock() returns (ok: bool)
      modifies this, gate, store
      ensures LOut(Abs(), store.kv, ok) == TryLockStep(old(Abs()), old(store.kv))
    {
      var got := gate.TryLock();
      if !got {
        return false;
      }
      isLock := store.SetNX(key, value, ttl);
      if isLock {
        wg := wg + 1;
        // the renewal task starts and sets its timer; its wg.Done() lets
        // wg.Wait() return
        dog := true;
        wg := wg - 1;
      } else {
        gate.Unlock();
      }
      ok := isLock;
    }

    /** One fire of the renewal timer, and the exit code when it stops. */
    method WatchDogTick()
      requires dog
      modifies this
      ensures Abs() == Tick(old(Abs()), store.kv)
    {
      var stop := !isLock;
      if !stop {
        var renewed := store.Expire(key, ttl);
        stop := !renewed;
      }
      if stop {
        isLock := false;
        dog := false;
        wg := wg - 1;
      }
    }

    method Unlock()
      requires LegacyValid(Abs())
      modifies this, gate, store
      ensures LOut(Abs(), store.kv, false) == UnlockStep(old(Abs()), old(store.kv)).(ok := false)
    {
      if isLock {
        var deleted := store.EvalCompareAndDelete(key, value);
        isLock := false;
        wg := wg + 1;
        // tr.Reset(0): the task fires at once, sees the flag clear and exits;
        // its wg.Done() lets wg.Wait() return
        WatchDogTick();
        gate.Unlock();
      }
    }

    /** Retries TryLock with backoff capped at 256.  A gate held through this
        handle with the flag set is released by that holder's Unlock, which
        runs first. */
    method Lock(frees: seq<bool>)
      requires LegacyValid(Abs())
      requires key !in store.kv || exists k :: 0 <= k < |frees| && frees[k]
      modifies this, gate, store
      ensures Abs() == old(Abs()).(gate := Locked, isLock := true, dog := true)
      ensures store.kv == old(store.kv)[key := value]
    {
      if gate.isLocked == Locked {
        Unlock();
      }
      var block := 1;
      var n := 0;
      while true
        invariant n <= |frees|
        invariant block == Backoff.BlockAfter(n, Backoff.LegacyMaxBlock)
        invariant gate.isLocked == Unlocked && !isLock && !dog && wg == 0
        invariant store.kv - {key} == old(store.kv) - {key}
        invariant key !in store.kv || exists k :: n <= k < |frees| && frees[k]
        decreases |frees| - n
      {
        ghost var before := store.kv;
        var ok := TryLock();
        if ok {
          WriteOverDifference(before, old(store.kv), key, value);
          break;
        }
        if frees[n] {
          store.Lapse(key);
          assert store.kv - {key} == before - {key};
        }
        if block < Backoff.LegacyMaxBlock {
          block := block * 2;
        }
        n := n + 1;
      }
    }
  }
}
