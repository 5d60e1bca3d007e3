/** The lease lock of the diagnostic build: the lean build's protocol with the
    diagnostic spin lock as gate, so every acquisition is recorded, and with
    the stall report of Lock's retry loop.

    The token (a fresh xid in the program) is a constructor argument; the
    client is the shared Store object.  In the retry loops `frees[k]` says
    whether the key disappears from the store (released by its holder, or its
    lease lapsed) during the yields of failed round k. */
module RedisLockDebug {
  import opened LockWord
  import opened KvStore
  import opened RedisProtocol
  import SpinLockDebug
  import Backoff

  class RedisLock {
    const gate: SpinLockDebug.SpinLock
    const store: Store
    const key: string
    const value: string
    const ttl: int
    var isLock: bool
    /** The renewal timer `tr` is set (non-nil). */
    var hasTimer: bool
    var dog: Dog

    function Abs(): Handle
      reads this, gate
    {
      Handle(key, value, gate.isLocked, isLock, dog)
    }

    ghost predicate Valid()
      reads this, gate
    {
      HandleValid(Abs()) && hasTimer == (dog != Idle)
    }

    /** NewRedisLock: the key is the prefixed name, the lease time the first
        positive ttl argument or 30 seconds. */
    constructor (store: Store, name: string, ttl: seq<int>, token: string)
      ensures this.store == store && fresh(gate)
      ensures key == KeyFor(name) && value == token
      ensures this.ttl == EffectiveTtl(ttl, DefaultTtl)
      ensures Abs() == Handle(KeyFor(name), token, Unlocked, false, Idle)
      ensures Valid()
    {
      this.store := store;
      gate := new SpinLockDebug.SpinLock();
      key := KeyFor(name);
      value := token;
      this.ttl := EffectiveTtl(ttl, DefaultTtl);
      isLock := false;
      hasTimer := false;
      dog := Idle;
    }

    method CheckRedisLock() returns (ok: bool)
      modifies this, store
      ensures Out(Abs(), store.kv, ok) == RedisProtocol.CheckRedisLock(old(Abs()), old(store.kv))
      ensures hasTimer == (ok || old(hasTimer))
    {
      ok := store.SetNX(key, value, ttl);
      isLock := ok;
      if ok {
        // a timer of ttl/2, then the renewal task, whose start is awaited
        hasTimer := true;
        dog := Running;
      }
    }

    /** tryLockSkip(n): the gate's tryLock(n) records the acquisition with skip n. */
    method TryLockSkip(n: int, gid: int, site: SpinLockDebug.Site) returns (ok: bool)
      requires Valid()
      modifies this, gate, store
      ensures Out(Abs(), store.kv, ok) == RedisProtocol.TryLock(old(Abs()), old(store.kv))
      ensures Valid()
      ensures gate.infos == if old(gate.isLocked) == Unlocked then [SpinLockDebug.Stack(site, gid, n)] else old(gate.infos)
    {
      var got := gate.TryLockSkip(n, gid, site);
      if !got {
        return false;
      }
      ok := CheckRedisLock();
      if !ok {
        gate.Unlock();
        return false;
      }
    }

    method TryLock(gid: int, site: SpinLockDebug.Site) returns (ok: bool)
      requires Valid()
      modifies this, gate, store
      ensures Out(Abs(), store.kv, ok) == RedisProtocol.TryLock(old(Abs()), old(store.kv))
      ensures Valid()
      ensures gate.infos == if old(gate.isLocked) == Unlocked then [SpinLockDebug.Stack(site, gid, 1)] else old(gate.infos)
    {
      ok := TryLockSkip(1, gid, site);
    }

    /** One fire of the renewal timer; on stop, the code after the loop runs:
        the flag is cleared and the exit signalled. */
    method WatchDogTick()
      requires dog == Running
      modifies this
      ensures Abs() == Tick(old(Abs()), store.kv)
      ensures hasTimer == old(hasTimer)
    {
      var stop := !isLock;
      if !stop {
        var renewed := store.Expire(key, ttl);
        stop := !renewed;
      }
      if stop {
        isLock := false;
        dog := Exited;
      }
    }

    /** startWatchDog's loop: one iteration per timer fire, until it stops;
        `lapses[k]` says whether the lease lapses before fire k. */
    method StartWatchDog(lapses: seq<bool>)
      modifies this, store
      ensures View(Abs(), store.kv) == Watch(old(View(Abs(), store.kv)), lapses)
      ensures hasTimer == old(hasTimer)
    {
      ghost var v0 := View(Abs(), store.kv);
      var k := 0;
      while k < |lapses| && dog == Running
        invariant k <= |lapses|
        invariant View(Abs(), store.kv) == Watch(v0, lapses[..k])
        invariant hasTimer == old(hasTimer)
      {
        assert lapses[..k + 1][..k] == lapses[..k];
        if lapses[k] {
          store.Lapse(key);
        }
        WatchDogTick();
        k := k + 1;
      }
      if k < |lapses| {
        WatchAfterExit(v0, lapses, k);
      } else {
        assert lapses[..k] == lapses;
      }
    }

    /** Clears the flag and runs the release script only if the flag was set;
        always awaits the renewal task's exit and releases the gate. */
    method Unlock()
      requires Valid() && dog != Idle
      modifies this, gate, store
      ensures Out(Abs(), store.kv, false) == RedisProtocol.Unlock(old(Abs()), old(store.kv)).(ok := false)
      ensures Valid() && !hasTimer
      ensures gate.infos == old(gate.infos)
    {
      if isLock {
        isLock := false;
        var deleted := store.EvalCompareAndDelete(key, value);
        // tr.Reset(0): the task fires at once, sees the flag clear and exits
        WatchDogTick();
      }
      // <-dogChan
      dog := Idle;
      hasTimer := false;
      gate.Unlock();
    }

    /** The wait of Lock for the gate: a goroutine sharing this handle that
        holds it runs its Unlock; a free gate is left alone. */
    method HolderReleases()
      requires Valid()
      modifies this, gate, store
      ensures Valid() && !hasTimer
      ensures Abs() == old(Abs()).(gate := Unlocked, isLock := false, dog := Idle)
      ensures store.kv == old(store.kv) || store.kv == old(store.kv) - {key}
      ensures old(gate.isLocked) == Unlocked ==> store.kv == old(store.kv)
      ensures key !in store.kv <==> key !in old(store.kv) || (old(isLock) && old(store.kv)[key] == value)
    {
      if gate.isLocked == Locked {
        Unlock();
      }
    }

    /** Holds the gate for the whole retry loop of checkRedisLock.  If another
        goroutine sharing this handle holds the gate, its Unlock runs first, as
        in the lean build; with logging on, the stall reports list the gate's
        records, which are this caller's own acquisition. */
    method Lock(gid: int, site: SpinLockDebug.Site, env: seq<Backoff.Round>, logOut: bool, start: int)
      returns (reports: seq<SpinLockDebug.Report>, ghost rounds: nat)
      requires Valid()
      requires key !in store.kv || exists k :: 0 <= k < |env| && env[k].freed
      modifies this, gate, store
      ensures Valid()
      ensures Abs() == old(Abs()).(gate := Locked, isLock := true, dog := Running)
      ensures store.kv == old(store.kv)[key := value]
      ensures gate.infos == [SpinLockDebug.Stack(site, gid, 1)]
      ensures rounds <= |env|
      ensures rounds == 0 <==> key !in old(store.kv) || (old(isLock) && old(store.kv)[key] == value)
      ensures rounds > 0 ==> env[rounds - 1].freed
      ensures forall k :: 0 <= k < rounds - 1 ==> !env[k].freed
      ensures reports == if logOut
        then SpinLockDebug.StallReports(start, Backoff.Clock(env[..rounds]), gate.infos).reports
        else []
      ensures SpinLockDebug.Spaced(start, reports)
    {
      HolderReleases();
      ghost var released := store.kv;
      var gateReports;
      ghost var gateRounds;
      gateReports, gateRounds := gate.LockSkip(1, gid, site, [], logOut, start);
      reports, rounds := RetryCheck(env, logOut, start);
      assert released - {key} == old(store.kv) - {key};
      WriteOverDifference(released, old(store.kv), key, value);
      SpinLockDebug.StallReportsSpaced(start, Backoff.Clock(env[..rounds]), gate.infos);
    }

    /** The loop of Lock with the gate held: checkRedisLock until SET NX
        succeeds.  `env[k].freed` says whether the key disappears during failed
        round k, `env[k].now` is the clock read after it. */
    method RetryCheck(env: seq<Backoff.Round>, logOut: bool, start: int)
      returns (reports: seq<SpinLockDebug.Report>, ghost rounds: nat)
      requires gate.isLocked == Locked && !isLock && dog == Idle && !hasTimer
      requires key !in store.kv || exists k :: 0 <= k < |env| && env[k].freed
      modifies this, store
      ensures Valid()
      ensures Abs() == old(Abs()).(isLock := true, dog := Running)
      ensures store.kv == old(store.kv)[key := value]
      ensures rounds <= |env|
      ensures rounds == 0 <==> key !in old(store.kv)
      ensures rounds > 0 ==> env[rounds - 1].freed
      ensures forall k :: 0 <= k < rounds - 1 ==> !env[k].freed
      ensures reports == if logOut
        then SpinLockDebug.StallReports(start, Backoff.Clock(env[..rounds]), gate.infos).reports
        else []
    {
      var block := 1;
      var t1 := start;
      var n := 0;
      reports := [];
      while true
        invariant n <= |env|
        invariant block == Backoff.BlockAfter(n, Backoff.MaxBlock)
        invariant !isLock && dog == Idle && !hasTimer
        invariant store.kv - {key} == old(store.kv) - {key}
        invariant key !in store.kv || exists k :: n <= k < |env| && env[k].freed
        invariant n == 0 ==> store.kv == old(store.kv)
        invariant n > 0 ==> key in old(store.kv) && (key !in store.kv <==> env[n - 1].freed)
        invariant forall k :: 0 <= k < n - 1 ==> !env[k].freed
        invariant logOut ==> SpinLockDebug.Stall(reports, t1) == SpinLockDebug.StallReports(start, Backoff.Clock(env[..n]), gate.infos)
        invariant !logOut ==> reports == []
        decreases |env| - n
      {
        ghost var before := store.kv;
        var ok := CheckRedisLock();
        if ok {
          WriteOverDifference(before, old(store.kv), key, value);
          break;
        }
        if env[n].freed {
          store.Lapse(key);
          assert store.kv - {key} == before - {key};
        }
        if block < Backoff.MaxBlock {
          block := block * 2;
        }
        if logOut {
          reports, t1 := SpinLockDebug.StallTick(start, env, n, gate.infos, reports, t1);
        }
        n := n + 1;
      }
      rounds := n;
    }

    /** Bounded retries of TryLock: true exactly when the gate was free and the
        key absent, or freed in a round before the timer fired. */
    method TryLockInTime(gid: int, site: SpinLockDebug.Site, frees: seq<bool>, fireAt: nat) returns (ok: bool)
      requires Valid()
      modifies this, gate, store
      ensures Valid()
      ensures ok <==> (old(gate.isLocked) == Unlocked &&
        (key !in old(store.kv) || exists k :: 0 <= k < fireAt && k < |frees| && frees[k]))
      ensures ok ==> Abs() == old(Abs()).(gate := Locked, isLock := true, dog := Running)
      ensures ok ==> store.kv == old(store.kv)[key := value]
      ensures !ok ==> Abs() == old(Abs()) && store.kv - {key} == old(store.kv) - {key}
      ensures !ok && old(gate.isLocked) == Unlocked ==> store.kv == old(store.kv)
      ensures gate.infos == if old(gate.isLocked) == Unlocked then [SpinLockDebug.Stack(site, gid, 1)] else old(gate.infos)
    {
      var block := 1;
      var rounds := 0;
      ok := false;
      while true
        invariant Valid()
        invariant rounds <= fireAt
        invariant block == Backoff.BlockAfter(rounds, Backoff.MaxBlock)
        invariant Abs() == old(Abs())
        invariant store.kv - {key} == old(store.kv) - {key}
        invariant rounds == 0 ==> store.kv == old(store.kv)
        invariant old(gate.isLocked) == Unlocked && key in store.kv ==> store.kv == old(store.kv)
        invariant old(gate.isLocked) == Unlocked && rounds > 0 ==> key in old(store.kv)
        invariant old(gate.isLocked) == Unlocked && rounds > 0 ==>
          (key !in store.kv <==> rounds - 1 < |frees| && frees[rounds - 1])
        invariant old(gate.isLocked) == Unlocked ==>
          forall k :: 0 <= k < rounds - 1 && k < |frees| ==> !frees[k]
        invariant gate.infos == if rounds > 0 && old(gate.isLocked) == Unlocked
          then [SpinLockDebug.Stack(site, gid, 1)] else old(gate.infos)
        decreases fireAt - rounds
      {
        ghost var before := store.kv;
        var got := TryLockSkip(1, gid, site);
        if got {
          ok := true;
          WriteOverDifference(before, old(store.kv), key, value);
          break;
        }
        if rounds >= fireAt {
          break;
        }
        if rounds < |frees| && frees[rounds] {
          store.Lapse(key);
          assert store.kv - {key} == before - {key};
        }
        if block < Backoff.MaxBlock {
          block := block * 2;
        }
        rounds := rounds + 1;
      }
    }
  }
}
