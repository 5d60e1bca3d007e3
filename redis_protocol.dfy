/** The lease protocol of the current lease lock (both builds), on values: one
    handle's state, its steps against the store, the renewal task's timer
    fires, and a system of several handles over one shared store whose
    invariant gives cross-handle safety of the release script. */
module RedisProtocol {
  import opened LockWord
  import opened KvStore

  const KeyPrefix := "_redis_lock:"

  /** One second, in the nanoseconds of a duration. */
  const Second := 1_000_000_000

  /** The default lease time of the current lease lock. */
  const DefaultTtl := 30 * Second

  /** The store key of a resource name. */
  function KeyFor(name: string): (key: string)
    ensures |key| == |KeyPrefix| + |name|
    ensures key[..|KeyPrefix|] == KeyPrefix
    ensures key[|KeyPrefix|..] == name
  {
    KeyPrefix + name
  }

  /** Distinct names never share a key. */
  lemma KeyForInjective(a: string, b: string)
    requires a != b
    ensures KeyFor(a) != KeyFor(b)
  {
  }

  /** The variadic ttl argument: its first value when there is one and it is
      positive, the default otherwise. */
  function EffectiveTtl(ttl: seq<int>, default: int): (t: int)
    ensures |ttl| > 0 && ttl[0] > 0 ==> t == ttl[0]
    ensures !(|ttl| > 0 && ttl[0] > 0) ==> t == default
    ensures default > 0 ==> t > 0
  {
    if |ttl| > 0 && ttl[0] > 0 then ttl[0] else default
  }

  /** The renewal task: not started (or joined by Unlock), running, or exited
      with its signal waiting in the channel. */
  datatype Dog = Idle | Running | Exited

  /** One handle: its key and token (fixed at construction), the local gate,
      the held flag and its renewal task. */
  datatype Handle = Handle(key: string, token: string, gate: Word, isLock: bool, dog: Dog)

  /** The handle and the store after a call, and the call's result. */
  datatype Out = Out(h: Handle, kv: Kv, ok: bool)

  /** The handle's own invariant: the gate is held exactly while a renewal
      task exists, and the flag is set exactly while it runs. */
  predicate HandleValid(h: Handle)
  {
    (h.gate == Locked <==> h.dog != Idle) &&
    (h.isLock <==> h.dog == Running)
  }

  /** A handle nobody has locked. */
  predicate IsIdle(h: Handle)
  {
    h.gate == Unlocked && !h.isLock && h.dog == Idle
  }

  /** checkRedisLock: SetNX with the handle's token; the flag takes the reply,
      and on success the renewal task starts. */
  function CheckRedisLock(h: Handle, kv: Kv): (r: Out)
    ensures r.ok <==> h.key !in kv
    ensures r.kv == if r.ok then kv[h.key := h.token] else kv
    ensures r.h == h.(isLock := r.ok, dog := if r.ok then Running else h.dog)
  {
    var s := SetNXStep(kv, h.key, h.token);
    Out(h.(isLock := s.ok, dog := if s.ok then Running else h.dog), s.kv, s.ok)
  }

  /** TryLock: a busy gate fails with no store call; a failed SetNX releases the
      gate; success keeps the gate and starts renewal. */
  function TryLock(h: Handle, kv: Kv): (r: Out)
    ensures h.gate == Locked ==> r == Out(h, kv, false)
    ensures r.ok <==> h.gate == Unlocked && h.key !in kv
    ensures r.ok ==> r.kv == kv[h.key := h.token] && r.h == h.(gate := Locked, isLock := true, dog := Running)
    ensures h.gate == Unlocked && !r.ok ==> r.kv == kv && r.h == h.(isLock := false)
  {
    if h.gate.Locked? then Out(h, kv, false)
    else
      var c := CheckRedisLock(h.(gate := Locked), kv);
      if c.ok then c else Out(c.h.(gate := Unlocked), c.kv, false)
  }

  /** One fire of the renewal timer: it stops when the flag is clear or EXPIRE
      fails (the key is gone), clearing the flag; otherwise it renews.  It does
      not compare the stored value with the token. */
  function Tick(h: Handle, kv: Kv): (r: Handle)
    requires h.dog == Running
    ensures h.isLock && h.key in kv ==> r == h
    ensures !(h.isLock && h.key in kv) ==> r == h.(isLock := false, dog := Exited)
  {
    var stop := !h.isLock || !ExpireStep(kv, h.key);
    if stop then h.(isLock := false, dog := Exited) else h
  }

  /** Unlock: only a set flag runs the release script (after clearing the flag);
      then the renewal task's exit is awaited and the gate released.  `ok` says
      whether the script deleted the key. */
  function Unlock(h: Handle, kv: Kv): (r: Out)
    requires h.dog != Idle
    ensures r.h == h.(gate := Unlocked, isLock := false, dog := Idle)
    ensures h.isLock ==> Reply(r.kv, r.ok) == CompareAndDelete(kv, h.key, h.token)
    ensures !h.isLock ==> r.kv == kv && !r.ok
  {
    if h.isLock then
      var d := CompareAndDelete(kv, h.key, h.token);
      Out(h.(gate := Unlocked, isLock := false, dog := Idle), d.kv, d.ok)
    else
      Out(h.(gate := Unlocked, dog := Idle), kv, false)
  }

  /** Whatever the flag, Unlock leaves the handle idle: the gate is always
      released. */
  lemma UnlockAlwaysFreesGate(h: Handle, kv: Kv)
    requires HandleValid(h) && h.dog != Idle
    ensures IsIdle(Unlock(h, kv).h) && HandleValid(Unlock(h, kv).h)
    ensures TryLock(Unlock(h, kv).h, Unlock(h, kv).kv).ok <==> h.key !in Unlock(h, kv).kv
  {
  }

  /** A held lease that lapses and is given up by the renewal task: Unlock still
      releases the gate, and the handle can acquire the key again. */
  lemma RecoversAfterLapse(h: Handle, kv: Kv)
    requires HandleValid(h) && h.dog == Running
    ensures var t := Tick(h, kv - {h.key});
      var u := Unlock(t, kv - {h.key});
      IsIdle(u.h) && u.kv == kv - {h.key} && TryLock(u.h, u.kv).ok
  {
  }

  /** The handle and the store as the renewal task sees them. */
  datatype View = View(h: Handle, kv: Kv)

  /** One timer fire, preceded by the lease's lapse when `lapse` holds; a task
      that has exited sees nothing more. */
  function Fire(v: View, lapse: bool): (r: View)
    ensures v.h.dog != Running ==> r == v
    ensures r.h.key == v.h.key && r.h.token == v.h.token && r.h.gate == v.h.gate
    ensures v.h.dog == Running ==> r.kv == if lapse then v.kv - {v.h.key} else v.kv
  {
    if v.h.dog != Running then v
    else
      var kv := if lapse then v.kv - {v.h.key} else v.kv;
      View(Tick(v.h, kv), kv)
  }

  /** The timer fires of one renewal task, in order. */
  function Watch(v: View, lapses: seq<bool>): (r: View)
    ensures r.h.key == v.h.key && r.h.token == v.h.token && r.h.gate == v.h.gate
  {
    if lapses == [] then v else Fire(Watch(v, lapses[..|lapses| - 1]), lapses[|lapses| - 1])
  }

  /** Renewal keeps the handle's invariant, its gate and its identity, and the
      store only loses the handle's key. */
  lemma {:induction false} WatchKeepsValid(v: View, lapses: seq<bool>)
    requires HandleValid(v.h)
    ensures HandleValid(Watch(v, lapses).h)
    ensures Watch(v, lapses).h.gate == v.h.gate
    ensures Watch(v, lapses).h.key == v.h.key && Watch(v, lapses).h.token == v.h.token
    ensures Watch(v, lapses).kv == v.kv || Watch(v, lapses).kv == v.kv - {v.h.key}
  {
    if lapses != [] {
      var init := lapses[..|lapses| - 1];
      WatchKeepsValid(v, init);
      var w := Watch(v, init);
      assert w.kv - {v.h.key} - {v.h.key} == v.kv - {v.h.key};
    }
  }

  /** As long as the key stays (no lapse), a held lease stays held, however many
      times the timer fires. */
  lemma {:induction false} WatchRenewsWhileKeyStays(v: View, lapses: seq<bool>)
    requires v.h.dog == Running && v.h.isLock && v.h.key in v.kv
    requires forall k :: 0 <= k < |lapses| ==> !lapses[k]
    ensures Watch(v, lapses) == v
  {
    if lapses != [] {
      WatchRenewsWhileKeyStays(v, lapses[..|lapses| - 1]);
    }
  }

  /** After the first lapse the very next fire stops the task and clears the
      flag: the handle stops believing it holds within one renewal interval. */
  lemma WatchStopsAtLapse(v: View, lapses: seq<bool>, k: nat)
    requires v.h.dog == Running && v.h.isLock && v.h.key in v.kv
    requires k < |lapses| && lapses[k]
    requires forall j :: 0 <= j < k ==> !lapses[j]
    ensures Watch(v, lapses[..k + 1]).h == v.h.(isLock := false, dog := Exited)
    ensures Watch(v, lapses[..k + 1]).kv == v.kv - {v.h.key}
  {
    assert lapses[..k + 1][..k] == lapses[..k];
    WatchRenewsWhileKeyStays(v, lapses[..k]);
  }

  /** Once the task has exited, later fires change nothing. */
  lemma {:induction false} WatchAfterExit(v: View, lapses: seq<bool>, k: nat)
    requires k <= |lapses|
    requires Watch(v, lapses[..k]).h.dog != Running
    ensures Watch(v, lapses) == Watch(v, lapses[..k])
  {
    if k < |lapses| {
      var init := lapses[..|lapses| - 1];
      assert init[..k] == lapses[..k];
      WatchAfterExit(v, init, k);
      assert lapses[..|lapses|] == lapses;
    } else {
      assert lapses[..k] == lapses;
    }
  }

  // ---------------------------------------------------------------------
  // Several handles over one store.

  datatype Sys = Sys(kv: Kv, hs: seq<Handle>)

  /** One atomic step: an operation of handle i, or a lease lapsing. */
  datatype Action = DoTryLock(i: nat) | DoUnlock(i: nat) | DoTick(i: nat) | DoLapse(key: string)

  predicate Enabled(s: Sys, a: Action)
  {
    match a
    case DoTryLock(i) => i < |s.hs|
    case DoUnlock(i) => i < |s.hs| && s.hs[i].dog != Idle
    case DoTick(i) => i < |s.hs| && s.hs[i].dog == Running
    case DoLapse(_) => true
  }

  function Next(s: Sys, a: Action): (r: Sys)
    requires Enabled(s, a)
    ensures |r.hs| == |s.hs|
  {
    match a
    case DoTryLock(i) =>
      var o := TryLock(s.hs[i], s.kv);
      Sys(o.kv, s.hs[i := o.h])
    case DoUnlock(i) =>
      var o := Unlock(s.hs[i], s.kv);
      Sys(o.kv, s.hs[i := o.h])
    case DoTick(i) => Sys(s.kv, s.hs[i := Tick(s.hs[i], s.kv)])
    case DoLapse(key) => Sys(s.kv - {key}, s.hs)
  }

  /** The store holds handle i's token under handle i's key. */
  predicate Holds(s: Sys, i: nat)
    requires i < |s.hs|
  {
    s.hs[i].key in s.kv && s.kv[s.hs[i].key] == s.hs[i].token
  }

  predicate DistinctTokens(hs: seq<Handle>)
  {
    forall i, j :: 0 <= i < j < |hs| ==> hs[i].token != hs[j].token
  }

  /** The system invariant: tokens are distinct, every handle keeps its own
      invariant, and the store holds a handle's token only while that handle's
      flag is set. */
  predicate Inv(s: Sys)
  {
    DistinctTokens(s.hs) &&
    forall i :: 0 <= i < |s.hs| ==> HandleValid(s.hs[i]) && (Holds(s, i) ==> s.hs[i].isLock)
  }

  /** Freshly constructed handles over a store that holds none of their tokens. */
  lemma InitInv(s: Sys)
    requires DistinctTokens(s.hs)
    requires forall i :: 0 <= i < |s.hs| ==> IsIdle(s.hs[i]) && !Holds(s, i)
    ensures Inv(s)
  {
  }

  lemma NextKeepsInv(s: Sys, a: Action)
    requires Inv(s) && Enabled(s, a)
    ensures Inv(Next(s, a))
  {
    var r := Next(s, a);
    assert forall i :: 0 <= i < |r.hs| ==> r.hs[i].token == s.hs[i].token && r.hs[i].key == s.hs[i].key;
    match a
    case DoTryLock(i) =>
      forall j | 0 <= j < |r.hs| && Holds(r, j)
        ensures r.hs[j].isLock
      {
      }
    case DoUnlock(i) =>
      CompareAndDeleteSparesOthers(s.kv, s.hs[i].key, s.hs[i].token);
      forall j | 0 <= j < |r.hs| && Holds(r, j)
        ensures r.hs[j].isLock
      {
        assert Holds(s, j);
      }
    case DoTick(i) =>
    case DoLapse(key) =>
      forall j | 0 <= j < |r.hs| && Holds(r, j)
        ensures r.hs[j].isLock
      {
        assert Holds(s, j);
      }
  }

  /** The release script of handle i never deletes a key holding another token:
      every other handle whose lease the store holds still holds it. */
  lemma UnlockSparesOthers(s: Sys, i: nat)
    requires Inv(s) && Enabled(s, DoUnlock(i))
    ensures forall k :: k in s.kv && s.kv[k] != s.hs[i].token ==>
      k in Next(s, DoUnlock(i)).kv && Next(s, DoUnlock(i)).kv[k] == s.kv[k]
    ensures forall j :: 0 <= j < |s.hs| && j != i && Holds(s, j) ==> Holds(Next(s, DoUnlock(i)), j)
  {
    CompareAndDeleteSparesOthers(s.kv, s.hs[i].key, s.hs[i].token);
    forall j | 0 <= j < |s.hs| && j != i && Holds(s, j)
      ensures Holds(Next(s, DoUnlock(i)), j)
    {
      assert s.hs[j].token != s.hs[i].token;
    }
  }

  /** Only a lapse takes a lease away from the handle that holds it. */
  lemma OnlyLapseRevokes(s: Sys, a: Action, j: nat)
    requires Inv(s) && Enabled(s, a) && !a.DoLapse?
    requires j < |s.hs| && Holds(s, j)
    requires a.DoUnlock? ==> a.i != j
    ensures Holds(Next(s, a), j)
  {
    if a.DoUnlock? {
      UnlockSparesOthers(s, a.i);
    }
  }

  /** A stale handle: A's lease lapses and B acquires the key; A's renewal task
      still succeeds (it refreshes B's key) and both flags are set.  The flags
      are not mutually exclusive; the invariant only ties the stored token to
      its own handle. */
  lemma StaleRenewal()
    ensures
      var a := Handle(KeyFor("order-42"), "tokenA", Unlocked, false, Idle);
      var b := Handle(KeyFor("order-42"), "tokenB", Unlocked, false, Idle);
      var s0 := Sys(map[], [a, b]);
      var s1 := Next(s0, DoTryLock(0));
      var s2 := Next(s1, DoLapse(KeyFor("order-42")));
      var s3 := Next(s2, DoTryLock(1));
      var s4 := Next(s3, DoTick(0));
      Inv(s4) && s4.hs[0].isLock && s4.hs[1].isLock && !Holds(s4, 0) && Holds(s4, 1)
  {
  }

  /** Two handles for "order-42": A acquires, B's TryLock fails, A's Unlock
      deletes the key, and B's next TryLock succeeds. */
  lemma TwoHandleScenario()
    ensures
      var a := Handle(KeyFor("order-42"), "tokenA", Unlocked, false, Idle);
      var b := Handle(KeyFor("order-42"), "tokenB", Unlocked, false, Idle);
      var s0 := Sys(map[], [a, b]);
      var s1 := Next(s0, DoTryLock(0));
      var s2 := Next(s1, DoTryLock(1));
      var s3 := Next(s2, DoUnlock(0));
      var s4 := Next(s3, DoTryLock(1));
      Holds(s1, 0) && s2 == s1 && KeyFor("order-42") !in s3.kv && Holds(s4, 1) && s4.hs[1].isLock
  {
  }
}
