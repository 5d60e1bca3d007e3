# Lock primitives of ameise84/lock, modelled in Dafny

The Go package provides several locks:

- a spin lock over an atomic state word, with bounded exponential backoff (1, 2, 4, … 64 yields per failed round);
- a reentrant lock that layers an owner goroutine id and a uint64 recursion count over that spin lock;
- a distributed lock over a Redis-like store, guarded by a local spin-lock gate, with a per-handle token, a held flag and a renewal ("watchdog") task that refreshes the lease every half time-to-live;
- a resettable `Once` guarded by the spin lock.

Each lock exists in a lean build and a diagnostic build. The diagnostic build records acquisition sites and writes a stall report after more than five seconds of waiting. The distributed lock also has an older variant, `redis_lock.go`. That file carries no build tag, so it is modelled as a separate variant (`RedisLockLegacy`) beside the two tagged builds.

Each public operation is modelled as one atomic step over explicit state:

- Each Go struct is a class whose methods change its fields.
- Every single-step method is proved against a pure step function on a value of the state (`LockWord.CompareAndSwap`, `ReinModel.TryRein`, `RedisProtocol.TryLock`, `Once.DoStep`, …).
- The properties are lemmas about those functions.

A retry loop is a `while` loop over an oracle that describes the environment round by round:

- `releases[k]`: the holder unlocks during the yields of failed round `k`.
- `frees[k]`: the store loses the key during round `k`.
- `fireAt`: the round at which the deadline check sees the timer fired.
- `Backoff.Round(freed, now)`: the round's release and the clock read after it, for the diagnostic builds.

The lock word is `Unlocked`/`Locked`. The store is a `map<string, string>`. A lease running out is the separate `Lapse` step.

`RedisProtocol` also models several handles over one shared store (`Sys`). It proves an invariant of that system: the store holds a handle's token only while that handle's flag is set. Separately, because the release script compares the stored value with the caller's token and tokens are distinct, one handle's Unlock never takes away another handle's lease.

## Model

| member | source | states |
|---|---|---|
| LockWord.CompareAndSwap | spin_lock_release.go:31-33 | the swap succeeds exactly on `Unlocked`, the word is `Locked` afterwards, and a failed swap leaves the word as it was |
| LockWord.NotReentrant | spin_lock_release.go:31-33 | a second TryLock right after any first one fails: the spin lock is not reentrant |
| Backoff.BlockAfter | spin_lock_release.go:25-27 | the counter after r failed rounds, doubling while below the cap: always at least 1 and below twice the cap |
| Backoff.BlockAfterClosedForm | spin_lock_release.go:16-27 | the block counter after r failed rounds with cap 2^m is 2^r up to round m and 2^m after that |
| Backoff.BlockBounded | spin_lock_release.go:16-27 | the counter is always a power of two between 1 and the cap, and stays at the cap once it reaches it |
| Backoff.SpinBlockBounds | spin_lock_release.go:16-27 | the 64-capped loops yield between 1 and 64 times per round, and exactly 64 from round 6 on |
| Backoff.LegacyBlockBounds | redis_lock.go:55-66 | the older lease lock's loop caps at 256 (from round 8), and is at 128 in round 7 |
| SpinLockRelease.SpinLock.constructor | spin_lock_release.go:11-13 | the zero value is unlocked |
| SpinLockRelease.SpinLock.TryLock | spin_lock_release.go:31-33 | true exactly when the lock was free; afterwards it is held; a failure changes nothing |
| SpinLockRelease.SpinLock.Unlock | spin_lock_release.go:62-64 | unconditionally stores `Unlocked`, also on a free lock |
| SpinLockRelease.SpinLock.Lock | spin_lock_release.go:15-29 | returns holding the lock; it acquires in round 0 exactly when the lock was free, and otherwise in the round right after the holder's first release |
| SpinLockRelease.SpinLock.TryLockInTime | spin_lock_release.go:35-60 | true exactly when the lock was free or was released in a round before the timer fired; false leaves it held by the other party |
| SpinLockDebug.StallReports | spin_lock_debug.go:41-44 | the reports the stall rule writes over a wait's clock readings: at most one per reading, and with none the window still starts at the start |
| SpinLockDebug.StallTick | spin_lock_debug.go:41-54 | one failed round of a logging waiter: its bookkeeping after the round is the stall rule's over one more clock reading |
| SpinLockDebug.StallReportsSpaced | spin_lock_debug.go:41-54 | reports come more than five seconds apart and the first comes more than five seconds after the start; each lists the holder records and the time waited, at a clock reading of a failed round; there are at most as many reports as rounds |
| SpinLockDebug.SpacedPairwise | spin_lock_debug.go:41-54 | between reports i < j more than (j - i) times five seconds pass |
| SpinLockDebug.SpinLock.constructor | spin_lock_debug.go:21-24 | the zero value is unlocked with no records |
| SpinLockDebug.SpinLock.RecordLockIndex | spin_lock_debug.go:112-116 | appends exactly one record (site, gid, skip) and keeps the earlier ones |
| SpinLockDebug.SpinLock.TryLockSkip | spin_lock_debug.go:99-106 | the compare-and-swap; success truncates the records and leaves exactly the caller's record; failure changes nothing |
| SpinLockDebug.SpinLock.TryLock | spin_lock_debug.go:62-64 | tryLock(0): success leaves exactly one record with skip 0 |
| SpinLockDebug.SpinLock.Unlock | spin_lock_debug.go:108-110 | frees the lock and leaves the records in place |
| SpinLockDebug.SpinLock.LockSkip | spin_lock_debug.go:26-56 | returns holding the lock with exactly the caller's record (skip n); with logging on, the reports written are exactly the stall rule's over the clock reads of the failed rounds, listing the records found at entry; with logging off there are none |
| SpinLockDebug.SpinLock.Lock | spin_lock_debug.go:58-60 | LockSkip(1): holds with the skip-1 record, acquires in the same round as LockSkip, writes exactly the stall rule's reports when logging is on and none when it is off, and those reports are spaced more than five seconds apart |
| SpinLockDebug.SpinLock.TryLockInTime | spin_lock_debug.go:66-97 | as in the lean build, with a skip-0 record on success and the records unchanged on failure |
| ReinModel.Inc64 | spin_rlock_release.go:73 | uint64 `count += 1`: stays below 2^64 and is `count + 1` unless it wraps |
| ReinModel.Dec64 | spin_rlock_release.go:90 | uint64 `count -= 1`: 0 wraps to 2^64 - 1 |
| ReinModel.TrySpin | spin_rlock_release.go:80-87 | succeeds exactly when the spin lock is free, and then the caller owns it with count 1; a failure changes nothing |
| ReinModel.TryRein | spin_rlock_release.go:71-78 | the owner re-enters by incrementing the count without touching the spin lock; anyone else falls through to TrySpin |
| ReinModel.Unlock | spin_rlock_release.go:89-95 | decrements; exactly when the count reaches 0, the sentinel becomes the owner and the spin lock is released |
| ReinModel.NonOwnerFails | spin_rlock_release.go:71-87 | on a held lock, another goroutine's attempt fails and changes nothing |
| ReinModel.OnlyOwnerAcquiresHeld | spin_rlock_release.go:71-87 | on a held lock, an attempt succeeds if and only if the caller is the owner |
| ReinModel.TryReinKeepsValid | spin_rlock_release.go:71-87 | an attempt by a real goroutine keeps the invariant: count > 0 iff held iff owned by a real id |
| ReinModel.UnlockKeepsValid | spin_rlock_release.go:89-95 | Unlock of a held lock keeps the invariant |
| ReinModel.UnlockUnheldBreaksValid | spin_rlock_release.go:89-95 | Unlock of a free lock wraps the count to 2^64 - 1 with the spin lock free, which breaks the invariant |
| ReinModel.LockNFromFree | spin_rlock_release.go:71-87 | n nested acquisitions from free give the caller ownership with count n |
| ReinModel.UnlockNFromHeld | spin_rlock_release.go:89-95 | k releases of a count-m lock leave count m - k, and the k-th release with k = m frees it |
| ReinModel.NestedLockUnlock | spin_rlock_release.go:71-95 | n acquisitions and n releases return to a free, valid lock, which another goroutine then acquires at once |
| ReinLockRelease.ReinLock.constructor | spin_rlock_release.go:11-15 | the zero value: free, no owner, count 0 |
| ReinLockRelease.ReinLock.TrySpinLock | spin_rlock_release.go:80-87 | the state moves exactly as TrySpin |
| ReinLockRelease.ReinLock.TryReinLock | spin_rlock_release.go:71-78 | the state moves exactly as TryRein |
| ReinLockRelease.ReinLock.TryLock | spin_rlock_release.go:38-41 | the state moves as TryRein and keeps the invariant |
| ReinLockRelease.ReinLock.Unlock | spin_rlock_release.go:89-95 | the state moves as ReinModel.Unlock with sentinel -1, and an Unlock of a held lock keeps the invariant |
| ReinLockRelease.ReinLock.OwnerReleases | spin_rlock_release.go:89-95 | the environment step of the retry loops: the owner's remaining Unlocks leave the lock free with the sentinel -1 as owner |
| ReinLockRelease.ReinLock.Lock | spin_rlock_release.go:17-36 | returns owned by the caller: the count is one more than before on re-entry and 1 otherwise |
| ReinLockRelease.ReinLock.TryLockInTime | spin_rlock_release.go:43-69 | true exactly when the caller owned it, it was free, or the owner released it before the timer fired; false changes nothing |
| ReinLockDebug.TryReinRecords | spin_rlock_debug.go:88-105 | the state moves as TryRein; a re-entry appends a skip-3 record; a won spin lock leaves exactly a skip-5 record; a failure changes nothing |
| ReinLockDebug.NestRecords | spin_rlock_debug.go:88-105 | n nested acquisitions from free leave count n and n records: the first with skip 5, the rest with skip 3, at their own sites |
| ReinLockDebug.ReinLock.constructor | spin_rlock_debug.go:13-17 | the zero value with no records |
| ReinLockDebug.ReinLock.TrySpinLock | spin_rlock_debug.go:98-105 | as TrySpin; success leaves exactly the skip-5 record |
| ReinLockDebug.ReinLock.TryReinLock | spin_rlock_debug.go:88-96 | state and records move exactly as TryReinRecords |
| ReinLockDebug.ReinLock.TryLock | spin_rlock_debug.go:55-58 | as TryReinRecords, keeping the invariant |
| ReinLockDebug.ReinLock.Unlock | spin_rlock_debug.go:107-113 | as ReinModel.Unlock with sentinel 0; the records stay |
| ReinLockDebug.ReinLock.OwnerReleases | spin_rlock_debug.go:107-113 | the owner's remaining Unlocks leave the lock free with the sentinel 0 as owner, and the records in place |
| ReinLockDebug.ReinLock.Lock | spin_rlock_debug.go:19-53 | returns owned by the caller with the right count and records; it waits no round exactly when it re-enters or finds the lock free, and otherwise acquires in the round after the first one in which the holder releases; the stall reports are exactly the stall rule's over those failed rounds |
| ReinLockDebug.ReinLock.SpinRetry | spin_rlock_debug.go:26-52 | the backoff loop on a lock held by another goroutine: acquires with count 1 and the skip-5 record right after the first round in which the holder releases, and reports exactly the stall rule's over the rounds before |
| ReinLockDebug.ReinLock.TryLockInTime | spin_rlock_debug.go:60-86 | as in the lean build, with the records of each success; false changes nothing |
| KvStore.SetNXStep | redis_lock_release.go:130 | SET NX writes exactly an absent key, and reports whether it did |
| KvStore.CompareAndDelete | redis_lock_release.go:15-23 | the script deletes the key exactly when it holds the token; otherwise the store is unchanged |
| KvStore.SetNXKeepsPresent | redis_lock_release.go:130 | SET NX never changes a present key, and adds at most the one key |
| KvStore.CompareAndDeleteSparesOthers | redis_lock_release.go:15-23 | the script only deletes, and never a key holding another token |
| KvStore.Store.SetNX | redis_lock_release.go:130-131 | the store and the reply move as SetNXStep |
| KvStore.Store.Expire | redis_lock_release.go:152-153 | EXPIRE replies true exactly when the key exists |
| KvStore.Store.EvalCompareAndDelete | redis_lock_release.go:120 | the store and the reply move as CompareAndDelete |
| KvStore.Store.Lapse | redis_lock_release.go:130 | the environment step: the key's time-to-live, set by SET NX, runs out, and exactly that key leaves the store |
| RedisProtocol.KeyFor | redis_lock_release.go:40 | the key is `_redis_lock:` followed by the name |
| RedisProtocol.KeyForInjective | redis_lock_release.go:40 | distinct names get distinct keys |
| RedisProtocol.EffectiveTtl | redis_lock_release.go:34-37 | the first ttl argument if there is one and it is positive, else the default |
| RedisProtocol.CheckRedisLock | redis_lock_release.go:129-140 | succeeds exactly when the key is absent; the flag takes the reply; success writes the token and starts renewal |
| RedisProtocol.TryLock | redis_lock_release.go:76-85 | a busy gate fails with no store call; otherwise it succeeds exactly when the key is absent, and a failure releases the gate |
| RedisProtocol.Tick | redis_lock_release.go:148-160 | a timer fire renews while the flag is set and the key exists; otherwise the task stops and clears the flag |
| RedisProtocol.Unlock | redis_lock_release.go:118-127 | only a set flag runs the release script; the gate is always released and the task joined |
| RedisProtocol.UnlockAlwaysFreesGate | redis_lock_release.go:118-127 | after Unlock the handle is idle, and its next TryLock succeeds exactly when the key is absent |
| RedisProtocol.RecoversAfterLapse | redis_lock_release.go:118-167 | a lease that lapses and is given up by the task still ends idle after Unlock, and the handle can acquire again |
| RedisProtocol.Fire | redis_lock_release.go:146-159 | one timer fire, after an optional lapse of the key: an exited task sees nothing, and a fire never changes the handle's key, token or gate |
| RedisProtocol.Watch | redis_lock_release.go:145-159 | the fires of one task in order: the handle's key, token and gate stay |
| RedisProtocol.WatchKeepsValid | redis_lock_release.go:142-167 | renewal keeps the handle invariant, its gate and identity; at most the handle's own key goes |
| RedisProtocol.WatchRenewsWhileKeyStays | redis_lock_release.go:148-157 | while the key stays, any number of fires keeps the lease held |
| RedisProtocol.WatchStopsAtLapse | redis_lock_release.go:152-160 | the fire after the first lapse stops the task and clears the flag |
| RedisProtocol.WatchAfterExit | redis_lock_release.go:145-166 | once the task has exited, later fires change nothing |
| RedisProtocol.Next | redis_lock_release.go:76-167 | one step of one handle or one lapse keeps the number of handles |
| RedisProtocol.InitInv | redis_lock_release.go:30-45 | fresh handles with distinct tokens satisfy the system invariant |
| RedisProtocol.NextKeepsInv | redis_lock_release.go:76-167 | every step keeps the system invariant: a token in the store implies its handle's flag is set |
| RedisProtocol.UnlockSparesOthers | redis_lock_release.go:118-122 | one handle's Unlock never removes a key holding another token, so every other held lease stays held |
| RedisProtocol.OnlyLapseRevokes | redis_lock_release.go:76-167 | no step except a lapse, or the holder's own Unlock, takes a held lease away |
| RedisProtocol.StaleRenewal | redis_lock_release.go:148-157 | after a lapse and a re-acquisition by B, A's next renewal still succeeds: both flags are set, and only B's token is stored |
| RedisProtocol.TwoHandleScenario | redis_lock_release.go:76-127 | A acquires, B fails with no change, A's Unlock deletes the key, and B then acquires |
| RedisLockRelease.RedisLock.constructor | redis_lock_release.go:30-45 | prefixed key, lease time as EffectiveTtl with 30 s default, idle handle |
| RedisLockRelease.RedisLock.CheckRedisLock | redis_lock_release.go:129-140 | the handle and the store move as RedisProtocol.CheckRedisLock |
| RedisLockRelease.RedisLock.TryLock | redis_lock_release.go:76-85 | the handle and the store move as RedisProtocol.TryLock, keeping the handle invariant |
| RedisLockRelease.RedisLock.WatchDogTick | redis_lock_release.go:148-160 | one fire moves the handle as RedisProtocol.Tick |
| RedisLockRelease.RedisLock.StartWatchDog | redis_lock_release.go:142-167 | the fires move the handle and the store as RedisProtocol.Watch |
| RedisLockRelease.RedisLock.Unlock | redis_lock_release.go:118-127 | the handle and the store move as RedisProtocol.Unlock; the timer is cleared |
| RedisLockRelease.RedisLock.Lock | redis_lock_release.go:59-74 | returns holding gate and lease with renewal running, and the store is the old one with the token under the key |
| RedisLockRelease.RedisLock.TryLockInTime | redis_lock_release.go:87-116 | true exactly when the gate was free and the key was absent or freed before the timer fired; false leaves the handle as it was |
| RedisLockDebug.RedisLock.constructor | redis_lock_debug.go:32-47 | as in the lean build |
| RedisLockDebug.RedisLock.CheckRedisLock | redis_lock_debug.go:157-168 | as RedisProtocol.CheckRedisLock |
| RedisLockDebug.RedisLock.TryLockSkip | redis_lock_debug.go:146-155 | as RedisProtocol.TryLock; when the gate was free it holds exactly the caller's skip-n record |
| RedisLockDebug.RedisLock.TryLock | redis_lock_debug.go:100-102 | tryLockSkip(1) |
| RedisLockDebug.RedisLock.WatchDogTick | redis_lock_debug.go:176-188 | one fire as RedisProtocol.Tick |
| RedisLockDebug.RedisLock.StartWatchDog | redis_lock_debug.go:170-195 | the fires as RedisProtocol.Watch |
| RedisLockDebug.RedisLock.Unlock | redis_lock_debug.go:135-144 | as RedisProtocol.Unlock; the gate's records stay |
| RedisLockDebug.RedisLock.Lock | redis_lock_debug.go:61-98 | as in the lean build, with the gate holding the caller's skip-1 record; no round fails exactly when the key is absent once the gate is won (absent before, or removed by the holder's own Unlock), and otherwise SET NX succeeds in the round after the first one in which the key disappears; with logging on, the reports are exactly the stall rule's over those failed rounds, spaced more than five seconds apart |
| RedisLockDebug.RedisLock.HolderReleases | redis_lock_debug.go:66 | the wait of `mu.LockSkip(1)` for a gate held through this handle: the holder's Unlock leaves the handle idle, and the store loses at most this handle's key, which it loses exactly when the flag was set and the key held this handle's token |
| RedisLockDebug.RedisLock.RetryCheck | redis_lock_debug.go:67-97 | with the gate held, retries checkRedisLock until SET NX succeeds: no round fails exactly when the key is absent, and otherwise it succeeds in the round after the first one in which the key disappears; it ends holding the lease with renewal running and the token written over the old store, and with logging on its reports are exactly the stall rule's over the failed rounds |
| RedisLockDebug.RedisLock.TryLockInTime | redis_lock_debug.go:104-133 | as in the lean build, with the skip-1 record of each attempt that won the gate |
| RedisLockLegacy.TryLockStep | redis_lock.go:70-85 | a busy gate fails with no store call; otherwise the flag takes SET NX's reply and a failure releases the gate; the WaitGroup counter is unchanged |
| RedisLockLegacy.Tick | redis_lock.go:105-120 | renews while the flag is set and the key exists; otherwise the task exits, clearing the flag, leaving the gate held, and calling `wg.Done()`, which lowers the counter |
| RedisLockLegacy.UnlockStep | redis_lock.go:87-97 | with the flag clear nothing happens at all; with it set the script runs, `wg.Add(1)` is matched by the woken task's exit, and the gate is released |
| RedisLockLegacy.StepsKeepValid | redis_lock.go:70-121 | TryLock and Unlock keep the invariant (flag iff task iff gate held, counter 0); a fire renews while the key is there and crashes the process once it is gone |
| RedisLockLegacy.LapseCrashes | redis_lock.go:105-120 | the fire after a lapse drives the WaitGroup counter to -1 (a panic that ends the process), with the gate held and the flag clear |
| RedisLockLegacy.CrashedStops | redis_lock.go:120 | after the panic no operation runs |
| RedisLockLegacy.WedgedForever | redis_lock.go:70-97 | were the process to survive with the gate held and the flag clear, no sequence of TryLock, Unlock, fires and lapses would change the handle or succeed |
| RedisLockLegacy.LegacyLapseTrace | redis_lock.go:70-121 | from a fresh handle: acquire, lapse and one fire crash the process with the gate held, and nothing runs afterwards; had it survived, Unlock would do nothing and TryLock would fail forever |
| RedisLockLegacy.RedisLock.constructor | redis_lock.go:27-41 | prefixed key, lease time as EffectiveTtl with 10 s default, idle handle with counter 0 |
| RedisLockLegacy.RedisLock.TryLock | redis_lock.go:70-85 | the handle and the store move as TryLockStep |
| RedisLockLegacy.RedisLock.WatchDogTick | redis_lock.go:105-120 | one fire as Tick, including the exit's `wg.Done()` |
| RedisLockLegacy.RedisLock.Unlock | redis_lock.go:87-97 | the handle and the store move as UnlockStep |
| RedisLockLegacy.RedisLock.Lock | redis_lock.go:54-68 | retries TryLock with the 256 cap; returns holding gate and lease with the token stored |
| Once.DoStep | once.go:16-33 | nil sets the flag without a call; otherwise the callback runs exactly when the flag is 0, and the flag is then 1 |
| Once.ResetStep | once.go:12-14 | Reset clears the flag and runs nothing |
| Once.DoAllAtMostOnce | once.go:16-33 | over any series of Do calls without Reset at most one callback runs: the first, if the flag was clear and it was not nil |
| Once.ResetRearms | once.go:12-33 | after Reset the next Do with a callback runs it |
| Once.Once.constructor | once.go:7-10 | the zero value: flag 0, nothing called, lock free |
| Once.Once.Reset | once.go:12-14 | as ResetStep |
| Once.Once.Do | once.go:16-24 | as DoStep |
| Once.Once.DoSlow | once.go:26-33 | re-checks the flag under the spin lock, as DoStep, and releases the lock |

## Left out

- Goroutine interleaving, `atomic` memory ordering, `sync.WaitGroup` and the `dogChan` start/stop handshake. Each method is one atomic step, and the other parties act only through the oracles and through `OwnerReleases`/`Lapse`. The older variant's WaitGroup is kept only as its counter, because its renewal task's give-up exit calls `wg.Done()` with no matching `Add`; the panic that follows is modelled as the terminal `Crashed` state.
- `runtime.Gosched` yields: only the block counter that sizes them is modelled (`Backoff`).
- Timers: a deadline is the oracle round `fireAt`. The renewal period `ttl/2` and the `Stop`/drain of timers are not modelled. The `TryLockInTime` of the lean SpinLock and of both ReinLock builds never stops or drains its timer; those of the diagnostic SpinLock and of both lease-lock builds do.
- Time-to-live values: SET NX and EXPIRE take `ttl`, but the store keeps no expiry times. A lease running out is the separate `Lapse` step.
- The Redis client transport, `ScriptLoad`/`EvalSha` and script caching (`scriptOnce`). The store is an in-memory map, and the script is `CompareAndDelete`.
- KvStore: the store never fails. SET NX, EXPIRE and the script reply exactly as the map dictates. In the code a failed EXPIRE reply (a network error, say) is treated like a missing key and clears the flag while the token may still be stored; that case is outside the model, and the invariant of `RedisProtocol.NextKeepsInv` does not cover it.
- `getGID`, `runtime.Caller` and the xid token generator are parameters (`gid`, `site`, `token`). Log formatting, `CheckDead`, the log file and the logger are not modelled. A stall report is modelled as its time, its wait and the records it lists.
- SpinLockRelease.SpinLock.Lock, SpinLockDebug.SpinLock.LockSkip, SpinLockDebug.SpinLock.Lock, ReinLockRelease.ReinLock.Lock, ReinLockDebug.ReinLock.Lock, ReinLockDebug.ReinLock.SpinRetry, RedisLockRelease.RedisLock.Lock, RedisLockDebug.RedisLock.Lock, RedisLockDebug.RedisLock.RetryCheck, RedisLockLegacy.RedisLock.Lock: a wait that never ends is excluded by the requires clause, which asks that the lock is free or is released in some round of the oracle.
- RedisLockRelease.RedisLock.Lock, RedisLockDebug.RedisLock.Lock, RedisLockLegacy.RedisLock.Lock: if another goroutine sharing the handle holds the local gate, `mu.Lock()` (or, in the older variant, the TryLock retries) gets the gate after that goroutine's `Unlock`. The model runs that `Unlock` first and then takes the free gate, so contention on the gate inside the loop is not modelled.
- RedisLockRelease.RedisLock.TryLockInTime, RedisLockDebug.RedisLock.TryLockInTime: a busy local gate stays busy for the whole wait; releases of the gate during the wait are not modelled.
- RedisLockRelease.RedisLock.Unlock, RedisLockDebug.RedisLock.Unlock: require a running or exited renewal task. On a handle that was never locked, the code blocks forever on `<-dogChan`.
- ReinLockRelease.ReinLock.TryLock, ReinLockRelease.ReinLock.Lock, ReinLockRelease.ReinLock.TryLockInTime (and the same methods of ReinLockDebug) require `count + 1 < 2^64` on re-entry, so the invariant survives. The wrap itself is modelled in `Inc64`.
- ReinLockDebug.ReinLock.Lock: the holder records listed in its reports are those found at entry. The code re-reads them on each report, but no modelled step changes them during the wait. Its reports also carry `waited`, measured from the first clock read; this build's message prints no elapsed time, so that field has no counterpart in its log.
- Once: a panicking callback is not modelled, and neither is a callback that calls `Do` on the same `Once` (which deadlocks in the code). Callbacks are ids appended to `called`.
- Once and `RedisLockLegacy` use the lean build's spin lock. The diagnostic build's records are not modelled for them.

## Findings

| source | as written | input that shows it | evidently intended | confidence | as-written member | corrected member |
|---|---|---|---|---|---|---|
| redis_lock.go:78-120 | when EXPIRE fails the renewal task exits on its own and calls `wg.Done()` a second time (:120; TryLock's `Add` at :78 was already matched at :102), so the counter goes negative and the process panics; were it to survive, `Unlock` (:88) would skip everything because the task cleared `isLock`, and the gate would stay held forever | TryLock succeeds; the key lapses; the timer fires | the task's exit is signalled once and Unlock always joins it and releases the gate, as the current variant does with its buffered channel; the handle can lock again | not executed; high | RedisLockLegacy.LegacyLapseTrace | RedisProtocol.RecoversAfterLapse |
