/** The reentrant lock as a pure state machine: the word of the embedded spin
    lock, the owner's goroutine id and the recursion count.  Both builds share
    it; they differ only in the sentinel stored as owner on the final release
    (-1 in the lean build, 0 in the diagnostic one). */
module ReinModel {
  import opened LockWord

  /** The count is a uint64. */
  const U64 := 0x1_0000_0000_0000_0000

  /** `NoOwner` is what a fresh atomic.Value loads: nil, equal to no id. */
  datatype Owner = NoOwner | Owner(gid: int)

  datatype Rein = Rein(word: Word, owner: Owner, count: nat)

  /** The new state and the result of one acquire attempt. */
  datatype Attempt = Attempt(state: Rein, ok: bool)

  /** The state of a lock nobody has used yet. */
  const Fresh := Rein(Unlocked, NoOwner, 0)

  /** uint64 `count += 1`. */
  function Inc64(c: nat): (r: nat)
    ensures r < U64
    ensures c + 1 < U64 ==> r == c + 1
  {
    (c + 1) % U64
  }

  /** uint64 `count -= 1`: 0 wraps to the largest uint64. */
  function Dec64(c: nat): (r: nat)
    ensures r < U64
    ensures 0 < c <= U64 ==> r == c - 1
    ensures c == 0 ==> r == U64 - 1
  {
    (c - 1) % U64
  }

  /** An owner that names a real goroutine. */
  predicate IsHolder(o: Owner, sentinel: int)
  {
    o.Owner? && o.gid != sentinel
  }

  /** The lock's invariant: the count is positive exactly when the spin lock is
      held, and exactly when a real goroutine owns it. */
  predicate Valid(s: Rein, sentinel: int)
  {
    s.count < U64 &&
    (s.count > 0 <==> s.word == Locked) &&
    (s.count > 0 <==> IsHolder(s.owner, sentinel))
  }

  /** trySpinLock: win the spin lock, then become its owner with count 1. */
  function TrySpin(s: Rein, gid: int): (r: Attempt)
    ensures r.ok <==> s.word == Unlocked
    ensures r.ok ==> r.state == Rein(Locked, Owner(gid), 1)
    ensures !r.ok ==> r.state == s
  {
    var c := CompareAndSwap(s.word);
    if c.swapped then Attempt(Rein(c.word, Owner(gid), 1), true) else Attempt(s, false)
  }

  /** tryReinLock: the owner re-enters without touching the spin lock; anyone
      else must win it. */
  function TryRein(s: Rein, gid: int): (r: Attempt)
    ensures s.owner == Owner(gid) ==>
      r.ok && r.state.word == s.word && r.state.owner == s.owner && r.state.count == Inc64(s.count)
    ensures s.owner != Owner(gid) ==> r == TrySpin(s, gid)
  {
    if s.owner == Owner(gid) then Attempt(s.(count := Inc64(s.count)), true)
    else TrySpin(s, gid)
  }

  /** Unlock: decrement; exactly when the count reaches 0 the sentinel becomes
      the owner and the spin lock is released. */
  function Unlock(s: Rein, sentinel: int): (r: Rein)
    ensures r.count == Dec64(s.count)
    ensures r.count == 0 ==> r.word == Unlocked && r.owner == Owner(sentinel)
    ensures r.count != 0 ==> r.word == s.word && r.owner == s.owner
  {
    var c := Dec64(s.count);
    if c == 0 then Rein(Unlocked, Owner(sentinel), 0) else s.(count := c)
  }

  /** A goroutine other than the owner cannot acquire a held lock, and its
      attempt changes nothing. */
  lemma NonOwnerFails(s: Rein, gid: int, sentinel: int)
    requires Valid(s, sentinel)
    requires s.word == Locked && s.owner != Owner(gid)
    ensures TryRein(s, gid) == Attempt(s, false)
  {
  }

  /** On a held lock exactly the owner's attempts succeed. */
  lemma OnlyOwnerAcquiresHeld(s: Rein, gid: int, sentinel: int)
    requires Valid(s, sentinel)
    requires s.word == Locked
    ensures TryRein(s, gid).ok <==> s.owner == Owner(gid)
  {
  }

  /** An acquire attempt by a real goroutine keeps the invariant, unless the
      owner re-enters a uint64's worth of times. */
  lemma TryReinKeepsValid(s: Rein, gid: int, sentinel: int)
    requires Valid(s, sentinel)
    requires gid != sentinel
    requires s.owner == Owner(gid) ==> s.count + 1 < U64
    ensures Valid(TryRein(s, gid).state, sentinel)
  {
  }

  /** Unlock keeps the invariant when the lock is held ... */
  lemma UnlockKeepsValid(s: Rein, sentinel: int)
    requires Valid(s, sentinel)
    requires s.count > 0
    ensures Valid(Unlock(s, sentinel), sentinel)
  {
  }

  /** ... and breaks it when it is not: the count wraps to the largest uint64
      while the spin lock stays free.  Hence Unlock demands count > 0. */
  lemma UnlockUnheldBreaksValid(s: Rein, sentinel: int)
    requires Valid(s, sentinel)
    requires s.count == 0
    ensures Unlock(s, sentinel).count == U64 - 1
    ensures !Valid(Unlock(s, sentinel), sentinel)
  {
  }

  /** n acquire attempts by one goroutine. */
  function LockN(s: Rein, gid: int, n: nat): Rein
  {
    if n == 0 then s else TryRein(LockN(s, gid, n - 1), gid).state
  }

  /** n releases. */
  function UnlockN(s: Rein, sentinel: int, n: nat): Rein
    decreases n
  {
    if n == 0 then s else UnlockN(Unlock(s, sentinel), sentinel, n - 1)
  }

  lemma {:induction false} LockNFromFree(s: Rein, gid: int, sentinel: int, n: nat)
    requires Valid(s, sentinel) && s.count == 0
    requires gid != sentinel
    requires 0 < n < U64
    ensures LockN(s, gid, n) == Rein(Locked, Owner(gid), n)
  {
    if n > 1 {
      LockNFromFree(s, gid, sentinel, n - 1);
    }
  }

  lemma {:induction false} UnlockNFromHeld(gid: int, sentinel: int, m: nat, k: nat)
    requires 0 < m < U64
    requires k <= m
    ensures UnlockN(Rein(Locked, Owner(gid), m), sentinel, k) ==
      if k < m then Rein(Locked, Owner(gid), m - k) else Rein(Unlocked, Owner(sentinel), 0)
  {
    if k > 0 {
      if m == 1 {
        assert Unlock(Rein(Locked, Owner(gid), 1), sentinel) == Rein(Unlocked, Owner(sentinel), 0);
      } else {
        UnlockNFromHeld(gid, sentinel, m - 1, k - 1);
      }
    }
  }

  /** n acquires followed by n releases by one goroutine return a free lock to
      fully free, and then any other goroutine acquires it at once. */
  lemma NestedLockUnlock(s: Rein, gid: int, other: int, sentinel: int, n: nat)
    requires Valid(s, sentinel) && s.count == 0
    requires gid != sentinel && other != sentinel
    requires 0 < n < U64
    ensures LockN(s, gid, n) == Rein(Locked, Owner(gid), n)
    ensures UnlockN(LockN(s, gid, n), sentinel, n) == Rein(Unlocked, Owner(sentinel), 0)
    ensures Valid(UnlockN(LockN(s, gid, n), sentinel, n), sentinel)
    ensures TryRein(UnlockN(LockN(s, gid, n), sentinel, n), other) ==
      Attempt(Rein(Locked, Owner(other), 1), true)
  {
    LockNFromFree(s, gid, sentinel, n);
    UnlockNFromHeld(gid, sentinel, n, n);
  }
}
