/** The reentrant lock of the lean build: an embedded spin lock, the owner's
    goroutine id and a uint64 recursion count.  Every method is tied to the
    pure machine of ReinModel with sentinel -1.

    The caller's goroutine id is an argument.  In the retry loops the other
    party is the current owner: `releases[k]` says whether it makes its
    remaining Unlock calls during the yields of failed round k. */
module ReinLockRelease {
  import opened LockWord
  import opened ReinModel
  import SpinLockRelease
  import Backoff

  /** The owner stored on the final release. */
  const Sentinel := -1

  class ReinLock {
    const mu: SpinLockRelease.SpinLock
    var owner: Owner
    var count: nat

    function Abs(): Rein
      reads this, mu
    {
      Rein(mu.isLocked, owner, count)
    }

    ghost predicate Valid()
      reads this, mu
    {
      ReinModel.Valid(Abs(), Sentinel)
    }

    /** The zero value: a free spin lock, a nil owner and count 0. */
    constructor ()
      ensures Abs() == Fresh && Valid()
      ensures fresh(mu)
    {
      mu := new SpinLockRelease.SpinLock();
      owner := NoOwner;
      count := 0;
    }

    method TrySpinLock(gid: int) returns (ok: bool)
      modifies this, mu
      ensures Attempt(Abs(), ok) == TrySpin(old(Abs()), gid)
    {
      ok := mu.TryLock();
      if ok {
        owner := Owner(gid);
        count := 1;
      }
    }

    method TryReinLock(gid: int) returns (ok: bool)
      modifies this, mu
      ensures Attempt(Abs(), ok) == TryRein(old(Abs()), gid)
    {
      if owner == Owner(gid) {
        count := Inc64(count);
        return true;
      }
      ok := TrySpinLock(gid);
    }

    method TryLock(gid: int) returns (ok: bool)
      requires Valid() && gid != Sentinel
      requires owner == Owner(gid) ==> count + 1 < U64
      modifies this, mu
      ensures Attempt(Abs(), ok) == TryRein(old(Abs()), gid)
      ensures Valid()
    {
      TryReinKeepsValid(Abs(), gid, Sentinel);
      ok := TryReinLock(gid);
    }

    method Unlock()
      modifies this, mu
      ensures Abs() == ReinModel.Unlock(old(Abs()), Sentinel)
      ensures old(Valid()) && old(count) > 0 ==> Valid()
    {
      if Valid() && count > 0 {
        UnlockKeepsValid(Abs(), Sentinel);
      }
      count := Dec64(count);
      if count == 0 {
        owner := Owner(Sentinel);
        mu.Unlock();
      }
    }

    /** The environment step of the retry loops: the owner makes its remaining
        Unlock calls. */
    method OwnerReleases()
      requires Valid()
      modifies this, mu
      ensures Valid() && count == 0
      ensures old(count) > 0 ==> Abs() == Rein(Unlocked, Owner(Sentinel), 0)
      ensures old(count) == 0 ==> Abs() == old(Abs())
    {
      while count > 0
        invariant Valid()
        invariant count < old(count) ==> Abs() == Rein(Locked, old(owner), count) || Abs() == Rein(Unlocked, Owner(Sentinel), 0)
        invariant count == old(count) ==> Abs() == old(Abs())
        invariant count <= old(count)
        decreases count
      {
        Unlock();
      }
    }

    /** Re-entry by the owner, or backoff retries of trySpinLock until the owner
        has released; on return the caller owns the lock. */
    method Lock(gid: int, releases: seq<bool>)
      requires Valid() && gid != Sentinel
      requires owner == Owner(gid) ==> count + 1 < U64
      requires mu.isLocked == Unlocked || owner == Owner(gid)
               || exists k :: 0 <= k < |releases| && releases[k]
      modifies this, mu
      ensures Valid()
      ensures mu.isLocked == Locked && owner == Owner(gid)
      ensures count == if old(owner) == Owner(gid) then old(count) + 1 else 1
    {
      var block := 1;
      TryReinKeepsValid(Abs(), gid, Sentinel);
      var ok := TryReinLock(gid);
      if ok {
        return;
      }
      var n := 0;
      while true
        invariant Valid()
        invariant n <= |releases|
        invariant block == Backoff.BlockAfter(n, Backoff.MaxBlock)
        invariant owner != Owner(gid)
        invariant mu.isLocked == Unlocked || exists k :: n <= k < |releases| && releases[k]
        decreases |releases| - n
      {
        ok := TrySpinLock(gid);
        if ok {
          break;
        }
        if releases[n] {
          OwnerReleases();
        }
        if block < Backoff.MaxBlock {
          block := block * 2;
        }
        n := n + 1;
      }
    }

    /** Bounded retries of tryReinLock: true exactly when the caller owned the
        lock, or the lock was free, or the owner released it in a round before
        the timer fired; false changes nothing. */
    method TryLockInTime(gid: int, releases: seq<bool>, fireAt: nat) returns (ok: bool)
      requires Valid() && gid != Sentinel
      requires owner == Owner(gid) ==> count + 1 < U64
      modifies this, mu
      ensures Valid()
      ensures ok <==> old(owner) == Owner(gid) || old(mu.isLocked) == Unlocked
                      || exists k :: 0 <= k < fireAt && k < |releases| && releases[k]
      ensures ok ==> mu.isLocked == Locked && owner == Owner(gid)
      ensures ok ==> count == if old(owner) == Owner(gid) then old(count) + 1 else 1
      ensures !ok ==> Abs() == old(Abs())
    {
      var block := 1;
      var rounds := 0;
      ok := false;
      while true
        invariant Valid()
        invariant rounds <= fireAt
        invariant block == Backoff.BlockAfter(rounds, Backoff.MaxBlock)
        invariant rounds == 0 ==> Abs() == old(Abs())
        invariant rounds > 0 ==> old(owner) != Owner(gid) && old(mu.isLocked) == Locked && owner != Owner(gid)
        invariant rounds > 0 ==>
          if rounds - 1 < |releases| && releases[rounds - 1]
          then Abs() == Rein(Unlocked, Owner(Sentinel), 0)
          else Abs() == old(Abs())
        invariant forall k :: 0 <= k < rounds - 1 && k < |releases| ==> !releases[k]
        invariant !ok
        decreases fireAt - rounds
      {
        TryReinKeepsValid(Abs(), gid, Sentinel);
        var got := TryReinLock(gid);
        if got {
          ok := true;
          break;
        }
        if rounds >= fireAt {
          break;
        }
        if rounds < |releases| && releases[rounds] {
          OwnerReleases();
        }
        if block < Backoff.MaxBlock {
          block := block * 2;
        }
        rounds := rounds + 1;
      }
    }
  }
}
