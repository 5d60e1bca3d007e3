/** The spin lock of the lean build: a state word acquired by compare-and-swap
    and released by an unconditional store.

    Other threads appear only through the one thing they can do to a waiting
    caller: the holder calls Unlock while the caller yields.  `releases[k]` says
    whether that happens during the yields of failed round k.  The timer of
    TryLockInTime is the round `fireAt`: the check after the fireAt-th failed
    attempt (counting from 0) is the first to see it fired. */
module SpinLockRelease {
  import opened LockWord
  import Backoff

  class SpinLock {
    var isLocked: Word

    /** The zero value of the struct. */
    constructor ()
      ensures isLocked == Unlocked
    {
      isLocked := Unlocked;
    }

    method TryLock() returns (ok: bool)
      modifies this
      ensures ok <==> old(isLocked) == Unlocked
      ensures isLocked == Locked
      ensures !ok ==> isLocked == old(isLocked)
    {
      var r := CompareAndSwap(isLocked);
      isLocked := r.word;
      ok := r.swapped;
    }

    /** Idempotent: a store of Unlocked whatever the word held. */
    method Unlock()
      modifies this
      ensures isLocked == Unlocked
    {
      isLocked := Unlocked;
    }

    /** Retries TryLock with backoff until it succeeds.  It returns at the first
        attempt after the holder's release, and only after a successful TryLock. */
    method Lock(releases: seq<bool>) returns (ghost rounds: nat)
      requires isLocked == Unlocked || exists k :: 0 <= k < |releases| && releases[k]
      modifies this
      ensures isLocked == Locked
      ensures rounds == 0 <==> old(isLocked) == Unlocked
      ensures rounds > 0 ==> rounds <= |releases| && releases[rounds - 1]
      ensures forall k :: 0 <= k < rounds - 1 ==> !releases[k]
    {
      var block := 1;
      var n := 0;
      while true
        invariant n <= |releases|
        invariant block == Backoff.BlockAfter(n, Backoff.MaxBlock)
        invariant isLocked == Unlocked || exists k :: n <= k < |releases| && releases[k]
        invariant n == 0 ==> isLocked == old(isLocked)
        invariant n > 0 ==> old(isLocked) == Locked
        invariant n > 0 ==> (isLocked == Unlocked <==> releases[n - 1])
        invariant forall k :: 0 <= k < n - 1 ==> !releases[k]
        decreases |releases| - n
      {
        var ok := TryLock();
        if ok {
          break;
        }
        // the yields of this round: the holder may release meanwhile
        if releases[n] {
          Unlock();
        }
        if block < Backoff.MaxBlock {
          block := block * 2;
        }
        n := n + 1;
      }
      rounds := n;
    }

    /** Lock bounded by a deadline: true exactly when some attempt before the
        timer check saw it fired succeeded; false leaves the word as it was. */
    method TryLockInTime(releases: seq<bool>, fireAt: nat) returns (ok: bool)
      modifies this
      ensures ok <==> old(isLocked) == Unlocked
                      || exists k :: 0 <= k < fireAt && k < |releases| && releases[k]
      ensures ok ==> isLocked == Locked
      ensures !ok ==> isLocked == old(isLocked) == Locked
    {
      var block := 1;
      var rounds := 0;
      ok := false;
      while true
        invariant rounds <= fireAt
        invariant block == Backoff.BlockAfter(rounds, Backoff.MaxBlock)
        invariant rounds == 0 ==> isLocked == old(isLocked)
        invariant rounds > 0 ==> old(isLocked) == Locked
        invariant rounds > 0 ==> (isLocked == Unlocked <==> rounds - 1 < |releases| && releases[rounds - 1])
        invariant forall k :: 0 <= k < rounds - 1 && k < |releases| ==> !releases[k]
        invariant !ok
        decreases fireAt - rounds
      {
        var got := TryLock();
        if got {
          ok := true;
          break;
        }
        if rounds >= fireAt {
          // the timer has fired
          break;
        }
        if rounds < |releases| && releases[rounds] {
          Unlock();
        }
        if block < Backoff.MaxBlock {
          block := block * 2;
        }
        rounds := rounds + 1;
      }
    }
  }
}
