/** The reentrant lock of the diagnostic build: the machine of ReinModel with
    sentinel 0, over the diagnostic spin lock, whose record list then holds one
    record per nested acquisition.  Arguments and environment are as in the
    lean build; `Round.freed` in Lock says that the owner released. */
module ReinLockDebug {
  import opened LockWord
  import opened ReinModel
  import SpinLockDebug
  import Backoff

  /** The owner stored on the final release. */
  const Sentinel := 0

  /** The reentrant state together with the spin lock's records. */
  datatype Traced = Traced(state: Rein, infos: seq<SpinLockDebug.Stack>)

  /** The records after one tryReinLock: a re-entry appends a record with skip 3,
      a won trySpinLock (tryLock(5)) replaces them by one record with skip 5, a
      failed attempt keeps them. */
  function TryReinRecords(t: Traced, gid: int, site: SpinLockDebug.Site): (r: Traced)
    ensures r.state == TryRein(t.state, gid).state
    ensures t.state.owner == Owner(gid) ==> r.infos == t.infos + [SpinLockDebug.Stack(site, gid, 3)]
    ensures t.state.owner != Owner(gid) && t.state.word == Unlocked ==>
      r.infos == [SpinLockDebug.Stack(site, gid, 5)]
    ensures !TryRein(t.state, gid).ok ==> r == t
  {
    var a := TryRein(t.state, gid);
    if t.state.owner == Owner(gid) then Traced(a.state, t.infos + [SpinLockDebug.Stack(site, gid, 3)])
    else if a.ok then Traced(a.state, [SpinLockDebug.Stack(site, gid, 5)])
    else t
  }

  /** One goroutine's acquire attempts from the call sites `sites`, in order. */
  function Nest(t: Traced, gid: int, sites: seq<SpinLockDebug.Site>): Traced
  {
    if sites == [] then t
    else TryReinRecords(Nest(t, gid, sites[..|sites| - 1]), gid, sites[|sites| - 1])
  }

  /** After an outer acquire of a free lock and k re-entries, the count is k + 1
      and the records are the k + 1 call sites in order: the outer one first
      (skip 5), then each re-entry (skip 3). */
  lemma {:induction false} NestRecords(t: Traced, gid: int, sites: seq<SpinLockDebug.Site>)
    requires ReinModel.Valid(t.state, Sentinel) && t.state.count == 0
    requires gid != Sentinel
    requires 0 < |sites| < U64
    ensures Nest(t, gid, sites).state == Rein(Locked, Owner(gid), |sites|)
    ensures |Nest(t, gid, sites).infos| == |sites|
    ensures Nest(t, gid, sites).infos[0] == SpinLockDebug.Stack(sites[0], gid, 5)
    ensures forall i :: 0 < i < |sites| ==> Nest(t, gid, sites).infos[i] == SpinLockDebug.Stack(sites[i], gid, 3)
  {
    var init := sites[..|sites| - 1];
    if |sites| > 1 {
      NestRecords(t, gid, init);
      assert init[0] == sites[0];
      assert forall i :: 0 < i < |init| ==> init[i] == sites[i];
    } else {
      assert init == [];
    }
  }

  class ReinLock {
    const mu: SpinLockDebug.SpinLock
    var owner: Owner
    var count: nat

    function Abs(): Rein
      reads this, mu
    {
      Rein(mu.isLocked, owner, count)
    }

    function Trace(): Traced
      reads this, mu
    {
      Traced(Abs(), mu.infos)
    }

    ghost predicate Valid()
      reads this, mu
    {
      ReinModel.Valid(Abs(), Sentinel)
    }

    constructor ()
      ensures Trace() == Traced(Fresh, []) && Valid()
      ensures fresh(mu)
    {
      mu := new SpinLockDebug.SpinLock();
      owner := NoOwner;
      count := 0;
    }

    method TrySpinLock(gid: int, site: SpinLockDebug.Site) returns (ok: bool)
      modifies this, mu
      ensures Attempt(Abs(), ok) == TrySpin(old(Abs()), gid)
      ensures ok ==> mu.infos == [SpinLockDebug.Stack(site, gid, 5)]
      ensures !ok ==> mu.infos == old(mu.infos)
    {
      ok := mu.TryLockSkip(5, gid, site);
      if ok {
        owner := Owner(gid);
        count := 1;
      }
    }

    method TryReinLock(gid: int, site: SpinLockDebug.Site) returns (ok: bool)
      modifies this, mu
      ensures Attempt(Abs(), ok) == TryRein(old(Abs()), gid)
      ensures Trace() == TryReinRecords(old(Trace()), gid, site)
    {
      if owner == Owner(gid) {
        count := Inc64(count);
        mu.RecordLockIndex(gid, 3, site);
        return true;
      }
      ok := TrySpinLock(gid, site);
    }

    method TryLock(gid: int, site: SpinLockDebug.Site) returns (ok: bool)
      requires Valid() && gid != Sentinel
      requires owner == Owner(gid) ==> count + 1 < U64
      modifies this, mu
      ensures Attempt(Abs(), ok) == TryRein(old(Abs()), gid)
      ensures Trace() == TryReinRecords(old(Trace()), gid, site)
      ensures Valid()
    {
      TryReinKeepsValid(Abs(), gid, Sentinel);
      ok := TryReinLock(gid, site);
    }

    /** Records are left in place; the final release stores owner 0. */
    method Unlock()
      modifies this, mu
      ensures Abs() == ReinModel.Unlock(old(Abs()), Sentinel)
      ensures mu.infos == old(mu.infos)
      ensures old(Valid()) && old(count) > 0 ==> Valid()
    {
      if Valid() && count > 0 {
        UnlockKeepsValid(Abs(), Sentinel);
      }
      count := Dec64(count);
      if count == 0 {
        owner := Owner(Sentinel);
        mu.Unlock();
      }
    }

    /** The environment step of the retry loops: the owner makes its remaining
        Unlock calls. */
    method OwnerReleases()
      requires Valid()
      modifies this, mu
      ensures Valid() && count == 0
      ensures old(count) > 0 ==> Abs() == Rein(Unlocked, Owner(Sentinel), 0)
      ensures old(count) == 0 ==> Abs() == old(Abs())
      ensures mu.infos == old(mu.infos)
    {
      while count > 0
        invariant Valid()
        invariant count < old(count) ==> Abs() == Rein(Locked, old(owner), count) || Abs() == Rein(Unlocked, Owner(Sentinel), 0)
        invariant count == old(count) ==> Abs() == old(Abs())
        invariant count <= old(count)
        invariant mu.infos == old(mu.infos)
        decreases count
      {
        Unlock();
      }
    }

    /** Re-entry, or backoff retries of trySpinLock; while it waits with
        logging on, it writes the reports of the stall rule over the clock
        readings of its failed rounds, the window starting at `start`. */
    method Lock(gid: int, site: SpinLockDebug.Site, env: seq<Backoff.Round>, logOut: bool, start: int)
      returns (reports: seq<SpinLockDebug.Report>, ghost rounds: nat)
      requires Valid() && gid != Sentinel
      requires owner == Owner(gid) ==> count + 1 < U64
      requires mu.isLocked == Unlocked || owner == Owner(gid)
               || exists k :: 0 <= k < |env| && env[k].freed
      modifies this, mu
      ensures Valid()
      ensures mu.isLocked == Locked && owner == Owner(gid)
      ensures count == if old(owner) == Owner(gid) then old(count) + 1 else 1
      ensures old(owner) == Owner(gid) ==> mu.infos == old(mu.infos) + [SpinLockDebug.Stack(site, gid, 3)]
      ensures old(owner) != Owner(gid) ==> mu.infos == [SpinLockDebug.Stack(site, gid, 5)]
      ensures rounds <= |env|
      ensures rounds == 0 <==> old(owner) == Owner(gid) || old(mu.isLocked) == Unlocked
      ensures rounds > 0 ==> env[rounds - 1].freed
      ensures forall k :: 0 <= k < rounds - 1 ==> !env[k].freed
      ensures reports == if logOut then SpinLockDebug.StallReports(start, Backoff.Clock(env[..rounds]), old(mu.infos)).reports else []
    {
      TryReinKeepsValid(Abs(), gid, Sentinel);
      var ok := TryReinLock(gid, site);
      if ok {
        return [], 0;
      }
      reports, rounds := SpinRetry(gid, site, env, logOut, start);
    }

    /** The loop of Lock after a failed tryReinLock: trySpinLock with backoff
        until the holder's Unlocks have freed the lock.  `env[k].freed` says
        whether that happens during failed round k, `env[k].now` is the clock
        read after it. */
    method SpinRetry(gid: int, site: SpinLockDebug.Site, env: seq<Backoff.Round>, logOut: bool, start: int)
      returns (reports: seq<SpinLockDebug.Report>, ghost rounds: nat)
      requires Valid() && gid != Sentinel
      requires owner != Owner(gid) && mu.isLocked == Locked
      requires exists k :: 0 <= k < |env| && env[k].freed
      modifies this, mu
      ensures Valid()
      ensures mu.isLocked == Locked && owner == Owner(gid) && count == 1
      ensures mu.infos == [SpinLockDebug.Stack(site, gid, 5)]
      ensures 0 < rounds <= |env|
      ensures env[rounds - 1].freed
      ensures forall k :: 0 <= k < rounds - 1 ==> !env[k].freed
      ensures reports == if logOut then SpinLockDebug.StallReports(start, Backoff.Clock(env[..rounds]), old(mu.infos)).reports else []
    {
      var block := 1;
      var t1 := start;
      var n := 0;
      reports := [];
      while true
        invariant Valid()
        invariant n <= |env|
        invariant block == Backoff.BlockAfter(n, Backoff.MaxBlock)
        invariant owner != Owner(gid)
        invariant mu.isLocked == Unlocked || exists k :: n <= k < |env| && env[k].freed
        invariant n == 0 ==> mu.isLocked == Locked
        invariant n > 0 ==> (mu.isLocked == Unlocked <==> env[n - 1].freed)
        invariant forall k :: 0 <= k < n - 1 ==> !env[k].freed
        invariant mu.infos == old(mu.infos)
        invariant logOut ==> SpinLockDebug.Stall(reports, t1) == SpinLockDebug.StallReports(start, Backoff.Clock(env[..n]), old(mu.infos))
        invariant !logOut ==> reports == []
        decreases |env| - n
      {
        var ok := TrySpinLock(gid, site);
        if ok {
          break;
        }
        if env[n].freed {
          OwnerReleases();
        }
        if block < Backoff.MaxBlock {
          block := block * 2;
        }
        if logOut {
          reports, t1 := SpinLockDebug.StallTick(start, env, n, mu.infos, reports, t1);
        }
        n := n + 1;
      }
      rounds := n;
    }

    method TryLockInTime(gid: int, site: SpinLockDebug.Site, releases: seq<bool>, fireAt: nat) returns (ok: bool)
      requires Valid() && gid != Sentinel
      requires owner == Owner(gid) ==> count + 1 < U64
      modifies this, mu
      ensures Valid()
      ensures ok <==> old(owner) == Owner(gid) || old(mu.isLocked) == Unlocked
                      || exists k :: 0 <= k < fireAt && k < |releases| && releases[k]
      ensures ok ==> mu.isLocked == Locked && owner == Owner(gid)
      ensures old(owner) == Owner(gid) ==> mu.infos == old(mu.infos) + [SpinLockDebug.Stack(site, gid, 3)]
      ensures ok && old(owner) != Owner(gid) ==> mu.infos == [SpinLockDebug.Stack(site, gid, 5)]
      ensures !ok ==> Trace() == old(Trace())
    {
      var block := 1;
      var rounds := 0;
      ok := false;
      while true
        invariant Valid()
        invariant rounds <= fireAt
        invariant block == Backoff.BlockAfter(rounds, Backoff.MaxBlock)
        invariant rounds == 0 ==> Trace() == old(Trace())
        invariant rounds > 0 ==> old(owner) != Owner(gid) && old(mu.isLocked) == Locked && owner != Owner(gid)
        invariant rounds > 0 ==>
          if rounds - 1 < |releases| && releases[rounds - 1]
          then Abs() == Rein(Unlocked, Owner(Sentinel), 0)
          else Abs() == old(Abs())
        invariant mu.infos == old(mu.infos)
        invariant forall k :: 0 <= k < rounds - 1 && k < |releases| ==> !releases[k]
        invariant !ok
        decreases fireAt - rounds
      {
        TryReinKeepsValid(Abs(), gid, Sentinel);
        var got := TryReinLock(gid, site);
        if got {
          ok := true;
          break;
        }
        if rounds >= fireAt {
          break;
        }
        if rounds < |releases| && releases[rounds] {
          OwnerReleases();
        }
        if block < Backoff.MaxBlock {
          block := block * 2;
        }
        rounds := rounds + 1;
      }
    }
  }
}
