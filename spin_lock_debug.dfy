/** The spin lock of the diagnostic build: the same state word, plus the list
    of acquisition records and the stall report of a waiter that has spun for
    more than five seconds.

    The call site that the runtime reports for a record is an opaque `Site`
    argument, the goroutine id an opaque `gid`.  The environment of the loops is
    as in the lean build; `Round.now` is the clock read after each failed round. */
module SpinLockDebug {
  import opened LockWord
  import Backoff

  /** Where an acquisition happened: the runtime's file, function and line. */
  datatype Site = Site(file: string, funcName: string, line: int)

  /** One acquisition record. */
  datatype Stack = Stack(site: Site, gid: int, skip: int)

  /** Five seconds, in the nanoseconds of a duration. */
  const StallThreshold := 5_000_000_000

  /** `t2.Sub(t1).Seconds() > 5`. */
  predicate StallDue(t1: int, now: int)
  {
    now - t1 > StallThreshold
  }

  /** One stall report: when it was written, how long the waiter had waited,
      and the holder's acquisition records it lists. */
  datatype Report = Report(at: int, waited: int, holders: seq<Stack>)

  /** The reports written so far and the start of the current window (t1). */
  datatype Stall = Stall(reports: seq<Report>, t1: int)

  /** The stall-report rule over the clock readings of the failed rounds of one
      wait that began at `start`: a report is due when more than five seconds
      passed since the start of the window, and each report starts a new window. */
  function StallReports(start: int, times: seq<int>, holders: seq<Stack>): (r: Stall)
    ensures |r.reports| <= |times|
    ensures r.reports == [] ==> r.t1 == start
  {
    if times == [] then Stall([], start)
    else
      var s := StallReports(start, times[..|times| - 1], holders);
      var now := times[|times| - 1];
      if StallDue(s.t1, now) then Stall(s.reports + [Report(now, now - start, holders)], now)
      else s
  }

  /** One more clock reading extends the rule's run by one step. */
  lemma StallReportsStep(start: int, times: seq<int>, now: int, holders: seq<Stack>)
    ensures var s := StallReports(start, times, holders);
      StallReports(start, times + [now], holders) ==
        if StallDue(s.t1, now) then Stall(s.reports + [Report(now, now - start, holders)], now) else s
  {
    assert (times + [now])[..|times|] == times;
  }

  /** A logging waiter's bookkeeping after failed round `n`: the stall rule's
      step on that round's clock reading. */
  method StallTick(start: int, env: seq<Backoff.Round>, n: nat, holders: seq<Stack>, reports: seq<Report>, t1: int)
    returns (reports': seq<Report>, t1': int)
    requires n < |env|
    requires Stall(reports, t1) == StallReports(start, Backoff.Clock(env[..n]), holders)
    ensures Stall(reports', t1') == StallReports(start, Backoff.Clock(env[..n + 1]), holders)
  {
    var t2 := env[n].now;
    assert Backoff.Clock(env[..n + 1]) == Backoff.Clock(env[..n]) + [t2];
    StallReportsStep(start, Backoff.Clock(env[..n]), t2, holders);
    reports', t1' := reports, t1;
    if StallDue(t1, t2) {
      t1' := t2;
      reports' := reports + [Report(t2, t2 - start, holders)];
    }
  }

  /** Consecutive reports (and the first one and the start) lie more than five
      seconds apart. */
  predicate Spaced(start: int, reports: seq<Report>)
  {
    (|reports| > 0 ==> reports[0].at - start > StallThreshold) &&
    forall i :: 0 < i < |reports| ==> reports[i].at - reports[i - 1].at > StallThreshold
  }

  /** The rule writes at most one report per five-second window, every report
      shows the holders and the time waited, and the window starts at the last
      report. */
  lemma {:induction false} StallReportsSpaced(start: int, times: seq<int>, holders: seq<Stack>)
    ensures Spaced(start, StallReports(start, times, holders).reports)
    ensures var s := StallReports(start, times, holders);
      s.t1 == if s.reports == [] then start else s.reports[|s.reports| - 1].at
    ensures forall r :: r in StallReports(start, times, holders).reports ==>
      r.holders == holders && r.waited == r.at - start && r.at in times
    ensures |StallReports(start, times, holders).reports| <= |times|
  {
    if times != [] {
      var init := times[..|times| - 1];
      StallReportsSpaced(start, init, holders);
      forall r | r in StallReports(start, init, holders).reports
        ensures r.at in times
      {
        assert r.at in init;
        var i :| 0 <= i < |init| && init[i] == r.at;
        assert times[i] == r.at;
      }
    }
  }

  /** Between two reports i < j at least (j - i) windows have passed. */
  lemma {:induction false} SpacedPairwise(start: int, reports: seq<Report>, i: nat, j: nat)
    requires Spaced(start, reports)
    requires i < j < |reports|
    ensures reports[j].at - reports[i].at > (j - i) * StallThreshold
  {
    if i + 1 < j {
      SpacedPairwise(start, reports, i, j - 1);
    }
  }

  class SpinLock {
    var isLocked: Word
    var infos: seq<Stack>

    constructor ()
      ensures isLocked == Unlocked && infos == []
    {
      isLocked := Unlocked;
      infos := [];
    }

    /** recordLockIndex: appends one record and keeps the earlier ones. */
    method RecordLockIndex(gid: int, skip: int, site: Site)
      modifies this
      ensures infos == old(infos) + [Stack(site, gid, skip)]
      ensures isLocked == old(isLocked)
    {
      infos := infos + [Stack(site, gid, skip)];
    }

    /** tryLock(skip): on success the recorded list is truncated and one record
        appended, so it holds exactly that record; on failure nothing changes. */
    method TryLockSkip(skip: int, gid: int, site: Site) returns (ok: bool)
      modifies this
      ensures ok <==> old(isLocked) == Unlocked
      ensures isLocked == Locked
      ensures ok ==> infos == [Stack(site, gid, skip)]
      ensures !ok ==> isLocked == old(isLocked) && infos == old(infos)
    {
      var r := CompareAndSwap(isLocked);
      isLocked := r.word;
      ok := r.swapped;
      if ok {
        infos := infos[..0];
        RecordLockIndex(gid, skip, site);
      }
    }

    method TryLock(gid: int, site: Site) returns (ok: bool)
      modifies this
      ensures ok <==> old(isLocked) == Unlocked
      ensures isLocked == Locked
      ensures ok ==> infos == [Stack(site, gid, 0)]
      ensures !ok ==> infos == old(infos)
    {
      ok := TryLockSkip(0, gid, site);
    }

    /** Leaves the records in place. */
    method Unlock()
      modifies this
      ensures isLocked == Unlocked
      ensures infos == old(infos)
    {
      isLocked := Unlocked;
    }

    /** LockSkip(n): retries tryLock(n) with backoff; when logging is on, the
        reports it writes are exactly those of the stall rule over the clock
        readings of its failed rounds. */
    method LockSkip(n: int, gid: int, site: Site, env: seq<Backoff.Round>, logOut: bool, start: int)
      returns (reports: seq<Report>, ghost rounds: nat)
      requires isLocked == Unlocked || exists k :: 0 <= k < |env| && env[k].freed
      modifies this
      ensures isLocked == Locked
      ensures infos == [Stack(site, gid, n)]
      ensures rounds <= |env|
      ensures rounds == 0 <==> old(isLocked) == Unlocked
      ensures rounds > 0 ==> env[rounds - 1].freed
      ensures forall k :: 0 <= k < rounds - 1 ==> !env[k].freed
      ensures reports == if logOut then StallReports(start, Backoff.Clock(env[..rounds]), old(infos)).reports else []
    {
      var block := 1;
      var t1 := start;
      var i := 0;
      reports := [];
      while true
        invariant i <= |env|
        invariant block == Backoff.BlockAfter(i, Backoff.MaxBlock)
        invariant isLocked == Unlocked || exists k :: i <= k < |env| && env[k].freed
        invariant i == 0 ==> isLocked == old(isLocked)
        invariant i > 0 ==> old(isLocked) == Locked
        invariant i > 0 ==> (isLocked == Unlocked <==> env[i - 1].freed)
        invariant forall k :: 0 <= k < i - 1 ==> !env[k].freed
        invariant infos == old(infos)
        invariant logOut ==> Stall(reports, t1) == StallReports(start, Backoff.Clock(env[..i]), old(infos))
        invariant !logOut ==> reports == []
        decreases |env| - i
      {
        var ok := TryLockSkip(n, gid, site);
        if ok {
          break;
        }
        if env[i].freed {
          Unlock();
        }
        if block < Backoff.MaxBlock {
          block := block * 2;
        }
        if logOut {
          reports, t1 := StallTick(start, env, i, infos, reports, t1);
        }
        i := i + 1;
      }
      rounds := i;
    }

    /** LockSkip(1). */
    method Lock(gid: int, site: Site, env: seq<Backoff.Round>, logOut: bool, start: int)
      returns (reports: seq<Report>, ghost rounds: nat)
      requires isLocked == Unlocked || exists k :: 0 <= k < |env| && env[k].freed
      modifies this
      ensures isLocked == Locked
      ensures infos == [Stack(site, gid, 1)]
      ensures rounds <= |env|
      ensures rounds == 0 <==> old(isLocked) == Unlocked
      ensures rounds > 0 ==> env[rounds - 1].freed
      ensures forall k :: 0 <= k < rounds - 1 ==> !env[k].freed
      ensures reports == if logOut then StallReports(start, Backoff.Clock(env[..rounds]), old(infos)).reports else []
      ensures Spaced(start, reports)
    {
      reports, rounds := LockSkip(1, gid, site, env, logOut, start);
      StallReportsSpaced(start, Backoff.Clock(env[..rounds]), old(infos));
    }

    /** As in the lean build, with tryLock(0) recording each success. */
    method TryLockInTime(gid: int, site: Site, releases: seq<bool>, fireAt: nat) returns (ok: bool)
      modifies this
      ensures ok <==> old(isLocked) == Unlocked
                      || exists k :: 0 <= k < fireAt && k < |releases| && releases[k]
      ensures ok ==> isLocked == Locked && infos == [Stack(site, gid, 0)]
      ensures !ok ==> isLocked == old(isLocked) == Locked && infos == old(infos)
    {
      var block := 1;
      var rounds := 0;
      ok := false;
      while true
        invariant rounds <= fireAt
        invariant block == Backoff.BlockAfter(rounds, Backoff.MaxBlock)
        invariant rounds == 0 ==> isLocked == old(isLocked)
        invariant rounds > 0 ==> old(isLocked) == Locked
        invariant rounds > 0 ==> (isLocked == Unlocked <==> rounds - 1 < |releases| && releases[rounds - 1])
        invariant forall k :: 0 <= k < rounds - 1 && k < |releases| ==> !releases[k]
        invariant infos == old(infos)
        invariant !ok
        decreases fireAt - rounds
      {
        var got := TryLockSkip(0, gid, site);
        if got {
          ok := true;
          break;
        }
        if rounds >= fireAt {
          break;
        }
        if rounds < |releases| && releases[rounds] {
          Unlock();
        }
        if block < Backoff.MaxBlock {
          block := block * 2;
        }
        rounds := rounds + 1;
      }
    }
  }
}
