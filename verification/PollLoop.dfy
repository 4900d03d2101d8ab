/**
 The background poll: its circuit breaker, the one restart of the ESP32 per outage, and when it asks
 for the device's identification again.

 What the loop does is recorded in a log; the counters of the loop are shown to be functions of it.
 */
module PollLoop {
  const OPEN_THRESHOLD := 3

  // ---- what a pass of the loop meets ----

  /** How far one poll gets: where it raises, if it does.  Announcing the poll's timing raises outside the guard. */
  datatype Outcome = TimingFails | FetchFails | IdentificationFails | PublishFails | Fine | Unsupported

  /** One pass: how the wait ends, what is found after it, how the poll goes. */
  datatype Pass = Pass(intervalSet: bool, woken: bool, cancelled: bool, shutdown: bool, onDemand: bool, outcome: Outcome)

  /** What the loop does, in order. */
  datatype Entry = Restart | Fetch(info: bool) | Got(info: bool) | Success | Failure

  datatype Loop = Loop(failures: nat, fetched: bool, first: bool, stopped: bool, log: seq<Entry>)

  function Fresh(): Loop {
    Loop(0, false, true, false, [])
  }

  // ---- one pass ----

  function Note(s: Loop, e: Entry): Loop {
    s.(log := s.log + [e])
  }

  function Fail(s: Loop): Loop {
    Note(s, Failure).(failures := s.failures + 1)
  }

  /** The success point: the circuit closes, and a recovery forgets the identification. */
  function Succeed(s: Loop): Loop {
    Note(s, Success).(failures := 0, fetched := s.fetched && s.failures == 0)
  }

  function Poll(s: Loop, outcome: Outcome): Loop {
    var info := !s.fetched;
    var asked := Note(s, Fetch(info));
    match outcome
    case TimingFails => s.(stopped := true)
    case Unsupported => asked.(stopped := true)
    case FetchFails => Fail(asked)
    case _ =>
      var got := Note(asked, Got(info)).(fetched := true);
      if outcome == IdentificationFails && info then Fail(got)
      else if outcome == PublishFails then Fail(Succeed(got))
      else Succeed(got)
  }

  function Breaker(s: Loop, host: bool): Loop {
    if s.failures == OPEN_THRESHOLD && host then Note(s, Restart) else s
  }

  function Iterate(s: Loop, host: bool, p: Pass): Loop {
    var waits := !(s.first && p.intervalSet);
    if s.stopped then s
    else if waits && p.cancelled then s.(stopped := true)
    else if waits && (p.woken || !p.intervalSet) then s
    else
      var t := s.(first := false);
      if p.shutdown then t.(stopped := true)
      else if !p.onDemand then t
      else Poll(Breaker(t, host), p.outcome)
  }

  function Run(s: Loop, host: bool, passes: seq<Pass>): Loop {
    if passes == [] then s
    else Iterate(Run(s, host, passes[..|passes| - 1]), host, passes[|passes| - 1])
  }

  /** `_polling_loop`, over the passes it is given. */
  method PollingLoop(host: bool, passes: seq<Pass>) returns (log: seq<Entry>, failures: nat, fetched: bool)
    ensures var end := Run(Fresh(), host, passes);
            log == end.log && failures == end.failures && fetched == end.fetched
  {
    log, failures, fetched := [], 0, false;
    var first, stopped := true, false;
    for i := 0 to |passes|
      invariant Loop(failures, fetched, first, stopped, log) == Run(Fresh(), host, passes[..i])
    {
      var p := passes[i];
      assert passes[..i + 1][..i] == passes[..i];
      if stopped {
        continue;
      }
      if !(first && p.intervalSet) {
        if p.cancelled {
          stopped := true;
          continue;
        }
        if p.woken || !p.intervalSet {
          continue;
        }
      }
      first := false;
      if p.shutdown {
        stopped := true;
        continue;
      }
      if !p.onDemand {
        continue;
      }
      if failures == OPEN_THRESHOLD && host {
        log := log + [Restart];
      }
      if p.outcome == TimingFails {
        stopped := true;
        continue;
      }
      var info := !fetched;
      log := log + [Fetch(info)];
      if p.outcome == Unsupported {
        stopped := true;
        continue;
      }
      if p.outcome == FetchFails {
        log, failures := log + [Failure], failures + 1;
        continue;
      }
      log, fetched := log + [Got(info)], true;
      if p.outcome == IdentificationFails && info {
        log, failures := log + [Failure], failures + 1;
        continue;
      }
      if failures > 0 {
        fetched := false;
      }
      log, failures := log + [Success], 0;
      if p.outcome == PublishFails {
        log, failures := log + [Failure], failures + 1;
      }
    }
    assert passes[..|passes|] == passes;
  }

  // ---- reading the log ----

  /** Failures since the last success. */
  function Failures(log: seq<Entry>): nat {
    if log == [] then 0
    else
      var n := |log| - 1;
      if log[n] == Success then 0 else Failures(log[..n]) + if log[n] == Failure then 1 else 0
  }

  /** Restarts since the last success. */
  function Restarts(log: seq<Entry>): nat {
    if log == [] then 0
    else
      var n := |log| - 1;
      if log[n] == Success then 0 else Restarts(log[..n]) + if log[n] == Restart then 1 else 0
  }

  /** No identification has been fetched yet, or not since the last recovery. */
  function NeedsInfo(log: seq<Entry>): bool {
    if log == [] then true
    else
      var n := |log| - 1;
      if log[n] == Got(true) then false
      else if log[n] == Success && Failures(log[..n]) > 0 then true
      else NeedsInfo(log[..n])
  }

  lemma Snoc(log: seq<Entry>, e: Entry)
    ensures Failures(log + [e]) == if e == Success then 0 else Failures(log) + if e == Failure then 1 else 0
    ensures Restarts(log + [e]) == if e == Success then 0 else Restarts(log) + if e == Restart then 1 else 0
    ensures NeedsInfo(log + [e])
        <==> e != Got(true) && ((e == Success && Failures(log) > 0) || NeedsInfo(log))
  {
    assert (log + [e])[..|log|] == log;
  }

  /** A restart comes exactly after the third failure of an outage; a fetch asks for what is needed. */
  predicate EntryOk(before: seq<Entry>, e: Entry) {
    match e
    case Restart => Failures(before) == OPEN_THRESHOLD && Restarts(before) == 0
    case Fetch(info) => info == NeedsInfo(before)
    case _ => true
  }

  ghost predicate LogOk(log: seq<Entry>) {
    forall i :: 0 <= i < |log| ==> EntryOk(log[..i], log[i])
  }

  lemma LogSnoc(log: seq<Entry>, e: Entry)
    requires LogOk(log) && EntryOk(log, e)
    ensures LogOk(log + [e])
  {
    hide EntryOk;
    forall i | 0 <= i < |log + [e]|
      ensures EntryOk((log + [e])[..i], (log + [e])[i])
    {
      if i == |log| {
        assert (log + [e])[..i] == log;
      } else {
        assert (log + [e])[..i] == log[..i];
      }
    }
  }

  /** The loop's variables are what the log says. */
  ghost predicate Inv(s: Loop, host: bool) {
    && LogOk(s.log)
    && s.failures == Failures(s.log)
    && (s.fetched <==> !NeedsInfo(s.log))
    && Restarts(s.log) <= 1
    && (Restarts(s.log) == 1 ==> host && (s.stopped || s.failures > OPEN_THRESHOLD))
    && (host && s.failures > OPEN_THRESHOLD ==> Restarts(s.log) == 1)
  }

  lemma NoteSnoc(s: Loop, e: Entry)
    ensures Note(s, e).log == s.log + [e]
    ensures Failures(Note(s, e).log) == if e == Success then 0 else Failures(s.log) + if e == Failure then 1 else 0
    ensures Restarts(Note(s, e).log) == if e == Success then 0 else Restarts(s.log) + if e == Restart then 1 else 0
    ensures NeedsInfo(Note(s, e).log)
        <==> e != Got(true) && ((e == Success && Failures(s.log) > 0) || NeedsInfo(s.log))
  {
    Snoc(s.log, e);
  }

  lemma PollKeeps(s: Loop, host: bool, outcome: Outcome)
    requires LogOk(s.log) && s.failures == Failures(s.log) && (s.fetched <==> !NeedsInfo(s.log))
    requires Restarts(s.log) <= 1 && (Restarts(s.log) == 1 ==> host && s.failures >= OPEN_THRESHOLD)
    requires host && s.failures >= OPEN_THRESHOLD ==> Restarts(s.log) == 1
    ensures Inv(Poll(s, outcome), host)
  {
    hide LogOk, Failures, Restarts, NeedsInfo;
    var asked := Note(s, Fetch(!s.fetched));
    NoteSnoc(s, Fetch(!s.fetched));
    LogSnoc(s.log, Fetch(!s.fetched));
    var got := Note(asked, Got(!s.fetched)).(fetched := true);
    NoteSnoc(asked, Got(!s.fetched));
    LogSnoc(asked.log, Got(!s.fetched));
    NoteSnoc(asked, Failure);
    LogSnoc(asked.log, Failure);
    NoteSnoc(got, Failure);
    LogSnoc(got.log, Failure);
    NoteSnoc(got, Success);
    LogSnoc(got.log, Success);
    NoteSnoc(Succeed(got), Failure);
    LogSnoc(Succeed(got).log, Failure);
  }

  lemma IterateKeeps(s: Loop, host: bool, p: Pass)
    requires Inv(s, host)
    ensures Inv(Iterate(s, host, p), host)
  {
    hide LogOk, Failures, Restarts, NeedsInfo, Poll;
    if !s.stopped {
      var t := s.(first := false);
      var u := Breaker(t, host);
      NoteSnoc(t, Restart);
      if u != t {
        LogSnoc(t.log, Restart);
      }
      PollKeeps(u, host, p.outcome);
    }
  }

  lemma FreshKeeps(host: bool)
    ensures Inv(Fresh(), host)
  {
  }

  lemma {:induction false} RunKeeps(host: bool, passes: seq<Pass>)
    ensures Inv(Run(Fresh(), host, passes), host)
  {
    hide Inv, Iterate;
    if passes == [] {
      FreshKeeps(host);
    } else {
      RunKeeps(host, passes[..|passes| - 1]);
      IterateKeeps(Run(Fresh(), host, passes[..|passes| - 1]), host, passes[|passes| - 1]);
    }
  }

  // ---- what every run guarantees ----

  function LogOf(host: bool, passes: seq<Pass>): seq<Entry> {
    Run(Fresh(), host, passes).log
  }

  /** A counter that is zero at `j` was reset by a success after any restart before `j`. */
  lemma {:induction false} ResetBetween(log: seq<Entry>, i: nat, j: nat)
    requires i < j <= |log| && log[i] == Restart && Restarts(log[..j]) == 0
    ensures exists k :: i < k < j && log[k] == Success
  {
    var n := j - 1;
    assert log[..j][..n] == log[..n];
    if log[n] != Success && i < n {
      ResetBetween(log, i, n);
    }
  }

  /** The last three failures before a point where three are counted, after the last success. */
  function FailuresIn(log: seq<Entry>): nat {
    if log == [] then 0 else FailuresIn(log[..|log| - 1]) + if log[|log| - 1] == Failure then 1 else 0
  }

  lemma {:induction false} FailuresAfter(log: seq<Entry>, k: nat, j: nat)
    requires k <= j <= |log|
    ensures FailuresIn(log[k..j]) >= if Success in log[k..j] then Failures(log[..j])
                                     else Failures(log[..j]) - Failures(log[..k])
    decreases j - k
  {
    if k < j {
      var n := j - 1;
      assert log[..j][..n] == log[..n] && log[k..j][..n - k] == log[k..n];
      assert log[k..j] == log[k..n] + [log[n]];
      FailuresAfter(log, k, n);
    } else {
      assert log[k..j] == [];
    }
  }

  lemma LogIsOk(host: bool, passes: seq<Pass>)
    ensures LogOk(LogOf(host, passes))
  {
    hide LogOk;
    RunKeeps(host, passes);
  }

  /**
   Between two restarts of the ESP32 some poll reached its success point, and at least three polls
   failed: one restart per outage, and none before the third failure.
   */
  lemma OneRestartPerOutage(host: bool, passes: seq<Pass>, i: nat, j: nat)
    requires var log := LogOf(host, passes); i < j < |log| && log[i] == Restart && log[j] == Restart
    ensures var log := LogOf(host, passes);
            && (exists k :: i < k < j && log[k] == Success)
            && FailuresIn(log[i..j]) >= 3
  {
    hide LogOf, Failures, Restarts, FailuresIn;
    var log := LogOf(host, passes);
    LogIsOk(host, passes);
    assert EntryOk(log[..j], log[j]);
    ResetBetween(log, i, j);
    FailuresAfter(log, i, j);
    var k :| i < k < j && log[k] == Success;
    assert log[i..j][k - i] == Success;
  }

  /** Without a configured ESP32 there is no restart; with one, the fourth failure proves there was one. */
  lemma RestartIffFourthPoll(host: bool, passes: seq<Pass>)
    ensures var log := LogOf(host, passes);
            && (Failures(log) > OPEN_THRESHOLD && host ==> Restarts(log) == 1)
            && (!host ==> Restarts(log) == 0)
  {
    hide LogOk, Failures, Restarts;
    RunKeeps(host, passes);
  }

  /** The pass goes as far as polling the device. */
  predicate Polls(s: Loop, p: Pass) {
    && !s.stopped && !p.shutdown && p.onDemand
    && (!(s.first && p.intervalSet) ==> !p.cancelled && !p.woken && p.intervalSet)
  }

  /** What a poll adds to the log, given whether identification is needed. */
  function Deeds(outcome: Outcome, info: bool): seq<Entry> {
    match outcome
    case TimingFails => []
    case Unsupported => [Fetch(info)]
    case FetchFails => [Fetch(info), Failure]
    case IdentificationFails => [Fetch(info), Got(info), if info then Failure else Success]
    case Fine => [Fetch(info), Got(info), Success]
    case PublishFails => [Fetch(info), Got(info), Success, Failure]
  }

  lemma SnocTwo(log: seq<Entry>, a: Entry, b: Entry)
    ensures log + [a, b] == log + [a] + [b]
  {
  }

  lemma SnocThree(log: seq<Entry>, a: Entry, b: Entry, c: Entry)
    ensures log + [a, b, c] == log + [a] + [b] + [c]
  {
  }

  lemma PollLog(s: Loop, outcome: Outcome)
    ensures Poll(s, outcome).log == s.log + Deeds(outcome, !s.fetched)
    ensures Poll(s, outcome).stopped == (s.stopped || outcome == TimingFails || outcome == Unsupported)
  {
    var info := !s.fetched;
    match outcome
    case TimingFails =>
    case Unsupported =>
    case FetchFails => SnocTwo(s.log, Fetch(info), Failure);
    case IdentificationFails => SnocThree(s.log, Fetch(info), Got(info), if info then Failure else Success);
    case Fine => SnocThree(s.log, Fetch(info), Got(info), Success);
    case PublishFails =>
      SnocThree(s.log, Fetch(info), Got(info), Success);
      assert s.log + [Fetch(info), Got(info), Success, Failure] == s.log + [Fetch(info), Got(info), Success] + [Failure];
  }

  /**
   Every pass that polls does exactly this, judged by what was done before: the ESP32 is restarted if it
   is the fourth poll of an outage, the identification is asked for if it is needed, and the poll ends
   as its outcome says.  Only a timing error outside the guard and an unsupported device stop the loop.
   */
  lemma PollDoes(host: bool, passes: seq<Pass>, p: Pass)
    requires Polls(Run(Fresh(), host, passes), p)
    ensures var before, log := LogOf(host, passes), LogOf(host, passes + [p]);
            && log == before + (if host && Failures(before) == OPEN_THRESHOLD then [Restart] else [])
                      + Deeds(p.outcome, NeedsInfo(before))
            && (Run(Fresh(), host, passes + [p]).stopped <==> p.outcome == TimingFails || p.outcome == Unsupported)
  {
    hide LogOk, Failures, Restarts, NeedsInfo, Poll, Deeds;
    assert (passes + [p])[..|passes|] == passes;
    RunKeeps(host, passes);
    var s := Run(Fresh(), host, passes);
    PollLog(Breaker(s.(first := false), host), p.outcome);
    assert s.log + [] == s.log;
  }

  /** Any other pass does nothing; the loop stops for good if it was cancelled or shut down. */
  lemma OthersDoNothing(host: bool, passes: seq<Pass>, p: Pass)
    requires !Polls(Run(Fresh(), host, passes), p)
    ensures var s, t := Run(Fresh(), host, passes), Run(Fresh(), host, passes + [p]);
            && LogOf(host, passes + [p]) == LogOf(host, passes) && t.failures == s.failures
            && (t.stopped <==> s.stopped || (if s.first && p.intervalSet then p.shutdown
                                             else p.cancelled || (p.intervalSet && !p.woken && p.shutdown)))
  {
    assert (passes + [p])[..|passes|] == passes;
  }

  lemma CountersAre(host: bool, passes: seq<Pass>)
    ensures Run(Fresh(), host, passes).failures == Failures(LogOf(host, passes))
  {
    hide LogOk, Failures, Restarts, NeedsInfo, Run;
    RunKeeps(host, passes);
  }

  /** A poll without an error closes the circuit, and asks for the identification again exactly after a recovery. */
  lemma FinePollSucceeds(host: bool, passes: seq<Pass>, p: Pass)
    requires Polls(Run(Fresh(), host, passes), p)
    requires p.outcome == Fine || (p.outcome == IdentificationFails && !NeedsInfo(LogOf(host, passes)))
    ensures var before, log := LogOf(host, passes), LogOf(host, passes + [p]);
            && log != [] && log[|log| - 1] == Success
            && Failures(log) == 0 && Run(Fresh(), host, passes + [p]).failures == 0
            && (NeedsInfo(log) <==> Failures(before) > 0)
  {
    hide LogOk, Failures, Restarts, NeedsInfo, LogOf, Run;
    var before, log := LogOf(host, passes), LogOf(host, passes + [p]);
    var info := NeedsInfo(before);
    PollDoes(host, passes, p);
    CountersAre(host, passes + [p]);
    Snoc(before, Restart);
    var start := before + if host && Failures(before) == OPEN_THRESHOLD then [Restart] else [];
    SnocThree(start, Fetch(info), Got(info), Success);
    Snoc(start, Fetch(info));
    Snoc(start + [Fetch(info)], Got(info));
    Snoc(start + [Fetch(info)] + [Got(info)], Success);
    assert before + [] == before;
  }

  /** A poll that fails before its success point counts one more. */
  lemma FailedPollCounts(host: bool, passes: seq<Pass>, p: Pass)
    requires Polls(Run(Fresh(), host, passes), p)
    requires p.outcome == FetchFails || (p.outcome == IdentificationFails && NeedsInfo(LogOf(host, passes)))
    ensures var before, log := LogOf(host, passes), LogOf(host, passes + [p]);
            && Failures(log) == Failures(before) + 1 && Run(Fresh(), host, passes + [p]).failures == Failures(before) + 1
            && (NeedsInfo(log) <==> p.outcome == FetchFails && NeedsInfo(before))
  {
    hide LogOk, Failures, Restarts, NeedsInfo, LogOf, Run;
    var before, log := LogOf(host, passes), LogOf(host, passes + [p]);
    var info := NeedsInfo(before);
    PollDoes(host, passes, p);
    CountersAre(host, passes + [p]);
    Snoc(before, Restart);
    var start := before + if host && Failures(before) == OPEN_THRESHOLD then [Restart] else [];
    assert before + [] == before;
    Snoc(start, Fetch(info));
    if p.outcome == FetchFails {
      SnocTwo(start, Fetch(info), Failure);
      Snoc(start + [Fetch(info)], Failure);
    } else {
      SnocThree(start, Fetch(info), Got(info), Failure);
      Snoc(start + [Fetch(info)], Got(info));
      Snoc(start + [Fetch(info)] + [Got(info)], Failure);
    }
  }

  /** As long as every poll is fine, nothing is counted and nothing restarted. */
  lemma {:induction false} FineRun(host: bool, passes: seq<Pass>)
    requires forall i :: 0 <= i < |passes| ==> passes[i].outcome == Fine
    ensures Failure !in LogOf(host, passes) && Restart !in LogOf(host, passes)
    ensures Failures(LogOf(host, passes)) == 0 && Run(Fresh(), host, passes).failures == 0
  {
    if passes != [] {
      var n := |passes| - 1;
      assert passes == passes[..n] + [passes[n]];
      FineRun(host, passes[..n]);
      hide Run, LogOf, Failures;
      if Polls(Run(Fresh(), host, passes[..n]), passes[n]) {
        PollDoes(host, passes[..n], passes[n]);
        FinePollSucceeds(host, passes[..n], passes[n]);
      } else {
        OthersDoNothing(host, passes[..n], passes[n]);
      }
    }
  }

  /**
   An error after the success point counts as one failure, however many polls failed before: the
   circuit has been closed, and a recovery has already asked for the identification again.
   */
  lemma PublishErrorCountsOnce(host: bool, passes: seq<Pass>, p: Pass)
    requires p.outcome == PublishFails && Polls(Run(Fresh(), host, passes), p)
    ensures var log := LogOf(host, passes + [p]);
            && Failures(log) == 1 && Run(Fresh(), host, passes + [p]).failures == 1
            && (NeedsInfo(log) <==> Failures(LogOf(host, passes)) > 0)
  {
    hide LogOk, Failures, Restarts, NeedsInfo;
    var s := Run(Fresh(), host, passes);
    assert (passes + [p])[..|passes|] == passes;
    RunKeeps(host, passes);
    var t := Breaker(s.(first := false), host);
    NoteSnoc(s.(first := false), Restart);
    var asked := Note(t, Fetch(!t.fetched));
    NoteSnoc(t, Fetch(!t.fetched));
    var got := Note(asked, Got(!t.fetched)).(fetched := true);
    NoteSnoc(asked, Got(!t.fetched));
    NoteSnoc(got, Success);
    NoteSnoc(Succeed(got), Failure);
  }

  /** The need for identification lasts until it has been fetched. */
  lemma {:induction false} NeedLasts(log: seq<Entry>, k: nat, j: nat)
    requires k <= j <= |log| && NeedsInfo(log[..k])
    requires forall m :: k <= m < j ==> log[m] != Got(true)
    ensures NeedsInfo(log[..j])
    decreases j - k
  {
    if k < j {
      assert log[..j][..j - 1] == log[..j - 1];
      NeedLasts(log, k, j - 1);
    }
  }

  /** After a recovery every fetch asks for the identification again, until one has got it. */
  lemma RecoveryRefetches(host: bool, passes: seq<Pass>, k: nat, j: nat)
    requires var log := LogOf(host, passes);
             && k < j < |log| && log[k] == Success && Failures(log[..k]) > 0 && log[j].Fetch?
             && forall m :: k < m < j ==> log[m] != Got(true)
    ensures LogOf(host, passes)[j] == Fetch(true)
  {
    hide LogOf, Failures;
    var log := LogOf(host, passes);
    LogIsOk(host, passes);
    assert EntryOk(log[..j], log[j]);
    assert log[..k + 1] == log[..k] + [Success];
    Snoc(log[..k], Success);
    NeedLasts(log, k + 1, j);
  }
}
