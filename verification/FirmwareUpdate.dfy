/**
 The simulated firmware update of a Mera device: a state shared by procedure calls, a web trigger,
 a flash task and a finalize task that interleave in any order, with each other and with all other
 operations on the device's stores.
 */
module FirmwareUpdate {
  import opened Bytes
  import opened CrcMessages
  import opened MeraFrames
  import S = MeraStore

  const TICKS := 10
  const STEP := 84

  datatype Phase = Idle | Started | Done | Rebooting

  /** A flash task: how many ticks it has slept through, and whether it finalizes by itself. */
  datatype Flash = Flash(ticks: nat, auto: bool)

  /** A finalize task: before or after it has applied the new firmware and begun to sleep. */
  datatype Finalize = Finalize(applied: bool)

  /** What happened to the stores: the update installed its firmware, or some other operation. */
  datatype Event = Installed | Other(op: S.Op)

  /**
   The update state, the tasks that exist and the device's stores; then, as history, every state
   taken, the progress pushed in the current cycle, what each finished flash window pushed, and the
   events on the stores.
   */
  datatype Update = Update(
    phase: Phase,
    flashes: seq<Flash>,
    finalizes: seq<Finalize>,
    device: S.Mock,
    history: seq<Phase>,
    progress: seq<nat>,
    windows: seq<seq<nat>>,
    events: seq<Event>)

  function Fresh(device: S.Mock): Update {
    Update(Idle, [], [], device, [Idle], [], [], [])
  }

  datatype Label =
    | StartProcedure
    | WebTrigger
    | Ping
    | FlashTick(task: nat)
    | FinalizeStep(task: nat)
    | Operate(op: S.Op)

  function Enter(u: Update, p: Phase): Update {
    u.(phase := p, history := u.history + [p])
  }

  function Begin(u: Update, auto: bool): Update {
    Enter(u, Started).(flashes := u.flashes + [Flash(0, auto)], progress := [])
  }

  function Reboot(u: Update): Update {
    Enter(u, Rebooting).(finalizes := u.finalizes + [Finalize(false)])
  }

  function Without<T>(s: seq<T>, i: nat): seq<T>
    requires i < |s|
  {
    s[..i] + s[i + 1..]
  }

  /** A tick of a flash task; the last one ends it, and the flash window with it. */
  function Tick(u: Update, i: nat): Update
    requires i < |u.flashes|
  {
    var f := u.flashes[i];
    var pushed := u.(progress := u.progress + [STEP * (f.ticks + 1)]);
    if f.ticks + 1 < TICKS then pushed.(flashes := u.flashes[i := Flash(f.ticks + 1, f.auto)])
    else
      var ended := Enter(pushed, Done).(flashes := Without(u.flashes, i), windows := u.windows + [pushed.progress]);
      if f.auto then Reboot(ended) else ended
  }

  function OpOf(e: Event): S.Op {
    match e
    case Installed => S.ApplyProfile(S.Rs30)
    case Other(op) => op
  }

  function Happen(u: Update, e: Event): Update {
    u.(device := S.Apply(u.device, OpOf(e)), events := u.events + [e])
  }

  function Step(u: Update, l: Label): Update {
    match l
    case StartProcedure => if u.phase == Idle then Begin(u, false) else u
    case WebTrigger => if u.phase == Idle then Begin(u, true) else u
    case Ping => if u.phase == Done then Reboot(u) else u
    case FlashTick(i) => if i < |u.flashes| then Tick(u, i) else u
    case FinalizeStep(i) =>
      if i >= |u.finalizes| then u
      else if !u.finalizes[i].applied then Happen(u, Installed).(finalizes := u.finalizes[i := Finalize(true)])
      else Enter(u, Idle).(finalizes := Without(u.finalizes, i))
    case Operate(op) => Happen(u, Other(op))
  }

  function Run(u: Update, labels: seq<Label>): Update
    decreases |labels|
  {
    if labels == [] then u else Run(Step(u, labels[0]), labels[1..])
  }

  /** The answer to a poll: done, or still busy. */
  function PollAnswer(u: Update): byte {
    if u.phase == Done then 6 else 5
  }

  // ---- what every interleaving keeps ----

  function Next(p: Phase): Phase {
    match p
    case Idle => Started
    case Started => Done
    case Done => Rebooting
    case Rebooting => Idle
  }

  predicate Cyclic(history: seq<Phase>) {
    history != [] && forall i :: 0 <= i < |history| - 1 ==> history[i + 1] == Next(history[i])
  }

  /** Progress values 84, 168, ... */
  function Climb(n: nat): (c: seq<nat>)
    ensures |c| == n && forall i :: 0 <= i < n ==> c[i] == STEP * (i + 1)
  {
    seq(n, i requires 0 <= i => STEP * (i + 1))
  }

  /** How often a phase has been entered. */
  function Times(history: seq<Phase>, p: Phase): nat {
    if history == [] then 0
    else Times(history[..|history| - 1], p) + if history[|history| - 1] == p then 1 else 0
  }

  function Installs(events: seq<Event>): nat {
    if events == [] then 0
    else Installs(events[..|events| - 1]) + if events[|events| - 1] == Installed then 1 else 0
  }

  function OpsOf(events: seq<Event>): (ops: seq<S.Op>)
    ensures |ops| == |events|
  {
    seq(|events|, i requires 0 <= i < |events| => OpOf(events[i]))
  }

  predicate Inv(u: Update, start: S.Mock) {
    && Cyclic(u.history) && u.history[|u.history| - 1] == u.phase
    && (|u.flashes| == if u.phase == Started then 1 else 0)
    && (|u.finalizes| == if u.phase == Rebooting then 1 else 0)
    && (forall i :: 0 <= i < |u.flashes| ==> u.flashes[i].ticks < TICKS && u.progress == Climb(u.flashes[i].ticks))
    && (u.phase == Done || u.phase == Rebooting ==> u.progress == Climb(TICKS))
    && (forall i :: 0 <= i < |u.windows| ==> u.windows[i] == Climb(TICKS))
    && |u.windows| == Times(u.history, Done)
    && Installs(u.events) + (if u.phase == Rebooting && !u.finalizes[0].applied then 1 else 0)
       == Times(u.history, Rebooting)
    && u.device == S.ApplyAll(start, OpsOf(u.events))
  }

  lemma {:induction false} ApplyAllConcat(m: S.Mock, a: seq<S.Op>, b: seq<S.Op>)
    ensures S.ApplyAll(m, a + b) == S.ApplyAll(S.ApplyAll(m, a), b)
    decreases |a|
  {
    hide S.Apply;
    if a == [] {
      assert a + b == b;
    } else {
      assert (a + b)[1..] == a[1..] + b;
      ApplyAllConcat(S.Apply(m, a[0]), a[1..], b);
    }
  }

  lemma ApplyAllSnoc(m: S.Mock, ops: seq<S.Op>, op: S.Op)
    ensures S.ApplyAll(m, ops + [op]) == S.Apply(S.ApplyAll(m, ops), op)
  {
    ApplyAllConcat(m, ops, [op]);
    assert [op][1..] == [];
  }

  lemma HappenKeeps(u: Update, e: Event, start: S.Mock)
    requires u.device == S.ApplyAll(start, OpsOf(u.events))
    ensures var v := Happen(u, e);
            && v.device == S.ApplyAll(start, OpsOf(v.events))
            && Installs(v.events) == Installs(u.events) + if e == Installed then 1 else 0
  {
    hide S.Apply, S.ApplyAll;
    assert OpsOf(u.events + [e]) == OpsOf(u.events) + [OpOf(e)];
    ApplyAllSnoc(start, OpsOf(u.events), OpOf(e));
    assert (u.events + [e])[..|u.events|] == u.events;
  }

  lemma EnterSnoc(history: seq<Phase>, p: Phase)
    requires Cyclic(history) && p == Next(history[|history| - 1])
    ensures Cyclic(history + [p])
    ensures forall q :: Times(history + [p], q) == Times(history, q) + if p == q then 1 else 0
  {
    assert (history + [p])[..|history|] == history;
  }

  lemma TickKeeps(u: Update, i: nat, start: S.Mock)
    requires Inv(u, start) && i < |u.flashes|
    ensures Inv(Tick(u, i), start)
  {
    hide Cyclic, Times, S.ApplyAll, Installs;
    var f := u.flashes[i];
    assert u.progress + [STEP * (f.ticks + 1)] == Climb(f.ticks + 1);
    EnterSnoc(u.history, Done);
    EnterSnoc(u.history + [Done], Rebooting);
  }

  /** A flash task exists exactly in `Started`, a finalize task exactly in `Rebooting`. */
  lemma StepKeeps(u: Update, l: Label, start: S.Mock)
    requires Inv(u, start)
    ensures Inv(Step(u, l), start)
  {
    hide Cyclic, Times, S.Apply, S.ApplyAll, Installs, OpsOf;
    match l
    case FlashTick(i) => if i < |u.flashes| { TickKeeps(u, i, start); }
    case Operate(op) => HappenKeeps(u, Other(op), start);
    case FinalizeStep(i) =>
      HappenKeeps(u, Installed, start);
      if i < |u.finalizes| && u.finalizes[i].applied {
        EnterSnoc(u.history, Idle);
      }
    case _ => if u.phase != Started { EnterSnoc(u.history, Next(u.phase)); }
  }

  lemma {:induction false} RunKeeps(u: Update, labels: seq<Label>, start: S.Mock)
    requires Inv(u, start)
    ensures Inv(Run(u, labels), start)
    decreases |labels|
  {
    hide Inv, Step;
    if labels != [] {
      StepKeeps(u, labels[0], start);
      RunKeeps(Step(u, labels[0]), labels[1..], start);
    }
  }

  lemma FreshKeeps(start: S.Mock)
    ensures Inv(Fresh(start), start)
  {
    hide S.Apply;
    assert Times([Idle], Done) == Times([Idle], Rebooting) == 0 by {
      assert [Idle][..0] == [];
    }
    assert OpsOf([]) == [];
  }

  /** In every interleaving the tasks that exist are those the state announces, at most one of all. */
  lemma TasksMatchState(start: S.Mock, labels: seq<Label>)
    ensures var u := Run(Fresh(start), labels);
            && (u.flashes != [] <==> u.phase == Started) && (u.finalizes != [] <==> u.phase == Rebooting)
            && |u.flashes| + |u.finalizes| <= 1
  {
    hide Run, Cyclic, Times, S.ApplyAll;
    FreshKeeps(start);
    RunKeeps(Fresh(start), labels, start);
  }

  /** States follow idle, started, done, rebooting, idle, ... and nothing is skipped. */
  lemma StatesCycle(start: S.Mock, labels: seq<Label>, i: nat)
    requires i + 1 < |Run(Fresh(start), labels).history|
    ensures var h := Run(Fresh(start), labels).history; h[i + 1] == Next(h[i])
  {
    hide Run, Times, S.ApplyAll;
    FreshKeeps(start);
    RunKeeps(Fresh(start), labels, start);
  }

  /** Each flash window pushes exactly ten values, strictly increasing by 84 up to 840. */
  lemma WindowsClimb(start: S.Mock, labels: seq<Label>, w: nat)
    requires w < |Run(Fresh(start), labels).windows|
    ensures var p := Run(Fresh(start), labels).windows[w];
            && |p| == TICKS && p[0] == STEP && p[TICKS - 1] == 840
            && forall i :: 0 <= i < |p| - 1 ==> p[i + 1] == p[i] + STEP
  {
    hide Run, Times, Cyclic, S.ApplyAll;
    FreshKeeps(start);
    RunKeeps(Fresh(start), labels, start);
  }

  /**
   The stores are at all times those of the operations that came, in order, among them one
   installation of the new firmware for every reboot that has been through its first half.
   */
  lemma AppliedOncePerCycle(start: S.Mock, labels: seq<Label>)
    ensures var u := Run(Fresh(start), labels);
            && u.device == S.ApplyAll(start, OpsOf(u.events))
            && Installs(u.events) <= Times(u.history, Rebooting) <= Installs(u.events) + 1
            && (u.phase != Rebooting ==> Installs(u.events) == Times(u.history, Rebooting))
            && |u.windows| == Times(u.history, Done)
  {
    hide Run, Times, Cyclic, S.ApplyAll, Installs;
    FreshKeeps(start);
    RunKeeps(Fresh(start), labels, start);
  }

  // ---- the installed firmware ----

  /** An operation that can change a firmware version. */
  predicate Writes(op: S.Op, component: nat) {
    op.ApplyProfile? || op.FactoryReset? || (op.WriteFirmware? && op.id == component)
  }

  predicate Holds(m: S.Mock, component: nat, v: S.Value) {
    && component in m.firmware && m.firmware[component] == v
    && S.Fw(component) in m.saved && m.saved[S.Fw(component)] == v
  }

  lemma InstallHolds(m: S.Mock, component: nat)
    requires component in S.RS30
    ensures Holds(S.Apply(m, S.ApplyProfile(S.Rs30)), component, S.RS30[component])
  {
    hide S.RS30;
    assert S.Fw(component) in S.SavedFirmware(S.RS30);
  }

  lemma OthersLeaveFirmware(m: S.Mock, op: S.Op, component: nat, v: S.Value)
    requires Holds(m, component, v) && !Writes(op, component)
    ensures Holds(S.Apply(m, op), component, v)
  {
    hide S.DEFAULT_SETTINGS, S.RS28, S.RS30, S.FACTORY_IDENTITY, S.SavedFirmware, S.SavedIdentity;
  }

  lemma {:induction false} StillHolds(m: S.Mock, ops: seq<S.Op>, component: nat, v: S.Value)
    requires Holds(m, component, v) && forall i :: 0 <= i < |ops| ==> !Writes(ops[i], component)
    ensures Holds(S.ApplyAll(m, ops), component, v)
    decreases |ops|
  {
    hide S.Apply, Holds, Writes;
    if ops != [] {
      OthersLeaveFirmware(m, ops[0], component, v);
      StillHolds(S.Apply(m, ops[0]), ops[1..], component, v);
    }
  }

  lemma RebuiltReads(m: S.Mock, component: nat, v: S.Value)
    requires Holds(m, component, v)
    ensures S.Lookup(S.Build(m.saved).firmware, component) == Some(v)
  {
    hide S.DEFAULT_SETTINGS, S.RS30, S.FACTORY_IDENTITY, S.Commons, S.Profiles, S.Fields;
    S.ComponentKeys(m.saved);
    hide S.Components;
  }

  /**
   In every interleaving a component installed by an update has the new version, in memory and for a
   rebuilt device, as long as no later operation writes that component, applies another profile or
   resets the device, whatever else happens to the stores.
   */
  lemma InstalledStays(start: S.Mock, labels: seq<Label>, i: nat, component: nat)
    requires var u := Run(Fresh(start), labels);
             && i < |u.events| && u.events[i] == Installed && component in S.RS30
             && forall j :: i < j < |u.events| ==> u.events[j].Other? && !Writes(u.events[j].op, component)
    ensures var u := Run(Fresh(start), labels);
            && S.Lookup(u.device.firmware, component) == Some(S.RS30[component])
            && S.Lookup(S.Build(u.device.saved).firmware, component) == Some(S.RS30[component])
  {
    var u := Run(Fresh(start), labels);
    AppliedOncePerCycle(start, labels);
    hide Run, S.ApplyAll, S.Apply, S.Build, S.RS30, Writes;
    var ops := OpsOf(u.events);
    var first, rest := ops[..i] + [ops[i]], ops[i + 1..];
    assert ops == first + rest;
    ApplyAllConcat(start, first, rest);
    ApplyAllSnoc(start, ops[..i], ops[i]);
    InstallHolds(S.ApplyAll(start, ops[..i]), component);
    StillHolds(S.ApplyAll(start, first), rest, component, S.RS30[component]);
    RebuiltReads(u.device, component, S.RS30[component]);
  }

  // ---- an update comes to its end ----

  function Count(labels: seq<Label>, l: Label): nat {
    if labels == [] then 0 else (if labels[0] == l then 1 else 0) + Count(labels[1..], l)
  }

  lemma {:induction false} RunConcat(u: Update, a: seq<Label>, b: seq<Label>)
    ensures Run(u, a + b) == Run(Run(u, a), b)
    decreases |a|
  {
    hide Step;
    if a == [] {
      assert a + b == b;
    } else {
      assert (a + b)[1..] == a[1..] + b;
      RunConcat(Step(u, a[0]), a[1..], b);
    }
  }

  lemma RunSnoc(u: Update, a: seq<Label>, l: Label)
    ensures Run(u, a + [l]) == Step(Run(u, a), l)
  {
    RunConcat(u, a, [l]);
    assert [l][1..] == [];
  }

  /** While it flashes, whatever else happens, only the ticks count. */
  lemma {:induction false} KeepsFlashing(u: Update, labels: seq<Label>, start: S.Mock)
    requires Inv(u, start) && u.phase == Started && u.flashes[0].ticks + Count(labels, FlashTick(0)) < 10
    ensures var v := Run(u, labels);
            && Inv(v, start) && v.phase == Started && PollAnswer(v) == 5
            && v.flashes == [Flash(u.flashes[0].ticks + Count(labels, FlashTick(0)), u.flashes[0].auto)]
    decreases |labels|
  {
    hide Cyclic, Times, S.Apply, S.ApplyAll, Installs, OpsOf;
    if labels != [] {
      StepKeeps(u, labels[0], start);
      KeepsFlashing(Step(u, labels[0]), labels[1..], start);
    }
  }

  /** Once done it waits for the ping, and says so to every poll. */
  lemma {:induction false} KeepsWaiting(u: Update, labels: seq<Label>, start: S.Mock)
    requires Inv(u, start) && u.phase == Done && Count(labels, Ping) == 0
    ensures var v := Run(u, labels); Inv(v, start) && v.phase == Done && PollAnswer(v) == 6
    decreases |labels|
  {
    hide Cyclic, Times, S.Apply, S.ApplyAll, Installs, OpsOf;
    if labels != [] {
      StepKeeps(u, labels[0], start);
      KeepsWaiting(Step(u, labels[0]), labels[1..], start);
    }
  }

  /** While it reboots only the finalize task counts. */
  lemma {:induction false} KeepsRebooting(u: Update, labels: seq<Label>, start: S.Mock)
    requires Inv(u, start) && u.phase == Rebooting && Count(labels, FinalizeStep(0)) == 0
    ensures var v := Run(u, labels);
            Inv(v, start) && v.phase == Rebooting && v.finalizes == u.finalizes && PollAnswer(v) == 5
    decreases |labels|
  {
    hide Cyclic, Times, S.Apply, S.ApplyAll, Installs, OpsOf;
    if labels != [] {
      StepKeeps(u, labels[0], start);
      KeepsRebooting(Step(u, labels[0]), labels[1..], start);
    }
  }

  /** A start, or the trigger of the web page, and ten ticks with anything between them. */
  lemma FlashEnds(u: Update, auto: bool, between: seq<Label>, start: S.Mock)
    requires Inv(u, start) && u.phase == Idle && Count(between, FlashTick(0)) == 9
    ensures var labels := [if auto then WebTrigger else StartProcedure] + between + [FlashTick(0)];
            var v := Run(u, labels);
            && Inv(v, start)
            && v.phase == (if auto then Rebooting else Done)
            && (auto ==> v.finalizes == [Finalize(false)])
  {
    var begin := if auto then WebTrigger else StartProcedure;
    var begun := Step(u, begin);
    hide Cyclic, Times, S.ApplyAll, Installs, OpsOf;
    StepKeeps(u, begin, start);
    KeepsFlashing(begun, between, start);
    var last := Run(begun, between);
    StepKeeps(last, FlashTick(0), start);
    RunConcat(u, [begin], between);
    RunSnoc(u, [], begin);
    assert [] + [begin] == [begin];
    RunSnoc(u, [begin] + between, FlashTick(0));
    hide Run;
  }

  lemma {:induction false} CountPrefix(labels: seq<Label>, l: Label, k: nat)
    requires k <= |labels|
    ensures Count(labels[..k], l) <= Count(labels, l)
  {
    if k > 0 {
      assert labels[..k][1..] == labels[1..][..k - 1];
      CountPrefix(labels[1..], l, k - 1);
    }
  }

  /** Before the last tick every poll hears that it is busy. */
  lemma BusyUntilDone(u: Update, auto: bool, between: seq<Label>, k: nat, start: S.Mock)
    requires Inv(u, start) && u.phase == Idle && Count(between, FlashTick(0)) == 9 && k <= |between|
    ensures PollAnswer(Run(u, [if auto then WebTrigger else StartProcedure] + between[..k])) == 5
  {
    var begin := if auto then WebTrigger else StartProcedure;
    var begun := Step(u, begin);
    hide Cyclic, Times, S.ApplyAll, Installs, OpsOf;
    StepKeeps(u, begin, start);
    CountPrefix(between, FlashTick(0), k);
    KeepsFlashing(begun, between[..k], start);
    RunConcat(u, [begin], between[..k]);
    RunSnoc(u, [], begin);
    assert [] + [begin] == [begin];
    hide Run;
  }

  /** A ping, whenever it comes, begins the reboot. */
  lemma PingReboots(u: Update, before: seq<Label>, start: S.Mock)
    requires Inv(u, start) && u.phase == Done && Count(before, Ping) == 0
    ensures var v := Run(u, before + [Ping]);
            Inv(v, start) && v.phase == Rebooting && v.finalizes == [Finalize(false)]
  {
    hide Run, Cyclic, Times, S.ApplyAll, Installs, OpsOf;
    KeepsWaiting(u, before, start);
    StepKeeps(Run(u, before), Ping, start);
    RunSnoc(u, before, Ping);
  }

  /** The first step of the finalize task installs the new firmware, the second makes the device reachable. */
  lemma RebootEnds(u: Update, before: seq<Label>, between: seq<Label>, start: S.Mock)
    requires Inv(u, start) && u.phase == Rebooting && u.finalizes == [Finalize(false)]
    requires Count(before, FinalizeStep(0)) == 0 && Count(between, FinalizeStep(0)) == 0
    ensures var v := Run(u, before + [FinalizeStep(0)]);
            && v.phase == Rebooting && v.device == S.Apply(Run(u, before).device, S.ApplyProfile(S.Rs30))
            && v.events == Run(u, before).events + [Installed]
    ensures var v := Run(u, before + [FinalizeStep(0)] + between + [FinalizeStep(0)]);
            && v.phase == Idle && v.flashes == [] && v.finalizes == [] && PollAnswer(v) == 5
  {
    hide Run, Cyclic, Times, S.Apply, S.ApplyAll, Installs, OpsOf;
    KeepsRebooting(u, before, start);
    var w := Run(u, before);
    StepKeeps(w, FinalizeStep(0), start);
    RunSnoc(u, before, FinalizeStep(0));
    var v := Step(w, FinalizeStep(0));
    KeepsRebooting(v, between, start);
    RunConcat(u, before + [FinalizeStep(0)], between);
    var x := Run(v, between);
    StepKeeps(x, FinalizeStep(0), start);
    RunSnoc(u, before + [FinalizeStep(0)] + between, FinalizeStep(0));
  }

  /**
   Every update that is started comes to its end, in every interleaving: ten ticks; a ping, unless the web
   page started it; two steps of the finalize task.  The new firmware is installed in between, once.
   */
  lemma UpdateCompletes(start: S.Mock, before: seq<Label>, auto: bool, ticks: seq<Label>, waiting: seq<Label>,
                        applying: seq<Label>, sleeping: seq<Label>)
    requires Run(Fresh(start), before).phase == Idle
    requires Count(ticks, FlashTick(0)) == 9 && (!auto ==> Count(waiting, Ping) == 0)
    requires Count(applying, FinalizeStep(0)) == 0 && Count(sleeping, FinalizeStep(0)) == 0
    requires auto ==> waiting == []
    ensures var u := Run(Fresh(start), before);
            var v := Run(u, [if auto then WebTrigger else StartProcedure] + ticks + [FlashTick(0)]);
            var w := if auto then v else Run(v, waiting + [Ping]);
            var x := Run(w, applying + [FinalizeStep(0)] + sleeping + [FinalizeStep(0)]);
            && (forall k :: 0 <= k <= |ticks| ==>
                  PollAnswer(Run(u, [if auto then WebTrigger else StartProcedure] + ticks[..k])) == 5)
            && (!auto ==> PollAnswer(Run(v, waiting)) == 6)
            && w.phase == Rebooting && x.phase == Idle
            && Run(w, applying + [FinalizeStep(0)]).device
               == S.Apply(Run(w, applying).device, S.ApplyProfile(S.Rs30))
  {
    hide Run, Inv, S.Apply, Count;
    FreshKeeps(start);
    RunKeeps(Fresh(start), before, start);
    var u := Run(Fresh(start), before);
    FlashEnds(u, auto, ticks, start);
    forall k | 0 <= k <= |ticks|
      ensures PollAnswer(Run(u, [if auto then WebTrigger else StartProcedure] + ticks[..k])) == 5
    {
      BusyUntilDone(u, auto, ticks, k, start);
    }
    var v := Run(u, [if auto then WebTrigger else StartProcedure] + ticks + [FlashTick(0)]);
    if !auto {
      KeepsWaiting(v, waiting, start);
      PingReboots(v, waiting, start);
    }
    var w := if auto then v else Run(v, waiting + [Ping]);
    RebootEnds(w, applying, sleeping, start);
  }

  // ---- the progress frame ----

  const NOTIFICATION_ID: byte := 6

  function Le4(n: nat): seq<byte> {
    [n % 256, n / 256 % 256, n / 0x1_0000 % 256, n / 0x100_0000 % 256]
  }

  function ProgressBody(progress: nat): (b: seq<byte>)
    ensures |b| == 8
  {
    [3, 0, 0] + Le4(progress) + [12]
  }

  function ProgressFrame(progress: nat): seq<byte> {
    [0x11] + Padded(Serialize(Create(NOTIFICATION_ID, 0, ProgressBody(progress))), LEGACY_PAYLOAD)
  }

  function ProgressOf(body: seq<byte>): nat
    requires |body| >= 7
  {
    (((body[6] as int) * 256 + body[5]) * 256 + body[4]) * 256 + body[3]
  }

  lemma ProgressLength(body: seq<byte>)
    requires |body| == 8
    ensures |Serialize(Create(NOTIFICATION_ID, 0, body))| == 262
    ensures |Create(NOTIFICATION_ID, 0, body).body| == BODY
  {
    hide CheckBytes;
  }

  lemma Le4Value(n: nat)
    requires n < 0x1_0000_0000
    ensures var b := Le4(n); ((((b[3] as int) * 256) + b[2]) * 256 + b[1]) * 256 + b[0] == n
  {
    var h := n / 256;
    var k := h / 256;
    assert n == h * 256 + n % 256;
    assert h == k * 256 + h % 256;
    assert k == k / 256 * 256 + k % 256;
    assert n / 0x1_0000 == k && n / 0x100_0000 == k / 256;
  }

  /** A progress frame is one complete message; its check holds and its value reads back. */
  lemma ProgressReadBack(progress: nat)
    requires progress < 0x1_0000_0000
    ensures |ProgressFrame(progress)| == FRAME
    ensures ReadFrame(ProgressFrame(progress)) == First(1, ProgressFrame(progress)[1..20])
    ensures var m := CreateFromBytes(ProgressFrame(progress)[1..20]);
            && m.Some? && m.value.id == 6 && Declared(m.value) == 8 && IsValid(m.value) == Some(true)
            && |m.value.body| == BODY && m.value.body[..3] == [3, 0, 0] && m.value.body[7] == 12
            && ProgressOf(m.value.body) == progress
  {
    hide CheckBytes, IsValid, Padded;
    var body := ProgressBody(progress);
    var m := Create(NOTIFICATION_ID, 0, body);
    var s := Serialize(m);
    var data := ProgressFrame(progress)[1..20];
    ProgressLength(body);
    assert data == Padded(s, LEGACY_PAYLOAD);
    PaddedPrefix(s, LEGACY_PAYLOAD);
    assert data[..14] == s[..14];
    ReadBack(NOTIFICATION_ID, 0, body, data);
    assert forall i :: 0 <= i < 8 ==> m.body[i] == body[i];
    hide Serialize, CreateFromBytes;
    Le4Value(progress);
  }

  // ---- the object ----

  class FirmwareUpdater {
    const mock: S.MeraMock
    var state: Phase
    var flashes: seq<Flash>
    var finalizes: seq<Finalize>
    ghost var history: seq<Phase>
    ghost var progress: seq<nat>
    ghost var windows: seq<seq<nat>>
    ghost var events: seq<Event>

    ghost function Model(): Update
      reads this, mock, mock.file
    {
      Update(state, flashes, finalizes, mock.Model(), history, progress, windows, events)
    }

    constructor (mock: S.MeraMock)
      ensures this.mock == mock && Model() == Fresh(mock.Model())
    {
      this.mock := mock;
      state, flashes, finalizes := Idle, [], [];
      history, progress, windows, events := [Idle], [], [], [];
    }

    /** Procedure 0x52, and the web trigger; a second start in the same cycle is refused. */
    method Start(auto: bool) returns (started: bool)
      modifies this
      ensures Model() == Step(old(Model()), if auto then WebTrigger else StartProcedure)
      ensures started <==> old(state) == Idle
    {
      started := state == Idle;
      if started {
        state := Started;
        flashes := flashes + [Flash(0, auto)];
        history, progress := history + [Started], [];
      }
    }

    method Poll() returns (answer: byte)
      ensures answer == PollAnswer(Model())
    {
      answer := if state == Done then 6 else 5;
    }

    method FinalizePing()
      modifies this
      ensures Model() == Step(old(Model()), Ping)
    {
      if state == Done {
        BeginReboot();
      }
    }

    method BeginReboot()
      modifies this`state, this`finalizes, this`history
      ensures Model() == Reboot(old(Model()))
    {
      state := Rebooting;
      finalizes := finalizes + [Finalize(false)];
      history := history + [Rebooting];
    }

    /** A flash task wakes up: it pushes its progress frame, and the last tick ends the window. */
    method WakeFlash(i: nat) returns (frame: seq<byte>)
      requires i < |flashes|
      modifies this
      ensures Model() == Step(old(Model()), FlashTick(i))
      ensures frame == ProgressFrame(STEP * (old(flashes)[i].ticks + 1))
    {
      hide ProgressFrame;
      var f := flashes[i];
      var value := STEP * (f.ticks + 1);
      frame := ProgressFrame(value);
      progress := progress + [value];
      if f.ticks + 1 < TICKS {
        flashes := flashes[i := Flash(f.ticks + 1, f.auto)];
      } else {
        flashes := flashes[..i] + flashes[i + 1..];
        state := Done;
        history, windows := history + [Done], windows + [progress];
        if f.auto {
          BeginReboot();
        }
      }
    }

    /** A finalize task runs up to its next sleep, or to its end. */
    method WakeFinalize(i: nat)
      requires i < |finalizes|
      modifies this, mock, mock.file
      ensures Model() == Step(old(Model()), FinalizeStep(i))
    {
      hide S.Apply, S.MeraMock.Model;
      if !finalizes[i].applied {
        mock.ApplyFirmwareProfile(S.Rs30);
        finalizes := finalizes[i := Finalize(true)];
        events := events + [Installed];
      } else {
        finalizes := finalizes[..i] + finalizes[i + 1..];
        state := Idle;
        history := history + [Idle];
      }
    }

    /** The web handlers that write firmware versions act in any state of the update. */
    method WriteComponent(id: nat, v: S.Value) returns (ok: bool)
      modifies this`events, mock, mock.file
      ensures Model() == Step(old(Model()), Operate(S.WriteFirmware(id, v)))
    {
      hide S.Apply, S.MeraMock.Model;
      ok := mock.HandleWriteFwComponent(id, v);
      events := events + [Other(S.WriteFirmware(id, v))];
    }

    method SetFirmwareProfile(p: S.FirmwareProfile)
      modifies this`events, mock, mock.file
      ensures Model() == Step(old(Model()), Operate(S.ApplyProfile(p)))
    {
      hide S.Apply, S.MeraMock.Model;
      mock.ApplyFirmwareProfile(p);
      events := events + [Other(S.ApplyProfile(p))];
    }

    method FactoryReset()
      modifies this`events, mock, mock.file
      ensures Model() == Step(old(Model()), Operate(S.FactoryReset))
    {
      hide S.Apply, S.MeraMock.Model;
      mock.HandleFactoryReset();
      events := events + [Other(S.FactoryReset)];
    }
  }
}
