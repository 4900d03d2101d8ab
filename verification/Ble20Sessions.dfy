/**
 The application layer as an object that is built anew for every session from the defaults and the
 state file, and what survives from one such object to the next.
 */
module Ble20Sessions {
  import opened Bytes
  import opened Ble20
  import opened Ble20Defaults
  import opened Persistence

  // ---- building ----

  type Generator = nat -> seq<byte>

  predicate IsIdentity(k: Key) {
    k.dp in IDENTITY_DPS && k.inst == None
  }

  predicate IsFirmware(k: Key) {
    k.dp in FIRMWARE_DPS && k == FirmwareKey(k.dp)
  }

  /** The value a row has in a freshly built object. */
  function InitialValue(d: Store, saved: map<nat, seq<byte>>, gen: Generator, k: Key): seq<byte>
    requires k in d
  {
    if IsIdentity(k) then (if k.dp in saved then saved[k.dp] else gen(k.dp))
    else if IsFirmware(k) && k.dp in saved then saved[k.dp]
    else if k.inst == None && d[k].behavior == NVM && k.dp in saved then saved[k.dp]
    else d[k].value
  }

  function BuiltIn(): (s: set<nat>)
    ensures forall dp :: dp in s <==> dp in IDENTITY_DPS || dp in FIRMWARE_DPS
  {
    (set dp | dp in IDENTITY_DPS) + (set dp | dp in FIRMWARE_DPS)
  }

  /** Building saves the identity and firmware rows that had not been saved yet. */
  function SavedAtBuild(d: Store, saved: map<nat, seq<byte>>, gen: Generator): map<nat, seq<byte>>
    requires WellFormed(d)
  {
    map dp | dp in saved.Keys + BuiltIn() ::
      if dp in saved then saved[dp]
      else if dp in IDENTITY_DPS then gen(dp)
      else if FirmwareKey(dp) in d then d[FirmwareKey(dp)].value
      else []
  }

  function Build(d: Store, saved: map<nat, seq<byte>>, gen: Generator): (a: App)
    requires WellFormed(d)
    ensures a.store.Keys == d.Keys && UniqueDps(a.store.Keys)
  {
    App(map k | k in d :: d[k].(value := InitialValue(d, saved, gen, k)), {}, SavedAtBuild(d, saved, gen))
  }

  // ---- what happens to it ----

  datatype Op =
    | Ble(plaintext: seq<byte>)
    | Setting(dp: nat, encoded: Option<seq<byte>>)
    | Firmware(dp: nat, value: seq<byte>)

  /** The settings page: only stored settings can be written; everything else raises. */
  function OnSetting(a: App, dp: nat, encoded: Option<seq<byte>>): (App, bool) {
    var k := Key(dp, None);
    if k in a.store && a.store[k].behavior == NVM && encoded.Some? then
      (SetValue(a, k, encoded.value).(saved := a.saved[dp := encoded.value]), true)
    else (a, false)
  }

  function OnFirmware(a: App, dp: nat, value: seq<byte>): (App, bool) {
    if dp in FIRMWARE_DPS then (SetValue(a, FirmwareKey(dp), value).(saved := a.saved[dp := value]), true)
    else (a, false)
  }

  ghost function Apply(a: App, op: Op): App
    requires UniqueDps(a.store.Keys)
  {
    match op
    case Ble(plaintext) => Dispatch(a, plaintext).0
    case Setting(dp, encoded) => OnSetting(a, dp, encoded).0
    case Firmware(dp, value) => OnFirmware(a, dp, value).0
  }

  lemma {:induction false} SequentialKeepsRows(a: App, header: seq<byte>, inners: Frames)
    requires UniqueDps(a.store.Keys)
    ensures SameRows(a.store, Sequential(a, header, inners).0.store)
    decreases |inners|
  {
    hide DispatchSync, Rewrap;
    if inners != [] {
      DispatchKeepsRows(a, inners[0]);
      SequentialKeepsRows(DispatchSync(a, inners[0]).0, header, inners[1..]);
    }
  }

  lemma ApplyKeepsRows(a: App, op: Op)
    requires UniqueDps(a.store.Keys)
    ensures SameRows(a.store, Apply(a, op).store)
  {
    hide DispatchSync, Sequential, TunnelFrom;
    match op
    case Ble(plaintext) =>
      if plaintext != [] {
        DispatchKeepsRows(a, plaintext);
        if plaintext[0] == TUNNEL && |plaintext| >= 9 {
          TunnelIsSequential(a, plaintext);
          SequentialKeepsRows(a, plaintext[..TUNNEL_HEADER], Unwrap(plaintext[TUNNEL_HEADER..]));
        }
      }
    case _ =>
  }

  ghost function ApplyAll(a: App, ops: seq<Op>): App
    requires UniqueDps(a.store.Keys)
    decreases |ops|
  {
    if ops == [] then a
    else
      ApplyKeepsRows(a, ops[0]);
      ApplyAll(Apply(a, ops[0]), ops[1..])
  }

  // ---- memory and file agree ----

  /** Every stored setting in memory is what a rebuilt object would read back. */
  predicate Agrees(d: Store, a: App) {
    && SameRows(d, a.store)
    && (forall k :: k in d && d[k].behavior == NVM ==>
          a.store[k].value == if k.dp in a.saved then a.saved[k.dp] else d[k].value)
    && BuiltIn() <= a.saved.Keys
  }

  /** What an operation may do to the saved identity and firmware rows. */
  ghost predicate SavedKept(a: App, b: App) {
    forall dp :: dp in IDENTITY_DPS || dp in FIRMWARE_DPS ==>
      (dp in a.saved ==> dp in b.saved && b.saved[dp] == a.saved[dp])
  }

  /** The same for every row but the one of this firmware component. */
  ghost predicate KeptBut(a: App, b: App, component: nat) {
    forall dp :: (dp in IDENTITY_DPS || (dp in FIRMWARE_DPS && dp != component)) ==>
      (dp in a.saved ==> dp in b.saved && b.saved[dp] == a.saved[dp])
  }

  lemma BuildAgrees(d: Store, saved: map<nat, seq<byte>>, gen: Generator)
    requires WellFormed(d)
    ensures Agrees(d, Build(d, saved, gen))
  {
  }

  /** A written row, saved if it is a stored setting. */
  function Assigned(a: App, e: Key, value: seq<byte>): App
    requires e in a.store
  {
    var b := SetValue(a, e, value);
    if a.store[e].behavior == NVM then b.(saved := b.saved[e.dp := value]) else b
  }

  /** A stored setting is the only row of its data point, and is neither identity nor firmware. */
  lemma NvmIsPlain(d: Store, e: Key)
    requires WellFormed(d) && e in d && d[e].behavior == NVM
    ensures e.inst == None && e.dp !in BuiltIn()
    ensures forall k :: k in d && k.dp == e.dp ==> k == e
  {
  }

  /** Setting a row that is no stored setting. */
  lemma PlainSet(d: Store, a: App, k: Key, value: seq<byte>)
    requires SameRows(d, a.store) && k in d && d[k].behavior != NVM
    ensures var b := SetValue(a, k, value);
            && SameRows(d, b.store)
            && forall j :: j in d && d[j].behavior == NVM ==> b.store[j] == a.store[j]
  {
  }

  /** Saving a row of a data point that has no stored setting. */
  lemma PlainSaved(d: Store, a: App, b: App, dp: nat, value: seq<byte>)
    requires Agrees(d, a) && SameRows(d, b.store) && b.saved == a.saved[dp := value]
    requires forall k :: k in d && k.dp == dp ==> d[k].behavior != NVM
    requires forall j :: j in d && d[j].behavior == NVM ==> b.store[j] == a.store[j]
    ensures Agrees(d, b)
  {
    hide BuiltIn;
  }

  /** A stored setting is set and saved. */
  lemma StoredSet(d: Store, a: App, e: Key, value: seq<byte>)
    requires Agrees(d, a) && e in d && d[e].behavior == NVM && forall k :: k in d && k.dp == e.dp ==> k == e
    ensures Agrees(d, SetValue(a, e, value).(saved := a.saved[e.dp := value]))
  {
    hide BuiltIn;
  }

  lemma AssignAgrees(d: Store, a: App, e: Key, value: seq<byte>)
    requires WellFormed(d) && Agrees(d, a) && e in a.store
    ensures Agrees(d, Assigned(a, e, value)) && SavedKept(a, Assigned(a, e, value))
  {
    if d[e].behavior == NVM {
      NvmIsPlain(d, e);
      StoredSet(d, a, e, value);
    } else {
      PlainSet(d, a, e, value);
    }
    hide WellFormed, UniqueDps;
  }

  lemma MirrorAgrees(d: Store, a: App, dp: nat, value: seq<byte>)
    requires WellFormed(d) && Agrees(d, a)
    ensures Agrees(d, MirrorStart(a, dp, value).0) && SavedKept(a, MirrorStart(a, dp, value).0)
  {
    hide BuiltIn, EncodeAddress;
  }

  lemma Unchanged(a: App)
    ensures SavedKept(a, a)
  {
  }

  lemma KeptTwice(a: App, b: App, c: App)
    requires SavedKept(a, b) && SavedKept(b, c)
    ensures SavedKept(a, c)
  {
  }

  lemma WriteAgrees(d: Store, a: App, frame: seq<byte>)
    requires WellFormed(d) && Agrees(d, a) && frame != []
    ensures Agrees(d, OnWrite(a, frame).0) && SavedKept(a, OnWrite(a, frame).0)
  {
    hide DecodeAddress, EncodeAddress, WellFormed, Agrees, SavedKept, MirrorStart;
    Unchanged(a);
    var decoded := DecodeAddress(frame[1..]);
    if decoded.Some? {
      var (k, n) := decoded.value;
      AddressFits(frame[1..]);
      var value := frame[1 + n..];
      var e := Resolve(a.store.Keys, k);
      if e.Some? {
        var c := Assigned(a, e.value, value);
        AssignAgrees(d, a, e.value, value);
        MirrorAgrees(d, c, k.dp, value);
        KeptTwice(a, c, MirrorStart(c, k.dp, value).0);
      }
    }
  }

  lemma DispatchAgrees(d: Store, a: App, frame: seq<byte>)
    requires WellFormed(d) && Agrees(d, a) && UniqueDps(a.store.Keys)
    ensures Agrees(d, DispatchSync(a, frame).0) && SavedKept(a, DispatchSync(a, frame).0)
  {
    hide OnInventory, OnRead, OnWrite, WellFormed, BuiltIn, DecodeAddress, Resolve;
    if frame != [] && frame[0] == WRITE_CMD {
      WriteAgrees(d, a, frame);
    }
  }

  lemma {:induction false} SequentialAgrees(d: Store, a: App, header: seq<byte>, inners: Frames)
    requires WellFormed(d) && Agrees(d, a) && UniqueDps(a.store.Keys)
    ensures Agrees(d, Sequential(a, header, inners).0) && SavedKept(a, Sequential(a, header, inners).0)
    decreases |inners|
  {
    hide DispatchSync, Rewrap, WellFormed, Agrees;
    if inners != [] {
      DispatchKeepsRows(a, inners[0]);
      DispatchAgrees(d, a, inners[0]);
      SequentialAgrees(d, DispatchSync(a, inners[0]).0, header, inners[1..]);
    }
  }

  lemma SettingAgrees(d: Store, a: App, dp: nat, encoded: Option<seq<byte>>)
    requires WellFormed(d) && Agrees(d, a)
    ensures Agrees(d, OnSetting(a, dp, encoded).0) && SavedKept(a, OnSetting(a, dp, encoded).0)
  {
  }

  lemma FirmwareIsPlain(d: Store, dp: nat)
    requires WellFormed(d) && dp in FIRMWARE_DPS
    ensures FirmwareKey(dp) in d && dp !in IDENTITY_DPS
    ensures forall k :: k in d && k.dp == dp ==> d[k].behavior != NVM
  {
  }

  lemma FirmwareAgrees(d: Store, a: App, dp: nat, value: seq<byte>)
    requires WellFormed(d) && Agrees(d, a)
    ensures Agrees(d, OnFirmware(a, dp, value).0) && KeptBut(a, OnFirmware(a, dp, value).0, dp)
  {
    hide BuiltIn, SameRows;
    if dp in FIRMWARE_DPS {
      FirmwareIsPlain(d, dp);
      PlainSet(d, a, FirmwareKey(dp), value);
      hide WellFormed, FIRMWARE_DPS, IDENTITY_DPS, FirmwareKey, SetValue;
      PlainSaved(d, a, OnFirmware(a, dp, value).0, dp, value);
    }
  }

  lemma ApplyAgrees(d: Store, a: App, op: Op)
    requires WellFormed(d) && Agrees(d, a) && UniqueDps(a.store.Keys)
    ensures Agrees(d, Apply(a, op))
    ensures if op.Firmware? then KeptBut(a, Apply(a, op), op.dp) else SavedKept(a, Apply(a, op))
  {
    hide DispatchSync, Sequential, TunnelFrom;
    match op
    case Ble(plaintext) =>
      if plaintext != [] {
        DispatchAgrees(d, a, plaintext);
        if plaintext[0] == TUNNEL && |plaintext| >= 9 {
          TunnelIsSequential(a, plaintext);
          SequentialAgrees(d, a, plaintext[..TUNNEL_HEADER], Unwrap(plaintext[TUNNEL_HEADER..]));
        }
      }
    case Setting(dp, encoded) => SettingAgrees(d, a, dp, encoded);
    case Firmware(dp, value) => FirmwareAgrees(d, a, dp, value);
  }

  // ---- the next session ----

  /** The versions each of the operations sets this firmware component to. */
  function Versions(ops: seq<Op>, dp: nat): (w: seq<Option<seq<byte>>>)
    ensures |w| == |ops|
  {
    seq(|ops|, i requires 0 <= i < |ops| =>
      if ops[i].Firmware? && ops[i].dp == dp then Some(ops[i].value) else None)
  }

  lemma SavedStep(d: Store, a: App, op: Op)
    requires Agrees(d, a) && UniqueDps(a.store.Keys)
    requires if op.Firmware? then KeptBut(a, Apply(a, op), op.dp) else SavedKept(a, Apply(a, op))
    ensures var t := Apply(a, op);
            && (forall dp :: dp in IDENTITY_DPS ==> dp in t.saved && t.saved[dp] == a.saved[dp])
            && forall dp :: dp in FIRMWARE_DPS ==>
                 dp in t.saved && t.saved[dp] == if op.Firmware? && op.dp == dp then op.value else a.saved[dp]
  {
    hide Dispatch, OnSetting;
  }

  lemma VersionsStep(ops: seq<Op>, dp: nat, initial: seq<byte>, v: seq<byte>)
    requires ops != []
    requires LastWins(Versions(ops[1..], dp), if ops[0].Firmware? && ops[0].dp == dp then ops[0].value else initial, v)
    ensures LastWins(Versions(ops, dp), initial, v)
  {
    assert Versions(ops, dp)[1..] == Versions(ops[1..], dp);
    LastWinsStep(Versions(ops, dp), initial, v);
  }

  lemma NoVersions()
    ensures forall dp :: Versions([], dp) == []
  {
  }

  lemma {:induction false} ApplyAllAgrees(d: Store, a: App, ops: seq<Op>)
    requires WellFormed(d) && Agrees(d, a) && UniqueDps(a.store.Keys)
    ensures var b := ApplyAll(a, ops);
            && Agrees(d, b)
            && (forall dp :: dp in IDENTITY_DPS ==> dp in b.saved && b.saved[dp] == a.saved[dp])
            && forall dp :: dp in FIRMWARE_DPS ==>
                 dp in b.saved && LastWins(Versions(ops, dp), a.saved[dp], b.saved[dp])
    decreases |ops|
  {
    hide Dispatch, Versions;
    if ops == [] {
      NoVersions();
    } else {
      var t := Apply(a, ops[0]);
      ApplyKeepsRows(a, ops[0]);
      ApplyAgrees(d, a, ops[0]);
      SavedStep(d, a, ops[0]);
      hide Apply, SavedKept, KeptBut, WellFormed, Agrees, BuiltIn, SameRows, UniqueDps, LastWins;
      ApplyAllAgrees(d, t, ops[1..]);
      forall dp | dp in FIRMWARE_DPS
        ensures LastWins(Versions(ops, dp), a.saved[dp], ApplyAll(a, ops).saved[dp])
      {
        VersionsStep(ops, dp, a.saved[dp], ApplyAll(a, ops).saved[dp]);
      }
    }
  }

  /** The file holds the identity and firmware a fresh object shows. */
  lemma BuiltSaved(d: Store, saved: map<nat, seq<byte>>, gen: Generator, k: Key)
    requires WellFormed(d) && k in d && (IsIdentity(k) || IsFirmware(k))
    ensures var a := Build(d, saved, gen); k.dp in a.saved && a.saved[k.dp] == a.store[k].value
  {
  }

  lemma RebuiltValue(d: Store, a: App, again: Generator, k: Key)
    requires WellFormed(d) && Agrees(d, a) && k in d
    ensures k in a.store && (IsIdentity(k) || IsFirmware(k) ==> k.dp in a.saved)
    ensures Build(d, a.saved, again).store[k].value
         == if d[k].behavior == NVM then a.store[k].value
            else if IsIdentity(k) || IsFirmware(k) then a.saved[k.dp]
            else d[k].value
  {
    if d[k].behavior == NVM {
      NvmIsPlain(d, k);
    }
  }

  /**
   A session built after any mixture of writes over the air, tunnel frames, settings-page writes and
   firmware updates has the same stored settings as the old one, the serial number and PIN of the
   first one, the last firmware versions, and the default in every other row.
   */
  lemma RestartAgrees(d: Store, saved: map<nat, seq<byte>>, gen: Generator, ops: seq<Op>, again: Generator, k: Key)
    requires WellFormed(d) && k in d
    ensures var a := Build(d, saved, gen);
            var b := ApplyAll(a, ops);
            var c := Build(d, b.saved, again);
            && k in b.store && k in c.store
            && if d[k].behavior == NVM then c.store[k].value == b.store[k].value
               else if IsIdentity(k) then c.store[k].value == a.store[k].value
               else if IsFirmware(k) then LastWins(Versions(ops, k.dp), a.store[k].value, c.store[k].value)
               else c.store[k].value == d[k].value
  {
    BuildAgrees(d, saved, gen);
    hide ApplyAll, Versions, LastWins, BuiltIn, UniqueDps, WellFormed, Agrees;
    var a := Build(d, saved, gen);
    ApplyAllAgrees(d, a, ops);
    if IsIdentity(k) || IsFirmware(k) {
      BuiltSaved(d, saved, gen, k);
    }
    RebuiltValue(d, ApplyAll(a, ops), again, k);
    hide Build;
  }

  /** On the table the devices actually start from: every stored setting survives. */
  lemma DefaultRestartAgrees(saved: map<nat, seq<byte>>, gen: Generator, ops: seq<Op>, again: Generator, k: Key)
    requires k in DefaultStore() && DefaultStore()[k].behavior == NVM
    ensures WellFormed(DefaultStore())
    ensures var b := ApplyAll(Build(DefaultStore(), saved, gen), ops);
            k in b.store && Build(DefaultStore(), b.saved, again).store[k].value == b.store[k].value
  {
    hide DefaultStore, Build, ApplyAll, WellFormed;
    DefaultsWellFormed();
    RestartAgrees(DefaultStore(), saved, gen, ops, again, k);
  }

  /** The outcome of the rest of a scan, with the answers of the part before it. */
  ghost function Before(responses: Frames, rest: (App, Option<Frames>)): (App, Option<Frames>) {
    (rest.0, if rest.1 == None then None else Some(responses + rest.1.value))
  }

  lemma BeforeNothing(rest: (App, Option<Frames>))
    ensures Before([], rest) == rest
  {
    if rest.1.Some? {
      assert [] + rest.1.value == rest.1.value;
    }
  }

  lemma FirstIsUnique(keys: set<Key>, k: Key)
    requires UniqueDps(keys) && IsFirst(keys, k)
    ensures First(keys) == k
  {
  }

  // ---- the constructor's passes ----

  function IdentityPass(a: App, persisted: map<nat, seq<byte>>, gen: Generator, n: nat): App
    requires n <= |IDENTITY_DPS|
  {
    if n == 0 then a
    else
      var b := IdentityPass(a, persisted, gen, n - 1);
      var dp := IDENTITY_DPS[n - 1];
      var value := if dp in persisted then persisted[dp] else gen(dp);
      var c := SetValue(b, Key(dp, None), value);
      if dp in persisted then c else c.(saved := c.saved[dp := value])
  }

  function FirmwarePass(a: App, persisted: map<nat, seq<byte>>, n: nat): App
    requires n <= |FIRMWARE_DPS|
  {
    if n == 0 then a
    else
      var b := FirmwarePass(a, persisted, n - 1);
      var dp := FIRMWARE_DPS[n - 1];
      var k := FirmwareKey(dp);
      if dp in persisted then SetValue(b, k, persisted[dp])
      else if k in b.store then b.(saved := b.saved[dp := b.store[k].value])
      else b
  }

  /** What the settings pass leaves behind. */
  predicate Settled(d: Store, persisted: map<nat, seq<byte>>, a: App) {
    && SameRows(d, a.store) && a.subscribed == {} && a.saved == persisted
    && forall k :: k in d ==>
         a.store[k].value == if k.inst == None && d[k].behavior == NVM && k.dp in persisted then persisted[k.dp]
                             else d[k].value
  }

  lemma SettledKeys(d: Store, persisted: map<nat, seq<byte>>, a: App)
    requires Settled(d, persisted, a)
    ensures a.store.Keys == d.Keys
  {
  }

  /** One of the first `n` identity rows. */
  predicate IdentityDone(n: nat, dp: nat)
    requires n <= |IDENTITY_DPS|
  {
    exists i :: 0 <= i < n && IDENTITY_DPS[i] == dp
  }

  lemma {:induction false} IdentityRow(a: App, persisted: map<nat, seq<byte>>, gen: Generator, n: nat, k: Key)
    requires n <= |IDENTITY_DPS|
    ensures var b := IdentityPass(a, persisted, gen, n);
            && b.subscribed == a.subscribed && (k in b.store <==> k in a.store)
            && (k in a.store ==>
                  b.store[k] == a.store[k].(value :=
                    if k.inst != None || !IdentityDone(n, k.dp) then a.store[k].value
                    else if k.dp in persisted then persisted[k.dp] else gen(k.dp)))
  {
    hide IDENTITY_DPS;
    if n > 0 {
      IdentityRow(a, persisted, gen, n - 1, k);
      assert IdentityDone(n, k.dp) <==> IdentityDone(n - 1, k.dp) || IDENTITY_DPS[n - 1] == k.dp;
    }
  }

  predicate FirmwareDone(n: nat, dp: nat)
    requires n <= |FIRMWARE_DPS|
  {
    exists i :: 0 <= i < n && FIRMWARE_DPS[i] == dp
  }

  lemma FirmwareDp(dp: nat)
    ensures FirmwareKey(dp).dp == dp
  {
  }

  lemma {:induction false} FirmwareRow(a: App, persisted: map<nat, seq<byte>>, n: nat, k: Key)
    requires n <= |FIRMWARE_DPS|
    ensures var b := FirmwarePass(a, persisted, n);
            && b.subscribed == a.subscribed && (k in b.store <==> k in a.store)
            && (k in a.store ==>
                  b.store[k] == a.store[k].(value :=
                    if FirmwareDone(n, k.dp) && k == FirmwareKey(k.dp) && k.dp in persisted then persisted[k.dp]
                    else a.store[k].value))
  {
    hide FIRMWARE_DPS, FirmwareKey;
    if n > 0 {
      FirmwareRow(a, persisted, n - 1, k);
      FirmwareDp(FIRMWARE_DPS[n - 1]);
      assert FirmwareDone(n, k.dp) <==> FirmwareDone(n - 1, k.dp) || FIRMWARE_DPS[n - 1] == k.dp;
    }
  }

  lemma AllDone(dp: nat)
    ensures IdentityDone(|IDENTITY_DPS|, dp) <==> dp in IDENTITY_DPS
    ensures FirmwareDone(|FIRMWARE_DPS|, dp) <==> dp in FIRMWARE_DPS
  {
  }

  lemma PassesRow(d: Store, persisted: map<nat, seq<byte>>, gen: Generator, a: App, k: Key)
    requires WellFormed(d) && Settled(d, persisted, a)
    ensures var b := IdentityPass(a, persisted, gen, |IDENTITY_DPS|);
            var c := FirmwarePass(b, persisted, |FIRMWARE_DPS|);
            && (k in c.store <==> k in d) && c.subscribed == {}
            && (k in d ==> c.store[k] == d[k].(value := InitialValue(d, persisted, gen, k)))
  {
    var b := IdentityPass(a, persisted, gen, |IDENTITY_DPS|);
    IdentityRow(a, persisted, gen, |IDENTITY_DPS|, k);
    FirmwareRow(b, persisted, |FIRMWARE_DPS|, k);
    AllDone(k.dp);
    hide IdentityPass, FirmwarePass, IdentityDone, FirmwareDone, WellFormed;
  }

  lemma {:induction false} IdentitySaved(a: App, persisted: map<nat, seq<byte>>, gen: Generator, n: nat, dp: nat)
    requires n <= |IDENTITY_DPS|
    ensures var b := IdentityPass(a, persisted, gen, n);
            && (dp in b.saved <==> dp in a.saved || (IdentityDone(n, dp) && dp !in persisted))
            && (dp in b.saved ==>
                  b.saved[dp] == if IdentityDone(n, dp) && dp !in persisted then gen(dp) else a.saved[dp])
  {
    hide IDENTITY_DPS;
    if n > 0 {
      IdentitySaved(a, persisted, gen, n - 1, dp);
      assert IdentityDone(n, dp) <==> IdentityDone(n - 1, dp) || IDENTITY_DPS[n - 1] == dp;
    }
  }

  lemma {:induction false} FirmwareSaved(a: App, persisted: map<nat, seq<byte>>, n: nat, dp: nat)
    requires n <= |FIRMWARE_DPS| && (FirmwareDone(n, dp) ==> FirmwareKey(dp) in a.store)
    ensures var b := FirmwarePass(a, persisted, n);
            && (dp in b.saved <==> dp in a.saved || (FirmwareDone(n, dp) && dp !in persisted))
            && (dp in b.saved ==>
                  b.saved[dp] == if FirmwareDone(n, dp) && dp !in persisted then a.store[FirmwareKey(dp)].value
                                 else a.saved[dp])
  {
    hide FIRMWARE_DPS, FirmwareKey;
    if n > 0 {
      assert FirmwareDone(n, dp) <==> FirmwareDone(n - 1, dp) || FIRMWARE_DPS[n - 1] == dp;
      FirmwareDp(dp);
      FirmwareSaved(a, persisted, n - 1, dp);
      FirmwareRow(a, persisted, n - 1, FirmwareKey(dp));
    }
  }

  lemma PassesSaved(d: Store, persisted: map<nat, seq<byte>>, gen: Generator, a: App, dp: nat)
    requires WellFormed(d) && Settled(d, persisted, a)
    ensures var b := IdentityPass(a, persisted, gen, |IDENTITY_DPS|);
            var c := FirmwarePass(b, persisted, |FIRMWARE_DPS|);
            var saved := SavedAtBuild(d, persisted, gen);
            && (dp in c.saved <==> dp in saved) && (dp in saved ==> c.saved[dp] == saved[dp])
  {
    AllDone(dp);
    hide IdentityPass, FirmwarePass, IdentityDone, FirmwareDone;
    var b := IdentityPass(a, persisted, gen, |IDENTITY_DPS|);
    IdentitySaved(a, persisted, gen, |IDENTITY_DPS|, dp);
    IdentityRow(a, persisted, gen, |IDENTITY_DPS|, FirmwareKey(dp));
    FirmwareDp(dp);
    assert dp in FIRMWARE_DPS ==> FirmwareKey(dp) in d && dp !in IDENTITY_DPS && d[FirmwareKey(dp)].behavior != NVM;
    hide WellFormed, FirmwareKey;
    FirmwareSaved(b, persisted, |FIRMWARE_DPS|, dp);
  }

  /** Settings, then identity, then firmware: the object `Build` describes. */
  lemma Passes(d: Store, persisted: map<nat, seq<byte>>, gen: Generator, a: App)
    requires WellFormed(d) && Settled(d, persisted, a)
    ensures var b := IdentityPass(a, persisted, gen, |IDENTITY_DPS|);
            FirmwarePass(b, persisted, |FIRMWARE_DPS|) == Build(d, persisted, gen)
  {
    hide IdentityPass, FirmwarePass, WellFormed, Settled, InitialValue, SavedAtBuild;
    var c := FirmwarePass(IdentityPass(a, persisted, gen, |IDENTITY_DPS|), persisted, |FIRMWARE_DPS|);
    var e := Build(d, persisted, gen);
    forall k
      ensures (k in c.store <==> k in e.store) && (k in e.store ==> c.store[k] == e.store[k])
    {
      PassesRow(d, persisted, gen, a, k);
    }
    forall dp: nat
      ensures (dp in c.saved <==> dp in e.saved) && (dp in e.saved ==> c.saved[dp] == e.saved[dp])
    {
      PassesSaved(d, persisted, gen, a, dp);
    }
    PassesRow(d, persisted, gen, a, Key(0, None));
    assert c.store == e.store && c.saved == e.saved;
  }

  lemma IdentityKeys(a: App, persisted: map<nat, seq<byte>>, gen: Generator)
    ensures IdentityPass(a, persisted, gen, |IDENTITY_DPS|).store.Keys == a.store.Keys
  {
    hide IdentityPass;
    forall k
      ensures k in IdentityPass(a, persisted, gen, |IDENTITY_DPS|).store <==> k in a.store
    {
      IdentityRow(a, persisted, gen, |IDENTITY_DPS|, k);
    }
  }

  // ---- the object ----

  class Ble20AppLayer {
    const device: Device
    const file: StateFile<nat, seq<byte>>
    var store: Store
    var notifySubscribed: set<nat>

    ghost function Model(): App
      reads this, file
    {
      App(store, notifySubscribed, RowsOf(file.table, device))
    }

    /** A new session: defaults, then what the file holds, then identity and firmware. */
    constructor (device: Device, file: StateFile<nat, seq<byte>>, defaults: Store, gen: Generator)
      requires WellFormed(defaults)
      modifies file
      ensures this.file == file && this.device == device
      ensures Model() == Build(defaults, old(RowsOf(file.table, device)), gen)
      ensures forall e :: e != device ==> RowsOf(file.table, e) == old(RowsOf(file.table, e))
    {
      this.device, this.file := device, file;
      store, notifySubscribed := defaults, {};
      new;
      assert forall i :: 0 <= i < |FIRMWARE_DPS| ==> FirmwareKey(FIRMWARE_DPS[i]) in defaults;
      hide RowsOf, IdentityPass, FirmwarePass, Build, FirmwareKey, WellFormed, Settled;
      var persisted := file.LoadAll(device);
      ApplySettings(persisted);
      ghost var settled := Model();
      SettledKeys(defaults, persisted, settled);
      IdentityKeys(settled, persisted, gen);
      ApplyIdentity(persisted, gen);
      ApplyFirmware(persisted);
      Passes(defaults, persisted, gen, settled);
    }

    method ApplySettings(persisted: map<nat, seq<byte>>)
      modifies this`store
      ensures Settled(old(store), persisted, App(store, {}, persisted))
    {
      var todo := persisted.Keys;
      while todo != {}
        invariant todo <= persisted.Keys && SameRows(old(store), store)
        invariant forall k :: k in store ==>
          store[k].value == if k.inst == None && store[k].behavior == NVM && k.dp in persisted && k.dp !in todo
                            then persisted[k.dp] else old(store)[k].value
        decreases todo
      {
        var dp :| dp in todo;
        var k := Key(dp, None);
        if k in store && store[k].behavior == NVM {
          store := store[k := store[k].(value := persisted[dp])];
        }
        todo := todo - {dp};
      }
    }

    method ApplyIdentity(persisted: map<nat, seq<byte>>, gen: Generator)
      modifies this`store, file
      ensures Model() == IdentityPass(old(Model()), persisted, gen, |IDENTITY_DPS|)
      ensures forall e :: e != device ==> RowsOf(file.table, e) == old(RowsOf(file.table, e))
    {
      hide RowsOf;
      for i := 0 to |IDENTITY_DPS|
        invariant Model() == IdentityPass(old(Model()), persisted, gen, i)
        invariant forall e :: e != device ==> RowsOf(file.table, e) == old(RowsOf(file.table, e))
      {
        var dp := IDENTITY_DPS[i];
        var value := if dp in persisted then persisted[dp] else gen(dp);
        SetRow(Key(dp, None), value);
        if dp !in persisted {
          file.Save(device, dp, value);
        }
      }
    }

    method ApplyFirmware(persisted: map<nat, seq<byte>>)
      requires forall i :: 0 <= i < |FIRMWARE_DPS| ==> FirmwareKey(FIRMWARE_DPS[i]) in store
      modifies this`store, file
      ensures Model() == FirmwarePass(old(Model()), persisted, |FIRMWARE_DPS|)
      ensures forall e :: e != device ==> RowsOf(file.table, e) == old(RowsOf(file.table, e))
    {
      hide RowsOf;
      for i := 0 to |FIRMWARE_DPS|
        invariant Model() == FirmwarePass(old(Model()), persisted, i)
        invariant store.Keys == old(store).Keys
        invariant forall e :: e != device ==> RowsOf(file.table, e) == old(RowsOf(file.table, e))
      {
        var dp := FIRMWARE_DPS[i];
        var k := FirmwareKey(dp);
        if dp in persisted {
          SetRow(k, persisted[dp]);
        } else {
          file.Save(device, dp, store[k].value);
        }
      }
    }

    method SetRow(k: Key, value: seq<byte>)
      modifies this`store
      ensures Model() == SetValue(old(Model()), k, value)
    {
      if k in store {
        store := store[k := store[k].(value := value)];
      }
    }

    // ---- commands ----

    method Read(frame: seq<byte>) returns (r: Option<Frames>)
      requires frame != []
      ensures r == OnRead(Model(), frame)
    {
      var decoded := DecodeAddress(frame[1..]);
      if decoded == None {
        return None;
      }
      var k := decoded.value.0;
      var address := EncodeAddress(k);
      var e := Resolve(store.Keys, k);
      if e == None {
        return Some([[READ_ERROR] + address + [INVALID_ID]]);
      }
      r := Some([[READ_ANS] + address + store[e.value].value]);
    }

    method Write(frame: seq<byte>) returns (r: Option<Frames>)
      requires frame != []
      modifies this`store, file
      ensures (Model(), r) == OnWrite(old(Model()), frame)
      ensures forall e :: e != device ==> RowsOf(file.table, e) == old(RowsOf(file.table, e))
    {
      hide RowsOf, DecodeAddress, EncodeAddress, MirrorStart;
      AddressFits(frame[1..]);
      var decoded := DecodeAddress(frame[1..]);
      if decoded == None {
        return None;
      }
      var (k, n) := decoded.value;
      var value := frame[1 + n..];
      var e := Resolve(store.Keys, k);
      if e == None {
        return Some([[WRITE_ERROR] + EncodeAddress(k) + [INVALID_ID]]);
      }
      var nvm := store[e.value].behavior == NVM;
      SetRow(e.value, value);
      if nvm {
        file.Save(device, k.dp, value);
      }
      var responses := [[WRITE_ACK] + EncodeAddress(k)];
      if k.dp in notifySubscribed {
        responses := responses + [[NOTIFY_DATA] + EncodeAddress(Key(k.dp, None)) + value];
      }
      assert [[WRITE_ACK] + EncodeAddress(k)] + [] == [[WRITE_ACK] + EncodeAddress(k)];
      var more := Mirror(k.dp, value);
      r := Some(responses + more);
    }

    method Mirror(dp: nat, value: seq<byte>) returns (more: Frames)
      modifies this`store
      ensures (Model(), more) == MirrorStart(old(Model()), dp, value)
    {
      hide EncodeAddress;
      more := [];
      if dp == START_STOP_SHOWER && value != [] && value[0] == 1 {
        SetRow(Key(SHOWER_STATUS, None), [5]);
        if SHOWER_STATUS in notifySubscribed {
          more := [[NOTIFY_DATA] + EncodeAddress(Key(SHOWER_STATUS, None)) + [5]];
        }
      }
    }

    method Notify(frame: seq<byte>, enable: bool) returns (r: Option<Frames>)
      requires frame != []
      modifies this`notifySubscribed
      ensures (Model(), r) == OnNotify(old(Model()), frame, enable)
    {
      hide RowsOf, DecodeAddress, EncodeAddress;
      var decoded := DecodeAddress(frame[1..]);
      if decoded == None {
        return None;
      }
      var k := decoded.value.0;
      if enable && Resolve(store.Keys, k) == None {
        return Some([[NOTIFY_ERROR] + EncodeAddress(k) + [INVALID_ID]]);
      }
      notifySubscribed := if enable then notifySubscribed + {k.dp} else notifySubscribed - {k.dp};
      r := Some([[NOTIFY_ACK] + EncodeAddress(k)]);
    }

    /** The rows in ascending order, picked one after the other. */
    method Inventory() returns (frames: Frames)
      requires UniqueDps(store.Keys)
      ensures frames == OnInventory(store)
    {
      hide Describe;
      SortedIn(store.Keys);
      frames := [[INVENTORY_COUNT] + Le16(|store|)];
      var rest := store.Keys;
      ghost var count := frames;
      while rest != {}
        invariant rest <= store.Keys && UniqueDps(rest)
        invariant forall i :: 0 <= i < |Sorted(rest)| ==> Sorted(rest)[i] in store
        invariant frames + DescribeAll(store, Sorted(rest)) == count + DescribeAll(store, Sorted(store.Keys))
        decreases rest
      {
        FirstExists(rest);
        var k :| k in rest && IsFirst(rest, k);
        FirstIsUnique(rest, k);
        SortedIn(rest - {k});
        assert Sorted(rest)[1..] == Sorted(rest - {k});
        ghost var more := DescribeAll(store, Sorted(rest - {k}));
        assert frames + ([Describe(k, store[k])] + more) == frames + [Describe(k, store[k])] + more;
        frames := frames + [Describe(k, store[k])];
        rest := rest - {k};
      }
      assert frames + [] == frames;
    }

    method DispatchOne(frame: seq<byte>) returns (r: Option<Frames>)
      requires UniqueDps(store.Keys)
      modifies this, file
      ensures (Model(), r) == DispatchSync(old(Model()), frame)
      ensures forall e :: e != device ==> RowsOf(file.table, e) == old(RowsOf(file.table, e))
    {
      hide RowsOf, OnWrite, OnRead, OnNotify, OnInventory;
      if frame == [] {
        return Some([]);
      }
      var cmd := frame[0];
      if cmd == INVENTORY {
        var frames := Inventory();
        r := Some(frames);
      } else if cmd == READ_CMD {
        r := Read(frame);
      } else if cmd == WRITE_CMD {
        r := Write(frame);
      } else if cmd == NOTIFY_ENABLE {
        r := Notify(frame, true);
      } else if cmd == NOTIFY_DISABLE {
        r := Notify(frame, false);
      } else if cmd == CAPABILITIES_CMD {
        r := Some([[CAPABILITIES_ACK, 0]]);
      } else if cmd == EVENT_STORAGE_INVENTORY {
        r := Some([[EVENT_STORAGE_INVENTORY_COUNT, 0, 0]]);
      } else if cmd == LIST_INVENTORY_CMD {
        r := Some([[LIST_INVENTORY_COUNT, 0, 0]]);
      } else {
        r := Some([]);
      }
    }

    /** The scan over the inner frames of a tunnel frame. */
    method TunnelDispatch(frame: seq<byte>) returns (r: Option<Frames>)
      requires UniqueDps(store.Keys) && |frame| >= 9
      modifies this, file
      ensures (Model(), r) == TunnelFrom(old(Model()), frame[..TUNNEL_HEADER], frame, TUNNEL_HEADER)
      ensures forall e :: e != device ==> RowsOf(file.table, e) == old(RowsOf(file.table, e))
    {
      hide RowsOf, DispatchSync, Rewrap;
      var header := frame[..TUNNEL_HEADER];
      var responses := [];
      var pos := TUNNEL_HEADER;
      ghost var start := Model();
      BeforeNothing(TunnelFrom(start, header, frame, TUNNEL_HEADER));
      while pos + 1 < |frame|
        invariant UniqueDps(store.Keys) && 0 <= pos <= |frame|
        invariant forall e :: e != device ==> RowsOf(file.table, e) == old(RowsOf(file.table, e))
        invariant TunnelFrom(start, header, frame, TUNNEL_HEADER)
               == Before(responses, TunnelFrom(Model(), header, frame, pos))
        decreases |frame| - pos
      {
        var innerLen: int := (frame[pos] as int) + 1;
        pos := pos + 1;
        if pos + innerLen > |frame| {
          assert responses + [] == responses;
          return Some(responses);
        }
        ghost var before := Model();
        var inner := frame[pos..pos + innerLen];
        DispatchKeepsRows(Model(), inner);
        var answers := DispatchOne(inner);
        if answers == None {
          return None;
        }
        var wrapped := Rewrap(header, answers.value);
        if wrapped == None {
          return None;
        }
        pos := pos + innerLen;
        ghost var more := TunnelFrom(Model(), header, frame, pos).1;
        if more.Some? {
          assert responses + (wrapped.value + more.value) == responses + wrapped.value + more.value;
        }
        responses := responses + wrapped.value;
      }
      assert responses + [] == responses;
      r := Some(responses);
    }

    method DispatchPlaintext(plaintext: seq<byte>) returns (r: Option<Frames>)
      requires UniqueDps(store.Keys)
      modifies this, file
      ensures (Model(), r) == Dispatch(old(Model()), plaintext)
      ensures forall e :: e != device ==> RowsOf(file.table, e) == old(RowsOf(file.table, e))
    {
      hide RowsOf, DispatchSync, TunnelFrom;
      if plaintext == [] {
        r := Some([]);
      } else if plaintext[0] != TUNNEL {
        r := DispatchOne(plaintext);
      } else if |plaintext| < 9 {
        r := Some([]);
      } else {
        r := TunnelDispatch(plaintext);
      }
    }

    // ---- outside the link ----

    method WriteDpidSetting(dp: nat, encoded: Option<seq<byte>>) returns (ok: bool)
      requires UniqueDps(store.Keys) && forall k :: k in store && store[k].behavior == NVM ==> k.inst == None
      modifies this`store, file
      ensures (Model(), ok) == OnSetting(old(Model()), dp, encoded)
      ensures forall e :: e != device ==> RowsOf(file.table, e) == old(RowsOf(file.table, e))
    {
      hide RowsOf;
      var found := set k | k in store.Keys && k.dp == dp;
      if found == {} {
        assert Key(dp, None) !in found;
        return false;
      }
      var k :| k in found;
      if store[k].behavior != NVM || encoded == None {
        assert Key(dp, None) in store ==> k == Key(dp, None);
        return false;
      }
      SetRow(k, encoded.value);
      file.Save(device, dp, encoded.value);
      ok := true;
    }

    method SetFirmwareVersion(dp: nat, value: seq<byte>) returns (ok: bool)
      modifies this`store, file
      ensures (Model(), ok) == OnFirmware(old(Model()), dp, value)
      ensures forall e :: e != device ==> RowsOf(file.table, e) == old(RowsOf(file.table, e))
    {
      hide RowsOf;
      if dp !in FIRMWARE_DPS {
        return false;
      }
      SetRow(FirmwareKey(dp), value);
      file.Save(device, dp, value);
      ok := true;
    }
  }
}
