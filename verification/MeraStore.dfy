/**
 The settings, firmware versions and identity of a Mera device: what is stored, what is only active,
 what the state file holds, and what a rebuilt device finds there.
 */
module MeraStore {
  import opened Bytes
  import opened Persistence

  datatype Value = Number(n: int) | Version(v1: byte, v2: byte, build: nat) | Text(text: string)

  /** The state keys, by name space. */
  datatype StateKey = CommonSetting(id: nat) | ProfileSetting(id: nat) | Fw(id: nat) | Identity(field: string)

  type Settings = map<nat, Value>

  // ---- defaults ----

  const DEFAULT_SETTINGS: Settings :=
    map[0 := Number(1), 1 := Number(3), 2 := Number(2), 3 := Number(2), 4 := Number(2),
        5 := Number(0), 6 := Number(1), 7 := Number(1), 8 := Number(0), 9 := Number(0)]

  const RS30: Settings :=
    map[1 := Version(0x33, 0x30, 0xCE), 3 := Version(0x30, 0x38, 0x1F), 4 := Version(0x30, 0x38, 0x25),
        5 := Version(0x31, 0x31, 0x3C), 6 := Version(0x30, 0x38, 0x30), 7 := Version(0x31, 0x31, 0x29),
        8 := Version(0x30, 0x39, 0x1F), 9 := Version(0x30, 0x37, 0x13), 10 := Version(0x30, 0x37, 0x12),
        11 := Version(0x30, 0x38, 0x17), 12 := Version(0x30, 0x37, 0x12), 14 := Version(0x30, 0x37, 0x1B),
        15 := Version(0x30, 0x31, 0x00)]

  const RS28: Settings := RS30[1 := Version(0x32, 0x38, 0xC7)][11 := Version(0x30, 0x37, 0x16)]

  const FACTORY_IDENTITY: map<string, Value> :=
    map["article" := Text("14621"), "sap_number" := Text("146.21x.xx.1"), "serial_number" := Text("HB2300EU000001"),
        "production_date" := Text("11.04.2023"), "description" := Text("AquaClean Mera Comfort"),
        "variant" := Number(0x0D), "initial_operation_date" := Text("31.05.2024"), "soc_version" := Text("10.18"),
        "device_name" := Text("Geberit AquaClean pro")]

  datatype FirmwareProfile = Rs30 | Rs28

  function ProfileVersions(p: FirmwareProfile): Settings {
    match p
    case Rs30 => RS30
    case Rs28 => RS28
  }

  lemma SameComponents()
    ensures RS28.Keys == RS30.Keys
  {
  }

  // ---- the device ----

  datatype Mock = Mock(
    storedCommon: Settings,
    storedProfile: Settings,
    activeCommon: Settings,
    activeProfile: Settings,
    firmware: Settings,
    identity: map<string, Value>,
    saved: map<StateKey, Value>)

  // The rows of each name space.

  function Commons(saved: map<StateKey, Value>): Settings {
    map k | k in saved && k.CommonSetting? :: k.id := saved[k]
  }

  function Profiles(saved: map<StateKey, Value>): Settings {
    map k | k in saved && k.ProfileSetting? :: k.id := saved[k]
  }

  function Components(saved: map<StateKey, Value>): Settings {
    map k | k in saved && k.Fw? :: k.id := saved[k]
  }

  /** Unknown identity fields in the file are passed over. */
  function Fields(saved: map<StateKey, Value>): map<string, Value> {
    map k | k in saved && k.Identity? && k.field in FACTORY_IDENTITY :: k.field := saved[k]
  }

  /** A device starting up: active common settings come from the stored ones. */
  function Build(saved: map<StateKey, Value>): Mock {
    Mock(DEFAULT_SETTINGS + Commons(saved), DEFAULT_SETTINGS + Profiles(saved), DEFAULT_SETTINGS + Commons(saved),
         DEFAULT_SETTINGS, RS30 + Components(saved), FACTORY_IDENTITY + Fields(saved), saved)
  }

  // ---- operations ----

  datatype Op =
    | StoreCommon(id: nat, value: Value)
    | StoreProfile(id: nat, value: Value)
    | ActivateCommon(id: nat, value: Value)
    | ActivateProfile(id: nat, value: Value)
    | WriteFirmware(id: nat, value: Value)
    | ApplyProfile(profile: FirmwareProfile)
    | WriteIdentity(field: string, value: Value)
    | FactoryReset

  function SavedFirmware(versions: Settings): map<StateKey, Value> {
    map id | id in versions :: Fw(id) := versions[id]
  }

  function SavedIdentity(identity: map<string, Value>): map<StateKey, Value> {
    map f | f in identity :: Identity(f) := identity[f]
  }

  /** One operation; writing an unknown component or field is refused. */
  function Apply(m: Mock, op: Op): Mock {
    match op
    case StoreCommon(id, v) => m.(storedCommon := m.storedCommon[id := v], saved := m.saved[CommonSetting(id) := v])
    case StoreProfile(id, v) => m.(storedProfile := m.storedProfile[id := v], saved := m.saved[ProfileSetting(id) := v])
    case ActivateCommon(id, v) => m.(activeCommon := m.activeCommon[id := v])
    case ActivateProfile(id, v) => m.(activeProfile := m.activeProfile[id := v])
    case WriteFirmware(id, v) =>
      if id in m.firmware then m.(firmware := m.firmware[id := v], saved := m.saved[Fw(id) := v]) else m
    case ApplyProfile(p) =>
      m.(firmware := m.firmware + ProfileVersions(p), saved := m.saved + SavedFirmware(ProfileVersions(p)))
    case WriteIdentity(f, v) =>
      if f in FACTORY_IDENTITY then m.(identity := m.identity[f := v], saved := m.saved[Identity(f) := v]) else m
    case FactoryReset =>
      m.(storedCommon := DEFAULT_SETTINGS, storedProfile := DEFAULT_SETTINGS, activeCommon := DEFAULT_SETTINGS,
         firmware := m.firmware + RS28, identity := FACTORY_IDENTITY,
         saved := SavedFirmware(RS28) + SavedIdentity(FACTORY_IDENTITY))
  }

  function ApplyAll(m: Mock, ops: seq<Op>): Mock
    decreases |ops|
  {
    if ops == [] then m else ApplyAll(Apply(m, ops[0]), ops[1..])
  }

  // ---- restart ----

  /** The file holds what a rebuilt device needs. */
  predicate Agrees(m: Mock) {
    && m.storedCommon == DEFAULT_SETTINGS + Commons(m.saved) && m.storedProfile == DEFAULT_SETTINGS + Profiles(m.saved)
    && m.firmware == RS30 + Components(m.saved) && m.identity == FACTORY_IDENTITY + Fields(m.saved)
  }

  /** All saved components are known ones: a reset then covers every one of them. */
  predicate KnownComponents(saved: map<StateKey, Value>) {
    Components(saved).Keys <= RS30.Keys
  }

  lemma CommonsPut(saved: map<StateKey, Value>, k: StateKey, v: Value)
    ensures Commons(saved[k := v]) == if k.CommonSetting? then Commons(saved)[k.id := v] else Commons(saved)
  {
    var a := Commons(saved[k := v]);
    forall id
      ensures (id in a <==> CommonSetting(id) in saved[k := v])
      ensures (id in Commons(saved) <==> CommonSetting(id) in saved)
    {
    }
  }

  lemma ProfilesPut(saved: map<StateKey, Value>, k: StateKey, v: Value)
    ensures Profiles(saved[k := v]) == if k.ProfileSetting? then Profiles(saved)[k.id := v] else Profiles(saved)
  {
    var a := Profiles(saved[k := v]);
    forall id
      ensures (id in a <==> ProfileSetting(id) in saved[k := v])
      ensures (id in Profiles(saved) <==> ProfileSetting(id) in saved)
    {
    }
  }

  lemma ComponentsPut(saved: map<StateKey, Value>, k: StateKey, v: Value)
    ensures Components(saved[k := v]) == if k.Fw? then Components(saved)[k.id := v] else Components(saved)
  {
    var a := Components(saved[k := v]);
    forall id
      ensures (id in a <==> Fw(id) in saved[k := v])
      ensures (id in Components(saved) <==> Fw(id) in saved)
    {
    }
  }

  lemma FieldsPut(saved: map<StateKey, Value>, k: StateKey, v: Value)
    ensures Fields(saved[k := v])
         == if k.Identity? && k.field in FACTORY_IDENTITY then Fields(saved)[k.field := v] else Fields(saved)
  {
    hide FACTORY_IDENTITY;
    var a := Fields(saved[k := v]);
    forall f
      ensures (f in a <==> Identity(f) in saved[k := v] && f in FACTORY_IDENTITY)
      ensures (f in Fields(saved) <==> Identity(f) in saved && f in FACTORY_IDENTITY)
    {
    }
  }

  /** One row written. */
  lemma PutRow(saved: map<StateKey, Value>, k: StateKey, v: Value)
    ensures var t := saved[k := v];
            && Commons(t) == (if k.CommonSetting? then Commons(saved)[k.id := v] else Commons(saved))
            && Profiles(t) == (if k.ProfileSetting? then Profiles(saved)[k.id := v] else Profiles(saved))
            && Components(t) == (if k.Fw? then Components(saved)[k.id := v] else Components(saved))
            && Fields(t) == if k.Identity? && k.field in FACTORY_IDENTITY then Fields(saved)[k.field := v] else Fields(saved)
  {
    CommonsPut(saved, k, v);
    ProfilesPut(saved, k, v);
    ComponentsPut(saved, k, v);
    FieldsPut(saved, k, v);
  }

  lemma OverlayPut<K, V>(a: map<K, V>, b: map<K, V>, k: K, v: V)
    ensures (a + b)[k := v] == a + b[k := v]
  {
  }

  lemma SameCommons(a: map<StateKey, Value>, b: map<StateKey, Value>)
    requires forall k: StateKey :: k.CommonSetting? ==> (k in a <==> k in b) && (k in a ==> a[k] == b[k])
    ensures Commons(a) == Commons(b)
  {
    forall id
      ensures id in Commons(a) <==> CommonSetting(id) in a
      ensures id in Commons(b) <==> CommonSetting(id) in b
    {
    }
  }

  lemma SameProfiles(a: map<StateKey, Value>, b: map<StateKey, Value>)
    requires forall k: StateKey :: k.ProfileSetting? ==> (k in a <==> k in b) && (k in a ==> a[k] == b[k])
    ensures Profiles(a) == Profiles(b)
  {
    forall id
      ensures id in Profiles(a) <==> ProfileSetting(id) in a
      ensures id in Profiles(b) <==> ProfileSetting(id) in b
    {
    }
  }

  lemma SameFields(a: map<StateKey, Value>, b: map<StateKey, Value>)
    requires forall k: StateKey :: k.Identity? ==> (k in a <==> k in b) && (k in a ==> a[k] == b[k])
    ensures Fields(a) == Fields(b)
  {
    hide FACTORY_IDENTITY;
    forall f
      ensures f in Fields(a) <==> Identity(f) in a && f in FACTORY_IDENTITY
      ensures f in Fields(b) <==> Identity(f) in b && f in FACTORY_IDENTITY
    {
    }
  }

  lemma ComponentKeys(a: map<StateKey, Value>)
    ensures forall id :: id in Components(a) <==> Fw(id) in a
    ensures forall id :: id in Components(a) ==> Components(a)[id] == a[Fw(id)]
  {
  }

  lemma ComponentsAt(a: map<StateKey, Value>, b: map<StateKey, Value>, v: Settings)
    requires forall id :: Fw(id) in b <==> Fw(id) in a || id in v
    requires forall id :: Fw(id) in b ==> b[Fw(id)] == if id in v then v[id] else a[Fw(id)]
    ensures Components(b) == Components(a) + v
  {
    ComponentKeys(a);
    ComponentKeys(b);
    hide Components;
    var x := Components(a) + v;
    forall id
      ensures (id in Components(b) <==> id in x) && (id in x ==> Components(b)[id] == x[id])
    {
      assert Fw(id) in b <==> Fw(id) in a || id in v;
    }
  }

  lemma PutManyFirmware(saved: map<StateKey, Value>, v: Settings)
    ensures var t := saved + SavedFirmware(v);
            && Commons(t) == Commons(saved) && Profiles(t) == Profiles(saved) && Fields(t) == Fields(saved)
            && Components(t) == Components(saved) + v
  {
    hide FACTORY_IDENTITY;
    var t := saved + SavedFirmware(v);
    forall id
      ensures Fw(id) in SavedFirmware(v) <==> id in v
      ensures Fw(id) in t <==> Fw(id) in saved || id in v
    {
    }
    SameCommons(saved, t);
    SameProfiles(saved, t);
    SameFields(saved, t);
    ComponentsAt(saved, t, v);
  }

  lemma FieldKeys(a: map<StateKey, Value>)
    ensures forall f :: f in Fields(a) <==> Identity(f) in a && f in FACTORY_IDENTITY
    ensures forall f :: f in Fields(a) ==> Fields(a)[f] == a[Identity(f)]
  {
    hide FACTORY_IDENTITY;
  }

  lemma NoSettings(t: map<StateKey, Value>)
    requires forall k :: k in t ==> k.Fw? || k.Identity?
    ensures Commons(t) == map[] && Profiles(t) == map[]
  {
  }

  lemma OnlyComponents(t: map<StateKey, Value>, v: Settings)
    requires forall id :: (Fw(id) in t <==> id in v) && (id in v ==> t[Fw(id)] == v[id])
    ensures Components(t) == v
  {
    ComponentKeys(t);
    hide Components;
    forall id
      ensures (id in Components(t) <==> id in v) && (id in v ==> Components(t)[id] == v[id])
    {
      assert Fw(id) in t <==> id in v;
    }
  }

  lemma OnlyFields(t: map<StateKey, Value>, w: map<string, Value>)
    requires w == FACTORY_IDENTITY
    requires forall f :: (Identity(f) in t <==> f in w) && (f in w ==> t[Identity(f)] == w[f])
    ensures Fields(t) == w
  {
    FieldKeys(t);
    hide Fields, FACTORY_IDENTITY;
  }

  lemma ResetRows(v: Settings, w: map<string, Value>)
    ensures var t := SavedFirmware(v) + SavedIdentity(w);
            && (forall k :: k in t ==> k.Fw? || k.Identity?)
            && (forall id :: (Fw(id) in t <==> id in v) && (id in v ==> t[Fw(id)] == v[id]))
            && (forall f :: (Identity(f) in t <==> f in w) && (f in w ==> t[Identity(f)] == w[f]))
  {
  }

  /** The rows a factory reset leaves in the file. */
  lemma AfterReset()
    ensures var t := SavedFirmware(RS28) + SavedIdentity(FACTORY_IDENTITY);
            Commons(t) == map[] && Profiles(t) == map[] && Components(t) == RS28 && Fields(t) == FACTORY_IDENTITY
  {
    hide RS28, FACTORY_IDENTITY, Commons, Profiles, Components, Fields, SavedFirmware, SavedIdentity;
    var t := SavedFirmware(RS28) + SavedIdentity(FACTORY_IDENTITY);
    ResetRows(RS28, FACTORY_IDENTITY);
    NoSettings(t);
    OnlyComponents(t, RS28);
    OnlyFields(t, FACTORY_IDENTITY);
  }

  // ---- every operation ----

  lemma ResetOverlay()
    ensures RS30 + RS28 == RS28
  {
    SameComponents();
  }

  /** Every operation keeps the agreement; a reset does so if every saved component is a known one. */
  lemma ApplyAgrees(m: Mock, op: Op)
    requires Agrees(m) && (op.FactoryReset? ==> KnownComponents(m.saved))
    ensures Agrees(Apply(m, op)) && (KnownComponents(m.saved) ==> KnownComponents(Apply(m, op).saved))
  {
    SameComponents();
    hide RS28, RS30, FACTORY_IDENTITY, DEFAULT_SETTINGS, Commons, Profiles, Components, Fields, SavedFirmware, SavedIdentity;
    match op
    case StoreCommon(id, v) => PutRow(m.saved, CommonSetting(id), v);
      OverlayPut(DEFAULT_SETTINGS, Commons(m.saved), id, v);
    case StoreProfile(id, v) => PutRow(m.saved, ProfileSetting(id), v);
      OverlayPut(DEFAULT_SETTINGS, Profiles(m.saved), id, v);
    case WriteFirmware(id, v) =>
      if id in m.firmware {
        PutRow(m.saved, Fw(id), v);
        OverlayPut(RS30, Components(m.saved), id, v);
      }
    case ApplyProfile(p) =>
      var v := ProfileVersions(p);
      PutManyFirmware(m.saved, v);
      assert RS30 + Components(m.saved) + v == RS30 + (Components(m.saved) + v);
    case WriteIdentity(f, v) =>
      if f in FACTORY_IDENTITY {
        PutRow(m.saved, Identity(f), v);
        OverlayPut(FACTORY_IDENTITY, Fields(m.saved), f, v);
      }
    case FactoryReset =>
      AfterReset();
      ResetOverlay();
      assert (RS30 + Components(m.saved)) + RS28 == RS28;
      assert DEFAULT_SETTINGS + map[] == DEFAULT_SETTINGS;
      assert FACTORY_IDENTITY + FACTORY_IDENTITY == FACTORY_IDENTITY;
    case _ =>
  }

  /** A component the tables do not know survives a factory reset in memory but not in the file. */
  lemma ResetAgreesIffKnown(m: Mock)
    requires Agrees(m)
    ensures Agrees(Apply(m, FactoryReset)) <==> KnownComponents(m.saved)
  {
    SameComponents();
    hide FACTORY_IDENTITY, DEFAULT_SETTINGS;
    AfterReset();
    ResetOverlay();
    hide RS28, RS30, Commons, Profiles, Components, Fields, SavedFirmware, SavedIdentity;
    assert DEFAULT_SETTINGS + map[] == DEFAULT_SETTINGS;
    assert FACTORY_IDENTITY + FACTORY_IDENTITY == FACTORY_IDENTITY;
    var after := (RS30 + Components(m.saved)) + RS28;
    if KnownComponents(m.saved) {
      assert after == RS28;
    }
    if after == RS28 {
      forall id | id in Components(m.saved)
        ensures id in RS30
      {
        assert id in after;
      }
    }
  }

  lemma {:induction false} ApplyAllAgrees(m: Mock, ops: seq<Op>)
    requires Agrees(m) && (FactoryReset in ops ==> KnownComponents(m.saved))
    ensures Agrees(ApplyAll(m, ops)) && (KnownComponents(m.saved) ==> KnownComponents(ApplyAll(m, ops).saved))
    decreases |ops|
  {
    hide Agrees, Apply, KnownComponents;
    if ops != [] {
      ApplyAgrees(m, ops[0]);
      ApplyAllAgrees(Apply(m, ops[0]), ops[1..]);
    }
  }

  /**
   After any sequence of operations, with resets among them if the saved components are known ones, a
   rebuilt device has the same stored settings, firmware versions
   and identity; its active common settings are the stored ones, its active profile settings the
   defaults.
   */
  lemma RestartAgrees(saved: map<StateKey, Value>, ops: seq<Op>)
    requires FactoryReset in ops ==> KnownComponents(saved)
    ensures var b := ApplyAll(Build(saved), ops);
            var c := Build(b.saved);
            && c.storedCommon == b.storedCommon && c.storedProfile == b.storedProfile
            && c.firmware == b.firmware && c.identity == b.identity
            && c.activeCommon == b.storedCommon && c.activeProfile == DEFAULT_SETTINGS
  {
    hide ApplyAll, Commons, Profiles, Components, Fields, KnownComponents, RS30, FACTORY_IDENTITY, DEFAULT_SETTINGS;
    ApplyAllAgrees(Build(saved), ops);
  }

  // ---- stored and active ----

  function Lookup(s: Settings, id: nat): Option<Value> {
    if id in s then Some(s[id]) else None
  }

  /** The four groups of settings. */
  datatype Group = StoredCommons | StoredProfiles | ActiveCommons | ActiveProfiles

  function SettingsOf(m: Mock, g: Group): Settings {
    match g
    case StoredCommons => m.storedCommon
    case StoredProfiles => m.storedProfile
    case ActiveCommons => m.activeCommon
    case ActiveProfiles => m.activeProfile
  }

  /** The operation that writes setting `id` of this group with value `v`. */
  function Setting(g: Group, id: nat, v: Value): Op {
    match g
    case StoredCommons => StoreCommon(id, v)
    case StoredProfiles => StoreProfile(id, v)
    case ActiveCommons => ActivateCommon(id, v)
    case ActiveProfiles => ActivateProfile(id, v)
  }

  /** What decides a setting: its own group's writes, and resets unless it is an active profile setting. */
  predicate Touches(op: Op, g: Group, id: nat) {
    (op.FactoryReset? && g != ActiveProfiles)
    || ((op.StoreCommon? || op.StoreProfile? || op.ActivateCommon? || op.ActivateProfile?)
        && op == Setting(g, id, op.value))
  }

  /** The value a deciding operation leaves. */
  function Leaves(op: Op, g: Group, id: nat): Option<Value>
    requires Touches(op, g, id)
  {
    if op.FactoryReset? then Lookup(DEFAULT_SETTINGS, id) else Some(op.value)
  }

  predicate UntouchedFrom(ops: seq<Op>, from: nat, g: Group, id: nat) {
    forall j :: from <= j < |ops| ==> !Touches(ops[j], g, id)
  }

  lemma ApplyTouches(m: Mock, op: Op, g: Group, id: nat)
    ensures Lookup(SettingsOf(Apply(m, op), g), id)
         == if Touches(op, g, id) then Leaves(op, g, id) else Lookup(SettingsOf(m, g), id)
  {
    hide DEFAULT_SETTINGS, RS28, RS30, FACTORY_IDENTITY, SavedFirmware, SavedIdentity, ProfileVersions;
  }

  /**
   After any operations a setting of each of the four groups, stored or active, common or profile,
   holds what the last operation that decides it left, and its old value if none did: active writes
   never reach a stored setting nor stored ones an active one, and a factory reset sets every group
   back but the active profile settings.
   */
  lemma {:induction false} StoredAndActiveApart(m: Mock, ops: seq<Op>, g: Group, id: nat)
    ensures var now := Lookup(SettingsOf(ApplyAll(m, ops), g), id);
            && (UntouchedFrom(ops, 0, g, id) ==> now == Lookup(SettingsOf(m, g), id))
            && forall i: nat :: i < |ops| && Touches(ops[i], g, id) && UntouchedFrom(ops, i + 1, g, id)
                                ==> now == Leaves(ops[i], g, id)
    decreases |ops|
  {
    hide Apply, Touches, Leaves, SettingsOf;
    if ops != [] {
      var rest := ops[1..];
      ApplyTouches(m, ops[0], g, id);
      StoredAndActiveApart(Apply(m, ops[0]), rest, g, id);
      assert forall j :: 0 < j < |ops| ==> ops[j] == rest[j - 1];
      forall i: nat | i < |ops| && Touches(ops[i], g, id) && UntouchedFrom(ops, i + 1, g, id)
        ensures Lookup(SettingsOf(ApplyAll(m, ops), g), id) == Leaves(ops[i], g, id)
      {
        if i == 0 {
          assert UntouchedFrom(rest, 0, g, id);
        } else {
          assert rest[i - 1] == ops[i] && UntouchedFrom(rest, i, g, id);
        }
      }
      if UntouchedFrom(ops, 0, g, id) {
        assert !Touches(ops[0], g, id) && UntouchedFrom(rest, 0, g, id);
      }
    }
  }

  // ---- firmware and identity ----

  /** A component's version or a field of the identity. */
  datatype Slot = Component(id: nat) | Field(name: string)

  function Read(m: Mock, x: Slot): Option<Value> {
    match x
    case Component(id) => Lookup(m.firmware, id)
    case Field(f) => if f in m.identity then Some(m.identity[f]) else None
  }

  /** What decides a slot: writes to it, resets, and for a component of the tables a firmware profile. */
  predicate Decides(op: Op, x: Slot) {
    match x
    case Component(id) =>
      (op.WriteFirmware? && op.id == id) || ((op.ApplyProfile? || op.FactoryReset?) && id in RS30)
    case Field(f) => (op.WriteIdentity? && op.field == f) || op.FactoryReset?
  }

  /** The value a deciding operation gives; a factory reset goes back to the RS28 versions. */
  function Gives(op: Op, x: Slot): Option<Value>
    requires Decides(op, x)
  {
    match x
    case Component(id) =>
      if op.WriteFirmware? then Some(op.value)
      else if op.ApplyProfile? && op.profile == Rs30 then Lookup(RS30, id)
      else Lookup(RS28, id)
    case Field(f) =>
      if op.WriteIdentity? then Some(op.value)
      else if f in FACTORY_IDENTITY then Some(FACTORY_IDENTITY[f]) else None
  }

  /** The device has the component, or the identity has the field. */
  predicate Known(m: Mock, x: Slot) {
    match x
    case Component(id) => id in m.firmware
    case Field(f) => f in FACTORY_IDENTITY
  }

  predicate UndecidedFrom(ops: seq<Op>, from: nat, x: Slot) {
    forall j :: from <= j < |ops| ==> !Decides(ops[j], x)
  }

  lemma ApplyDecides(m: Mock, op: Op, x: Slot)
    requires Known(m, x)
    ensures Known(Apply(m, op), x) && Read(Apply(m, op), x) == if Decides(op, x) then Gives(op, x) else Read(m, x)
  {
    SameComponents();
    hide DEFAULT_SETTINGS, RS28, RS30, FACTORY_IDENTITY, SavedFirmware, SavedIdentity;
  }

  lemma ApplyRefuses(m: Mock, op: Op, x: Slot)
    requires !Known(m, x) && (x.Component? ==> x.id !in RS30)
    ensures !Known(Apply(m, op), x) && (op.FactoryReset? || Read(Apply(m, op), x) == Read(m, x))
  {
    SameComponents();
    hide DEFAULT_SETTINGS, RS28, RS30, FACTORY_IDENTITY, SavedFirmware, SavedIdentity;
  }

  /**
   After any operations a known component or identity field holds what the last operation that decides it
   gave, and its old value if none did.
   */
  lemma {:induction false} FirmwareAndIdentity(m: Mock, ops: seq<Op>, x: Slot)
    requires Known(m, x)
    ensures var now := Read(ApplyAll(m, ops), x);
            && (UndecidedFrom(ops, 0, x) ==> now == Read(m, x))
            && forall i: nat :: i < |ops| && Decides(ops[i], x) && UndecidedFrom(ops, i + 1, x)
                                ==> now == Gives(ops[i], x)
    decreases |ops|
  {
    hide Apply, Decides, Gives, Read, Known;
    if ops != [] {
      var rest := ops[1..];
      ApplyDecides(m, ops[0], x);
      FirmwareAndIdentity(Apply(m, ops[0]), rest, x);
      assert forall j :: 0 < j < |ops| ==> ops[j] == rest[j - 1];
      forall i: nat | i < |ops| && Decides(ops[i], x) && UndecidedFrom(ops, i + 1, x)
        ensures Read(ApplyAll(m, ops), x) == Gives(ops[i], x)
      {
        if i == 0 {
          assert UndecidedFrom(rest, 0, x);
        } else {
          assert rest[i - 1] == ops[i] && UndecidedFrom(rest, i, x);
        }
      }
      if UndecidedFrom(ops, 0, x) {
        assert !Decides(ops[0], x) && UndecidedFrom(rest, 0, x);
      }
    }
  }

  /** A component the device does not have is never added, whatever is written. */
  lemma {:induction false} UnknownStaysOut(m: Mock, ops: seq<Op>, id: nat)
    requires id !in m.firmware && id !in RS30
    ensures id !in ApplyAll(m, ops).firmware
    decreases |ops|
  {
    hide Apply;
    if ops != [] {
      ApplyRefuses(m, ops[0], Component(id));
      UnknownStaysOut(Apply(m, ops[0]), ops[1..], id);
    }
  }

  // ---- starting up ----

  /** A row of the file, or else the default. */
  function RowOr(saved: map<StateKey, Value>, k: StateKey, default: Option<Value>): Option<Value> {
    if k in saved then Some(saved[k]) else default
  }

  lemma CommonAt(saved: map<StateKey, Value>, id: nat)
    ensures Lookup(Commons(saved), id) == RowOr(saved, CommonSetting(id), None)
  {
    var a := Commons(saved);
    assert id in a <==> CommonSetting(id) in saved;
  }

  lemma ProfileAt(saved: map<StateKey, Value>, id: nat)
    ensures Lookup(Profiles(saved), id) == RowOr(saved, ProfileSetting(id), None)
  {
    var a := Profiles(saved);
    assert id in a <==> ProfileSetting(id) in saved;
  }

  lemma ComponentAt(saved: map<StateKey, Value>, id: nat)
    ensures Lookup(Components(saved), id) == RowOr(saved, Fw(id), None)
  {
    ComponentKeys(saved);
  }

  lemma OverlayAt(a: Settings, b: Settings, id: nat)
    ensures Lookup(a + b, id) == if id in b then Some(b[id]) else Lookup(a, id)
  {
  }

  /** What a device reads from the file, entry by entry; an unknown identity field is never taken over. */
  lemma BuildReads(saved: map<StateKey, Value>, id: nat, f: string)
    ensures var m := Build(saved);
            && Lookup(m.storedCommon, id) == RowOr(saved, CommonSetting(id), Lookup(DEFAULT_SETTINGS, id))
            && Lookup(m.storedProfile, id) == RowOr(saved, ProfileSetting(id), Lookup(DEFAULT_SETTINGS, id))
            && Lookup(m.firmware, id) == RowOr(saved, Fw(id), Lookup(RS30, id))
            && Read(m, Field(f)) == (if f in FACTORY_IDENTITY then RowOr(saved, Identity(f), Some(FACTORY_IDENTITY[f]))
                                     else None)
            && m.activeCommon == m.storedCommon && m.activeProfile == DEFAULT_SETTINGS && m.saved == saved
  {
    hide DEFAULT_SETTINGS, RS30, FACTORY_IDENTITY, Commons, Profiles, Components, Fields;
    CommonAt(saved, id);
    ProfileAt(saved, id);
    ComponentAt(saved, id);
    FieldKeys(saved);
    OverlayAt(DEFAULT_SETTINGS, Commons(saved), id);
    OverlayAt(DEFAULT_SETTINGS, Profiles(saved), id);
    OverlayAt(RS30, Components(saved), id);
  }

  // ---- the procedures on the wire ----

  const SET_STORED_COMMON: byte := 0x52
  const GET_STORED_COMMON: byte := 0x51
  const SET_ACTIVE_COMMON: byte := 0x0B
  const GET_ACTIVE_COMMON: byte := 0x0A
  const SET_STORED_PROFILE: byte := 0x54
  const GET_STORED_PROFILE: byte := 0x53
  const SET_ACTIVE_PROFILE: byte := 0x08

  /** What a request changes; a set request with fewer than three arguments changes nothing. */
  function OpOf(procedure: byte, args: seq<byte>): Option<Op> {
    if |args| < 3 then None
    else if procedure == SET_STORED_COMMON then Some(StoreCommon(args[1], Number(args[2])))
    else if procedure == SET_ACTIVE_COMMON then Some(ActivateCommon(args[1], Number(args[2])))
    else if procedure == SET_STORED_PROFILE then Some(StoreProfile(args[1], Number(args[2])))
    else if procedure == SET_ACTIVE_PROFILE then Some(ActivateProfile(args[1], Number(args[2])))
    else None
  }

  /** A setting as a 16-bit number, low byte first; an unknown one reads as zero. */
  function Answer(s: Settings, args: seq<byte>): seq<byte> {
    var id := if args == [] then 0 else args[0];
    var n := if id in s && s[id].Number? then s[id].n else 0;
    [n % 256, n / 256 % 256]
  }

  /** A request in the default context. */
  datatype Request = Request(procedure: byte, args: seq<byte>)

  /** What a request does and answers. */
  function OnRequest(m: Mock, q: Request): (Mock, seq<byte>) {
    match OpOf(q.procedure, q.args)
    case Some(op) => (Apply(m, op), [])
    case None =>
      (m,
       if q.procedure == GET_STORED_COMMON then Answer(m.storedCommon, q.args)
       else if q.procedure == GET_ACTIVE_COMMON then Answer(m.activeCommon, q.args)
       else if q.procedure == GET_STORED_PROFILE then Answer(m.storedProfile, q.args)
       else [])
  }

  function RunRequests(m: Mock, requests: seq<Request>): Mock
    decreases |requests|
  {
    if requests == [] then m else RunRequests(OnRequest(m, requests[0]).0, requests[1..])
  }

  lemma {:induction false} RunConcat(m: Mock, a: seq<Request>, b: seq<Request>)
    ensures RunRequests(m, a + b) == RunRequests(RunRequests(m, a), b)
    decreases |a|
  {
    hide OnRequest;
    if a == [] {
      assert a + b == b;
    } else {
      assert (a + b)[1..] == a[1..] + b;
      RunConcat(OnRequest(m, a[0]).0, a[1..], b);
    }
  }

  /** The procedures that set and get a setting of a group; what is active for a profile cannot be asked for. */
  function Setter(g: Group): byte {
    match g
    case StoredCommons => 0x52
    case StoredProfiles => 0x54
    case ActiveCommons => 0x0B
    case ActiveProfiles => 0x08
  }

  function Getter(g: Group): Option<byte> {
    match g
    case StoredCommons => Some(0x51)
    case StoredProfiles => Some(0x53)
    case ActiveCommons => Some(0x0A)
    case ActiveProfiles => None
  }

  /** A request that sets this setting. */
  predicate Sets(q: Request, g: Group, id: byte) {
    q.procedure == Setter(g) && |q.args| >= 3 && q.args[1] == id
  }

  lemma RequestLeaves(m: Mock, q: Request, g: Group, id: byte)
    ensures Lookup(SettingsOf(OnRequest(m, q).0, g), id)
         == if Sets(q, g, id) then Some(Number(q.args[2])) else Lookup(SettingsOf(m, g), id)
  {
    hide Apply, Answer, SettingsOf;
    match OpOf(q.procedure, q.args)
    case Some(op) => ApplyTouches(m, op, g, id);
    case None =>
  }

  lemma {:induction false} OthersLeave(m: Mock, requests: seq<Request>, g: Group, id: byte)
    requires forall i :: 0 <= i < |requests| ==> !Sets(requests[i], g, id)
    ensures Lookup(SettingsOf(RunRequests(m, requests), g), id) == Lookup(SettingsOf(m, g), id)
    decreases |requests|
  {
    if requests != [] {
      RequestLeaves(m, requests[0], g, id);
      hide OnRequest, SettingsOf;
      OthersLeave(OnRequest(m, requests[0]).0, requests[1..], g, id);
    }
  }

  lemma AnswerIs(s: Settings, args: seq<byte>)
    requires args != []
    ensures var stands := Lookup(s, args[0]);
            && (stands == None ==> Answer(s, args) == [0, 0])
            && (stands.Some? && stands.value.Number? ==>
                Answer(s, args) == [stands.value.n % 256, stands.value.n / 256 % 256])
  {
  }

  lemma GetIs(m: Mock, g: Group, args: seq<byte>)
    requires Getter(g).Some?
    ensures OnRequest(m, Request(Getter(g).value, args)) == (m, Answer(SettingsOf(m, g), args))
  {
    hide Answer, Apply;
  }

  lemma GetAnswers(m: Mock, g: Group, args: seq<byte>, value: byte)
    requires Getter(g).Some? && args != [] && Lookup(SettingsOf(m, g), args[0]) == Some(Number(value))
    ensures OnRequest(m, Request(Getter(g).value, args)).1 == [value, 0]
  {
    GetIs(m, g, args);
    hide OnRequest, SettingsOf;
  }

  /**
   On the wire: a setting that can be asked for reads back as it was last set, whatever requests came
   before and whatever others came since, those for the same number in other groups included.
   */
  lemma SetThenGet(m: Mock, before: seq<Request>, q: Request, after: seq<Request>, g: Group, args: seq<byte>)
    requires Getter(g).Some? && args != [] && Sets(q, g, args[0])
    requires forall i :: 0 <= i < |after| ==> !Sets(after[i], g, args[0])
    ensures OnRequest(RunRequests(m, before + [q] + after), Request(Getter(g).value, args)).1 == [q.args[2], 0]
  {
    var t := RunRequests(m, before);
    RunConcat(m, before + [q], after);
    RunConcat(m, before, [q]);
    var u := OnRequest(t, q).0;
    assert RunRequests(t, [q]) == u by { assert [q][1..] == []; }
    RequestLeaves(t, q, g, args[0]);
    OthersLeave(u, after, g, args[0]);
    GetAnswers(RunRequests(u, after), g, args, q.args[2]);
    hide RunRequests, OnRequest, SettingsOf;
  }

  /** A setting that no request has set reads as it stands in the dictionary, an unknown one as zero. */
  lemma GetUnset(m: Mock, requests: seq<Request>, g: Group, args: seq<byte>)
    requires Getter(g).Some? && args != []
    requires forall i :: 0 <= i < |requests| ==> !Sets(requests[i], g, args[0])
    ensures var stands := Lookup(SettingsOf(m, g), args[0]);
            var read := OnRequest(RunRequests(m, requests), Request(Getter(g).value, args)).1;
            && (stands == None ==> read == [0, 0])
            && (stands.Some? && stands.value.Number? ==> read == [stands.value.n % 256, stands.value.n / 256 % 256])
  {
    OthersLeave(m, requests, g, args[0]);
    GetIs(RunRequests(m, requests), g, args);
    AnswerIs(SettingsOf(RunRequests(m, requests), g), args);
    hide RunRequests, OnRequest, SettingsOf, Answer, Lookup;
  }

  // What is left of a dictionary while its items are handled one by one.

  lemma AllLeft<K, V>(a: map<K, V>)
    ensures a - a.Keys == map[]
  {
  }

  lemma OneLess<K, V>(a: map<K, V>, todo: set<K>, k: K)
    requires todo <= a.Keys && k in todo
    ensures a - (todo - {k}) == (a - todo)[k := a[k]]
  {
  }

  lemma NoneLeft<K, V>(a: map<K, V>)
    ensures a - {} == a
  {
  }

  lemma OverlayNothing<K, V>(a: map<K, V>)
    ensures a + map[] == a
  {
  }

  lemma NoRows()
    ensures Commons(map[]) == map[] && Profiles(map[]) == map[] && Components(map[]) == map[] && Fields(map[]) == map[]
  {
    hide FACTORY_IDENTITY;
    NoSettings(map[]);
    ComponentKeys(map[]);
    FieldKeys(map[]);
    hide Components, Fields;
  }

  lemma NothingSaved()
    ensures SavedFirmware(map[]) == map[] && SavedIdentity(map[]) == map[]
  {
  }

  lemma SavedOneMore(v: Settings, id: nat, x: Value)
    ensures SavedFirmware(v[id := x]) == SavedFirmware(v)[Fw(id) := x]
  {
    forall i
      ensures Fw(i) in SavedFirmware(v) <==> i in v
      ensures Fw(i) in SavedFirmware(v[id := x]) <==> i in v || i == id
    {
    }
  }

  lemma SavedOneMoreField(w: map<string, Value>, f: string, x: Value)
    ensures SavedIdentity(w[f := x]) == SavedIdentity(w)[Identity(f) := x]
  {
    forall g
      ensures Identity(g) in SavedIdentity(w) <==> g in w
      ensures Identity(g) in SavedIdentity(w[f := x]) <==> g in w || g == f
    {
    }
  }

  // ---- the object ----

  class MeraMock {
    const device: Device
    const file: StateFile<StateKey, Value>
    var storedCommon: Settings
    var storedProfile: Settings
    var activeCommon: Settings
    var activeProfile: Settings
    var firmware: Settings
    var identity: map<string, Value>

    ghost function Model(): Mock
      reads this, file
    {
      Mock(storedCommon, storedProfile, activeCommon, activeProfile, firmware, identity, RowsOf(file.table, device))
    }

    /** Starts from the defaults and reads the file over them, row by row. */
    constructor (device: Device, file: StateFile<StateKey, Value>)
      ensures this.device == device && this.file == file
      ensures Model() == Build(RowsOf(file.table, device))
    {
      hide RowsOf, DEFAULT_SETTINGS, RS30, FACTORY_IDENTITY, Commons, Profiles, Components, Fields;
      this.device, this.file := device, file;
      storedCommon, storedProfile, activeProfile := DEFAULT_SETTINGS, DEFAULT_SETTINGS, DEFAULT_SETTINGS;
      activeCommon := DEFAULT_SETTINGS;
      firmware, identity := RS30, FACTORY_IDENTITY;
      new;
      var persisted := file.LoadAll(device);
      Overlay(persisted);
      activeCommon := storedCommon;
    }

    method Overlay(persisted: map<StateKey, Value>)
      modifies this`storedCommon, this`storedProfile, this`firmware, this`identity
      ensures storedCommon == old(storedCommon) + Commons(persisted)
      ensures storedProfile == old(storedProfile) + Profiles(persisted)
      ensures firmware == old(firmware) + Components(persisted)
      ensures identity == old(identity) + Fields(persisted)
    {
      hide Commons, Profiles, Components, Fields, FACTORY_IDENTITY;
      var todo := persisted.Keys;
      NoRows();
      AllLeft(persisted);
      while todo != {}
        invariant todo <= persisted.Keys
        invariant storedCommon == old(storedCommon) + Commons(persisted - todo)
        invariant storedProfile == old(storedProfile) + Profiles(persisted - todo)
        invariant firmware == old(firmware) + Components(persisted - todo)
        invariant identity == old(identity) + Fields(persisted - todo)
        decreases todo
      {
        var k :| k in todo;
        var v := persisted[k];
        ghost var done := persisted - todo;
        PutRow(done, k, v);
        OneLess(persisted, todo, k);
        match k {
          case CommonSetting(id) =>
            OverlayPut(old(storedCommon), Commons(done), id, v);
            storedCommon := storedCommon[id := v];
          case ProfileSetting(id) =>
            OverlayPut(old(storedProfile), Profiles(done), id, v);
            storedProfile := storedProfile[id := v];
          case Fw(id) =>
            OverlayPut(old(firmware), Components(done), id, v);
            firmware := firmware[id := v];
          case Identity(f) =>
            if f in FACTORY_IDENTITY {
              OverlayPut(old(identity), Fields(done), f, v);
              identity := identity[f := v];
            }
        }
        todo := todo - {k};
      }
      NoneLeft(persisted);
    }

    method WriteStoredCommonSetting(id: nat, v: Value)
      modifies this`storedCommon, file
      ensures Model() == Apply(old(Model()), StoreCommon(id, v))
      ensures forall e :: e != device ==> RowsOf(file.table, e) == old(RowsOf(file.table, e))
    {
      hide RowsOf;
      storedCommon := storedCommon[id := v];
      file.Save(device, CommonSetting(id), v);
    }

    method WriteStoredProfileSetting(id: nat, v: Value)
      modifies this`storedProfile, file
      ensures Model() == Apply(old(Model()), StoreProfile(id, v))
      ensures forall e :: e != device ==> RowsOf(file.table, e) == old(RowsOf(file.table, e))
    {
      hide RowsOf;
      storedProfile := storedProfile[id := v];
      file.Save(device, ProfileSetting(id), v);
    }

    /** Session only: the state file is not touched. */
    method SetActiveCommonSetting(id: nat, v: Value)
      modifies this`activeCommon
      ensures Model() == Apply(old(Model()), ActivateCommon(id, v))
    {
      hide RowsOf;
      activeCommon := activeCommon[id := v];
    }

    method SetActiveProfileSetting(id: nat, v: Value)
      modifies this`activeProfile
      ensures Model() == Apply(old(Model()), ActivateProfile(id, v))
    {
      hide RowsOf;
      activeProfile := activeProfile[id := v];
    }

    method HandleWriteFwComponent(id: nat, v: Value) returns (ok: bool)
      modifies this`firmware, file
      ensures Model() == Apply(old(Model()), WriteFirmware(id, v)) && (ok <==> id in old(firmware))
      ensures forall e :: e != device ==> RowsOf(file.table, e) == old(RowsOf(file.table, e))
    {
      hide RowsOf;
      ok := id in firmware;
      if ok {
        SetFwVersion(id, v);
      }
    }

    method HandleWriteIdentity(field: string, v: Value) returns (ok: bool)
      modifies this`identity, file
      ensures Model() == Apply(old(Model()), WriteIdentity(field, v)) && (ok <==> field in FACTORY_IDENTITY)
      ensures forall e :: e != device ==> RowsOf(file.table, e) == old(RowsOf(file.table, e))
    {
      hide RowsOf, FACTORY_IDENTITY;
      ok := field in FACTORY_IDENTITY;
      if ok {
        identity := identity[field := v];
        file.Save(device, Identity(field), v);
      }
    }

    method SetFwVersion(id: nat, v: Value)
      modifies this`firmware, file
      ensures firmware == old(firmware)[id := v]
      ensures RowsOf(file.table, device) == old(RowsOf(file.table, device))[Fw(id) := v]
      ensures forall e :: e != device ==> RowsOf(file.table, e) == old(RowsOf(file.table, e))
    {
      hide RowsOf;
      firmware := firmware[id := v];
      file.Save(device, Fw(id), v);
    }

    ghost predicate FirmwareGained(table: map<(Device, StateKey), Value>, start: Settings, more: Settings)
      reads this, file
    {
      firmware == start + more && Gained(table, SavedFirmware(more))
    }

    lemma NoFirmwareYet()
      ensures FirmwareGained(file.table, firmware, map[])
    {
      GainedNothing();
      OverlayNothing(firmware);
    }

    method SetOneOf(id: nat, v: Value, ghost table: map<(Device, StateKey), Value>, ghost start: Settings,
                    ghost done: Settings)
      requires FirmwareGained(table, start, done)
      modifies this`firmware, file
      ensures FirmwareGained(table, start, done[id := v])
    {
      hide RowsOf, SavedFirmware;
      SavedOneMore(done, id, v);
      OverlayPut(RowsOf(table, device), SavedFirmware(done), Fw(id), v);
      OverlayPut(start, done, id, v);
      SetFwVersion(id, v);
    }

    /** Every component of a snapshot, one write at a time. */
    method SetFwVersions(versions: Settings)
      modifies this`firmware, file
      ensures FirmwareGained(old(file.table), old(firmware), versions)
    {
      hide RowsOf, SavedFirmware;
      ghost var table, start := file.table, firmware;
      var todo := versions.Keys;
      NoFirmwareYet();
      AllLeft(versions);
      hide FirmwareGained;
      while todo != {}
        invariant todo <= versions.Keys
        invariant FirmwareGained(table, start, versions - todo)
        decreases |todo|
      {
        var id :| id in todo;
        SetOneOf(id, versions[id], table, start, versions - todo);
        OneLess(versions, todo, id);
        todo := todo - {id};
      }
      NoneLeft(versions);
    }

    method ApplyFirmwareProfile(p: FirmwareProfile)
      modifies this`firmware, file
      ensures Model() == Apply(old(Model()), ApplyProfile(p))
      ensures forall e :: e != device ==> RowsOf(file.table, e) == old(RowsOf(file.table, e))
    {
      hide RowsOf, SavedFirmware, RS28, RS30;
      SetFwVersions(ProfileVersions(p));
    }

    method HandleFactoryReset()
      modifies this, file
      ensures Model() == Apply(old(Model()), FactoryReset)
      ensures forall e :: e != device ==> RowsOf(file.table, e) == old(RowsOf(file.table, e))
    {
      hide RowsOf, SavedFirmware, SavedIdentity, RS28, DEFAULT_SETTINGS, FACTORY_IDENTITY;
      file.Reset(device);
      storedProfile, storedCommon := DEFAULT_SETTINGS, DEFAULT_SETTINGS;
      activeCommon := storedCommon;
      SetFwVersions(RS28);
      assert map[] + SavedFirmware(RS28) == SavedFirmware(RS28);
      WriteIdentities(FACTORY_IDENTITY);
      identity := FACTORY_IDENTITY;
    }

    /** The file since `table`: this device's rows have gained these, no other device's have changed. */
    ghost predicate Gained(table: map<(Device, StateKey), Value>, more: map<StateKey, Value>)
      reads file
    {
      && RowsOf(file.table, device) == RowsOf(table, device) + more
      && forall e :: e != device ==> RowsOf(file.table, e) == RowsOf(table, e)
    }

    lemma GainedNothing()
      ensures Gained(file.table, SavedFirmware(map[])) && Gained(file.table, SavedIdentity(map[]))
    {
      hide RowsOf;
      NothingSaved();
      OverlayNothing(RowsOf(file.table, device));
    }

    method SaveField(f: string, v: Value, ghost table: map<(Device, StateKey), Value>, ghost done: map<string, Value>)
      requires Gained(table, SavedIdentity(done))
      modifies file
      ensures Gained(table, SavedIdentity(done[f := v]))
    {
      hide RowsOf, SavedIdentity;
      SavedOneMoreField(done, f, v);
      OverlayPut(RowsOf(table, device), SavedIdentity(done), Identity(f), v);
      file.Save(device, Identity(f), v);
    }

    method WriteIdentities(fields: map<string, Value>)
      modifies file
      ensures Gained(old(file.table), SavedIdentity(fields))
    {
      hide RowsOf, SavedIdentity;
      ghost var table := file.table;
      var todo := fields.Keys;
      GainedNothing();
      AllLeft(fields);
      hide Gained;
      while todo != {}
        invariant todo <= fields.Keys
        invariant Gained(table, SavedIdentity(fields - todo))
        decreases |todo|
      {
        var f :| f in todo;
        SaveField(f, fields[f], table, fields - todo);
        OneLess(fields, todo, f);
        todo := todo - {f};
      }
      NoneLeft(fields);
    }
  }
}
