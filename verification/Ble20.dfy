/**
 The Ble20 application layer of an Alba device: a store of data points, read, written and
 subscribed to by address, alone or through tunnel frames.

 `None` stands for the exceptions of the source: an address cut off by the end of the frame, and a
 tunnelled response whose length does not fit its byte.
 */
module Ble20 {
  import opened Bytes

  // ---- commands ----

  const INVENTORY: byte := 0x00
  const INVENTORY_COUNT: byte := 0x01
  const INVENTORY_DATA: byte := 0x02
  const READ_CMD: byte := 0x10
  const READ_ANS: byte := 0x11
  const READ_ERROR: byte := 0x12
  const WRITE_CMD: byte := 0x20
  const WRITE_ACK: byte := 0x21
  const WRITE_ERROR: byte := 0x22
  const NOTIFY_ENABLE: byte := 0x30
  const NOTIFY_DISABLE: byte := 0x31
  const NOTIFY_ACK: byte := 0x32
  const NOTIFY_ERROR: byte := 0x33
  const NOTIFY_DATA: byte := 0x34
  const EVENT_STORAGE_INVENTORY: byte := 0x50
  const EVENT_STORAGE_INVENTORY_COUNT: byte := 0x51
  const LIST_INVENTORY_CMD: byte := 0x70
  const LIST_INVENTORY_COUNT: byte := 0x71
  const TUNNEL: byte := 0xD0
  const CAPABILITIES_CMD: byte := 0xFD
  const CAPABILITIES_ACK: byte := 0xFE

  const INVALID_ID: byte := 0x01

  const START_STOP_SHOWER := 563
  const SHOWER_STATUS := 564
  const NVM: byte := 3

  // ---- addresses ----

  datatype Key = Key(dp: nat, inst: Option<byte>)

  function EncodeAddress(k: Key): seq<byte> {
    match k.inst
    case None => [k.dp % 256, k.dp / 256 % 128]
    case Some(i) => [k.dp % 256, k.dp / 256 % 128 + 128, i]
  }

  /** The address at the start of `data` and how many bytes it takes. */
  function DecodeAddress(data: seq<byte>): Option<(Key, nat)> {
    if |data| < 2 then None
    else
      var dp := (data[1] as int) % 128 * 256 + data[0];
      if data[1] < 128 then Some((Key(dp, None), 2))
      else if |data| < 3 then None
      else Some((Key(dp, Some(data[2])), 3))
  }

  /** Decoding inverts encoding, and leaves what follows the address alone. */
  lemma AddressRoundTrip(k: Key, rest: seq<byte>)
    requires k.dp < 0x8000
    ensures DecodeAddress(EncodeAddress(k) + rest) == Some((k, |EncodeAddress(k)|))
  {
    assert k.dp / 256 * 256 + k.dp % 256 == k.dp;
  }

  /** The address a device sends back is the one it was sent. */
  lemma AddressEchoed(data: seq<byte>)
    requires DecodeAddress(data).Some?
    ensures var (k, n) := DecodeAddress(data).value;
            k.dp < 0x8000 && n <= |data| && EncodeAddress(k) == data[..n]
  {
    var (k, n) := DecodeAddress(data).value;
    assert k.dp / 256 == data[1] % 128 && k.dp % 256 == data[0];
  }

  // ---- the store ----

  datatype Entry = Entry(version: byte, kind: byte, minS: int, maxS: int, behavior: byte, value: seq<byte>)

  type Store = map<Key, Entry>

  /** The entry an address stands for: its own row, or the row without an instance. */
  function Resolve(keys: set<Key>, k: Key): Option<Key> {
    if k in keys then Some(k)
    else if Key(k.dp, None) in keys then Some(Key(k.dp, None))
    else None
  }

  datatype App = App(store: Store, subscribed: set<nat>, saved: map<nat, seq<byte>>)

  type Frames = seq<seq<byte>>

  function SetValue(a: App, k: Key, value: seq<byte>): App {
    if k in a.store then a.(store := a.store[k := a.store[k].(value := value)]) else a
  }

  // ---- commands on the store ----

  function OnRead(a: App, frame: seq<byte>): Option<Frames>
    requires frame != []
  {
    match DecodeAddress(frame[1..])
    case None => None
    case Some((k, n)) =>
      match Resolve(a.store.Keys, k)
      case None => Some([[READ_ERROR] + EncodeAddress(k) + [INVALID_ID]])
      case Some(e) => Some([[READ_ANS] + EncodeAddress(k) + a.store[e].value])
  }

  /** The mirror of a shower start into the shower status. */
  function MirrorStart(a: App, dp: nat, value: seq<byte>): (App, Frames) {
    if dp == START_STOP_SHOWER && value != [] && value[0] == 1 then
      (SetValue(a, Key(SHOWER_STATUS, None), [5]),
       if SHOWER_STATUS in a.subscribed then [[NOTIFY_DATA] + EncodeAddress(Key(SHOWER_STATUS, None)) + [5]] else [])
    else (a, [])
  }

  lemma AddressFits(data: seq<byte>)
    ensures DecodeAddress(data).Some? ==> DecodeAddress(data).value.1 <= |data|
  {
  }

  function OnWrite(a: App, frame: seq<byte>): (App, Option<Frames>)
    requires frame != []
  {
    match DecodeAddress(frame[1..])
    case None => (a, None)
    case Some((k, n)) =>
      AddressFits(frame[1..]);
      var value := frame[1 + n..];
      match Resolve(a.store.Keys, k)
      case None => (a, Some([[WRITE_ERROR] + EncodeAddress(k) + [INVALID_ID]]))
      case Some(e) =>
        var b := SetValue(a, e, value);
        var c := if a.store[e].behavior == NVM then b.(saved := b.saved[k.dp := value]) else b;
        var (d, more) := MirrorStart(c, k.dp, value);
        (d, Some([[WRITE_ACK] + EncodeAddress(k)]
                 + (if k.dp in a.subscribed then [[NOTIFY_DATA] + EncodeAddress(Key(k.dp, None)) + value] else [])
                 + more))
  }

  function OnNotify(a: App, frame: seq<byte>, enable: bool): (App, Option<Frames>)
    requires frame != []
  {
    match DecodeAddress(frame[1..])
    case None => (a, None)
    case Some((k, n)) =>
      if enable && Resolve(a.store.Keys, k) == None then
        (a, Some([[NOTIFY_ERROR] + EncodeAddress(k) + [INVALID_ID]]))
      else
        (a.(subscribed := if enable then a.subscribed + {k.dp} else a.subscribed - {k.dp}),
         Some([[NOTIFY_ACK] + EncodeAddress(k)]))
  }

  // ---- the inventory ----

  function Le16(n: nat): seq<byte> {
    [n % 256, n / 256 % 256]
  }

  /** A signed 32-bit number, low byte first. */
  function Le32(x: int): seq<byte> {
    var n := x % 0x1_0000_0000;
    [n % 256, n / 256 % 256, n / 0x1_0000 % 256, n / 0x100_0000 % 256]
  }

  function Describe(k: Key, e: Entry): seq<byte> {
    [INVENTORY_DATA] + EncodeAddress(k) + [e.version, e.kind] + Le32(e.minS) + Le32(e.maxS) + [e.behavior % 128]
  }

  predicate UniqueDps(keys: set<Key>) {
    forall j, k :: j in keys && k in keys && j.dp == k.dp ==> j == k
  }

  predicate IsFirst(keys: set<Key>, k: Key) {
    k in keys && forall j :: j in keys ==> k.dp <= j.dp
  }

  lemma {:induction false} FirstExists(keys: set<Key>)
    requires keys != {}
    ensures exists k :: IsFirst(keys, k)
    decreases |keys|
  {
    var x :| x in keys;
    var rest := keys - {x};
    if rest == {} {
      assert keys == {x};
      assert IsFirst(keys, x);
    } else {
      FirstExists(rest);
      var y :| IsFirst(rest, y);
      if x.dp <= y.dp {
        assert IsFirst(keys, x);
      } else {
        assert IsFirst(keys, y);
      }
    }
  }

  /** The key with the smallest data point number. */
  ghost function First(keys: set<Key>): (k: Key)
    requires keys != {}
    ensures IsFirst(keys, k)
  {
    FirstExists(keys);
    var k :| IsFirst(keys, k);
    k
  }

  /** The keys in ascending order of their data point numbers. */
  ghost function Sorted(keys: set<Key>): seq<Key>
    requires UniqueDps(keys)
    decreases |keys|
  {
    if keys == {} then [] else [First(keys)] + Sorted(keys - {First(keys)})
  }

  ghost function DescribeAll(store: Store, order: seq<Key>): Frames
    requires forall i :: 0 <= i < |order| ==> order[i] in store
  {
    if order == [] then [] else [Describe(order[0], store[order[0]])] + DescribeAll(store, order[1..])
  }

  predicate Ascending(order: seq<Key>) {
    forall i, j :: 0 <= i < j < |order| ==> order[i].dp < order[j].dp
  }

  lemma AscendingCons(f: Key, rest: seq<Key>)
    requires Ascending(rest) && forall i :: 0 <= i < |rest| ==> f.dp < rest[i].dp
    ensures Ascending([f] + rest)
  {
  }

  lemma {:induction false} SortedKeys(keys: set<Key>)
    requires UniqueDps(keys)
    ensures |Sorted(keys)| == |keys| && Ascending(Sorted(keys))
    ensures forall k :: k in Sorted(keys) <==> k in keys
    decreases |keys|
  {
    if keys != {} {
      var f := First(keys);
      var rest := Sorted(keys - {f});
      SortedKeys(keys - {f});
      assert forall i :: 0 <= i < |rest| ==> rest[i] in rest;
      AscendingCons(f, rest);
    }
  }

  lemma SortedIn(keys: set<Key>)
    requires UniqueDps(keys)
    ensures forall i :: 0 <= i < |Sorted(keys)| ==> Sorted(keys)[i] in keys
  {
    SortedKeys(keys);
    assert forall i :: 0 <= i < |Sorted(keys)| ==> Sorted(keys)[i] in Sorted(keys);
  }

  ghost function OnInventory(store: Store): Frames
    requires UniqueDps(store.Keys)
  {
    SortedIn(store.Keys);
    [[INVENTORY_COUNT] + Le16(|store|)] + DescribeAll(store, Sorted(store.Keys))
  }

  // ---- one frame ----

  /** `_dispatch_sync`. */
  ghost function DispatchSync(a: App, frame: seq<byte>): (App, Option<Frames>)
    requires UniqueDps(a.store.Keys)
  {
    if frame == [] then (a, Some([]))
    else if frame[0] == INVENTORY then (a, Some(OnInventory(a.store)))
    else if frame[0] == READ_CMD then (a, OnRead(a, frame))
    else if frame[0] == WRITE_CMD then OnWrite(a, frame)
    else if frame[0] == NOTIFY_ENABLE then OnNotify(a, frame, true)
    else if frame[0] == NOTIFY_DISABLE then OnNotify(a, frame, false)
    else if frame[0] == CAPABILITIES_CMD then (a, Some([[CAPABILITIES_ACK, 0]]))
    else if frame[0] == EVENT_STORAGE_INVENTORY then (a, Some([[EVENT_STORAGE_INVENTORY_COUNT, 0, 0]]))
    else if frame[0] == LIST_INVENTORY_CMD then (a, Some([[LIST_INVENTORY_COUNT, 0, 0]]))
    else (a, Some([]))
  }

  /** The rows are the same, but for their values. */
  predicate SameRows(s: Store, t: Store) {
    s.Keys == t.Keys && forall k :: k in s ==> t[k] == s[k].(value := t[k].value)
  }

  lemma WriteKeepsRows(a: App, frame: seq<byte>)
    requires frame != []
    ensures SameRows(a.store, OnWrite(a, frame).0.store)
  {
    hide DecodeAddress, EncodeAddress;
  }

  lemma DispatchKeepsRows(a: App, frame: seq<byte>)
    requires UniqueDps(a.store.Keys)
    ensures SameRows(a.store, DispatchSync(a, frame).0.store)
  {
    hide OnInventory, OnRead, OnWrite;
    if frame != [] {
      WriteKeepsRows(a, frame);
    }
  }

  // ---- runs ----

  ghost function Run(a: App, frames: Frames): App
    requires UniqueDps(a.store.Keys)
    decreases |frames|
  {
    if frames == [] then a
    else
      DispatchKeepsRows(a, frames[0]);
      Run(DispatchSync(a, frames[0]).0, frames[1..])
  }

  /** No run of commands adds, removes or redefines a row. */
  lemma {:induction false} RunKeepsRows(a: App, frames: Frames)
    requires UniqueDps(a.store.Keys)
    ensures SameRows(a.store, Run(a, frames).store)
    decreases |frames|
  {
    hide DispatchSync;
    if frames != [] {
      DispatchKeepsRows(a, frames[0]);
      RunKeepsRows(DispatchSync(a, frames[0]).0, frames[1..]);
    }
  }

  lemma {:induction false} SameDescriptions(s: Store, t: Store, order: seq<Key>)
    requires SameRows(s, t) && forall i :: 0 <= i < |order| ==> order[i] in s
    ensures DescribeAll(s, order) == DescribeAll(t, order)
  {
    if order != [] {
      SameDescriptions(s, t, order[1..]);
    }
  }

  /** The inventory a client sees never changes. */
  lemma InventoryConstant(a: App, frames: Frames)
    requires UniqueDps(a.store.Keys)
    ensures UniqueDps(Run(a, frames).store.Keys)
    ensures OnInventory(Run(a, frames).store) == OnInventory(a.store)
  {
    hide Run, Sorted;
    RunKeepsRows(a, frames);
    var t := Run(a, frames).store;
    SortedIn(t.Keys);
    SameDescriptions(a.store, t, Sorted(t.Keys));
    assert |a.store| == |a.store.Keys| && |t| == |t.Keys|;
  }

  // ---- the last write ----

  /** The value one frame gives to row `e`, if any: through any address of the row, or the mirror. */
  function Assigns(keys: set<Key>, frame: seq<byte>, e: Key): Option<seq<byte>> {
    if frame == [] || frame[0] != WRITE_CMD then None
    else
      match DecodeAddress(frame[1..])
      case None => None
      case Some((k, n)) =>
        AddressFits(frame[1..]);
        var value := frame[1 + n..];
        if Resolve(keys, k) == None then None
        else if e == Key(SHOWER_STATUS, None) && k.dp == START_STOP_SHOWER && value != [] && value[0] == 1 then Some([5])
        else if Resolve(keys, k) == Some(e) then Some(value)
        else None
  }

  /** What each frame of a run gives to the row. */
  function Writes(keys: set<Key>, frames: Frames, e: Key): (w: seq<Option<seq<byte>>>)
    ensures |w| == |frames|
  {
    seq(|frames|, i requires 0 <= i < |frames| => Assigns(keys, frames[i], e))
  }

  lemma DispatchAssigns(a: App, frame: seq<byte>, e: Key)
    requires UniqueDps(a.store.Keys) && e in a.store
    ensures SameRows(a.store, DispatchSync(a, frame).0.store)
    ensures DispatchSync(a, frame).0.store[e].value
         == match Assigns(a.store.Keys, frame, e) case Some(v) => v case None => a.store[e].value
  {
    hide OnInventory;
    DispatchKeepsRows(a, frame);
  }

  /** After any run a row holds the last value written through any of its addresses. */
  lemma {:induction false} RunAssigns(a: App, frames: Frames, e: Key)
    requires UniqueDps(a.store.Keys) && e in a.store
    ensures e in Run(a, frames).store
    ensures LastWins(Writes(a.store.Keys, frames, e), a.store[e].value, Run(a, frames).store[e].value)
    decreases |frames|
  {
    hide DispatchSync, Assigns;
    if frames != [] {
      DispatchAssigns(a, frames[0], e);
      var t := DispatchSync(a, frames[0]).0;
      RunAssigns(t, frames[1..], e);
      hide LastWins;
      assert Writes(a.store.Keys, frames, e)[1..] == Writes(a.store.Keys, frames[1..], e);
      LastWinsStep(Writes(a.store.Keys, frames, e), a.store[e].value, Run(a, frames).store[e].value);
    }
  }

  /** Reading through any address of a row answers with the last value written to it. */
  lemma ReadsLastWrite(a: App, frames: Frames, k: Key, e: Key)
    requires UniqueDps(a.store.Keys) && k.dp < 0x8000 && Resolve(a.store.Keys, k) == Some(e)
    ensures e in Run(a, frames).store
    ensures var v := Run(a, frames).store[e].value;
            && LastWins(Writes(a.store.Keys, frames, e), a.store[e].value, v)
            && OnRead(Run(a, frames), [READ_CMD] + EncodeAddress(k)) == Some([[READ_ANS] + EncodeAddress(k) + v])
  {
    hide Run, LastWins;
    RunAssigns(a, frames, e);
    RunKeepsRows(a, frames);
    AddressRoundTrip(k, []);
    assert EncodeAddress(k) + [] == EncodeAddress(k);
    assert ([READ_CMD] + EncodeAddress(k))[1..] == EncodeAddress(k);
  }

  // ---- subscriptions ----

  /** A request to notify about this data point, in a frame whose address is well-formed. */
  predicate Asks(frame: seq<byte>, command: byte, dp: nat) {
    frame != [] && frame[0] == command && DecodeAddress(frame[1..]).Some? && DecodeAddress(frame[1..]).value.0.dp == dp
  }

  /** The request is accepted: its address resolves. */
  predicate Enables(keys: set<Key>, frame: seq<byte>, dp: nat) {
    Asks(frame, NOTIFY_ENABLE, dp) && Resolve(keys, DecodeAddress(frame[1..]).value.0) != None
  }

  predicate NoneDisables(frames: Frames, from: nat, dp: nat) {
    forall j :: from <= j < |frames| ==> !Asks(frames[j], NOTIFY_DISABLE, dp)
  }

  /** Notification was enabled, or on from the start, and not disabled since. */
  predicate Subscribed(keys: set<Key>, frames: Frames, initial: set<nat>, dp: nat) {
    || (dp in initial && NoneDisables(frames, 0, dp))
    || exists i :: 0 <= i < |frames| && Enables(keys, frames[i], dp) && NoneDisables(frames, i + 1, dp)
  }

  lemma NoneDisablesTail(frames: Frames, from: nat, dp: nat)
    requires frames != []
    ensures NoneDisables(frames[1..], from, dp) <==> NoneDisables(frames, from + 1, dp)
  {
    hide Asks;
    if NoneDisables(frames[1..], from, dp) {
      assert forall j :: from + 1 <= j < |frames| ==> frames[j] == frames[1..][j - 1];
    }
  }

  lemma NoneDisablesHead(frames: Frames, dp: nat)
    requires frames != []
    ensures NoneDisables(frames, 0, dp) <==> !Asks(frames[0], NOTIFY_DISABLE, dp) && NoneDisables(frames[1..], 0, dp)
  {
    hide Asks;
    NoneDisablesTail(frames, 0, dp);
  }

  /** The first frame, then the others. */
  lemma SubscribedStep(keys: set<Key>, frames: Frames, initial: set<nat>, next: set<nat>, dp: nat)
    requires frames != []
    requires dp in next <==> Enables(keys, frames[0], dp) || (dp in initial && !Asks(frames[0], NOTIFY_DISABLE, dp))
    ensures Subscribed(keys, frames, initial, dp) <==> Subscribed(keys, frames[1..], next, dp)
  {
    hide Asks, Enables, NoneDisables;
    NoneDisablesHead(frames, dp);
    NoneDisablesTail(frames, 0, dp);
    var rest := frames[1..];
    if i :| 0 <= i < |frames| && Enables(keys, frames[i], dp) && NoneDisables(frames, i + 1, dp) {
      if i > 0 {
        NoneDisablesTail(frames, i, dp);
        assert rest[i - 1] == frames[i];
      }
    }
    if i :| 0 <= i < |rest| && Enables(keys, rest[i], dp) && NoneDisables(rest, i + 1, dp) {
      NoneDisablesTail(frames, i + 1, dp);
      assert rest[i] == frames[i + 1];
    }
  }

  lemma DispatchSubscribes(a: App, frame: seq<byte>, dp: nat)
    requires UniqueDps(a.store.Keys)
    ensures dp in DispatchSync(a, frame).0.subscribed
       <==> Enables(a.store.Keys, frame, dp) || (dp in a.subscribed && !Asks(frame, NOTIFY_DISABLE, dp))
  {
    hide OnInventory, OnRead, Resolve, DecodeAddress, EncodeAddress;
  }

  lemma NothingAsked(keys: set<Key>, initial: set<nat>, dp: nat)
    ensures Subscribed(keys, [], initial, dp) <==> dp in initial
  {
  }

  lemma {:induction false} RunSubscribes(a: App, frames: Frames, dp: nat)
    requires UniqueDps(a.store.Keys)
    ensures dp in Run(a, frames).subscribed <==> Subscribed(a.store.Keys, frames, a.subscribed, dp)
    decreases |frames|
  {
    hide DispatchSync, Enables, Asks, Subscribed, UniqueDps;
    if frames == [] {
      NothingAsked(a.store.Keys, a.subscribed, dp);
    } else {
      DispatchKeepsRows(a, frames[0]);
      DispatchSubscribes(a, frames[0], dp);
      var b := DispatchSync(a, frames[0]).0;
      RunSubscribes(b, frames[1..], dp);
      SubscribedStep(a.store.Keys, frames, a.subscribed, b.subscribed, dp);
    }
  }

  predicate IsNotification(response: seq<byte>) {
    response != [] && response[0] == NOTIFY_DATA
  }

  lemma {:induction false} DescribeAllQuiet(store: Store, order: seq<Key>)
    requires forall i :: 0 <= i < |order| ==> order[i] in store
    ensures forall i :: 0 <= i < |DescribeAll(store, order)| ==> !IsNotification(DescribeAll(store, order)[i])
  {
    if order != [] {
      DescribeAllQuiet(store, order[1..]);
    }
  }

  /** Every answer to an inventory, read or subscription command is no notification. */
  lemma OthersQuiet(a: App, frame: seq<byte>, i: nat)
    requires UniqueDps(a.store.Keys) && frame != [] && frame[0] != WRITE_CMD
    requires var r := DispatchSync(a, frame).1; r.Some? && i < |r.value|
    ensures !IsNotification(DispatchSync(a, frame).1.value[i])
  {
    if frame[0] == INVENTORY {
      SortedIn(a.store.Keys);
      DescribeAllQuiet(a.store, Sorted(a.store.Keys));
    }
  }

  lemma NotificationAddress(dp: nat, value: seq<byte>)
    requires dp < 0x8000
    ensures var f := [NOTIFY_DATA] + EncodeAddress(Key(dp, None)) + value;
            DecodeAddress(f[1..]).Some? && DecodeAddress(f[1..]).value.0.dp == dp
  {
    var f := [NOTIFY_DATA] + EncodeAddress(Key(dp, None)) + value;
    AddressRoundTrip(Key(dp, None), value);
    assert f[1..] == EncodeAddress(Key(dp, None)) + value;
  }

  /** Every notification among the answers is for a subscribed data point. */
  lemma NotifiesSubscribed(a: App, frame: seq<byte>, i: nat)
    requires UniqueDps(a.store.Keys)
    requires var (b, r) := DispatchSync(a, frame); r.Some? && i < |r.value| && IsNotification(r.value[i])
    ensures var r := DispatchSync(a, frame).1.value[i];
            DecodeAddress(r[1..]).Some? && DecodeAddress(r[1..]).value.0.dp in a.subscribed
  {
    if frame[0] != WRITE_CMD {
      OthersQuiet(a, frame, i);
    } else {
      hide OnInventory, DecodeAddress, EncodeAddress;
      var (k, n) := DecodeAddress(frame[1..]).value;
      AddressEchoed(frame[1..]);
      AddressFits(frame[1..]);
      var value := frame[1 + n..];
      NotificationAddress(k.dp, value);
      NotificationAddress(SHOWER_STATUS, [5]);
    }
  }

  /** Over whole runs: a notification needs a subscription that has not been taken back. */
  lemma NotificationsNeedSubscription(a: App, frames: Frames, frame: seq<byte>, i: nat)
    requires UniqueDps(a.store.Keys) && a.subscribed == {} && UniqueDps(Run(a, frames).store.Keys)
    requires var (b, r) := DispatchSync(Run(a, frames), frame); r.Some? && i < |r.value| && IsNotification(r.value[i])
    ensures var r := DispatchSync(Run(a, frames), frame).1.value[i];
            DecodeAddress(r[1..]).Some? && Subscribed(a.store.Keys, frames, {}, DecodeAddress(r[1..]).value.0.dp)
  {
    hide Run, Subscribed, DispatchSync, DecodeAddress;
    NotifiesSubscribed(Run(a, frames), frame, i);
    var r := DispatchSync(Run(a, frames), frame).1.value[i];
    RunSubscribes(a, frames, DecodeAddress(r[1..]).value.0.dp);
  }

  // ---- the tunnel ----

  const TUNNEL_HEADER := 7

  /** The inner frames of a tunnel frame's body; a truncated one and what follows are ignored. */
  function Unwrap(body: seq<byte>): Frames
    decreases |body|
  {
    if |body| < 2 then []
    else
      var n := (body[0] as int) + 1;
      if 1 + n > |body| then [] else [body[1..1 + n]] + Unwrap(body[1 + n..])
  }

  function Wrap(inners: Frames): seq<byte>
    requires forall i :: 0 <= i < |inners| ==> 1 <= |inners[i]| <= 256
  {
    if inners == [] then [] else [|inners[0]| - 1] + inners[0] + Wrap(inners[1..])
  }

  lemma UnwrapHead(f: seq<byte>, rest: seq<byte>)
    requires 1 <= |f| <= 256
    ensures Unwrap([|f| - 1] + f + rest) == [f] + Unwrap(rest)
  {
    var body: seq<byte> := [|f| - 1] + f + rest;
    assert body[1..1 + |f|] == f;
    assert body[1 + |f|..] == rest;
  }

  lemma NothingWrapped()
    ensures Unwrap([]) == []
  {
  }

  /** Unwrapping inverts wrapping. */
  lemma {:induction false} UnwrapWrap(inners: Frames)
    requires forall i :: 0 <= i < |inners| ==> 1 <= |inners[i]| <= 256
    ensures Unwrap(Wrap(inners)) == inners
  {
    hide Unwrap;
    if inners == [] {
      NothingWrapped();
    } else {
      UnwrapWrap(inners[1..]);
      UnwrapHead(inners[0], Wrap(inners[1..]));
    }
  }

  lemma BrokenOff(tail: seq<byte>)
    requires tail != [] ==> tail[0] + 1 >= |tail|
    ensures Unwrap(tail) == []
  {
  }

  /** An inner frame that breaks off, or a lone last byte, changes nothing for those before it. */
  lemma {:induction false} UnwrapBrokenOff(inners: Frames, tail: seq<byte>)
    requires forall i :: 0 <= i < |inners| ==> 1 <= |inners[i]| <= 256
    requires tail != [] ==> tail[0] + 1 >= |tail|
    ensures Unwrap(Wrap(inners) + tail) == inners
  {
    hide Unwrap;
    if inners == [] {
      assert Wrap(inners) + tail == tail;
      BrokenOff(tail);
    } else {
      UnwrapBrokenOff(inners[1..], tail);
      UnwrapHead(inners[0], Wrap(inners[1..]) + tail);
      assert Wrap(inners) + tail == [|inners[0]| - 1] + inners[0] + (Wrap(inners[1..]) + tail);
    }
  }

  /** The wrapped responses; None where a length does not fit its byte. */
  function Rewrap(header: seq<byte>, responses: Frames): Option<Frames> {
    if responses == [] then Some([])
    else if responses[0] == [] || |responses[0]| > 256 then None
    else
      match Rewrap(header, responses[1..])
      case None => None
      case Some(rest) => Some([header + [|responses[0]| - 1] + responses[0]] + rest)
  }

  /** Dispatching inner frames one after another, each answer rewrapped; an exception ends it. */
  ghost function Sequential(a: App, header: seq<byte>, inners: Frames): (App, Option<Frames>)
    requires UniqueDps(a.store.Keys)
    decreases |inners|
  {
    if inners == [] then (a, Some([]))
    else
      DispatchKeepsRows(a, inners[0]);
      var (b, r) := DispatchSync(a, inners[0]);
      if r == None || Rewrap(header, r.value) == None then (b, None)
      else
        var (c, more) := Sequential(b, header, inners[1..]);
        (c, if more == None then None else Some(Rewrap(header, r.value).value + more.value))
  }

  /** `_tunnel_dispatch`, scanning from `pos`. */
  ghost function TunnelFrom(a: App, header: seq<byte>, frame: seq<byte>, pos: nat): (App, Option<Frames>)
    requires UniqueDps(a.store.Keys)
    decreases |frame| - pos
  {
    if pos + 1 >= |frame| then (a, Some([]))
    else
      var start := pos + 1;
      var end := start + frame[pos] + 1;
      if end > |frame| then (a, Some([]))
      else
        DispatchKeepsRows(a, frame[start..end]);
        var (b, r) := DispatchSync(a, frame[start..end]);
        if r == None || Rewrap(header, r.value) == None then (b, None)
        else
          var (c, more) := TunnelFrom(b, header, frame, end);
          (c, if more == None then None else Some(Rewrap(header, r.value).value + more.value))
  }

  ghost function Dispatch(a: App, plaintext: seq<byte>): (App, Option<Frames>)
    requires UniqueDps(a.store.Keys)
  {
    if plaintext == [] then (a, Some([]))
    else if plaintext[0] != TUNNEL then DispatchSync(a, plaintext)
    else if |plaintext| < 9 then (a, Some([]))
    else TunnelFrom(a, plaintext[..TUNNEL_HEADER], plaintext, TUNNEL_HEADER)
  }

  lemma UnwrapAt(frame: seq<byte>, pos: nat)
    requires pos <= |frame|
    ensures Unwrap(frame[pos..])
         == if pos + 1 >= |frame| || pos + 2 + frame[pos] > |frame| then []
            else [frame[pos + 1..pos + 2 + frame[pos]]] + Unwrap(frame[pos + 2 + frame[pos]..])
  {
    var body := frame[pos..];
    if pos + 1 < |frame| && pos + 2 + frame[pos] <= |frame| {
      var end := pos + 2 + frame[pos];
      assert body[1..end - pos] == frame[pos + 1..end];
      assert body[end - pos..] == frame[end..];
    }
  }

  lemma {:induction false} ScanIsSequential(a: App, header: seq<byte>, frame: seq<byte>, pos: nat)
    requires UniqueDps(a.store.Keys) && pos <= |frame|
    ensures TunnelFrom(a, header, frame, pos) == Sequential(a, header, Unwrap(frame[pos..]))
    decreases |frame| - pos
  {
    hide DispatchSync, Rewrap, Unwrap;
    UnwrapAt(frame, pos);
    if pos + 1 < |frame| && pos + 2 + frame[pos] <= |frame| {
      var start, end := pos + 1, pos + 2 + frame[pos];
      var inner, rest := frame[start..end], Unwrap(frame[end..]);
      assert ([inner] + rest)[1..] == rest;
      DispatchKeepsRows(a, inner);
      ScanIsSequential(DispatchSync(a, inner).0, header, frame, end);
    }
  }

  /** For every tunnel frame: the same answers and the same store as its inner frames in sequence. */
  lemma TunnelIsSequential(a: App, frame: seq<byte>)
    requires UniqueDps(a.store.Keys) && |frame| >= TUNNEL_HEADER && frame[0] == TUNNEL
    ensures Dispatch(a, frame) == Sequential(a, frame[..TUNNEL_HEADER], Unwrap(frame[TUNNEL_HEADER..]))
  {
    hide TunnelFrom;
    if |frame| >= 9 {
      ScanIsSequential(a, frame[..TUNNEL_HEADER], frame, TUNNEL_HEADER);
    }
  }

  /** Without an exception, the store after a tunnel frame is that of the run of its inner frames. */
  lemma {:induction false} SequentialRuns(a: App, header: seq<byte>, inners: Frames)
    requires UniqueDps(a.store.Keys) && Sequential(a, header, inners).1.Some?
    ensures Sequential(a, header, inners).0 == Run(a, inners)
    decreases |inners|
  {
    hide DispatchSync, Rewrap;
    if inners != [] {
      DispatchKeepsRows(a, inners[0]);
      SequentialRuns(DispatchSync(a, inners[0]).0, header, inners[1..]);
    }
  }

  // ---- when a tunnel frame cannot fail ----

  const SHORT := 252

  predicate ShortValues(store: Store) {
    forall k :: k in store ==> |store[k].value| <= SHORT
  }

  /** A frame whose address, if it needs one, is complete. */
  predicate Addressed(frame: seq<byte>) {
    && |frame| <= 1 + 2 + SHORT
    && (frame != [] && frame[0] in {READ_CMD, WRITE_CMD, NOTIFY_ENABLE, NOTIFY_DISABLE} ==>
          DecodeAddress(frame[1..]).Some?)
  }

  predicate Fitting(responses: Frames) {
    forall i :: 0 <= i < |responses| ==> 1 <= |responses[i]| <= 256
  }

  lemma {:induction false} DescribeAllFits(store: Store, order: seq<Key>)
    requires forall i :: 0 <= i < |order| ==> order[i] in store
    ensures Fitting(DescribeAll(store, order))
  {
    if order != [] {
      DescribeAllFits(store, order[1..]);
    }
  }

  lemma AddressSizes(k: Key)
    ensures |EncodeAddress(k)| == if k.inst == None then 2 else 3
  {
  }

  lemma WriteFits(a: App, frame: seq<byte>)
    requires ShortValues(a.store) && frame != [] && frame[0] == WRITE_CMD && Addressed(frame)
    ensures var (b, r) := OnWrite(a, frame); ShortValues(b.store) && r.Some? && Fitting(r.value)
  {
    hide EncodeAddress;
    var k := DecodeAddress(frame[1..]).value.0;
    AddressSizes(k);
    AddressSizes(Key(k.dp, None));
    AddressSizes(Key(SHOWER_STATUS, None));
  }

  /** Short values stay short, and answers about them fit. */
  lemma DispatchFits(a: App, frame: seq<byte>)
    requires UniqueDps(a.store.Keys) && ShortValues(a.store) && Addressed(frame)
    ensures var (b, r) := DispatchSync(a, frame); ShortValues(b.store) && r.Some? && Fitting(r.value)
  {
    hide OnWrite;
    if frame != [] && frame[0] == INVENTORY {
      SortedIn(a.store.Keys);
      DescribeAllFits(a.store, Sorted(a.store.Keys));
    } else if frame != [] && frame[0] == WRITE_CMD {
      WriteFits(a, frame);
    }
  }

  lemma {:induction false} RewrapFits(header: seq<byte>, responses: Frames)
    ensures Rewrap(header, responses).Some? <==> Fitting(responses)
  {
    if responses != [] {
      RewrapFits(header, responses[1..]);
      assert Fitting(responses) ==> Fitting(responses[1..]);
    }
  }

  /** With values of at most 252 bytes and complete addresses no tunnel frame raises. */
  lemma {:induction false} TunnelSucceeds(a: App, header: seq<byte>, inners: Frames)
    requires UniqueDps(a.store.Keys) && ShortValues(a.store)
    requires forall i :: 0 <= i < |inners| ==> Addressed(inners[i])
    ensures Sequential(a, header, inners).1.Some? && ShortValues(Sequential(a, header, inners).0.store)
    decreases |inners|
  {
    hide DispatchSync, Rewrap, ShortValues, Fitting, Addressed;
    if inners != [] {
      var (b, r) := DispatchSync(a, inners[0]);
      DispatchKeepsRows(a, inners[0]);
      DispatchFits(a, inners[0]);
      RewrapFits(header, r.value);
      TunnelSucceeds(b, header, inners[1..]);
    }
  }
}
