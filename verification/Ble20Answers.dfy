/**
 What a client finds in the answers of the data point store, byte by byte and over whole runs: every
 command's answer is given by the bytes of its own frame and by what was written and subscribed before.
 */
module Ble20Answers {
  import opened Bytes
  import opened Ble20
  import Sessions = Ble20Sessions

  // ---- the address in a frame ----

  /** The frame holds a whole address behind its command byte. */
  predicate Addressed(frame: seq<byte>) {
    |frame| >= 3 && (frame[2] < 128 || |frame| >= 4)
  }

  function AddressSize(frame: seq<byte>): nat
    requires Addressed(frame)
  {
    if frame[2] < 128 then 2 else 3
  }

  function AddressBytes(frame: seq<byte>): seq<byte>
    requires Addressed(frame)
  {
    frame[1..1 + AddressSize(frame)]
  }

  /** The data point: low byte first, the top bit of the high byte says that an instance follows. */
  function DpOf(frame: seq<byte>): nat
    requires Addressed(frame)
  {
    (frame[1] as int) + 256 * (frame[2] as int % 128)
  }

  function KeyOf(frame: seq<byte>): Key
    requires Addressed(frame)
  {
    Key(DpOf(frame), if frame[2] < 128 then None else Some(frame[3]))
  }

  /** What follows the address. */
  function Rest(frame: seq<byte>): seq<byte>
    requires Addressed(frame)
  {
    frame[1 + AddressSize(frame)..]
  }

  lemma FrameAddress(frame: seq<byte>)
    requires frame != []
    ensures DecodeAddress(frame[1..]) == if Addressed(frame) then Some((KeyOf(frame), AddressSize(frame))) else None
    ensures Addressed(frame) ==> EncodeAddress(KeyOf(frame)) == AddressBytes(frame)
  {
    if Addressed(frame) {
      AddressEchoed(frame[1..]);
      assert frame[1..][..AddressSize(frame)] == AddressBytes(frame);
    }
  }

  /** The row an address stands for: the one with its instance, or the one without any. */
  predicate Reaches(keys: set<Key>, k: Key, e: Key) {
    e in keys && e.dp == k.dp && (e.inst == k.inst || e.inst == None)
  }

  /** An address resolves to the row it reaches, of which there is at most one. */
  lemma ResolvesReached(keys: set<Key>, k: Key)
    requires UniqueDps(keys)
    ensures forall e :: Resolve(keys, k) == Some(e) <==> Reaches(keys, k, e)
    ensures Resolve(keys, k) == None <==> k !in keys && Key(k.dp, None) !in keys
  {
    forall e | Reaches(keys, k, e)
      ensures Resolve(keys, k) == Some(e)
    {
      assert e == k || e == Key(k.dp, None);
    }
  }

  // ---- the answers ----

  /** What a subscriber of the data point is told. */
  function Told(frames: Frames, keys: set<Key>, dp: nat, told: seq<byte>): Frames {
    if Subscribed(keys, frames, {}, dp) then [told] else []
  }

  /** The frame starts the shower. */
  predicate StartsShower(frame: seq<byte>)
    requires Addressed(frame)
  {
    DpOf(frame) == 563 && Rest(frame) != [] && Rest(frame)[0] == 1
  }

  lemma PlainAddress(frame: seq<byte>)
    requires Addressed(frame)
    ensures EncodeAddress(Key(DpOf(frame), None)) == [frame[1], frame[2] % 128]
    ensures EncodeAddress(Key(564, None)) == [0x34, 0x02]
    ensures KeyOf(frame).dp == DpOf(frame)
  {
  }

  lemma WriteAnswer(b: App, frame: seq<byte>)
    requires UniqueDps(b.store.Keys) && frame != [] && frame[0] == 0x20 && Addressed(frame)
    requires DecodeAddress(frame[1..]) == Some((KeyOf(frame), AddressSize(frame)))
    requires EncodeAddress(KeyOf(frame)) == AddressBytes(frame) && KeyOf(frame).dp == DpOf(frame)
    requires EncodeAddress(Key(DpOf(frame), None)) == [frame[1], frame[2] % 128]
    requires EncodeAddress(Key(564, None)) == [0x34, 0x02]
    ensures DispatchSync(b, frame).1
         == if Resolve(b.store.Keys, KeyOf(frame)) != None then
              Some([[0x21] + AddressBytes(frame)]
                   + (if DpOf(frame) in b.subscribed then [[0x34, frame[1], frame[2] % 128] + Rest(frame)] else [])
                   + if StartsShower(frame) && 564 in b.subscribed then [[0x34, 0x34, 0x02, 5]] else [])
            else Some([[0x22] + AddressBytes(frame) + [0x01]])
  {
    hide DecodeAddress, EncodeAddress, KeyOf, AddressBytes, DpOf, Resolve;
    assert [0x34] + [frame[1], frame[2] % 128] + Rest(frame) == [0x34, frame[1], frame[2] % 128] + Rest(frame);
    assert [0x34] + [0x34, 0x02] + [5] == [0x34, 0x34, 0x02, 5];
  }

  /**
   A write to a row is acknowledged with the frame's own address, then told to a subscriber of its data
   point, without an instance and with the value written, and a shower start to a subscriber of the
   shower status; to nobody else and nothing more.  A write to no row is refused.
   */
  lemma WriteAnswers(a: App, frames: Frames, frame: seq<byte>)
    requires UniqueDps(a.store.Keys) && UniqueDps(Run(a, frames).store.Keys) && a.subscribed == {}
    requires frame != [] && frame[0] == 0x20 && Addressed(frame)
    ensures var keys := a.store.Keys;
            DispatchSync(Run(a, frames), frame).1
            == if KeyOf(frame) in keys || Key(DpOf(frame), None) in keys then
                 Some([[0x21] + AddressBytes(frame)]
                      + Told(frames, keys, DpOf(frame), [0x34, frame[1], frame[2] % 128] + Rest(frame))
                      + if StartsShower(frame) then Told(frames, keys, 564, [0x34, 0x34, 0x02, 5]) else [])
               else Some([[0x22] + AddressBytes(frame) + [0x01]])
  {
    hide Run, Subscribed, UniqueDps;
    var b := Run(a, frames);
    RunKeepsRows(a, frames);
    RunSubscribes(a, frames, DpOf(frame));
    RunSubscribes(a, frames, 564);
    FrameAddress(frame);
    ResolvesReached(a.store.Keys, KeyOf(frame));
    PlainAddress(frame);
    hide DecodeAddress, KeyOf, AddressBytes, Reaches;
    WriteAnswer(b, frame);
  }

  lemma ReadAnswer(b: App, frame: seq<byte>, e: Key)
    requires UniqueDps(b.store.Keys) && frame != [] && frame[0] == 0x10 && Addressed(frame)
    requires DecodeAddress(frame[1..]) == Some((KeyOf(frame), AddressSize(frame)))
    requires EncodeAddress(KeyOf(frame)) == AddressBytes(frame)
    ensures Resolve(b.store.Keys, KeyOf(frame)) == Some(e) && e in b.store ==>
              DispatchSync(b, frame).1 == Some([[0x11] + AddressBytes(frame) + b.store[e].value])
    ensures Resolve(b.store.Keys, KeyOf(frame)) == None ==>
              DispatchSync(b, frame).1 == Some([[0x12] + AddressBytes(frame) + [0x01]])
  {
    hide DecodeAddress, EncodeAddress, KeyOf, AddressBytes, Resolve;
  }

  /** A read of a row is answered with what the last frame that writes it wrote; a read of no row is refused. */
  lemma ReadAnswers(a: App, frames: Frames, frame: seq<byte>)
    requires UniqueDps(a.store.Keys) && UniqueDps(Run(a, frames).store.Keys)
    requires frame != [] && frame[0] == 0x10 && Addressed(frame)
    ensures var keys := a.store.Keys;
            var r := DispatchSync(Run(a, frames), frame).1;
            && (forall e :: Reaches(keys, KeyOf(frame), e) ==>
                  && e in Run(a, frames).store
                  && LastWins(Writes(keys, frames, e), a.store[e].value, Run(a, frames).store[e].value)
                  && r == Some([[0x11] + AddressBytes(frame) + Run(a, frames).store[e].value]))
            && (KeyOf(frame) !in keys && Key(DpOf(frame), None) !in keys ==>
                  r == Some([[0x12] + AddressBytes(frame) + [0x01]]))
  {
    hide Run, Subscribed, UniqueDps, LastWins, Writes;
    var b, k := Run(a, frames), KeyOf(frame);
    RunKeepsRows(a, frames);
    FrameAddress(frame);
    ResolvesReached(a.store.Keys, k);
    hide DecodeAddress, AddressBytes;
    forall e | Reaches(a.store.Keys, k, e)
      ensures e in b.store && LastWins(Writes(a.store.Keys, frames, e), a.store[e].value, b.store[e].value)
      ensures DispatchSync(b, frame).1 == Some([[0x11] + AddressBytes(frame) + b.store[e].value])
    {
      RunAssigns(a, frames, e);
      ReadAnswer(b, frame, e);
    }
    ReadAnswer(b, frame, k);
  }

  /** A subscription is acknowledged if there is a row, and refused if not; taking one back is always acknowledged. */
  lemma NotifyAnswers(a: App, frame: seq<byte>)
    requires UniqueDps(a.store.Keys) && frame != [] && (frame[0] == 0x30 || frame[0] == 0x31) && Addressed(frame)
    ensures DispatchSync(a, frame).1
         == if frame[0] == 0x31 || KeyOf(frame) in a.store || Key(DpOf(frame), None) in a.store then
              Some([[0x32] + AddressBytes(frame)])
            else Some([[0x33] + AddressBytes(frame) + [0x01]])
  {
    FrameAddress(frame);
    ResolvesReached(a.store.Keys, KeyOf(frame));
    hide DecodeAddress, EncodeAddress, AddressBytes, Reaches;
  }

  /** The fixed answers, the silence to anything unknown, and the error of a missing or cut address. */
  lemma OtherAnswers(a: App, frame: seq<byte>)
    requires UniqueDps(a.store.Keys)
    ensures var (b, r) := DispatchSync(a, frame);
            && (frame == [] ==> b == a && r == Some([]))
            && (frame != [] ==>
                  && (frame[0] == 0xFD ==> b == a && r == Some([[0xFE, 0]]))
                  && (frame[0] == 0x50 ==> b == a && r == Some([[0x51, 0, 0]]))
                  && (frame[0] == 0x70 ==> b == a && r == Some([[0x71, 0, 0]]))
                  && (frame[0] !in {0x00, 0x10, 0x20, 0x30, 0x31, 0x50, 0x70, 0xFD} ==> b == a && r == Some([]))
                  && (frame[0] in {0x10, 0x20, 0x30, 0x31} && !Addressed(frame) ==> b == a && r == None))
  {
    if frame != [] {
      FrameAddress(frame);
    }
    hide DecodeAddress, OnInventory;
  }

  // ---- the inventory ----

  /** What the client keeps of one inventory frame. */
  datatype Described = Described(inst: Option<byte>, version: byte, kind: byte, minS: int, maxS: int, behavior: byte)

  /** `<i`: a signed number in four bytes, low byte first. */
  function Signed(s: seq<byte>): int
    requires |s| == 4
  {
    var n := (s[0] as int) + 0x100 * (s[1] as int) + 0x1_0000 * (s[2] as int) + 0x100_0000 * (s[3] as int);
    if n < 0x8000_0000 then n else n - 0x1_0000_0000
  }

  /** The client's reading of one inventory frame; None for a short or foreign one. */
  function ReadDescribed(frame: seq<byte>): Option<(nat, Described)> {
    if !Addressed(frame) || frame[0] != 0x02 || |Rest(frame)| < 11 then None
    else
      var p := Rest(frame);
      Some((DpOf(frame), Described(KeyOf(frame).inst, p[0], p[1], Signed(p[2..6]), Signed(p[6..10]), p[10] % 128)))
  }

  /** The client's loop over the data frames behind the count. */
  function ReadInventory(frames: Frames, count: nat): map<nat, Described> {
    if count == 0 || |frames| < count then map[]
    else
      var before := ReadInventory(frames, count - 1);
      match ReadDescribed(frames[count - 1])
      case None => before
      case Some((dp, d)) => before[dp := d]
  }

  predicate Int32(x: int) {
    -0x8000_0000 <= x < 0x8000_0000
  }

  /** The numbers of every row fit their fields. */
  predicate Fields(store: Store) {
    |store| < 0x1_0000 && forall k :: k in store ==> k.dp < 0x8000 && Int32(store[k].minS) && Int32(store[k].maxS)
  }

  function Row(k: Key, e: Entry): Described {
    Described(k.inst, e.version, e.kind, e.minS, e.maxS, e.behavior % 128)
  }

  lemma FourBytes(n: nat)
    requires n < 0x1_0000_0000
    ensures n % 256 + 0x100 * (n / 256 % 256) + 0x1_0000 * (n / 0x1_0000 % 256) + 0x100_0000 * (n / 0x100_0000 % 256) == n
  {
    var h := n / 0x100;
    var g := h / 0x100;
    assert n == h * 0x100 + n % 0x100 && h == g * 0x100 + h % 0x100 && g == g / 0x100 * 0x100 + g % 0x100;
    assert n / 0x1_0000 == g && n / 0x100_0000 == g / 0x100;
  }

  lemma SignedReadsBack(x: int)
    requires Int32(x)
    ensures |Le32(x)| == 4 && Signed(Le32(x)) == x
  {
    var n: nat := x % 0x1_0000_0000;
    FourBytes(n);
    assert n == if x < 0 then x + 0x1_0000_0000 else x;
  }

  lemma DescribedReadsBack(k: Key, e: Entry)
    requires k.dp < 0x8000 && Int32(e.minS) && Int32(e.maxS)
    ensures ReadDescribed(Describe(k, e)) == Some((k.dp, Row(k, e)))
  {
    hide Le32, Signed;
    SignedReadsBack(e.minS);
    SignedReadsBack(e.maxS);
    var f := Describe(k, e);
    var tail := [e.version, e.kind] + Le32(e.minS) + Le32(e.maxS) + [e.behavior % 128];
    assert f == [INVENTORY_DATA] + EncodeAddress(k) + tail;
    assert Addressed(f) && AddressSize(f) == |EncodeAddress(k)|;
    assert Rest(f) == tail;
    assert tail[2..6] == Le32(e.minS) && tail[6..10] == Le32(e.maxS);
    assert k.dp / 256 * 256 + k.dp % 256 == k.dp;
  }

  lemma {:induction false} DescribedAt(store: Store, order: seq<Key>, i: nat)
    requires (forall j :: 0 <= j < |order| ==> order[j] in store) && i < |order|
    ensures |DescribeAll(store, order)| == |order|
    ensures DescribeAll(store, order)[i] == Describe(order[i], store[order[i]])
  {
    hide Describe;
    if i > 0 {
      DescribedAt(store, order[1..], i - 1);
    } else if |order| > 1 {
      DescribedAt(store, order[1..], 0);
    }
  }

  /** The data points of the first `n` rows. */
  function FirstDps(order: seq<Key>, n: nat): set<nat>
    requires n <= |order|
  {
    if n == 0 then {} else FirstDps(order, n - 1) + {order[n - 1].dp}
  }

  lemma {:induction false} InFirstDps(order: seq<Key>, n: nat, dp: nat)
    requires n <= |order|
    ensures dp in FirstDps(order, n) <==> exists i :: 0 <= i < n && order[i].dp == dp
  {
    if n > 0 {
      InFirstDps(order, n - 1, dp);
    }
  }

  lemma AllDps(order: seq<Key>, keys: set<Key>)
    requires forall k :: k in order <==> k in keys
    ensures FirstDps(order, |order|) == set k | k in keys :: k.dp
  {
    assert forall k :: k in keys ==> exists i :: 0 <= i < |order| && order[i] == k;
    forall dp
      ensures dp in FirstDps(order, |order|) <==> exists k :: k in keys && k.dp == dp
    {
      InFirstDps(order, |order|, dp);
      if i :| 0 <= i < |order| && order[i].dp == dp {
        assert order[i] in keys;
      }
    }
  }

  /** Reading the first `n` data frames gives the first `n` rows. */
  lemma {:induction false} ReadsRows(store: Store, order: seq<Key>, frames: Frames, n: nat)
    requires n <= |order| == |frames| && Ascending(order) && Fields(store)
    requires forall i :: 0 <= i < |order| ==> order[i] in store && frames[i] == Describe(order[i], store[order[i]])
    ensures var m := ReadInventory(frames, n);
            && (forall i :: 0 <= i < n ==> order[i].dp in m && m[order[i].dp] == Row(order[i], store[order[i]]))
            && m.Keys == FirstDps(order, n)
  {
    hide Describe, ReadDescribed, Row;
    if n > 0 {
      ReadsRows(store, order, frames, n - 1);
      var k := order[n - 1];
      DescribedReadsBack(k, store[k]);
    }
  }

  lemma NothingDescribed(store: Store)
    ensures DescribeAll(store, []) == []
  {
  }

  lemma AllDescribed(store: Store, order: seq<Key>)
    requires forall i :: 0 <= i < |order| ==> order[i] in store
    ensures |DescribeAll(store, order)| == |order|
    ensures forall i :: 0 <= i < |order| ==> DescribeAll(store, order)[i] == Describe(order[i], store[order[i]])
  {
    hide Describe;
    if order == [] {
      NothingDescribed(store);
    } else {
      DescribedAt(store, order, 0);
    }
    forall i | 0 <= i < |order|
      ensures DescribeAll(store, order)[i] == Describe(order[i], store[order[i]])
    {
      DescribedAt(store, order, i);
    }
  }

  lemma InventoryFrames(store: Store)
    requires UniqueDps(store.Keys)
    ensures forall i :: 0 <= i < |Sorted(store.Keys)| ==> Sorted(store.Keys)[i] in store
    ensures var r := OnInventory(store);
            && r != [] && r[0] == [0x01, |store| % 256, |store| / 256 % 256]
            && r[1..] == DescribeAll(store, Sorted(store.Keys))
  {
    hide Sorted, DescribeAll;
    SortedIn(store.Keys);
  }

  lemma ByKey(store: Store, order: seq<Key>, m: map<nat, Described>)
    requires forall k :: k in order <==> k in store.Keys
    requires forall i :: 0 <= i < |order| ==>
               order[i] in store && order[i].dp in m && m[order[i].dp] == Row(order[i], store[order[i]])
    ensures forall k :: k in store ==> k.dp in m && m[k.dp] == Row(k, store[k])
  {
    hide Row;
    forall k | k in store
      ensures k.dp in m && m[k.dp] == Row(k, store[k])
    {
      assert k in order;
      var i :| 0 <= i < |order| && order[i] == k;
    }
  }

  lemma SortedCount(store: Store)
    requires UniqueDps(store.Keys)
    ensures |Sorted(store.Keys)| == |store| && Ascending(Sorted(store.Keys))
    ensures forall k :: k in Sorted(store.Keys) <==> k in store.Keys
  {
    hide Sorted, UniqueDps, Ascending;
    SortedKeys(store.Keys);
    assert |store| == |store.Keys|;
  }

  /** The data points of the rows are the ones read, each with its own row's description. */
  ghost predicate HasRows(m: map<nat, Described>, store: Store) {
    && m.Keys == (set k | k in store.Keys :: k.dp)
    && forall k :: k in store ==> k.dp in m && m[k.dp] == Row(k, store[k])
  }

  lemma ReadsStore(store: Store, order: seq<Key>, data: Frames)
    requires Ascending(order) && Fields(store) && |data| == |order| && forall k :: k in order <==> k in store.Keys
    requires forall i :: 0 <= i < |order| ==> order[i] in store
    requires forall i :: 0 <= i < |order| ==> data[i] == Describe(order[i], store[order[i]])
    ensures HasRows(ReadInventory(data, |order|), store)
  {
    hide Describe, ReadInventory, Row, Ascending, Fields, FirstDps;
    ReadsRows(store, order, data, |order|);
    ByKey(store, order, ReadInventory(data, |order|));
    AllDps(order, store.Keys);
  }

  lemma SizeFits(store: Store)
    requires Fields(store)
    ensures |store| / 256 % 256 == |store| / 256
  {
  }

  /** A client that reads as many frames as are counted has the rows, and nothing else. */
  lemma StoreReadsBack(store: Store)
    requires UniqueDps(store.Keys) && Fields(store)
    ensures var r := OnInventory(store);
            && |r| == |store| + 1 && r[0] == [0x01, |store| % 256, |store| / 256]
            && HasRows(ReadInventory(r[1..], |store|), store)
  {
    SizeFits(store);
    hide Sorted, Describe, ReadInventory, OnInventory, DescribeAll, UniqueDps, Fields, Ascending, HasRows;
    SortedCount(store);
    InventoryFrames(store);
    AllDescribed(store, Sorted(store.Keys));
    ReadsStore(store, Sorted(store.Keys), DescribeAll(store, Sorted(store.Keys)));
  }

  lemma InventoryAnswer(b: App, frame: seq<byte>)
    requires UniqueDps(b.store.Keys) && frame != [] && frame[0] == 0x00
    ensures DispatchSync(b, frame).1 == Some(OnInventory(b.store))
  {
    hide OnInventory;
  }

  /**
   The inventory, after any run of commands: the count, then every row.  A client that reads as many
   frames as are counted has version, kind, signed limits and behaviour of exactly the rows.
   */
  lemma InventoryReadsBack(a: App, frames: Frames, frame: seq<byte>)
    requires UniqueDps(a.store.Keys) && Fields(a.store) && UniqueDps(Run(a, frames).store.Keys)
    requires frame != [] && frame[0] == 0x00
    ensures var r := DispatchSync(Run(a, frames), frame).1;
            var n := |a.store|;
            && r.Some? && |r.value| == n + 1 && r.value[0] == [0x01, n % 256, n / 256]
            && HasRows(ReadInventory(r.value[1..], n), a.store)
  {
    hide Run, OnInventory, ReadInventory, HasRows, Fields, UniqueDps, DispatchSync;
    InventoryConstant(a, frames);
    StoreReadsBack(a.store);
    InventoryAnswer(Run(a, frames), frame);
  }

  // ---- what the settings page and a firmware update set ----

  /** The settings page sets exactly the stored settings. */
  lemma SettingTakes(a: App, dp: nat, encoded: Option<seq<byte>>)
    ensures var (b, ok) := Sessions.OnSetting(a, dp, encoded);
            var k := Key(dp, None);
            && (ok <==> encoded.Some? && k in a.store && a.store[k].behavior == 3)
            && (!ok ==> b == a)
            && (ok ==> b == App(a.store[k := a.store[k].(value := encoded.value)], a.subscribed,
                                a.saved[dp := encoded.value]))
  {
  }

  /** A firmware update sets exactly the six firmware components, three of them instances of their data point. */
  lemma FirmwareTakes(a: App, dp: nat, value: seq<byte>)
    ensures var (b, ok) := Sessions.OnFirmware(a, dp, value);
            var k := Key(dp, if dp == 786 then Some(2) else if dp == 785 || dp == 787 then Some(3) else None);
            && (ok <==> dp in {8, 9, 10, 785, 786, 787}) && (!ok ==> b == a)
            && (ok && k in a.store ==> b == App(a.store[k := a.store[k].(value := value)], a.subscribed,
                                                a.saved[dp := value]))
  {
  }

  /** What was set is read over the air, until a frame writes the row again. */
  lemma SetThenRead(a: App, e: Key, value: seq<byte>, saved: map<nat, seq<byte>>, frames: Frames, frame: seq<byte>)
    requires UniqueDps(a.store.Keys) && e in a.store
    requires frame != [] && frame[0] == 0x10 && Addressed(frame) && Reaches(a.store.Keys, KeyOf(frame), e)
    ensures var b := App(a.store[e := a.store[e].(value := value)], a.subscribed, saved);
            && UniqueDps(b.store.Keys) && UniqueDps(Run(b, frames).store.Keys) && e in Run(b, frames).store
            && var x := Run(b, frames).store[e].value;
               && LastWins(Writes(a.store.Keys, frames, e), value, x)
               && DispatchSync(Run(b, frames), frame).1 == Some([[0x11] + AddressBytes(frame) + x])
  {
    hide Run, Writes, LastWins, DispatchSync, AddressBytes, KeyOf;
    var b := App(a.store[e := a.store[e].(value := value)], a.subscribed, saved);
    assert b.store.Keys == a.store.Keys;
    hide UniqueDps;
    RunKeepsRows(b, frames);
    ReadAnswers(b, frames, frame);
  }

  /** A setting made on the settings page is what a client reads, until a frame writes it again. */
  lemma SettingReadsBack(a: App, dp: nat, value: seq<byte>, frames: Frames, frame: seq<byte>)
    requires UniqueDps(a.store.Keys) && Sessions.OnSetting(a, dp, Some(value)).1
    requires frame != [] && frame[0] == 0x10 && Addressed(frame) && DpOf(frame) == dp
    ensures var b := Sessions.OnSetting(a, dp, Some(value)).0;
            var e := Key(dp, None);
            && UniqueDps(b.store.Keys) && UniqueDps(Run(b, frames).store.Keys) && e in Run(b, frames).store
            && var x := Run(b, frames).store[e].value;
               && LastWins(Writes(a.store.Keys, frames, e), value, x)
               && DispatchSync(Run(b, frames), frame).1 == Some([[0x11] + AddressBytes(frame) + x])
  {
    SettingTakes(a, dp, Some(value));
    hide Run, Writes, LastWins, DispatchSync, AddressBytes, Sessions.OnSetting, UniqueDps;
    SetThenRead(a, Key(dp, None), value, a.saved[dp := value], frames, frame);
  }

  /** So is a firmware version, in the same session, through the address of its row. */
  lemma FirmwareReadsBack(a: App, dp: nat, value: seq<byte>, frames: Frames, frame: seq<byte>)
    requires UniqueDps(a.store.Keys) && Sessions.OnFirmware(a, dp, value).1
    requires var e := Key(dp, if dp == 786 then Some(2) else if dp == 785 || dp == 787 then Some(3) else None);
             e in a.store && frame != [] && frame[0] == 0x10 && Addressed(frame) && Reaches(a.store.Keys, KeyOf(frame), e)
    ensures var b := Sessions.OnFirmware(a, dp, value).0;
            var e := Key(dp, if dp == 786 then Some(2) else if dp == 785 || dp == 787 then Some(3) else None);
            && UniqueDps(b.store.Keys) && UniqueDps(Run(b, frames).store.Keys) && e in Run(b, frames).store
            && var x := Run(b, frames).store[e].value;
               && LastWins(Writes(a.store.Keys, frames, e), value, x)
               && DispatchSync(Run(b, frames), frame).1 == Some([[0x11] + AddressBytes(frame) + x])
  {
    FirmwareTakes(a, dp, value);
    hide Run, Writes, LastWins, DispatchSync, AddressBytes, Sessions.OnFirmware, UniqueDps, KeyOf;
    var e := Key(dp, if dp == 786 then Some(2) else if dp == 785 || dp == 787 then Some(3) else None);
    SetThenRead(a, e, value, a.saved[dp := value], frames, frame);
  }

  // ---- the tunnel ----

  /** The answers to these frames one after another, as if each had come alone. */
  ghost function PlainAnswers(a: App, inners: Frames): Frames
    requires UniqueDps(a.store.Keys)
    decreases |inners|
  {
    if inners == [] then []
    else
      DispatchKeepsRows(a, inners[0]);
      var (b, r) := DispatchSync(a, inners[0]);
      match r
      case None => []
      case Some(answers) => answers + PlainAnswers(b, inners[1..])
  }

  /** The tunnel's frames, one for each answer: the header, the length less one, the answer. */
  predicate Wrapped(header: seq<byte>, wrapped: Frames, plain: Frames) {
    && |wrapped| == |plain|
    && forall i :: 0 <= i < |plain| ==>
         1 <= |plain[i]| <= 256 && wrapped[i] == header + [|plain[i]| - 1] + plain[i]
  }

  lemma {:induction false} RewrapWraps(header: seq<byte>, responses: Frames)
    requires Rewrap(header, responses).Some?
    ensures Wrapped(header, Rewrap(header, responses).value, responses)
  {
    if responses != [] {
      RewrapWraps(header, responses[1..]);
      var rest := Rewrap(header, responses[1..]).value;
      var one := header + [|responses[0]| - 1] + responses[0];
      assert Rewrap(header, responses).value == [one] + rest;
      assert forall i :: 0 < i < |responses| ==> responses[i] == responses[1..][i - 1];
    }
  }

  lemma WrappedConcat(header: seq<byte>, a: Frames, b: Frames, x: Frames, y: Frames)
    requires Wrapped(header, a, x) && Wrapped(header, b, y)
    ensures Wrapped(header, a + b, x + y)
  {
  }

  lemma NothingWrappedUp(header: seq<byte>)
    ensures Wrapped(header, [], [])
  {
  }

  lemma {:induction false} SequentialAnswers(a: App, header: seq<byte>, inners: Frames)
    requires UniqueDps(a.store.Keys) && Sequential(a, header, inners).1.Some?
    ensures Wrapped(header, Sequential(a, header, inners).1.value, PlainAnswers(a, inners))
    decreases |inners|
  {
    hide DispatchSync, Rewrap, Wrapped;
    if inners == [] {
      NothingWrappedUp(header);
    } else {
      DispatchKeepsRows(a, inners[0]);
      var (b, r) := DispatchSync(a, inners[0]);
      SequentialAnswers(b, header, inners[1..]);
      RewrapWraps(header, r.value);
      WrappedConcat(header, Rewrap(header, r.value).value, Sequential(b, header, inners[1..]).1.value,
                    r.value, PlainAnswers(b, inners[1..]));
    }
  }

  /** A tunnel frame that does not fail is answered by the answers to its inner frames, each wrapped by itself. */
  lemma TunnelAnswers(a: App, frame: seq<byte>)
    requires UniqueDps(a.store.Keys) && |frame| >= 7 && frame[0] == 0xD0 && Dispatch(a, frame).1.Some?
    ensures Wrapped(frame[..7], Dispatch(a, frame).1.value, PlainAnswers(a, Unwrap(frame[7..])))
  {
    TunnelIsSequential(a, frame);
    SequentialAnswers(a, frame[..7], Unwrap(frame[7..]));
    hide Dispatch, Sequential, PlainAnswers, Wrapped;
  }
}
