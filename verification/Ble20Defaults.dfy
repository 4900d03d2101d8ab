/**
 The data points an Alba device starts from, and what its restart logic relies on about them.
 */
module Ble20Defaults {
  import opened Bytes
  import opened Ble20

  /** A row of the table: instance, version, data type, limits, behaviour and initial value. */
  datatype Row = Row(inst: Option<byte>, version: byte, kind: byte, minS: int, maxS: int, behavior: byte, value: seq<byte>)

  function Ascii(s: string): seq<byte> {
    seq(|s|, i requires 0 <= i < |s| => if s[i] as int < 256 then s[i] as int else 63)
  }

  /** The table: each data point has one row, with or without an instance. */
  function DefaultRow(dp: nat): Option<Row> {
    match dp
    case 0 => Some(Row(None, 0, 9, 0, 255, 0, Le32(250)))
    case 1 => Some(Row(None, 0, 9, 0, 255, 0, Le32(0)))
    case 2 => Some(Row(None, 0, 9, 0, 9999999, 4, Le32(35225)))
    case 3 => Some(Row(None, 0, 13, 0, 0, 4, Le32(1757175271)))
    case 4 => Some(Row(None, 0, 8, 0, 12, 4, Ascii("828.860.00.X")))
    case 8 => Some(Row(None, 0, 8, 2, 2, 0, Le32(3)))
    case 9 => Some(Row(None, 0, 9, 0, 65535, 0, Le32(89)))
    case 10 => Some(Row(None, 0, 8, 2, 2, 4, Ascii("00")))
    case 12 => Some(Row(None, 0, 8, 0, 4, 4, Ascii("0000")))
    case 13 => Some(Row(None, 0, 8, 0, 6, 3, []))
    case 14 => Some(Row(None, 0, 9, 0, 0, 3, Le32(0)))
    case 15 => Some(Row(None, 0, 13, 0, 0, 1, Le32(947286443)))
    case 16 => Some(Row(None, 0, 8, 0, 6, 4, Ascii("AcAlba")))
    case 62 => Some(Row(None, 1, 10, 0, 4, 2, [0]))
    case 83 => Some(Row(None, 1, 10, 0, 1, 2, [0]))
    case 93 => Some(Row(None, 1, 1, 4, 4, 1, [0, 0, 0, 0]))
    case 148 => Some(Row(None, 0, 3, 0, 0, 1, Le32(601643)))
    case 149 => Some(Row(None, 0, 3, 0, 0, 1, Le32(492999)))
    case 153 => Some(Row(None, 0, 0, 0, 0, 2, []))
    case 236 => Some(Row(None, 0, 9, 0, 0, 0, Le32(0x02134CD1)))
    case 270 => Some(Row(None, 0, 13, 946684800, -192608896, 2, Le32(947286443)))
    case 313 => Some(Row(None, 0, 8, 0, 20, 4, Ascii("245.832.00.X")))
    case 337 => Some(Row(None, 0, 9, 0, 255, 0, Le32(0)))
    case 369 => Some(Row(None, 0, 8, 0, 20, 4, Ascii("SB0000EU000000")))
    case 370 => Some(Row(None, 0, 13, 0, 0, 4, Le32(1774187093)))
    case 371 => Some(Row(None, 0, 8, 0, 12, 4, Ascii("146.350.01.x")))
    case 431 => Some(Row(None, 0, 3, 0, 0, 4, Le32(0)))
    case 563 => Some(Row(None, 0, 10, 0, 1, 2, [0]))
    case 564 => Some(Row(None, 0, 10, 0, 7, 1, [1]))
    case 566 => Some(Row(None, 0, 10, 0, 1, 2, [0]))
    case 567 => Some(Row(None, 0, 10, 0, 5, 1, [2]))
    case 569 => Some(Row(None, 0, 10, 0, 0, 2, [0]))
    case 570 => Some(Row(None, 0, 10, 0, 4, 2, [0]))
    case 571 => Some(Row(None, 0, 10, 0, 4, 1, [4]))
    case 572 => Some(Row(None, 0, 10, 0, 4, 2, [0]))
    case 573 => Some(Row(None, 0, 10, 0, 4, 1, [4]))
    case 574 => Some(Row(None, 0, 10, 0, 5, 2, [0]))
    case 575 => Some(Row(None, 0, 10, 0, 5, 1, [5]))
    case 576 => Some(Row(None, 0, 11, 0, 1, 2, [0]))
    case 577 => Some(Row(None, 0, 11, 0, 1, 1, [0]))
    case 580 => Some(Row(None, 0, 10, 0, 4, 3, [4]))
    case 581 => Some(Row(None, 0, 10, 0, 4, 3, [4]))
    case 582 => Some(Row(None, 0, 10, 0, 5, 3, [5]))
    case 583 => Some(Row(None, 0, 11, 0, 1, 3, [0]))
    case 584 => Some(Row(None, 0, 10, 0, 1, 2, [0]))
    case 585 => Some(Row(None, 0, 10, 0, 4, 1, [2]))
    case 588 => Some(Row(None, 0, 9, 0, 0, 3, Le32(1)))
    case 589 => Some(Row(None, 0, 9, 0, 0, 1, Le32(168)))
    case 590 => Some(Row(None, 0, 13, 0, 0, 3, Le32(0)))
    case 591 => Some(Row(None, 0, 13, 0, 0, 3, Le32(0)))
    case 592 => Some(Row(None, 0, 9, 0, 0, 3, Le32(0)))
    case 607 => Some(Row(None, 0, 10, 0, 1, 1, [0]))
    case 711 => Some(Row(None, 0, 9, 0, 0, 1, Le32(340)))
    case 764 => Some(Row(None, 0, 1, 4, 4, 1, [0, 0, 0, 0]))
    case 765 => Some(Row(None, 0, 1, 4, 4, 1, [0, 0, 0, 0]))
    case 766 => Some(Row(None, 0, 1, 4, 4, 1, [0, 0, 0, 0]))
    case 781 => Some(Row(None, 0, 9, 0, 0, 3, Le32(33600)))
    case 789 => Some(Row(None, 0, 1, 4, 4, 1, [0, 0, 0, 0]))
    case 790 => Some(Row(None, 0, 1, 4, 4, 1, [0, 0, 0, 0]))
    case 795 => Some(Row(None, 0, 11, 0, 1, 3, [0]))
    case 796 => Some(Row(None, 0, 10, 0, 2, 3, [0]))
    case 802 => Some(Row(None, 0, 0, 0, 0, 2, []))
    case 803 => Some(Row(None, 0, 11, 0, 1, 4, [0]))
    case 810 => Some(Row(None, 0, 11, 0, 1, 1, [0]))
    case 820 => Some(Row(None, 0, 1, 4, 4, 1, [0, 0, 0, 0]))
    case 977 => Some(Row(None, 0, 9, 0, 0, 3, Le32(14)))
    case 978 => Some(Row(None, 0, 0, 0, 0, 2, []))
    case 979 => Some(Row(None, 0, 9, 0, 0, 3, Le32(0)))
    case 982 => Some(Row(None, 0, 1, 4, 4, 0, [0, 0, 0, 0]))
    case 983 => Some(Row(None, 0, 11, 0, 1, 1, [0]))
    case 786 => Some(Row(Some(2), 0, 9, 0, 0, 0, Le32(0)))
    case 785 => Some(Row(Some(3), 0, 9, 0, 0, 0, Le32(0)))
    case 787 => Some(Row(Some(3), 0, 9, 0, 0, 0, Le32(0)))
    case 565 => Some(Row(Some(4), 0, 2, 0, 0, 1, [0, 0, 0, 0]))
    case 568 => Some(Row(Some(4), 0, 2, 0, 0, 1, [0, 0, 0, 0]))
    case 586 => Some(Row(Some(4), 0, 2, 0, 0, 1, [0, 0, 0, 0]))
    case 405 => Some(Row(Some(31), 1, 9, 0, 999999999, 1, Le32(0)))
    case 688 => Some(Row(Some(31), 1, 9, 0, 999999999, 1, Le32(0)))
    case 689 => Some(Row(Some(31), 1, 9, 0, 999999999, 1, Le32(0)))
    case _ => None
  }

  const TABLE_END := 984

  function DefaultKeys(): set<Key> {
    set dp | 0 <= dp < TABLE_END && DefaultRow(dp).Some? :: Key(dp, DefaultRow(dp).value.inst)
  }

  function DefaultStore(): Store {
    map k | k in DefaultKeys() :: var r := DefaultRow(k.dp).value;
      Entry(r.version, r.kind, r.minS, r.maxS, r.behavior, r.value)
  }

  const IDENTITY_DPS: seq<nat> := [12, 369]
  const FIRMWARE_DPS: seq<nat> := [8, 9, 10, 786, 785, 787]

  function FirmwareKey(dp: nat): Key {
    Key(dp, if dp == 786 then Some(2) else if dp == 785 || dp == 787 then Some(3) else None)
  }

  /** What the constructor and the settings page rely on. */
  predicate WellFormed(store: Store) {
    && UniqueDps(store.Keys)
    && (forall k :: k in store && store[k].behavior == NVM ==> k.inst == None)
    && (forall i :: 0 <= i < |IDENTITY_DPS| ==>
          Key(IDENTITY_DPS[i], None) in store && store[Key(IDENTITY_DPS[i], None)].behavior != NVM)
    && (forall k :: k in store && k.dp in FIRMWARE_DPS ==> store[k].behavior != NVM)
    && (forall i :: 0 <= i < |FIRMWARE_DPS| ==> FirmwareKey(FIRMWARE_DPS[i]) in store)
    && Key(SHOWER_STATUS, None) in store && store[Key(SHOWER_STATUS, None)].behavior != NVM
  }

  /** A stored setting has no instance and is neither identity, firmware nor the shower status. */
  lemma NvmRows(dp: nat)
    requires DefaultRow(dp).Some? && DefaultRow(dp).value.behavior == NVM
    ensures DefaultRow(dp).value.inst == None
    ensures dp != 12 && dp != 369 && dp != 564 && dp != 8 && dp != 9 && dp != 10 && dp != 785 && dp != 786 && dp != 787
  {
  }

  lemma SpecialRow(dp: nat)
    requires dp == 12 || dp == 369 || dp == 564 || dp == 8 || dp == 9 || dp == 10 || dp == 785 || dp == 786 || dp == 787
    ensures DefaultRow(dp).Some? && DefaultRow(dp).value.inst == FirmwareKey(dp).inst
  {
  }

  lemma InStore(dp: nat)
    requires dp < TABLE_END && DefaultRow(dp).Some?
    ensures Key(dp, DefaultRow(dp).value.inst) in DefaultStore()
    ensures DefaultStore()[Key(dp, DefaultRow(dp).value.inst)].behavior == DefaultRow(dp).value.behavior
  {
    hide DefaultRow;
  }

  lemma DefaultsWellFormed()
    ensures WellFormed(DefaultStore())
  {
    hide DefaultRow;
    forall dp: nat | DefaultRow(dp).Some? && DefaultRow(dp).value.behavior == NVM
      ensures DefaultRow(dp).value.inst == None && dp !in FIRMWARE_DPS && dp !in IDENTITY_DPS && dp != SHOWER_STATUS
    {
      NvmRows(dp);
    }
    SpecialRow(12);
    InStore(12);
    SpecialRow(369);
    InStore(369);
    SpecialRow(564);
    InStore(564);
    forall dp | dp in FIRMWARE_DPS
      ensures FirmwareKey(dp) in DefaultStore()
    {
      SpecialRow(dp);
      InStore(dp);
    }
  }
}
