/**
 The state file the mock devices share: one row per device type, device key and state key.
 `load_all` gives a device its own rows; nothing a device does reaches the rows of another one.

 A value is whatever the device stores; its text form (JSON and hexadecimal) is not modelled.
 */
module Persistence {
  datatype Device = Device(kind: string, key: string)

  /** The rows of one device. */
  ghost function RowsOf<K, V>(table: map<(Device, K), V>, d: Device): map<K, V> {
    map r | r in table.Keys && r.0 == d :: r.1 := table[r]
  }

  class StateFile<K(==), V> {
    var table: map<(Device, K), V>

    constructor ()
      ensures table == map[]
    {
      table := map[];
    }

    /** Inserts or replaces one row. */
    method Save(d: Device, key: K, value: V)
      modifies this
      ensures RowsOf(table, d) == RowsOf(old(table), d)[key := value]
      ensures forall e :: e != d ==> RowsOf(table, e) == RowsOf(old(table), e)
    {
      table := table[(d, key) := value];
    }

    method LoadAll(d: Device) returns (rows: map<K, V>)
      ensures rows == RowsOf(table, d)
    {
      rows := map r | r in table.Keys && r.0 == d :: r.1 := table[r];
    }

    /** Deletes every row of one device. */
    method Reset(d: Device)
      modifies this
      ensures RowsOf(table, d) == map[]
      ensures forall e :: e != d ==> RowsOf(table, e) == RowsOf(old(table), e)
    {
      table := map r | r in table.Keys && r.0 != d :: table[r];
    }
  }

  // ---- what the rows of a device are after a history of calls ----

  datatype Change<K, V> = Saved(d: Device, key: K, value: V) | WasReset(d: Device)

  function Replay<K(==), V>(table: map<(Device, K), V>, history: seq<Change<K, V>>): map<(Device, K), V>
    decreases |history|
  {
    if history == [] then table
    else
      var next := match history[0]
                  case Saved(d, key, value) => table[(d, key) := value]
                  case WasReset(d) => map r | r in table.Keys && r.0 != d :: table[r];
      Replay(next, history[1..])
  }

  /** The part of a history that concerns one device. */
  function OwnHistory<K, V>(history: seq<Change<K, V>>, d: Device): seq<Change<K, V>> {
    if history == [] then []
    else (if history[0].d == d then [history[0]] else []) + OwnHistory(history[1..], d)
  }

  lemma ReplayStep<K, V>(table: map<(Device, K), V>, history: seq<Change<K, V>>)
    requires history != []
    ensures Replay(table, history) == Replay(Replay(table, [history[0]]), history[1..])
  {
    assert [history[0]][1..] == [];
  }

  lemma SameChange<K, V>(a: map<(Device, K), V>, b: map<(Device, K), V>, h: Change<K, V>)
    requires RowsOf(a, h.d) == RowsOf(b, h.d)
    ensures RowsOf(Replay(a, [h]), h.d) == RowsOf(Replay(b, [h]), h.d)
  {
    var d := h.d;
    assert [h][1..] == [];
    forall k
      ensures (d, k) in Replay(a, [h]) <==> (d, k) in Replay(b, [h])
      ensures (d, k) in Replay(a, [h]) ==> Replay(a, [h])[(d, k)] == Replay(b, [h])[(d, k)]
    {
      assert k in RowsOf(a, d) <==> k in RowsOf(b, d);
      assert k in RowsOf(a, d) ==> RowsOf(a, d)[k] == RowsOf(b, d)[k];
    }
  }

  lemma ForeignChange<K, V>(a: map<(Device, K), V>, h: Change<K, V>, d: Device)
    requires h.d != d
    ensures RowsOf(Replay(a, [h]), d) == RowsOf(a, d)
  {
    assert [h][1..] == [];
  }

  /** A device finds what its own history wrote, whatever the other devices did in between. */
  lemma {:induction false} DevicesIsolated<K, V>(a: map<(Device, K), V>, b: map<(Device, K), V>,
                                                              history: seq<Change<K, V>>, d: Device)
    requires RowsOf(a, d) == RowsOf(b, d)
    ensures RowsOf(Replay(a, history), d) == RowsOf(Replay(b, OwnHistory(history, d)), d)
    decreases |history|
  {
    if history != [] {
      var h := history[0];
      var a2 := Replay(a, [h]);
      assert Replay(a, history) == Replay(a2, history[1..]) by { ReplayStep(a, history); }
      if h.d == d {
        var own := OwnHistory(history[1..], d);
        assert OwnHistory(history, d) == [h] + own;
        ReplayStep(b, [h] + own);
        assert ([h] + own)[1..] == own;
        SameChange(a, b, h);
        DevicesIsolated(a2, Replay(b, [h]), history[1..], d);
      } else {
        assert OwnHistory(history, d) == OwnHistory(history[1..], d);
        ForeignChange(a, h, d);
        DevicesIsolated(a2, b, history[1..], d);
      }
    }
  }
}
