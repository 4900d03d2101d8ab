/**
 Collecting the frames of one message in whatever order they arrive.

 Frames that arrive before the transaction has started are buffered and replayed when it starts.
 The object is shown to take the steps of `Start` and `Add`; the theorems are about runs of those.
 */
module Reassembly {
  import opened Bytes

  const MAX_INDEX := 64

  datatype Pending = Pending(index: nat, payload: seq<byte>)

  datatype Collector = Collector(
    frames: map<nat, seq<byte>>,
    bitmap: set<nat>,
    expected: nat,
    active: bool,
    temp: seq<Pending>)

  /** What one call gives to the outside: an error, a bitmap to be sent, a message. */
  datatype Outcome = Quiet | Raised | Report(bits: set<nat>) | Complete(bits: set<nat>, data: seq<byte>)

  function Empty(): Collector {
    Collector(map[], {}, 0, false, [])
  }

  // ---- the buffer, a dictionary in insertion order ----

  function Put(temp: seq<Pending>, index: nat, payload: seq<byte>): seq<Pending> {
    if temp == [] then [Pending(index, payload)]
    else if temp[0].index == index then [Pending(index, payload)] + temp[1..]
    else [temp[0]] + Put(temp[1..], index, payload)
  }

  // ---- one call ----

  /** The payloads of frames 0 to n-1, if all are there. */
  function Assemble(frames: map<nat, seq<byte>>, n: nat): Option<seq<byte>> {
    if n == 0 then Some([])
    else
      match Assemble(frames, n - 1)
      case None => None
      case Some(d) => if n - 1 in frames then Some(d + frames[n - 1]) else None
  }

  function Add(c: Collector, index: nat, payload: seq<byte>): (Collector, Outcome) {
    if !c.active then (c.(temp := Put(c.temp, index, payload)), Quiet)
    else
      var frames := c.frames[index := payload];
      if index >= MAX_INDEX then (c.(frames := frames), Raised)
      else
        var d := c.(frames := frames, bitmap := c.bitmap + {index});
        if |frames| != c.expected then (d, if |frames| % 4 == 0 then Report(d.bitmap) else Quiet)
        else
          match Assemble(frames, c.expected)
          case None => (d, Raised)
          case Some(data) => (d.(active := false, temp := []), Complete(d.bitmap, data))
  }

  /** Replays buffered frames; an error ends the replay. */
  function Replay(c: Collector, pending: seq<Pending>): (Collector, seq<Outcome>)
    decreases |pending|
  {
    if pending == [] then (c, [])
    else
      var (d, o) := Add(c, pending[0].index, pending[0].payload);
      if o.Raised? then (d, [o])
      else
        var (e, more) := Replay(d, pending[1..]);
        (e, [o] + more)
  }

  function Start(c: Collector, expected: nat): (Collector, seq<Outcome>) {
    Replay(Collector(map[], {}, expected, true, []), c.temp)
  }

  // ---- arrivals ----

  datatype Arrival = First(count: nat, payload: seq<byte>) | Cons(index: nat, payload: seq<byte>)

  /** What the frame service does with one frame. */
  function Arrive(c: Collector, a: Arrival): (Collector, seq<Outcome>) {
    match a
    case Cons(index, payload) =>
      var (d, o) := Add(c, index, payload);
      (d, [o])
    case First(count, payload) =>
      var (d, outs) := Start(c, count);
      if Raised in outs then (d, outs)
      else
        var (e, o) := Add(d, 0, payload);
        (e, outs + [o])
  }

  function ArriveAll(c: Collector, arrivals: seq<Arrival>): (Collector, seq<Outcome>)
    decreases |arrivals|
  {
    if arrivals == [] then (c, [])
    else
      var (d, o) := Arrive(c, arrivals[0]);
      var (e, more) := ArriveAll(d, arrivals[1..]);
      (e, o + more)
  }

  /** The messages among the outcomes. */
  function Messages(outs: seq<Outcome>): seq<seq<byte>> {
    if outs == [] then []
    else (if outs[0].Complete? then [outs[0].data] else []) + Messages(outs[1..])
  }

  lemma {:induction false} MessagesConcat(a: seq<Outcome>, b: seq<Outcome>)
    ensures Messages(a + b) == Messages(a) + Messages(b)
  {
    if a == [] {
      assert a + b == b;
    } else {
      assert (a + b)[1..] == a[1..] + b;
      MessagesConcat(a[1..], b);
    }
  }

  lemma MessagesOne(o: Outcome)
    ensures Messages([o]) == if o.Complete? then [o.data] else []
  {
    assert Messages([o]) == (if o.Complete? then [o.data] else []) + Messages([]);
  }

  // ---- indices ----

  function Range(n: nat): (r: set<nat>)
    ensures forall i: nat :: i in r <==> i < n
  {
    if n == 0 then {} else Range(n - 1) + {n - 1}
  }

  lemma {:induction false} RangeSize(n: nat)
    ensures |Range(n)| == n
  {
    if n > 0 {
      RangeSize(n - 1);
      assert Range(n) == Range(n - 1) + {n - 1};
    }
  }

  lemma {:induction false} SubsetSize<T>(a: set<T>, b: set<T>)
    requires a <= b
    ensures |a| <= |b| && (|a| == |b| ==> a == b)
  {
    if a != {} {
      var x :| x in a;
      SubsetSize(a - {x}, b - {x});
      if |a| == |b| {
        assert a == (a - {x}) + {x} && b == (b - {x}) + {x};
      }
    }
  }

  /** The message is complete exactly when every index has been seen. */
  lemma AllSeen(seen: set<nat>, n: nat)
    requires seen <= Range(n)
    ensures |seen| <= n && (|seen| == n <==> seen == Range(n))
  {
    RangeSize(n);
    SubsetSize(seen, Range(n));
  }

  lemma InRange(i: nat, n: nat)
    ensures i in Range(n) <==> i < n
  {
  }

  // ---- the buffer as a dictionary ----

  predicate Distinct(temp: seq<Pending>) {
    forall i, j :: 0 <= i < j < |temp| ==> temp[i].index != temp[j].index
  }

  function Buffered(temp: seq<Pending>): map<nat, seq<byte>> {
    if temp == [] then map[] else Buffered(temp[1..])[temp[0].index := temp[0].payload]
  }

  lemma {:induction false} BufferedKeys(temp: seq<Pending>)
    ensures forall i :: 0 <= i < |temp| ==> temp[i].index in Buffered(temp)
  {
    if temp != [] {
      BufferedKeys(temp[1..]);
    }
  }

  lemma {:induction false} BufferedAt(temp: seq<Pending>, x: nat) returns (i: nat)
    requires x in Buffered(temp)
    ensures i < |temp| && temp[i].index == x
  {
    if temp[0].index == x {
      i := 0;
    } else {
      i := BufferedAt(temp[1..], x);
      i := i + 1;
    }
  }

  /** A head whose index does not come again. */
  lemma DistinctHead(temp: seq<Pending>)
    requires temp != []
    ensures Distinct(temp) <==> Distinct(temp[1..]) && temp[0].index !in Buffered(temp[1..])
  {
    var rest := temp[1..];
    BufferedKeys(rest);
    assert forall i :: 0 <= i < |rest| ==> rest[i] == temp[i + 1];
    if temp[0].index in Buffered(rest) {
      var i := BufferedAt(rest, temp[0].index);
      assert temp[i + 1].index == temp[0].index;
    } else if Distinct(rest) {
      forall i, j | 0 <= i < j < |temp|
        ensures temp[i].index != temp[j].index
      {
        assert temp[j] == rest[j - 1] && (i > 0 ==> temp[i] == rest[i - 1]);
      }
    }
  }

  lemma OneDistinct(t: seq<Pending>)
    requires |t| <= 1
    ensures Distinct(t) && (|t| == 1 ==> t[1..] == [])
  {
  }

  lemma {:induction false} PutBuffers(temp: seq<Pending>, i: nat, x: seq<byte>)
    requires Distinct(temp)
    ensures Distinct(Put(temp, i, x)) && Buffered(Put(temp, i, x)) == Buffered(temp)[i := x] && Put(temp, i, x) != []
  {
    hide Distinct;
    var t := Put(temp, i, x);
    DistinctHead(t);
    if temp == [] {
      OneDistinct(t);
    } else {
      DistinctHead(temp);
      if temp[0].index != i {
        PutBuffers(temp[1..], i, x);
      }
    }
  }

  // ---- the states one message goes through ----

  /** A transaction of `n` frames is running and holds these payloads. */
  predicate Running(c: Collector, n: nat, m: map<nat, seq<byte>>) {
    c.active && c.expected == n && c.temp == [] && c.frames == m && c.bitmap == m.Keys
  }

  /** No transaction is running; these payloads are buffered. */
  predicate Idle(c: Collector, m: map<nat, seq<byte>>) {
    !c.active && Distinct(c.temp) && Buffered(c.temp) == m
  }

  predicate Clean(c: Collector) {
    !c.active && c.temp == []
  }

  lemma CleanIsIdle(c: Collector)
    ensures Clean(c) ==> Idle(c, map[])
  {
  }

  /** The payloads of frames 0 to n-1, in order. */
  function InOrder(n: nat, m: map<nat, seq<byte>>): (p: seq<seq<byte>>)
    requires Range(n) <= m.Keys
    ensures |p| == n
  {
    seq(n, i requires 0 <= i < n => m[i])
  }

  lemma {:induction false} AssembleAll(m: map<nat, seq<byte>>, p: seq<seq<byte>>, n: nat)
    requires n <= |p| && forall i :: 0 <= i < n ==> i in m && m[i] == p[i]
    ensures Assemble(m, n) == Some(Flatten(p[..n]))
  {
    if n > 0 {
      AssembleAll(m, p, n - 1);
      assert p[..n] == p[..n - 1] + [p[n - 1]];
      FlattenSnoc(p[..n - 1], p[n - 1]);
    }
  }

  lemma AssembleInOrder(m: map<nat, seq<byte>>, n: nat)
    requires m.Keys == Range(n)
    ensures Assemble(m, n) == Some(Flatten(InOrder(n, m)))
  {
    AssembleAll(m, InOrder(n, m), n);
    assert InOrder(n, m)[..n] == InOrder(n, m);
  }

  lemma {:induction false} AssembleStops(frames: map<nat, seq<byte>>, i: nat, n: nat)
    requires i < n && i !in frames
    ensures Assemble(frames, n) == None
    decreases n - i
  {
    if i < n - 1 {
      AssembleStops(frames, i, n - 1);
    }
  }

  /** One more frame of a running transaction, whatever it holds already. */
  lemma AddRuns(c: Collector, n: nat, m: map<nat, seq<byte>>, i: nat, x: seq<byte>)
    requires Running(c, n, m) && m.Keys <= Range(n) && i < n <= MAX_INDEX
    ensures var (d, o) := Add(c, i, x);
            var now := m[i := x];
            now.Keys <= Range(n)
            && if now.Keys == Range(n) then o == Complete(now.Keys, Flatten(InOrder(n, now))) && Clean(d)
               else Running(d, n, now) && o == (if |now.Keys| % 4 == 0 then Report(now.Keys) else Quiet)
  {
    hide Assemble, Flatten, Range, InOrder;
    var now := m[i := x];
    InRange(i, n);
    AllSeen(now.Keys, n);
    assert now.Keys == m.Keys + {i};
    assert |now| == |now.Keys|;
    if now.Keys == Range(n) {
      AssembleInOrder(now, n);
    }
  }

  lemma MergeHead(m: map<nat, seq<byte>>, i: nat, x: seq<byte>, rest: map<nat, seq<byte>>)
    requires i !in rest
    ensures m[i := x] + rest == m + rest[i := x]
  {
  }

  /** Replaying buffered frames without the first one loses none and completes nothing. */
  lemma {:induction false} ReplayRuns(c: Collector, n: nat, m: map<nat, seq<byte>>, pending: seq<Pending>)
    requires Running(c, n, m) && 0 < n <= MAX_INDEX && Distinct(pending)
    requires m.Keys <= Range(n) && Buffered(pending).Keys <= Range(n) && 0 !in m && 0 !in Buffered(pending)
    ensures var (d, outs) := Replay(c, pending);
            Running(d, n, m + Buffered(pending)) && Raised !in outs && Messages(outs) == []
    decreases |pending|
  {
    hide Running, Distinct, InOrder;
    InRange(0, n);
    hide Range;
    if pending == [] {
      assert m + map[] == m;
    } else {
      var i, x, rest := pending[0].index, pending[0].payload, pending[1..];
      InRange(i, n);
      DistinctHead(pending);
      AddRuns(c, n, m, i, x);
      var (d, o) := Add(c, i, x);
      hide Add;
      assert 0 !in m[i := x];
      ReplayRuns(d, n, m[i := x], rest);
      var (e, more) := Replay(d, rest);
      MergeHead(m, i, x, Buffered(rest));
      MessagesConcat([o], more);
      MessagesOne(o);
    }
  }

  /** The first frame starts the transaction with everything that was buffered, foreign or not. */
  lemma FirstStarts(c: Collector, n: nat, m: map<nat, seq<byte>>, x: seq<byte>)
    requires Idle(c, m) && 0 < n <= MAX_INDEX && m.Keys <= Range(n) && 0 !in m
    ensures var (d, outs) := Arrive(c, First(n, x));
            var now := m[0 := x];
            now.Keys <= Range(n)
            && if now.Keys == Range(n) then Messages(outs) == [Flatten(InOrder(n, now))] && Clean(d)
               else Messages(outs) == [] && Running(d, n, now)
  {
    hide Flatten, InOrder;
    var s := Collector(map[], {}, n, true, []);
    assert Running(s, n, map[]);
    ReplayRuns(s, n, map[], c.temp);
    var (d, outs) := Start(c, n);
    assert map[] + Buffered(c.temp) == m;
    hide Running, Start;
    AddRuns(d, n, m, 0, x);
    var (e, o) := Add(d, 0, x);
    hide Add;
    MessagesConcat(outs, [o]);
    MessagesOne(o);
  }

  lemma BufferOne(c: Collector, m: map<nat, seq<byte>>, i: nat, x: seq<byte>)
    requires Idle(c, m)
    ensures var (d, o) := Add(c, i, x); Idle(d, m[i := x]) && o == Quiet
  {
    PutBuffers(c.temp, i, x);
  }

  // ---- one message, in any order, with duplicates ----

  /** A frame of the message with payloads `p`. */
  predicate Belongs(a: Arrival, p: seq<seq<byte>>) {
    match a
    case First(count, payload) => count == |p| && p != [] && payload == p[0]
    case Cons(index, payload) => 0 < index < |p| && payload == p[index]
  }

  predicate AllBelong(arrivals: seq<Arrival>, p: seq<seq<byte>>) {
    forall i :: 0 <= i < |arrivals| ==> Belongs(arrivals[i], p)
  }

  function Firsts(arrivals: seq<Arrival>): nat {
    if arrivals == [] then 0 else (if arrivals[0].First? then 1 else 0) + Firsts(arrivals[1..])
  }

  function Index(a: Arrival): nat {
    if a.First? then 0 else a.index
  }

  function Arrived(arrivals: seq<Arrival>): set<nat> {
    if arrivals == [] then {} else {Index(arrivals[0])} + Arrived(arrivals[1..])
  }

  lemma {:induction false} ArrivedConcat(a: seq<Arrival>, b: seq<Arrival>)
    ensures Arrived(a + b) == Arrived(a) + Arrived(b)
  {
    if a == [] {
      assert a + b == b;
    } else {
      assert (a + b)[1..] == a[1..] + b;
      ArrivedConcat(a[1..], b);
    }
  }

  lemma {:induction false} IndicesBelong(arrivals: seq<Arrival>, p: seq<seq<byte>>)
    requires AllBelong(arrivals, p)
    ensures Arrived(arrivals) <= Range(|p|)
  {
    if arrivals != [] {
      assert Belongs(arrivals[0], p);
      IndicesBelong(arrivals[1..], p);
    }
  }

  lemma PutSomething(temp: seq<Pending>, i: nat, x: seq<byte>)
    ensures Put(temp, i, x) != []
  {
  }

  /** Once no transaction is running, late frames produce no message, and stay buffered. */
  lemma {:induction false} LateFramesQuiet(c: Collector, arrivals: seq<Arrival>)
    requires !c.active && Firsts(arrivals) == 0
    ensures var (d, outs) := ArriveAll(c, arrivals);
            && Messages(outs) == [] && !d.active
            && (d.temp == [] <==> c.temp == [] && arrivals == [])
    decreases |arrivals|
  {
    if arrivals != [] {
      var (d, o) := Arrive(c, arrivals[0]);
      PutSomething(c.temp, arrivals[0].index, arrivals[0].payload);
      LateFramesQuiet(d, arrivals[1..]);
      var (e, more) := ArriveAll(d, arrivals[1..]);
      MessagesConcat(o, more);
      MessagesOne(Quiet);
    }
  }

  /** How many arrivals it takes until, with these frames held already, every index is there. */
  function CompletesAt(held: set<nat>, n: nat, arrivals: seq<Arrival>): (t: nat)
    ensures t <= |arrivals|
    decreases |arrivals|
  {
    if held == Range(n) || arrivals == [] then 0
    else 1 + CompletesAt(held + {Index(arrivals[0])}, n, arrivals[1..])
  }

  lemma OneFirst(a: Arrival)
    ensures Firsts([a]) == if a.First? then 1 else 0
    ensures Arrived([a]) == {Index(a)}
  {
    assert [a][1..] == [];
    assert Firsts([]) == 0 && Arrived([]) == {};
  }

  lemma {:induction false} CompletesFirst(held: set<nat>, n: nat, arrivals: seq<Arrival>)
    requires held + Arrived(arrivals) == Range(n)
    ensures var t := CompletesAt(held, n, arrivals);
            && held + Arrived(arrivals[..t]) == Range(n)
            && (t > 0 ==> held + Arrived(arrivals[..t - 1]) != Range(n))
    decreases |arrivals|
  {
    hide Range;
    assert arrivals[..0] == [];
    if held != Range(n) {
      assert arrivals != [] by {
        assert arrivals == [] ==> held + {} == held;
      }
      var a, rest := arrivals[0], arrivals[1..];
      var now := held + {Index(a)};
      assert now + Arrived(rest) == held + Arrived(arrivals);
      CompletesFirst(now, n, rest);
      var t := CompletesAt(held, n, arrivals);
      assert arrivals[..t] == [a] + rest[..t - 1];
      ArrivedConcat([a], rest[..t - 1]);
      OneFirst(a);
      assert held + ({Index(a)} + Arrived(rest[..t - 1])) == now + Arrived(rest[..t - 1]);
      if t > 1 {
        assert arrivals[..t - 1] == [a] + rest[..t - 2];
        ArrivedConcat([a], rest[..t - 2]);
        assert held + ({Index(a)} + Arrived(rest[..t - 2])) == now + Arrived(rest[..t - 2]);
      } else {
        assert held + {} == held;
      }
    }
  }

  /** What is held after these frames of a message, from what was held before them. */
  function After(p: seq<seq<byte>>, m: map<nat, seq<byte>>, arrivals: seq<Arrival>): map<nat, seq<byte>>
    requires AllBelong(arrivals, p)
    decreases |arrivals|
  {
    if arrivals == [] then m
    else
      assert Belongs(arrivals[0], p);
      After(p, m[Index(arrivals[0]) := p[Index(arrivals[0])]], arrivals[1..])
  }

  lemma {:induction false} AfterIs(p: seq<seq<byte>>, m: map<nat, seq<byte>>, arrivals: seq<Arrival>)
    requires AllBelong(arrivals, p)
    ensures var a := After(p, m, arrivals);
            && a.Keys == m.Keys + Arrived(arrivals)
            && forall i :: i in a.Keys ==> if i in Arrived(arrivals) then i < |p| && a[i] == p[i] else i in m && a[i] == m[i]
    decreases |arrivals|
  {
    if arrivals != [] {
      assert Belongs(arrivals[0], p);
      AfterIs(p, m[Index(arrivals[0]) := p[Index(arrivals[0])]], arrivals[1..]);
    }
  }

  /** What is delivered: the held payloads at the moment the last index is there. */
  ghost predicate Delivers(c: Collector, p: seq<seq<byte>>, m: map<nat, seq<byte>>, arrivals: seq<Arrival>)
    requires AllBelong(arrivals, p) && m.Keys + Arrived(arrivals) == Range(|p|)
  {
    var (d, outs) := ArriveAll(c, arrivals);
    var t := CompletesAt(m.Keys, |p|, arrivals);
    CompletesFirst(m.Keys, |p|, arrivals);
    AfterIs(p, m, arrivals[..t]);
    && Messages(outs) == [Flatten(InOrder(|p|, After(p, m, arrivals[..t])))] && !d.active
    && (d.temp == [] <==> t == |arrivals|)
  }

  lemma NextArrival(p: seq<seq<byte>>, m: map<nat, seq<byte>>, arrivals: seq<Arrival>)
    requires AllBelong(arrivals, p) && m.Keys + Arrived(arrivals) == Range(|p|) && m.Keys != Range(|p|)
    ensures arrivals != []
    ensures var a, rest := arrivals[0], arrivals[1..];
            && Index(a) < |p| && Belongs(a, p) && AllBelong(rest, p)
            && var now := m[Index(a) := p[Index(a)]];
               now.Keys + Arrived(rest) == Range(|p|) && now.Keys <= Range(|p|)
  {
    hide Range;
    assert arrivals != [] by {
      assert arrivals == [] ==> m.Keys + {} == m.Keys;
    }
    var a, rest := arrivals[0], arrivals[1..];
    assert Belongs(a, p);
    var now := m[Index(a) := p[Index(a)]];
    assert now.Keys + Arrived(rest) == m.Keys + Arrived(arrivals);
  }

  lemma CompletesHead(held: set<nat>, n: nat, arrivals: seq<Arrival>)
    requires held != Range(n) && arrivals != []
    ensures CompletesAt(held, n, arrivals) == 1 + CompletesAt(held + {Index(arrivals[0])}, n, arrivals[1..])
  {
    hide Range;
  }

  lemma Belonging(a: Arrival, p: seq<seq<byte>>)
    requires Belongs(a, p)
    ensures Index(a) < |p|
  {
  }

  lemma AfterHead(p: seq<seq<byte>>, m: map<nat, seq<byte>>, arrivals: seq<Arrival>)
    requires AllBelong(arrivals, p) && arrivals != [] && Index(arrivals[0]) < |p|
    ensures AllBelong(arrivals[1..], p)
    ensures After(p, m, arrivals) == After(p, m[Index(arrivals[0]) := p[Index(arrivals[0])]], arrivals[1..])
  {
  }

  /** The moment of completion, one arrival earlier. */
  lemma CompletesStep(held: set<nat>, n: nat, p: seq<seq<byte>>, m: map<nat, seq<byte>>, arrivals: seq<Arrival>)
    requires held == m.Keys && held != Range(n) && arrivals != [] && AllBelong(arrivals, p)
    ensures var a, rest := arrivals[0], arrivals[1..];
            var t := CompletesAt(held, n, arrivals);
            && AllBelong(rest, p) && Index(a) < |p| && t > 0 && t - 1 == CompletesAt(held + {Index(a)}, n, rest)
            && AllBelong(arrivals[..t], p) && AllBelong(rest[..t - 1], p)
            && After(p, m, arrivals[..t]) == After(p, m[Index(a) := p[Index(a)]], rest[..t - 1])
  {
    hide Range, After, Belongs;
    CompletesHead(held, n, arrivals);
    hide CompletesAt;
    var t := CompletesAt(held, n, arrivals);
    assert Belongs(arrivals[0], p);
    Belonging(arrivals[0], p);
    assert arrivals[..t][1..] == arrivals[1..][..t - 1];
    AfterHead(p, m, arrivals[..t]);
  }

  /** Nothing is delivered yet: the rest delivers. */
  lemma DeliversLater(c: Collector, p: seq<seq<byte>>, m: map<nat, seq<byte>>, arrivals: seq<Arrival>)
    requires AllBelong(arrivals, p) && m.Keys + Arrived(arrivals) == Range(|p|) && m.Keys != Range(|p|)
    requires arrivals != [] && AllBelong(arrivals[1..], p) && Index(arrivals[0]) < |p|
    requires var now := m[Index(arrivals[0]) := p[Index(arrivals[0])]];
             var (d, o) := Arrive(c, arrivals[0]);
             && now.Keys + Arrived(arrivals[1..]) == Range(|p|)
             && Messages(o) == [] && Delivers(d, p, now, arrivals[1..])
    ensures Delivers(c, p, m, arrivals)
  {
    hide Range, Arrive, Flatten, InOrder, After;
    CompletesStep(m.Keys, |p|, p, m, arrivals);
    hide CompletesAt;
    var (d, o) := Arrive(c, arrivals[0]);
    var (e, more) := ArriveAll(d, arrivals[1..]);
    MessagesConcat(o, more);
    assert m[Index(arrivals[0]) := p[Index(arrivals[0])]].Keys == m.Keys + {Index(arrivals[0])};
  }

  /** The message is delivered with this arrival: what follows is late. */
  lemma DeliversNow(c: Collector, p: seq<seq<byte>>, m: map<nat, seq<byte>>, arrivals: seq<Arrival>)
    requires AllBelong(arrivals, p) && m.Keys + Arrived(arrivals) == Range(|p|) && m.Keys != Range(|p|)
    requires arrivals != [] && Index(arrivals[0]) < |p| && Firsts(arrivals[1..]) == 0
    requires var now := m[Index(arrivals[0]) := p[Index(arrivals[0])]];
             var (d, o) := Arrive(c, arrivals[0]);
             now.Keys == Range(|p|) && Messages(o) == [Flatten(InOrder(|p|, now))] && Clean(d)
    ensures Delivers(c, p, m, arrivals)
  {
    hide Range, Arrive, Flatten, InOrder;
    var rest := arrivals[1..];
    var now := m[Index(arrivals[0]) := p[Index(arrivals[0])]];
    CompletesStep(m.Keys, |p|, p, m, arrivals);
    assert now.Keys == m.Keys + {Index(arrivals[0])};
    assert rest[..0] == [];
    var (d, o) := Arrive(c, arrivals[0]);
    var (e, more) := ArriveAll(d, rest);
    MessagesConcat(o, more);
    LateFramesQuiet(d, rest);
  }

  lemma {:induction false} RunningDelivers(c: Collector, p: seq<seq<byte>>, m: map<nat, seq<byte>>,
                                           arrivals: seq<Arrival>)
    requires Running(c, |p|, m) && m.Keys != Range(|p|) && |p| <= MAX_INDEX
    requires AllBelong(arrivals, p) && Firsts(arrivals) == 0 && m.Keys + Arrived(arrivals) == Range(|p|)
    ensures Delivers(c, p, m, arrivals)
    decreases |arrivals|
  {
    hide Running, Delivers, Range, Flatten, InOrder, Clean;
    NextArrival(p, m, arrivals);
    var a, rest := arrivals[0], arrivals[1..];
    var now := m[Index(a) := p[Index(a)]];
    AddRuns(c, |p|, m, Index(a), p[Index(a)]);
    var (d, o) := Add(c, Index(a), p[Index(a)]);
    hide Add;
    MessagesOne(o);
    if now.Keys == Range(|p|) {
      DeliversNow(c, p, m, arrivals);
    } else {
      RunningDelivers(d, p, now, rest);
      DeliversLater(c, p, m, arrivals);
    }
  }

  lemma {:induction false} IdleDelivers(c: Collector, p: seq<seq<byte>>, m: map<nat, seq<byte>>, arrivals: seq<Arrival>)
    requires Idle(c, m) && 0 !in m && 0 < |p| <= MAX_INDEX
    requires AllBelong(arrivals, p) && Firsts(arrivals) == 1 && m.Keys + Arrived(arrivals) == Range(|p|)
    ensures Delivers(c, p, m, arrivals)
    decreases |arrivals|
  {
    hide Running, Idle, Delivers, Flatten, InOrder, Clean;
    InRange(0, |p|);
    hide Range;
    NextArrival(p, m, arrivals);
    var a, rest := arrivals[0], arrivals[1..];
    var now := m[Index(a) := p[Index(a)]];
    match a
    case First(count, payload) =>
      FirstStarts(c, |p|, m, payload);
      hide Arrive;
      if now.Keys == Range(|p|) {
        DeliversNow(c, p, m, arrivals);
      } else {
        RunningDelivers(Arrive(c, a).0, p, now, rest);
        DeliversLater(c, p, m, arrivals);
      }
    case Cons(index, payload) =>
      BufferOne(c, m, index, payload);
      MessagesOne(Quiet);
      assert now.Keys != Range(|p|);
      IdleDelivers(Arrive(c, a).0, p, now, rest);
      DeliversLater(c, p, m, arrivals);
  }

  lemma RangeMembers(n: nat)
    ensures forall i: nat :: i in Range(n) <==> i < n
  {
  }

  /** With nothing foreign in it, what is put together is the message. */
  lemma AllFresh(p: seq<seq<byte>>, m: map<nat, seq<byte>>, arrivals: seq<Arrival>)
    requires AllBelong(arrivals, p) && m.Keys + Arrived(arrivals) == Range(|p|)
    requires forall i :: i in m && i !in Arrived(arrivals) ==> i < |p| && m[i] == p[i]
    ensures After(p, m, arrivals).Keys == Range(|p|) && InOrder(|p|, After(p, m, arrivals)) == p
  {
    AfterIs(p, m, arrivals);
    RangeMembers(|p|);
    hide Range, After;
  }

  /** The last arrival is the first with its index. */
  predicate NoneLate(arrivals: seq<Arrival>) {
    arrivals != [] && Index(arrivals[|arrivals| - 1]) !in Arrived(arrivals[..|arrivals| - 1])
  }

  lemma SomeBelong(arrivals: seq<Arrival>, p: seq<seq<byte>>, t: nat)
    requires AllBelong(arrivals, p) && t <= |arrivals|
    ensures AllBelong(arrivals[..t], p)
  {
  }

  lemma DeliversFresh(c: Collector, p: seq<seq<byte>>, m: map<nat, seq<byte>>, arrivals: seq<Arrival>)
    requires AllBelong(arrivals, p) && m.Keys + Arrived(arrivals) == Range(|p|) && Delivers(c, p, m, arrivals)
    requires var t := CompletesAt(m.Keys, |p|, arrivals);
             forall i :: i in m && i !in Arrived(arrivals[..t]) ==> i < |p| && m[i] == p[i]
    ensures var (d, outs) := ArriveAll(c, arrivals);
            && Messages(outs) == [Flatten(p)] && !d.active
            && (d.temp == [] <==> CompletesAt(m.Keys, |p|, arrivals) == |arrivals|)
  {
    hide Range, Flatten, InOrder, After, ArriveAll, Arrived, CompletesAt, Messages;
    CompletesFirst(m.Keys, |p|, arrivals);
    var t := CompletesAt(m.Keys, |p|, arrivals);
    SomeBelong(arrivals, p, t);
    AllFresh(p, m, arrivals[..t]);
  }

  /** The last arrival completes exactly if its index was neither held before nor arrived before. */
  lemma LastCompletes(held: set<nat>, n: nat, arrivals: seq<Arrival>)
    requires held + Arrived(arrivals) == Range(n) && arrivals != []
    ensures CompletesAt(held, n, arrivals) == |arrivals|
       <==> Index(arrivals[|arrivals| - 1]) !in held + Arrived(arrivals[..|arrivals| - 1])
  {
    hide Range;
    var k := |arrivals| - 1;
    var t := CompletesAt(held, n, arrivals);
    CompletesFirst(held, n, arrivals);
    assert arrivals == arrivals[..k] + [arrivals[k]];
    ArrivedConcat(arrivals[..k], [arrivals[k]]);
    OneFirst(arrivals[k]);
    if t <= k {
      assert arrivals[..k] == arrivals[..t] + arrivals[t..k];
      ArrivedConcat(arrivals[..t], arrivals[t..k]);
      assert Index(arrivals[k]) in held + Arrived(arrivals);
    } else {
      assert arrivals[..t] == arrivals;
      assert arrivals[..t - 1] == arrivals[..k];
      assert held + Arrived(arrivals[..k]) + {Index(arrivals[k])} == held + Arrived(arrivals);
    }
  }

  /**
   Any arrival order, with duplicates of every frame but the first, completes the message exactly once
   and with the right data; the collector is clean afterwards exactly if nothing arrived late, that
   is, if the last arrival was the first with its index.
   */
  lemma AnyOrderCompletesOnce(c: Collector, p: seq<seq<byte>>, arrivals: seq<Arrival>)
    requires Clean(c) && 0 < |p| <= MAX_INDEX
    requires AllBelong(arrivals, p) && Firsts(arrivals) == 1 && Arrived(arrivals) == Range(|p|)
    ensures var (d, outs) := ArriveAll(c, arrivals);
            Messages(outs) == [Flatten(p)] && !d.active && (Clean(d) <==> NoneLate(arrivals))
  {
    CleanIsIdle(c);
    assert arrivals != [];
    var none: map<nat, seq<byte>> := map[];
    assert none.Keys == {};
    hide Range, Flatten, InOrder, After, ArriveAll, Arrived, AllBelong, Firsts, Idle, Delivers, CompletesAt, Messages;
    assert {} + Arrived(arrivals) == Arrived(arrivals);
    IdleDelivers(c, p, none, arrivals);
    DeliversFresh(c, p, none, arrivals);
    LastCompletes({}, |p|, arrivals);
    assert {} + Arrived(arrivals[..|arrivals| - 1]) == Arrived(arrivals[..|arrivals| - 1]);
  }

  lemma {:induction false} ArrivedSize(arrivals: seq<Arrival>)
    ensures |Arrived(arrivals)| <= |arrivals|
  {
    if arrivals != [] {
      ArrivedSize(arrivals[1..]);
    }
  }

  lemma Absorbs(a: set<nat>, x: nat)
    ensures x in a ==> a + {x} == a
  {
  }

  /** As many arrivals as indices: none is a duplicate. */
  lemma NoneRepeats(arrivals: seq<Arrival>, n: nat)
    requires Arrived(arrivals) == Range(n) && |arrivals| == n && n > 0
    ensures NoneLate(arrivals)
  {
    RangeSize(n);
    var init := arrivals[..n - 1];
    assert arrivals == init + [arrivals[n - 1]];
    ArrivedConcat(init, [arrivals[n - 1]]);
    OneFirst(arrivals[n - 1]);
    ArrivedSize(init);
    Absorbs(Arrived(init), Index(arrivals[n - 1]));
  }

  // ---- several messages ----

  /** Each message's frames, in any order and with duplicates, but none after its message is complete. */
  predicate Sessions(messages: seq<seq<seq<byte>>>, arrivals: seq<seq<Arrival>>) {
    && |messages| == |arrivals|
    && forall k :: 0 <= k < |messages| ==>
         && 0 < |messages[k]| <= MAX_INDEX && AllBelong(arrivals[k], messages[k])
         && Firsts(arrivals[k]) == 1 && Arrived(arrivals[k]) == Range(|messages[k]|)
         && NoneLate(arrivals[k])
  }

  function AllFlat(messages: seq<seq<seq<byte>>>): seq<seq<byte>> {
    if messages == [] then [] else [Flatten(messages[0])] + AllFlat(messages[1..])
  }

  lemma {:induction false} ArriveAllConcat(c: Collector, a: seq<Arrival>, b: seq<Arrival>)
    ensures var (d, outs) := ArriveAll(c, a);
            var (e, more) := ArriveAll(d, b);
            ArriveAll(c, a + b) == (e, outs + more)
    decreases |a|
  {
    hide Arrive;
    if a == [] {
      assert a + b == b;
      var (e, last) := ArriveAll(c, b);
      assert [] + last == last;
    } else {
      assert (a + b)[1..] == a[1..] + b;
      var (c1, o) := Arrive(c, a[0]);
      ArriveAllConcat(c1, a[1..], b);
      var (d, more) := ArriveAll(c1, a[1..]);
      var (e, last) := ArriveAll(d, b);
      assert o + (more + last) == o + more + last;
    }
  }

  lemma NothingArrives(c: Collector)
    ensures ArriveAll(c, []) == (c, []) && Messages([]) == []
  {
  }

  /** One message after the other: each is delivered once, in order. */
  lemma {:induction false} SeveralMessages(c: Collector, messages: seq<seq<seq<byte>>>, arrivals: seq<seq<Arrival>>)
    requires Clean(c) && Sessions(messages, arrivals)
    ensures var (d, outs) := ArriveAll(c, Flatten(arrivals));
            Messages(outs) == AllFlat(messages) && Clean(d)
    decreases |messages|
  {
    hide ArriveAll, Clean, Arrived, Firsts, AllBelong, Range;
    if messages == [] {
      NothingArrives(c);
    } else {
      assert Sessions(messages[1..], arrivals[1..]);
      AnyOrderCompletesOnce(c, messages[0], arrivals[0]);
      var (d, outs) := ArriveAll(c, arrivals[0]);
      SeveralMessages(d, messages[1..], arrivals[1..]);
      var (e, more) := ArriveAll(d, Flatten(arrivals[1..]));
      ArriveAllConcat(c, arrivals[0], Flatten(arrivals[1..]));
      MessagesConcat(outs, more);
    }
  }

  // ---- frames of an earlier message in the buffer ----

  /** Without a frame 0 a replay completes nothing. */
  lemma {:induction false} ReplayStaysActive(c: Collector, pending: seq<Pending>)
    requires c.active && c.temp == [] && 0 !in c.frames && forall i :: 0 <= i < |pending| ==> pending[i].index > 0
    ensures var (d, outs) := Replay(c, pending);
            && d.active && d.temp == [] && 0 !in d.frames && d.expected == c.expected && Messages(outs) == []
    decreases |pending|
  {
    if pending != [] {
      var (d, o) := Add(c, pending[0].index, pending[0].payload);
      if c.expected > 0 {
        AssembleStops(c.frames[pending[0].index := pending[0].payload], 0, c.expected);
      }
      MessagesOne(o);
      if !o.Raised? {
        ReplayStaysActive(d, pending[1..]);
        MessagesConcat([o], Replay(d, pending[1..]).1);
      }
    }
  }

  lemma NonZeroIndices(temp: seq<Pending>)
    requires 0 !in Buffered(temp)
    ensures forall i :: 0 <= i < |temp| ==> temp[i].index > 0
  {
    BufferedKeys(temp);
  }

  lemma FirstBuffersNothing(c: Collector, count: nat, payload: seq<byte>)
    requires 0 !in Buffered(c.temp)
    ensures Arrive(c, First(count, payload)).0.temp == []
  {
    NonZeroIndices(c.temp);
    ReplayStaysActive(Collector(map[], {}, count, true, []), c.temp);
    hide Replay;
  }

  lemma OneBuffersNoFirst(c: Collector, a: Arrival)
    requires Distinct(c.temp) && 0 !in Buffered(c.temp) && (a.Cons? ==> a.index > 0)
    ensures var d := Arrive(c, a).0; Distinct(d.temp) && 0 !in Buffered(d.temp)
  {
    OneDistinct([]);
    hide Distinct, Start;
    match a {
      case Cons(index, payload) => PutBuffers(c.temp, index, payload);
      case First(count, payload) => FirstBuffersNothing(c, count, payload); hide Arrive;
    }
  }

  /** A frame 0 travels as a first frame, so none is ever buffered. */
  lemma {:induction false} NeverBuffersFirst(c: Collector, arrivals: seq<Arrival>)
    requires Distinct(c.temp) && 0 !in Buffered(c.temp)
    requires forall i :: 0 <= i < |arrivals| && arrivals[i].Cons? ==> arrivals[i].index > 0
    ensures var d := ArriveAll(c, arrivals).0; Distinct(d.temp) && 0 !in Buffered(d.temp)
    decreases |arrivals|
  {
    hide Distinct, Arrive, Buffered;
    if arrivals != [] {
      OneBuffersNoFirst(c, arrivals[0]);
      NeverBuffersFirst(Arrive(c, arrivals[0]).0, arrivals[1..]);
    }
  }

  /** A foreign frame the message has no place for is held, or has already made the replay raise. */
  predicate Stuck(c: Collector, n: nat) {
    c.active && c.expected == n && (0 !in c.frames || exists s :: s in c.frames && s >= n)
  }

  lemma TooMany(keys: set<nat>, n: nat, s: nat)
    requires s in keys && s >= n && Range(n) <= keys
    ensures |keys| > n
  {
    RangeSize(n);
    SubsetSize(Range(n) + {s}, keys);
  }

  lemma NoRoom(m: map<nat, seq<byte>>, n: nat)
    requires |m| == n && n > 0 && (0 !in m || exists s :: s in m && s >= n)
    ensures Assemble(m, n) == None
  {
    if 0 !in m {
      AssembleStops(m, 0, n);
    } else {
      var s :| s in m && s >= n;
      assert |m| == |m.Keys|;
      if Range(n) <= m.Keys {
        TooMany(m.Keys, n, s);
      } else {
        var i :| i in Range(n) && i !in m.Keys;
        AssembleStops(m, i, n);
      }
    }
  }

  lemma AddStuck(c: Collector, n: nat, i: nat, x: seq<byte>)
    requires Stuck(c, n) && n > 0 && (i > 0 || exists s :: s in c.frames && s >= n)
    ensures var (d, o) := Add(c, i, x);
            && Stuck(d, n) && !o.Complete? && d.frames == c.frames[i := x]
            && (|d.frames| == n || i >= MAX_INDEX ==> o == Raised)
  {
    var m := c.frames[i := x];
    if exists s :: s in c.frames && s >= n {
      var s :| s in c.frames && s >= n;
      assert s in m;
    }
    if i < MAX_INDEX && |m| == n {
      NoRoom(m, n);
    }
  }

  lemma {:induction false} StuckNever(c: Collector, n: nat, p: seq<seq<byte>>, arrivals: seq<Arrival>)
    requires Stuck(c, n) && n > 0 && AllBelong(arrivals, p) && Firsts(arrivals) == 0
    ensures Messages(ArriveAll(c, arrivals).1) == []
    decreases |arrivals|
  {
    hide Stuck;
    if arrivals != [] {
      var a := arrivals[0];
      assert Belongs(a, p);
      AddStuck(c, n, a.index, a.payload);
      var (d, o) := Add(c, a.index, a.payload);
      hide Add;
      StuckNever(d, n, p, arrivals[1..]);
      MessagesConcat([o], ArriveAll(d, arrivals[1..]).1);
      MessagesOne(o);
    }
  }

  /** A transaction of `n` frames is running and holds a frame whose index is too high. */
  ghost predicate Spoiled(c: Collector, n: nat) {
    c.active && c.expected == n && exists i: nat :: i in c.frames && i >= n
  }

  lemma {:induction false} AssembleHas(frames: map<nat, seq<byte>>, n: nat)
    requires Assemble(frames, n).Some?
    ensures Range(n) <= frames.Keys
  {
    if n > 0 {
      AssembleHas(frames, n - 1);
    }
  }

  lemma SpoiledStays(c: Collector, n: nat, i: nat, x: seq<byte>)
    requires (Spoiled(c, n) || (c.active && c.expected == n && i >= n))
    ensures var (d, o) := Add(c, i, x);
            Spoiled(d, n) && !o.Complete? && (i >= 64 ==> o.Raised?)
  {
    hide Assemble, Range;
    var frames := c.frames[i := x];
    var j: nat := if i >= n then i else var k: nat :| k in c.frames && k >= n; k;
    assert j in frames && j >= n && |frames| == |frames.Keys|;
    if |frames| == n && Assemble(frames, n).Some? {
      AssembleHas(frames, n);
      TooMany(frames.Keys, n, j);
      assert false;
    }
  }

  lemma {:induction false} SpoiledRun(c: Collector, n: nat, arrivals: seq<Arrival>)
    requires Spoiled(c, n) && forall a <- arrivals :: a.Cons?
    ensures Messages(ArriveAll(c, arrivals).1) == []
    decreases |arrivals|
  {
    hide Add, Spoiled;
    if arrivals != [] {
      var a := arrivals[0];
      assert a in arrivals;
      SpoiledStays(c, n, a.index, a.payload);
      var (d, o) := Add(c, a.index, a.payload);
      SpoiledRun(d, n, arrivals[1..]);
      MessagesOne(o);
      MessagesConcat([o], ArriveAll(d, arrivals[1..]).1);
    }
  }

  /**
   One continuation frame with an index the message does not have, and nothing is delivered until another
   message begins, whatever continuation frames follow; from index 64 on the frame itself is an error.
   */
  lemma ForeignIndexSpoils(c: Collector, n: nat, i: nat, x: seq<byte>, arrivals: seq<Arrival>)
    requires c.active && c.expected == n && i >= n && forall a <- arrivals :: a.Cons?
    ensures i >= 64 ==> Add(c, i, x).1.Raised?
    ensures Messages(ArriveAll(c, [Arrival.Cons(i, x)] + arrivals).1) == []
  {
    SpoiledStays(c, n, i, x);
    var (d, o) := Add(c, i, x);
    SpoiledRun(d, n, arrivals);
    var all := [Arrival.Cons(i, x)] + arrivals;
    assert all[0] == Arrival.Cons(i, x) && all[1..] == arrivals;
    MessagesOne(o);
    MessagesConcat([o], ArriveAll(d, arrivals).1);
    hide Add, Spoiled;
  }

  lemma OneMoreAtMost(m: map<nat, seq<byte>>, i: nat, x: seq<byte>)
    ensures |m[i := x]| <= |m| + 1
  {
    assert m[i := x].Keys == m.Keys + {i};
    assert |m[i := x]| == |m[i := x].Keys| && |m| == |m.Keys|;
  }

  /** With a foreign frame held and all others arriving, the count is reached with one missing. */
  lemma {:induction false} StuckRaises(c: Collector, n: nat, p: seq<seq<byte>>, s: nat, arrivals: seq<Arrival>)
    requires Stuck(c, n) && n > 0 && s in c.frames && s >= n && |c.frames| < n
    requires AllBelong(arrivals, p) && Firsts(arrivals) == 0 && Range(n) <= c.frames.Keys + Arrived(arrivals)
    ensures Raised in ArriveAll(c, arrivals).1
    decreases |arrivals|
  {
    hide Stuck, Range;
    assert |c.frames| == |c.frames.Keys|;
    if arrivals == [] {
      assert c.frames.Keys + {} == c.frames.Keys;
      TooMany(c.frames.Keys, n, s);
    } else {
      var a := arrivals[0];
      assert Belongs(a, p);
      AddStuck(c, n, a.index, a.payload);
      OneMoreAtMost(c.frames, a.index, a.payload);
      var (d, o) := Add(c, a.index, a.payload);
      hide Add;
      assert c.frames.Keys + Arrived(arrivals) == d.frames.Keys + Arrived(arrivals[1..]);
      if o != Raised {
        StuckRaises(d, n, p, s, arrivals[1..]);
      }
    }
  }

  /** The transaction runs without its frame 0, and its count is not reached. */
  predicate Waiting(c: Collector, n: nat) {
    c.active && c.expected == n && 0 !in c.frames && |c.frames| < n
  }

  /** One buffered frame replayed without a frame 0. */
  lemma ForeignStep(c: Collector, n: nat, i: nat, x: seq<byte>)
    requires Waiting(c, n) && i > 0
    ensures var (d, o) := Add(c, i, x);
            && d.active && d.expected == n && 0 !in d.frames && Messages([o]) == []
            && (o != Raised ==> Waiting(d, n) && d.frames.Keys == c.frames.Keys + {i})
  {
    AddStuck(c, n, i, x);
    OneMoreAtMost(c.frames, i, x);
    MessagesOne(Add(c, i, x).1);
  }

  lemma BufferedHead(keys: set<nat>, pending: seq<Pending>)
    requires pending != []
    ensures keys + Buffered(pending).Keys == (keys + {pending[0].index}) + Buffered(pending[1..]).Keys
  {
  }

  /** Replaying without a frame 0: either it raises, or everything is held and no count was reached. */
  lemma {:induction false} ReplayForeign(c: Collector, n: nat, pending: seq<Pending>)
    requires Waiting(c, n) && forall i :: 0 <= i < |pending| ==> pending[i].index > 0
    ensures var (d, outs) := Replay(c, pending);
            && d.active && d.expected == n && 0 !in d.frames && Messages(outs) == []
            && (Raised in outs || (Waiting(d, n) && d.frames.Keys == c.frames.Keys + Buffered(pending).Keys))
    decreases |pending|
  {
    if pending == [] {
      assert c.frames.Keys + {} == c.frames.Keys;
    } else {
      var i, x, rest := pending[0].index, pending[0].payload, pending[1..];
      ForeignStep(c, n, i, x);
      BufferedHead(c.frames.Keys, pending);
      hide Add, Waiting, Buffered, Messages;
      var (d, o) := Add(c, i, x);
      if o != Raised {
        ReplayForeign(d, n, rest);
        MessagesConcat([o], Replay(d, rest).1);
      }
    }
  }

  lemma ForeignFirst(c: Collector, p: seq<seq<byte>>, q: map<nat, seq<byte>>, s: nat)
    requires Idle(c, q) && 0 !in q && s in q && s >= |p| > 0
    ensures var (d, outs) := Arrive(c, First(|p|, p[0]));
            && Stuck(d, |p|) && Messages(outs) == []
            && (Raised in outs || (d.frames.Keys == q.Keys + {0} && |d.frames| < |p|))
  {
    NonZeroIndices(c.temp);
    ReplayForeign(Collector(map[], {}, |p|, true, []), |p|, c.temp);
    var (d, outs) := Start(c, |p|);
    hide Start;
    assert {} + Buffered(c.temp).Keys == q.Keys;
    assert (Collector(map[], {}, |p|, true, [])).frames.Keys == {};
    if Raised !in outs {
      AddStuck(d, |p|, 0, p[0]);
      OneMoreAtMost(d.frames, 0, p[0]);
      var (e, o) := Add(d, 0, p[0]);
      MessagesConcat(outs, [o]);
      MessagesOne(o);
    }
  }

  /** A buffered index the next message does not have: the message is lost, and an error raised. */
  lemma {:induction false} ForeignRaises(c: Collector, p: seq<seq<byte>>, q: map<nat, seq<byte>>, s: nat,
                                         arrivals: seq<Arrival>)
    requires Idle(c, q) && 0 !in q && s in q && s >= |p| > 0
    requires AllBelong(arrivals, p) && Firsts(arrivals) == 1 && Range(|p|) <= q.Keys + Arrived(arrivals)
    ensures var outs := ArriveAll(c, arrivals).1; Messages(outs) == [] && Raised in outs
    decreases |arrivals|
  {
    hide Range, Idle;
    var a, rest := arrivals[0], arrivals[1..];
    assert Belongs(a, p);
    var (d, o) := Arrive(c, a);
    var (e, more) := ArriveAll(d, rest);
    MessagesConcat(o, more);
    match a
    case Cons(index, payload) =>
      BufferOne(c, q, index, payload);
      MessagesOne(Quiet);
      assert q[index := payload].Keys + Arrived(rest) == q.Keys + Arrived(arrivals);
      ForeignRaises(d, p, q[index := payload], s, rest);
    case First(count, payload) =>
      ForeignFirst(c, p, q, s);
      hide Arrive, Add;
      StuckNever(d, |p|, p, rest);
      if Raised !in o {
        assert d.frames.Keys + Arrived(rest) == q.Keys + Arrived(arrivals);
        assert s in d.frames.Keys;
        StuckRaises(d, |p|, p, s, rest);
      }
  }

  lemma {:induction false} SameBytesSamePayloads(a: seq<seq<byte>>, b: seq<seq<byte>>)
    requires |a| == |b| && (forall i :: 0 <= i < |a| ==> |a[i]| == |b[i]|) && Flatten(a) == Flatten(b)
    ensures a == b
  {
    if a != [] {
      assert a[0] == Flatten(a)[..|a[0]|] == Flatten(b)[..|b[0]|] == b[0];
      assert Flatten(a[1..]) == Flatten(a)[|a[0]|..] == Flatten(b)[|b[0]|..] == Flatten(b[1..]);
      SameBytesSamePayloads(a[1..], b[1..]);
    }
  }

  /** The buffered frames that are still needed when the message is complete. */
  function StaleUsed(p: seq<seq<byte>>, q: map<nat, seq<byte>>, arrivals: seq<Arrival>): set<nat> {
    q.Keys - Arrived(arrivals[..CompletesAt(q.Keys, |p|, arrivals)])
  }

  /** What is put together when frames of earlier messages were buffered. */
  function Mixed(p: seq<seq<byte>>, q: map<nat, seq<byte>>, arrived: set<nat>): (mix: seq<seq<byte>>)
    ensures |mix| == |p|
  {
    seq(|p|, i requires 0 <= i < |p| => if i in q && i !in arrived then q[i] else p[i])
  }

  lemma DeliversMixed(c: Collector, p: seq<seq<byte>>, q: map<nat, seq<byte>>, arrivals: seq<Arrival>)
    requires AllBelong(arrivals, p) && q.Keys + Arrived(arrivals) == Range(|p|) && Delivers(c, p, q, arrivals)
    ensures var t := CompletesAt(q.Keys, |p|, arrivals);
            var (d, outs) := ArriveAll(c, arrivals);
            && q.Keys + Arrived(arrivals[..t]) == Range(|p|)
            && Messages(outs) == [Flatten(Mixed(p, q, Arrived(arrivals[..t])))] && !d.active
            && (d.temp == [] <==> t == |arrivals|)
  {
    RangeMembers(|p|);
    hide Range, Flatten, ArriveAll, CompletesAt, Messages, After;
    CompletesFirst(q.Keys, |p|, arrivals);
    var t := CompletesAt(q.Keys, |p|, arrivals);
    SomeBelong(arrivals, p, t);
    AfterIs(p, q, arrivals[..t]);
    hide Arrived, AllBelong;
    assert InOrder(|p|, After(p, q, arrivals[..t])) == Mixed(p, q, Arrived(arrivals[..t]));
  }

  /** Of the buffered payloads the message has a place for, none is longer than its own, or none shorter. */
  predicate OneSided(p: seq<seq<byte>>, q: map<nat, seq<byte>>) {
    || (forall i :: i in q && i < |p| ==> |q[i]| <= |p[i]|)
    || (forall i :: i in q && i < |p| ==> |q[i]| >= |p[i]|)
  }

  /** Pieces that are one by one no longer, and together as long, are as long one by one. */
  lemma {:induction false} NoneLonger(a: seq<seq<byte>>, b: seq<seq<byte>>)
    requires |a| == |b| && forall i :: 0 <= i < |a| ==> |a[i]| <= |b[i]|
    ensures |Flatten(a)| <= |Flatten(b)|
    ensures |Flatten(a)| == |Flatten(b)| ==> forall i :: 0 <= i < |a| ==> |a[i]| == |b[i]|
  {
    if a != [] {
      NoneLonger(a[1..], b[1..]);
      if |Flatten(a)| == |Flatten(b)| {
        forall i | 0 <= i < |a|
          ensures |a[i]| == |b[i]|
        {
          assert i > 0 ==> a[i] == a[1..][i - 1] && b[i] == b[1..][i - 1];
        }
      }
    }
  }

  /** The same bytes cut into pieces of which none is longer than its counterpart: the same pieces. */
  lemma SameBytesOneSided(a: seq<seq<byte>>, b: seq<seq<byte>>)
    requires |a| == |b| && Flatten(a) == Flatten(b)
    requires (forall i :: 0 <= i < |a| ==> |a[i]| <= |b[i]|) || (forall i :: 0 <= i < |a| ==> |b[i]| <= |a[i]|)
    ensures a == b
  {
    hide Flatten;
    if forall i :: 0 <= i < |a| ==> |a[i]| <= |b[i]| {
      NoneLonger(a, b);
    } else {
      NoneLonger(b, a);
    }
    SameBytesSamePayloads(a, b);
  }

  lemma MixedIntact(p: seq<seq<byte>>, q: map<nat, seq<byte>>, arrived: set<nat>)
    requires q.Keys + arrived == Range(|p|) && OneSided(p, q)
    ensures Flatten(Mixed(p, q, arrived)) == Flatten(p) <==> forall i :: i in q.Keys - arrived ==> i < |p| && q[i] == p[i]
  {
    RangeMembers(|p|);
    hide Range, Flatten;
    var mix := Mixed(p, q, arrived);
    if Flatten(mix) == Flatten(p) {
      SameBytesOneSided(mix, p);
      forall i | i in q.Keys - arrived
        ensures i < |p| && q[i] == p[i]
      {
        assert mix[i] == q[i];
      }
    }
    if forall i :: i in q.Keys - arrived ==> i < |p| && q[i] == p[i] {
      assert forall i :: 0 <= i < |p| ==> mix[i] == p[i];
      assert mix == p;
    }
  }

  lemma StaleOutcome(c: Collector, p: seq<seq<byte>>, q: map<nat, seq<byte>>, arrivals: seq<Arrival>)
    requires AllBelong(arrivals, p) && q.Keys + Arrived(arrivals) == Range(|p|) && Delivers(c, p, q, arrivals)
    requires OneSided(p, q)
    ensures var (d, outs) := ArriveAll(c, arrivals);
            && |Messages(outs)| == 1 && !d.active
            && (d.temp == [] <==> CompletesAt(q.Keys, |p|, arrivals) == |arrivals|)
            && (Messages(outs) == [Flatten(p)]
                <==> forall i :: i in StaleUsed(p, q, arrivals) ==> i < |p| && q[i] == p[i])
  {
    hide Range, Flatten, ArriveAll, CompletesAt, Messages, Delivers, Arrived, AllBelong, OneSided;
    DeliversMixed(c, p, q, arrivals);
    MixedIntact(p, q, Arrived(arrivals[..CompletesAt(q.Keys, |p|, arrivals)]));
  }

  /**
   The next message on a collector whose buffer holds frames of earlier ones: it is delivered intact
   exactly if the message has a place for each of them and each that is still needed when the last
   missing index arrives happens to be equal.  A buffered index beyond the message loses it.  The
   buffered payloads may have other lengths, as long as none is longer than the message's own, or none
   shorter: with payloads of 18 and 19 bytes that is always so (`IntactAfterTraffic`).
   */
  lemma DeliveredIntactIff(c: Collector, p: seq<seq<byte>>, q: map<nat, seq<byte>>, arrivals: seq<Arrival>)
    requires Idle(c, q) && 0 !in q && 0 < |p| <= MAX_INDEX
    requires AllBelong(arrivals, p) && Firsts(arrivals) == 1 && Arrived(arrivals) == Range(|p|)
    requires OneSided(p, q)
    ensures var (d, outs) := ArriveAll(c, arrivals);
            && (Messages(outs) == [Flatten(p)]
                <==> q.Keys <= Range(|p|) && forall i :: i in StaleUsed(p, q, arrivals) ==> q[i] == p[i])
            && (q.Keys <= Range(|p|) ==> |Messages(outs)| == 1 && !d.active
                                         && (Clean(d) <==> CompletesAt(q.Keys, |p|, arrivals) == |arrivals|))
            && (!(q.Keys <= Range(|p|)) ==> Messages(outs) == [] && Raised in outs)
  {
    RangeMembers(|p|);
    hide Range, Flatten, ArriveAll, Arrived, AllBelong, Firsts, Idle, CompletesAt, Messages, InOrder, OneSided;
    assert q.Keys <= Range(|p|) ==> q.Keys + Arrived(arrivals) == Range(|p|);
    if q.Keys <= Range(|p|) {
      IdleDelivers(c, p, q, arrivals);
      StaleOutcome(c, p, q, arrivals);
    } else {
      var s :| s in q.Keys && s !in Range(|p|);
      ForeignRaises(c, p, q, s, arrivals);
    }
  }

  lemma EarlierArrived(arrivals: seq<Arrival>, t: nat, k: nat)
    requires t <= k <= |arrivals|
    ensures Arrived(arrivals[..t]) <= Arrived(arrivals[..k])
  {
    assert arrivals[..k] == arrivals[..t] + arrivals[t..k];
    ArrivedConcat(arrivals[..t], arrivals[t..k]);
  }

  /** Without repeats only the last arrival can be anticipated by a buffered frame. */
  lemma LastDecides(p: seq<seq<byte>>, q: map<nat, seq<byte>>, arrivals: seq<Arrival>)
    requires 0 < |p| == |arrivals| && Arrived(arrivals) == Range(|p|) && q.Keys <= Range(|p|)
    ensures var last := Index(arrivals[|arrivals| - 1]);
            && (last in q ==> last in StaleUsed(p, q, arrivals))
            && (last !in q ==> StaleUsed(p, q, arrivals) == {} && CompletesAt(q.Keys, |p|, arrivals) == |arrivals|)
  {
    hide Range;
    var k := |arrivals| - 1;
    assert q.Keys + Arrived(arrivals) == Range(|p|);
    NoneRepeats(arrivals, |p|);
    LastCompletes(q.Keys, |p|, arrivals);
    var t := CompletesAt(q.Keys, |p|, arrivals);
    hide CompletesAt, Arrived;
    if Index(arrivals[k]) in q {
      EarlierArrived(arrivals, t, k);
    } else {
      assert arrivals[..t] == arrivals;
    }
  }

  /**
   Without repeats in the next message and with foreign payloads that differ from its own: intact
   exactly if every buffered index is one of its continuation indices and the last frame to arrive is
   not among them.
   */
  lemma IntactWithoutRepeats(c: Collector, p: seq<seq<byte>>, q: map<nat, seq<byte>>, arrivals: seq<Arrival>)
    requires Idle(c, q) && 0 !in q && 0 < |p| <= MAX_INDEX && |arrivals| == |p|
    requires AllBelong(arrivals, p) && Firsts(arrivals) == 1 && Arrived(arrivals) == Range(|p|)
    requires OneSided(p, q) && forall i :: i in q && i < |p| ==> q[i] != p[i]
    ensures var (d, outs) := ArriveAll(c, arrivals);
            var last := Index(arrivals[|arrivals| - 1]);
            && (Messages(outs) == [Flatten(p)] <==> q.Keys <= Range(|p|) && last !in q)
            && (Messages(outs) == [Flatten(p)] ==> Clean(d))
  {
    hide Range, Flatten, ArriveAll, AllBelong, Firsts, Idle, Messages, CompletesAt, Arrived, StaleUsed, OneSided;
    DeliveredIntactIff(c, p, q, arrivals);
    if q.Keys <= Range(|p|) {
      LastDecides(p, q, arrivals);
    }
  }

  lemma LateOne(c: Collector, i: nat, x: seq<byte>)
    requires Clean(c)
    ensures Idle(ArriveAll(c, [Cons(i, x)]).0, map[i := x])
  {
    CleanIsIdle(c);
    BufferOne(c, map[], i, x);
    var a := Cons(i, x);
    assert [a][1..] == [];
    assert ArriveAll(c, [a]).0 == Arrive(c, a).0;
  }

  lemma TwoInOrder(p: seq<seq<byte>>, arrivals: seq<Arrival>)
    requires |p| == 2 && arrivals == [First(2, p[0]), Cons(1, p[1])]
    ensures AllBelong(arrivals, p) && Firsts(arrivals) == 1 && Arrived(arrivals) == Range(2) == {0, 1}
  {
    assert arrivals[1..] == [arrivals[1]];
    OneFirst(arrivals[1]);
    assert Range(1) == {0};
  }

  /** The smallest failure: one late duplicate, and the next two-frame message has a foreign frame in it. */
  lemma StaleDuplicateCorrupts(c: Collector, a: seq<seq<byte>>, b: seq<seq<byte>>)
    requires Clean(c) && |a| == 2 && |b| == 2 && |a[1]| == |b[1]| && a[1] != b[1]
    ensures var d := ArriveAll(c, [First(2, a[0]), Cons(1, a[1]), Cons(1, a[1])]).0;
            Messages(ArriveAll(d, [First(2, b[0]), Cons(1, b[1])]).1) != [Flatten(b)]
  {
    var x, z := [First(2, a[0]), Cons(1, a[1])], [Cons(1, a[1])];
    var y := [First(2, b[0]), Cons(1, b[1])];
    TwoInOrder(a, x);
    TwoInOrder(b, y);
    AnyOrderCompletesOnce(c, a, x);
    NoneRepeats(x, 2);
    var e := ArriveAll(c, x).0;
    assert [First(2, a[0]), Cons(1, a[1]), Cons(1, a[1])] == x + z;
    ArriveAllConcat(c, x, z);
    LateOne(e, 1, a[1]);
    var d := ArriveAll(c, x + z).0;
    hide ArriveAll, Arrived, Firsts, AllBelong, Idle, Clean, Messages, Range;
    IntactWithoutRepeats(d, b, map[1 := a[1]], y);
  }

  // ---- what any earlier traffic leaves behind, in the two wire formats ----

  const SHORT_PAYLOAD := 18
  const LONG_PAYLOAD := 19

  predicate OnWire(payload: seq<byte>) {
    |payload| == SHORT_PAYLOAD || |payload| == LONG_PAYLOAD
  }

  predicate AllOnWire(temp: seq<Pending>) {
    forall i :: 0 <= i < |temp| ==> OnWire(temp[i].payload)
  }

  predicate IsTraffic(arrivals: seq<Arrival>) {
    forall i :: 0 <= i < |arrivals| && arrivals[i].Cons? ==> arrivals[i].index > 0 && OnWire(arrivals[i].payload)
  }

  lemma {:induction false} PutOnWire(temp: seq<Pending>, i: nat, x: seq<byte>)
    requires AllOnWire(temp) && OnWire(x)
    ensures AllOnWire(Put(temp, i, x))
  {
    hide OnWire;
    if temp != [] {
      PutOnWire(temp[1..], i, x);
    }
  }

  lemma NothingOnWire()
    ensures AllOnWire([])
  {
  }

  lemma {:induction false} TrafficOnWire(c: Collector, arrivals: seq<Arrival>)
    requires AllOnWire(c.temp) && Distinct(c.temp) && 0 !in Buffered(c.temp) && IsTraffic(arrivals)
    ensures AllOnWire(ArriveAll(c, arrivals).0.temp)
    decreases |arrivals|
  {
    hide AllOnWire, Distinct, OnWire, Start;
    if arrivals != [] {
      var a := arrivals[0];
      NothingOnWire();
      OneBuffersNoFirst(c, a);
      match a {
        case Cons(index, payload) => PutOnWire(c.temp, index, payload);
        case First(count, payload) => FirstBuffersNothing(c, count, payload); hide Arrive;
      }
      TrafficOnWire(Arrive(c, a).0, arrivals[1..]);
    }
  }

  lemma {:induction false} BufferedOnWire(temp: seq<Pending>, i: nat)
    requires AllOnWire(temp) && i in Buffered(temp)
    ensures OnWire(Buffered(temp)[i])
  {
    hide OnWire;
    if temp[0].index != i {
      BufferedOnWire(temp[1..], i);
    }
  }

  /** The payloads of one message are all of one size, so anything buffered is one-sided to it. */
  lemma TwoSizes(p: seq<seq<byte>>, size: nat, q: map<nat, seq<byte>>)
    requires size == SHORT_PAYLOAD || size == LONG_PAYLOAD
    requires (forall i :: 0 <= i < |p| ==> |p[i]| == size) && forall i :: i in q ==> OnWire(q[i])
    ensures OneSided(p, q)
  {
  }

  /**
   After any traffic whatever in either wire format, when no transaction is running: a message, in any
   order and with duplicates, is delivered intact exactly if it has every index left in the buffer and
   each buffered payload still in use when it is complete is equal to its own.
   */
  lemma IntactAfterTraffic(traffic: seq<Arrival>, p: seq<seq<byte>>, size: nat, arrivals: seq<Arrival>)
    requires IsTraffic(traffic) && !ArriveAll(Empty(), traffic).0.active
    requires 0 < |p| <= MAX_INDEX && (size == SHORT_PAYLOAD || size == LONG_PAYLOAD)
    requires forall i :: 0 <= i < |p| ==> |p[i]| == size
    requires AllBelong(arrivals, p) && Firsts(arrivals) == 1 && Arrived(arrivals) == Range(|p|)
    ensures var c := ArriveAll(Empty(), traffic).0;
            var q := Buffered(c.temp);
            var (d, outs) := ArriveAll(c, arrivals);
            && (Messages(outs) == [Flatten(p)]
                <==> q.Keys <= Range(|p|) && forall i :: i in StaleUsed(p, q, arrivals) ==> q[i] == p[i])
            && (!(q.Keys <= Range(|p|)) ==> Messages(outs) == [] && Raised in outs)
  {
    var c := ArriveAll(Empty(), traffic).0;
    var q := Buffered(c.temp);
    NothingOnWire();
    OneDistinct([]);
    hide Range, Flatten, ArriveAll, Arrived, AllBelong, Firsts, Messages, Distinct, AllOnWire, OnWire, StaleUsed;
    NeverBuffersFirst(Empty(), traffic);
    TrafficOnWire(Empty(), traffic);
    forall i | i in q
      ensures OnWire(q[i])
    {
      BufferedOnWire(c.temp, i);
    }
    TwoSizes(p, size, q);
    hide Buffered, OneSided;
    DeliveredIntactIff(c, p, q, arrivals);
  }

  // ---- repeated first frames ----

  lemma RestartFrom(s: Collector, p: seq<seq<byte>>)
    requires s == Collector(map[], {}, |p|, true, []) && 0 < |p| <= MAX_INDEX
    ensures var (d, o) := Add(s, 0, p[0]);
            if |p| == 1 then o.Complete? && o.data == Flatten(p) && Clean(d)
            else !o.Complete? && Running(d, |p|, map[0 := p[0]])
  {
    AddRuns(s, |p|, map[], 0, p[0]);
    var none: map<nat, seq<byte>> := map[];
    assert none[0 := p[0]] == map[0 := p[0]];
    RangeMembers(|p|);
    if |p| == 1 {
      assert map[0 := p[0]].Keys == Range(1);
      assert InOrder(1, map[0 := p[0]]) == p;
    } else {
      assert 1 in Range(|p|) && 1 !in map[0 := p[0]].Keys;
    }
  }

  /** A first frame on a running transaction forgets every continuation frame received so far. */
  lemma FirstAgainForgets(c: Collector, p: seq<seq<byte>>)
    requires c.active && c.temp == [] && 0 < |p| <= MAX_INDEX
    ensures var (d, outs) := Arrive(c, First(|p|, p[0]));
            if |p| == 1 then Messages(outs) == [Flatten(p)] && Clean(d)
            else Messages(outs) == [] && Running(d, |p|, map[0 := p[0]])
  {
    RestartFrom(Collector(map[], {}, |p|, true, []), p);
    var s := Collector(map[], {}, |p|, true, []);
    var (d, o) := Add(s, 0, p[0]);
    MessagesOne(o);
    assert [] + [o] == [o];
    assert Start(c, |p|) == (s, []);
    assert Arrive(c, First(|p|, p[0])) == (d, [] + [o]);
  }

  lemma WithinRange(a: set<nat>, b: set<nat>, n: nat)
    ensures a == Range(n) && b <= Range(n) ==> a + b == Range(n)
  {
  }

  /** Continuation frames that do not complete a running transaction leave it running. */
  lemma {:induction false} RunningWaits(c: Collector, p: seq<seq<byte>>, m: map<nat, seq<byte>>, arrivals: seq<Arrival>)
    requires Running(c, |p|, m) && m.Keys <= Range(|p|) && |p| <= MAX_INDEX
    requires AllBelong(arrivals, p) && Firsts(arrivals) == 0 && m.Keys + Arrived(arrivals) != Range(|p|)
    ensures Messages(ArriveAll(c, arrivals).1) == []
    decreases |arrivals|
  {
    IndicesBelong(arrivals, p);
    hide Running, Range, Flatten, InOrder, Clean;
    if arrivals != [] {
      var a, rest := arrivals[0], arrivals[1..];
      assert Belongs(a, p);
      assert a.Cons? && a.payload == p[a.index] && AllBelong(rest, p) && Firsts(rest) == 0;
      hide Belongs, AllBelong, Firsts;
      var now := m[a.index := a.payload];
      assert now.Keys + Arrived(rest) == m.Keys + Arrived(arrivals);
      assert Arrived(rest) <= Range(|p|);
      WithinRange(now.Keys, Arrived(rest), |p|);
      AddRuns(c, |p|, m, a.index, a.payload);
      var (d, o) := Add(c, a.index, a.payload);
      MessagesConcat([o], ArriveAll(d, rest).1);
      hide Add, Arrived;
      MessagesOne(o);
      RunningWaits(d, p, now, rest);
    }
  }

  /** As long as a message is unfinished, its transaction runs, repeated first frames or not. */
  lemma {:induction false} UnfinishedRuns(c: Collector, p: seq<seq<byte>>, m: map<nat, seq<byte>>,
                                          arrivals: seq<Arrival>)
    requires Running(c, |p|, m) && m.Keys <= Range(|p|) && 1 < |p| <= MAX_INDEX
    requires AllBelong(arrivals, p) && Messages(ArriveAll(c, arrivals).1) == []
    ensures var d := ArriveAll(c, arrivals).0; d.active && d.temp == []
    decreases |arrivals|
  {
    hide Range, Flatten, InOrder;
    if arrivals != [] {
      var a, rest := arrivals[0], arrivals[1..];
      assert Belongs(a, p);
      var (d, o) := Arrive(c, a);
      MessagesConcat(o, ArriveAll(d, rest).1);
      match a {
        case First(count, payload) =>
          FirstAgainForgets(c, p);
          InRange(0, |p|);
          hide Arrive;
          UnfinishedRuns(d, p, map[0 := p[0]], rest);
        case Cons(index, payload) =>
          AddRuns(c, |p|, m, index, payload);
          MessagesOne(Add(c, index, payload).1);
          hide Add;
          UnfinishedRuns(d, p, m[index := payload], rest);
      }
    }
  }

  lemma FirstIsFresh(p: seq<seq<byte>>, one: map<nat, seq<byte>>, after: seq<Arrival>)
    requires p != [] && one == map[0 := p[0]]
    ensures forall i :: i in one ==> i < |p| && one[i] == p[i]
  {
  }

  lemma OneArrives(c: Collector, a: Arrival)
    ensures ArriveAll(c, [a]) == Arrive(c, a)
  {
    var (d, o) := Arrive(c, a);
    assert [a][1..] == [] && o + [] == o;
  }

  /**
   A message still unfinished when its last first frame arrives is completed by what follows exactly
   if every continuation index is among it: nothing from before the last first frame counts.
   */
  lemma LastFirstDecides(c: Collector, p: seq<seq<byte>>, m: map<nat, seq<byte>>, before: seq<Arrival>,
                         after: seq<Arrival>)
    requires Running(c, |p|, m) && m.Keys <= Range(|p|) && 1 < |p| <= MAX_INDEX
    requires AllBelong(before, p) && Messages(ArriveAll(c, before).1) == []
    requires AllBelong(after, p) && Firsts(after) == 0
    ensures Messages(ArriveAll(c, before + [First(|p|, p[0])] + after).1)
         == if {0} + Arrived(after) == Range(|p|) then [Flatten(p)] else []
  {
    hide Running, Range, Flatten, InOrder, Arrived, Firsts;
    var f := First(|p|, p[0]);
    UnfinishedRuns(c, p, m, before);
    var (d, o1) := ArriveAll(c, before);
    FirstAgainForgets(d, p);
    OneArrives(d, f);
    var (e, o2) := ArriveAll(d, [f]);
    var (g, o3) := ArriveAll(e, after);
    ArriveAllConcat(c, before, [f]);
    ArriveAllConcat(c, before + [f], after);
    MessagesConcat(o1, o2);
    MessagesConcat(o1 + o2, o3);
    var one := map[0 := p[0]];
    assert one.Keys == {0};
    InRange(0, |p|);
    InRange(1, |p|);
    hide ArriveAll, Messages;
    assert one.Keys != Range(|p|) by { assert 1 !in one.Keys; }
    if {0} + Arrived(after) == Range(|p|) {
      RunningDelivers(e, p, one, after);
      FirstIsFresh(p, one, after);
      DeliversFresh(e, p, one, after);
    } else {
      RunningWaits(e, p, one, after);
    }
  }

  function Repeated(n: nat, data: seq<byte>): seq<seq<byte>> {
    if n == 0 then [] else [data] + Repeated(n - 1, data)
  }

  lemma SingleFrame(c: Collector, p: seq<seq<byte>>)
    requires Clean(c) && |p| == 1
    ensures var (d, outs) := Arrive(c, First(1, p[0])); Messages(outs) == [Flatten(p)] && Clean(d)
  {
    var s := Collector(map[], {}, 1, true, []);
    RestartFrom(s, p);
    var (d, o) := Add(s, 0, p[0]);
    MessagesOne(o);
    assert [] + [o] == [o];
    assert Start(c, 1) == (s, []);
  }

  /** A one-frame message is delivered once more with each repetition. */
  lemma {:induction false} SingleFrameRepeats(c: Collector, p: seq<seq<byte>>, arrivals: seq<Arrival>)
    requires Clean(c) && |p| == 1 && AllBelong(arrivals, p)
    ensures var (d, outs) := ArriveAll(c, arrivals);
            Messages(outs) == Repeated(|arrivals|, Flatten(p)) && Clean(d)
    decreases |arrivals|
  {
    hide Flatten;
    if arrivals != [] {
      assert Belongs(arrivals[0], p);
      var a := arrivals[0];
      SingleFrame(c, p);
      var (d, o) := Arrive(c, a);
      hide Arrive;
      SingleFrameRepeats(d, p, arrivals[1..]);
      MessagesConcat(o, ArriveAll(d, arrivals[1..]).1);
    }
  }

  // ---- the object ----

  class FrameCollector {
    var frameData: map<nat, seq<byte>>
    var bitmap: set<nat>
    var expectedFrames: nat
    var transactionInProgress: bool
    var tempFrameData: seq<Pending>

    ghost function Model(): Collector
      reads this
    {
      Collector(frameData, bitmap, expectedFrames, transactionInProgress, tempFrameData)
    }

    constructor ()
      ensures Model() == Empty()
    {
      frameData, bitmap, expectedFrames, transactionInProgress, tempFrameData := map[], {}, 0, false, [];
    }

    method AddFrame(index: nat, payload: seq<byte>) returns (o: Outcome)
      modifies this
      ensures (Model(), o) == Add(old(Model()), index, payload)
    {
      if !transactionInProgress {
        tempFrameData := Put(tempFrameData, index, payload);
        return Quiet;
      }
      frameData := frameData[index := payload];
      if index >= MAX_INDEX {
        return Raised;
      }
      bitmap := bitmap + {index};
      if |frameData| != expectedFrames {
        return if |frameData| % 4 == 0 then Report(bitmap) else Quiet;
      }
      var data := [];
      for i := 0 to expectedFrames
        invariant Assemble(frameData, i) == Some(data)
      {
        if i !in frameData {
          AssembleStops(frameData, i, expectedFrames);
          return Raised;
        }
        data := data + frameData[i];
      }
      transactionInProgress := false;
      tempFrameData := [];
      o := Complete(bitmap, data);
    }

    /** Takes the buffered frames out before any of them is added again. */
    method StartTransaction(expected: nat) returns (outs: seq<Outcome>)
      modifies this
      ensures (Model(), outs) == Start(old(Model()), expected)
    {
      hide Add;
      frameData, bitmap, expectedFrames, transactionInProgress := map[], {}, expected, true;
      var pending := tempFrameData;
      tempFrameData := [];
      ghost var start := Model();
      outs := [];
      assert pending[0..] == pending;
      for i := 0 to |pending|
        invariant Replay(start, pending).0 == Replay(Model(), pending[i..]).0
        invariant Replay(start, pending).1 == outs + Replay(Model(), pending[i..]).1
      {
        assert pending[i..][1..] == pending[i + 1..];
        var o := AddFrame(pending[i].index, pending[i].payload);
        ghost var more := Replay(Model(), pending[i + 1..]).1;
        assert outs + ([o] + more) == outs + [o] + more;
        outs := outs + [o];
        if o.Raised? {
          return;
        }
      }
      assert outs + [] == outs;
    }

    /** One frame from the link. */
    method Receive(a: Arrival) returns (outs: seq<Outcome>)
      modifies this
      ensures (Model(), outs) == Arrive(old(Model()), a)
    {
      hide Add, Start;
      match a
      case Cons(index, payload) =>
        var o := AddFrame(index, payload);
        outs := [o];
      case First(count, payload) =>
        outs := StartTransaction(count);
        if Raised !in outs {
          var o := AddFrame(0, payload);
          outs := outs + [o];
        }
    }
  }
}
