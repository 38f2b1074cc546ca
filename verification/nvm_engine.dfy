/**
 * The NVM driver's register sequences, written as data and interpreted
 * against the bus. `Exec` stops at the first failing transfer, as every
 * step of the driver returns false as soon as a transfer fails; `Sim` is
 * the same interpretation on a bus that never fails.
 */
module NvmEngine {
  import opened Bytes
  import opened Outcomes
  import opened NvmChip

  /** A driver step: a register write, a register read, or a wait until REQ clears. */
  datatype Op = Put(reg: Byte, data: seq<Byte>) | Get(reg: Byte, len: nat) | Poll

  function Put1(reg: Byte, v: Byte): Op { Put(reg, [v]) }

  predicate Requesting(v: seq<Byte>) { |v| > 0 && v[0] & REQ != 0 }

  /** The do-while loop that reads FTP_CTRL_0 until REQ reads back clear. */
  function WaitIdle(b: Bus): Run<Bus, seq<Byte>>
    decreases b.limit - |b.log|
  {
    var (b1, v) :- Transact(b, Read(CTRL_0, 1));
    if Requesting(v) then WaitIdle(b1) else Done(b1, [])
  }

  function Step(b: Bus, op: Op): Run<Bus, seq<Byte>>
  {
    match op
    case Put(reg, data) =>
      var (b1, _) :- Transact(b, Write(reg, data));
      Done(b1, [])
    case Get(reg, n) => Transact(b, Read(reg, n))
    case Poll => WaitIdle(b)
  }

  /** Runs `ops` in order; the value is the concatenation of the bytes read by `Get`. */
  function Exec(b: Bus, ops: seq<Op>): Run<Bus, seq<Byte>>
    decreases |ops|
  {
    if ops == [] then Done(b, [])
    else
      var (b1, v) :- Step(b, ops[0]);
      var (b2, w) :- Exec(b1, ops[1..]);
      Done(b2, v + w)
  }

  /** What a fault-free bus yields: the device afterwards, the bytes read, the transfers issued. */
  datatype Trace = Trace(dev: Device, data: seq<Byte>, txns: seq<Txn>)

  function Polls(n: nat): (s: seq<Txn>)
    ensures |s| == n
  {
    seq(n, _ => Read(CTRL_0, 1))
  }

  function SimStep(d: Device, op: Op): Trace
  {
    match op
    case Put(reg, data) => Trace(Accept(d, reg, data), [], [Write(reg, data)])
    case Get(reg, n) => Trace(Answer(d, reg, n).0, Answer(d, reg, n).1, [Read(reg, n)])
    case Poll => Trace(d.(busy := 0), [], Polls(d.busy + 1))
  }

  /** `t` followed by `u`, where `u` starts from the device `t` ends with. */
  function Cat(t: Trace, u: Trace): Trace
  {
    Trace(u.dev, t.data + u.data, t.txns + u.txns)
  }

  function Sim(d: Device, ops: seq<Op>): Trace
    decreases |ops|
  {
    if ops == [] then Trace(d, [], [])
    else
      var t := SimStep(d, ops[0]);
      Cat(t, Sim(t.dev, ops[1..]))
  }

  /** No transfer numbered in [lo, hi) fails. */
  predicate Clean(faults: set<nat>, lo: nat, hi: nat)
  {
    forall j :: lo <= j < hi ==> j !in faults
  }

  /** The transfers logged between `b` and `e` are a prefix of `script`. */
  predicate Prefix(b: Bus, e: Bus, script: seq<Txn>)
  {
    e.faults == b.faults && e.limit == b.limit &&
    |b.log| <= |e.log| <= |b.log| + |script| &&
    e.log == b.log + script[..|e.log| - |b.log|]
  }

  /**
   * `r` is what issuing `script` from `b` can lead to: all of it with no
   * fault, a stop right after the first faulty transfer, or a stall when
   * the budget runs out before the script ends.
   */
  predicate Follows<T>(b: Bus, r: Run<Bus, T>, script: seq<Txn>)
  {
    var e := r.state;
    Prefix(b, e, script) &&
    match r
    case Done(_, _) => |e.log| == |b.log| + |script| && Clean(b.faults, |b.log|, |e.log|)
    case Stop(_) =>
      |b.log| < |e.log| && |e.log| - 1 in b.faults && Clean(b.faults, |b.log|, |e.log| - 1)
    case Hang(_) =>
      b.limit <= |e.log| < |b.log| + |script| && Clean(b.faults, |b.log|, |e.log|)
  }

  /** `r` follows the trace `t`, and when it completes it ends where `t` does. */
  predicate Agrees(b: Bus, r: Run<Bus, seq<Byte>>, t: Trace)
  {
    Follows(b, r, t.txns) && (r.Done? ==> r.state.dev == t.dev && r.value == t.data)
  }

  lemma PollsCons(n: nat)
    ensures Polls(n + 1) == [Read(CTRL_0, 1)] + Polls(n)
  {
  }

  /** A completed first part followed by a second part follows the joined script. */
  lemma Chain<T, U>(b: Bus, r1: Run<Bus, T>, s1: seq<Txn>, r2: Run<Bus, U>, s2: seq<Txn>)
    requires Follows(b, r1, s1) && r1.Done?
    requires Follows(r1.state, r2, s2)
    ensures Follows(b, r2, s1 + s2)
  {
    var e := r2.state;
    var k := |e.log| - |r1.state.log|;
    assert (s1 + s2)[..|s1| + k] == s1 + s2[..k];
  }

  /** An unfinished first part still follows any extension of its script. */
  lemma Extend<T, U>(b: Bus, r1: Run<Bus, T>, s1: seq<Txn>, r2: Run<Bus, U>, s2: seq<Txn>)
    requires Follows(b, r1, s1) && !r1.Done?
    requires r2.state == r1.state && r2.Stop? == r1.Stop? && r2.Hang? == r1.Hang?
    ensures Follows(b, r2, s1 + s2)
  {
    var k := |r1.state.log| - |b.log|;
    assert (s1 + s2)[..k] == s1[..k];
  }

  /** Whether a run follows a script depends only on how it ends, not on the value it carries. */
  lemma Recast<T, U>(b: Bus, r1: Run<Bus, T>, r2: Run<Bus, U>, script: seq<Txn>)
    requires Follows(b, r1, script)
    requires r2.state == r1.state && r2.Done? == r1.Done? && r2.Stop? == r1.Stop?
    ensures Follows(b, r2, script)
  {
  }

  lemma {:induction false} WaitIdleAgrees(b: Bus)
    ensures Agrees(b, WaitIdle(b), SimStep(b.dev, Poll))
    decreases b.limit - |b.log|
  {
    var r := Transact(b, Read(CTRL_0, 1));
    PollsCons(b.dev.busy);
    if r.Done? {
      var b1 := r.state;
      if Requesting(r.value) {
        assert b.dev.busy > 0;
        WaitIdleAgrees(b1);
        Chain(b, r, [Read(CTRL_0, 1)], WaitIdle(b1), Polls(b1.dev.busy + 1));
      } else {
        assert b.dev.busy == 0;
      }
    }
  }

  lemma StepAgrees(b: Bus, op: Op)
    ensures Agrees(b, Step(b, op), SimStep(b.dev, op))
  {
    if op.Poll? {
      WaitIdleAgrees(b);
    }
  }

  /** The interpreter and the fault-free simulation agree on every bus. */
  lemma {:induction false} ExecAgrees(b: Bus, ops: seq<Op>)
    ensures Agrees(b, Exec(b, ops), Sim(b.dev, ops))
    decreases |ops|
  {
    if ops != [] {
      var r1 := Step(b, ops[0]);
      var t1 := SimStep(b.dev, ops[0]);
      var t := Sim(b.dev, ops);
      StepAgrees(b, ops[0]);
      if r1.Done? {
        var r2 := Exec(r1.state, ops[1..]);
        ExecAgrees(r1.state, ops[1..]);
        Chain(b, r1, t1.txns, r2, Sim(t1.dev, ops[1..]).txns);
      } else {
        Extend(b, r1, t1.txns, Exec(b, ops), Sim(t1.dev, ops[1..]).txns);
      }
    }
  }

  /** With no fault in range and enough budget, a sequence runs exactly as simulated. */
  lemma ExecIdeal(b: Bus, ops: seq<Op>)
    requires Clean(b.faults, |b.log|, |b.log| + |Sim(b.dev, ops).txns|)
    requires |b.log| + |Sim(b.dev, ops).txns| <= b.limit
    ensures Exec(b, ops) == Done(b.(dev := Sim(b.dev, ops).dev, log := b.log + Sim(b.dev, ops).txns), Sim(b.dev, ops).data)
  {
    ExecAgrees(b, ops);
    var r := Exec(b, ops);
    var s := Sim(b.dev, ops).txns;
    assert s[..|s|] == s;
  }

  lemma SimCons(d: Device, op: Op, rest: seq<Op>)
    ensures Sim(d, [op] + rest) == Cat(SimStep(d, op), Sim(SimStep(d, op).dev, rest))
  {
    assert ([op] + rest)[1..] == rest;
  }

  lemma SimPut(d: Device, reg: Byte, data: seq<Byte>, rest: seq<Op>)
    ensures Sim(d, [Put(reg, data)] + rest).dev == Sim(Accept(d, reg, data), rest).dev
    ensures Sim(d, [Put(reg, data)] + rest).data == Sim(Accept(d, reg, data), rest).data
    ensures |Sim(d, [Put(reg, data)] + rest).txns| == 1 + |Sim(Accept(d, reg, data), rest).txns|
  {
    SimCons(d, Put(reg, data), rest);
  }

  lemma SimGet(d: Device, reg: Byte, n: nat, rest: seq<Op>)
    ensures Sim(d, [Get(reg, n)] + rest).dev == Sim(Answer(d, reg, n).0, rest).dev
    ensures Sim(d, [Get(reg, n)] + rest).data == Answer(d, reg, n).1 + Sim(Answer(d, reg, n).0, rest).data
    ensures |Sim(d, [Get(reg, n)] + rest).txns| == 1 + |Sim(Answer(d, reg, n).0, rest).txns|
  {
    SimCons(d, Get(reg, n), rest);
  }

  lemma SimPoll(d: Device, rest: seq<Op>)
    ensures Sim(d, [Poll] + rest).dev == Sim(d.(busy := 0), rest).dev
    ensures Sim(d, [Poll] + rest).data == Sim(d.(busy := 0), rest).data
    ensures |Sim(d, [Poll] + rest).txns| == d.busy + 1 + |Sim(d.(busy := 0), rest).txns|
  {
    SimCons(d, Poll, rest);
  }

  lemma SimNil(d: Device)
    ensures Sim(d, []) == Trace(d, [], [])
  {
  }

  /** Simulating a concatenation simulates its parts in turn. */
  lemma {:induction false} SimAppend(d: Device, a: seq<Op>, c: seq<Op>)
    ensures Sim(d, a + c) == Cat(Sim(d, a), Sim(Sim(d, a).dev, c))
    decreases |a|
  {
    if a == [] {
      assert a + c == c;
    } else {
      var t := SimStep(d, a[0]);
      var u := Sim(t.dev, a[1..]);
      assert (a + c)[0] == a[0];
      assert (a + c)[1..] == a[1..] + c;
      assert Sim(d, a + c) == Cat(t, Sim(t.dev, a[1..] + c));
      SimAppend(t.dev, a[1..], c);
      CatAssoc(t, u, Sim(u.dev, c));
    }
  }

  lemma CatAssoc(t: Trace, u: Trace, v: Trace)
    ensures Cat(Cat(t, u), v) == Cat(t, Cat(u, v))
  {
    assert (t.data + u.data) + v.data == t.data + (u.data + v.data);
    assert (t.txns + u.txns) + v.txns == t.txns + (u.txns + v.txns);
  }
}
