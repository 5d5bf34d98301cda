/** The traffic statistics of stat.go: two cumulative bit counters, a
    bandwidth window the background sampler fills in, and the sampler's
    lifecycle. Every operation is a transition from one `Stat` value to the
    next; the atomics of the source are sequential steps here. */
module Stats {
  import opened GoTypes

  /** The `bandwidth` record: counters seen at the last sample and the
      deltas that sample computed. */
  datatype Window = Window(lastRx: u64, lastTx: u64, bandwidthRx: u64, bandwidthTx: u64)

  /** The sampling goroutine: it waits once on cancellation or on one
      ticker tick, then returns. */
  datatype Task = Running | Sampled | Cancelled

  /** What the sampler's `select` can wake up on. */
  datatype Wake = Done | Tick

  /** A `Stat`: the counters, the window, the task, and whether its
      context has been cancelled. */
  datatype Stat = Stat(rx: u64, tx: u64, bw: Window, task: Task, cancelled: bool)

  /** A transition of a `Stat`, from a connection, the owner or the sampler. */
  datatype StatOp =
    | AddRxOp(rxBits: u64)
    | AddTxOp(txBits: u64)
    | ResetOp
    | CloseOp
    | WakeOp(wake: Wake)

  function GetRx(s: Stat): u64
  {
    s.rx
  }

  function GetTx(s: Stat): u64
  {
    s.tx
  }

  /** The last computed per-interval deltas, not the cumulative counters. */
  function Bandwidth(s: Stat): (u64, u64)
  {
    (s.bw.bandwidthRx, s.bw.bandwidthTx)
  }

  /** `NewStatWithInterval`: everything zero and the sampler started. The
      context derived from an already cancelled parent starts cancelled. */
  function NewStatWithInterval(parentCancelled: bool): (s: Stat)
    ensures GetRx(s) == 0 && GetTx(s) == 0 && Bandwidth(s) == (0, 0)
    ensures s.bw.lastRx == 0 && s.bw.lastTx == 0
    ensures s.task == Running && s.cancelled == parentCancelled
  {
    Stat(0, 0, Window(0, 0, 0, 0), Running, parentCancelled)
  }

  /** `NewStat`: a background (never cancelled) parent context. */
  function NewStat(): (s: Stat)
    ensures GetRx(s) == 0 && GetTx(s) == 0 && Bandwidth(s) == (0, 0)
    ensures s.bw.lastRx == 0 && s.bw.lastTx == 0
    ensures s.task == Running && !s.cancelled
  {
    NewStatWithInterval(false)
  }

  /** `AddRx`: the receive counter advances by exactly `k` modulo 2^64 and
      nothing else changes. */
  function AddRx(s: Stat, k: u64): (r: Stat)
    ensures Sub(GetRx(r), GetRx(s)) == k
    ensures GetRx(s) + k < Modulus ==> GetRx(r) == GetRx(s) + k
    ensures r == s.(rx := r.rx)
  {
    SubAdd(s.rx, k);
    s.(rx := Add(s.rx, k))
  }

  /** `AddTx`: the transmit counterpart of `AddRx`. */
  function AddTx(s: Stat, k: u64): (r: Stat)
    ensures Sub(GetTx(r), GetTx(s)) == k
    ensures GetTx(s) + k < Modulus ==> GetTx(r) == GetTx(s) + k
    ensures r == s.(tx := r.tx)
  {
    SubAdd(s.tx, k);
    s.(tx := Add(s.tx, k))
  }

  /** `Reset`: both counters and the whole window are zero afterwards; the
      sampler is not stopped. */
  function Reset(s: Stat): (r: Stat)
    ensures GetRx(r) == 0 && GetTx(r) == 0 && Bandwidth(r) == (0, 0)
    ensures r.bw.lastRx == 0 && r.bw.lastTx == 0
    ensures r.task == s.task && r.cancelled == s.cancelled
  {
    s.(rx := 0, tx := 0, bw := Window(0, 0, 0, 0))
  }

  /** `Close`: cancels the sampler's context and touches nothing else. */
  function Close(s: Stat): (r: Stat)
    ensures r.cancelled
    ensures GetRx(r) == GetRx(s) && GetTx(r) == GetTx(s) && r.bw == s.bw
    ensures r.task == s.task
  {
    s.(cancelled := true)
  }

  /** The body of the tick branch: the new bandwidth is what was added
      since the previous sample, and the current counters become the
      baseline for the next one. */
  function Sample(s: Stat): (r: Stat)
    ensures Add(s.bw.lastRx, Bandwidth(r).0) == GetRx(s)
    ensures Add(s.bw.lastTx, Bandwidth(r).1) == GetTx(s)
    ensures r.bw.lastRx == GetRx(r) == GetRx(s)
    ensures r.bw.lastTx == GetTx(r) == GetTx(s)
    ensures r == s.(bw := r.bw)
  {
    var rx := s.rx;
    var tx := s.tx;
    s.(bw := Window(rx, tx, Sub(rx, s.bw.lastRx), Sub(tx, s.bw.lastTx)))
  }

  /** One wake-up of the sampling goroutine. Once it has returned it never
      acts again; `Done` is only ready once the context is cancelled; a
      tick samples exactly once and ends the task. */
  function SamplerStep(s: Stat, w: Wake): (r: Stat)
    ensures s.task != Running ==> r == s
    ensures GetRx(r) == GetRx(s) && GetTx(r) == GetTx(s) && r.cancelled == s.cancelled
    ensures s.task == Running && w == Tick ==> r.task == Sampled && r == Sample(s).(task := Sampled)
    ensures s.task == Running && w == Done ==>
              r.bw == s.bw && (r.task == Cancelled <==> s.cancelled) && (r.task == Running <==> !s.cancelled)
  {
    if s.task != Running then s
    else match w
      case Done => if s.cancelled then s.(task := Cancelled) else s
      case Tick => Sample(s).(task := Sampled)
  }

  /** One transition of any kind. */
  function Step(s: Stat, op: StatOp): (r: Stat)
    ensures s.task != Running ==> r.task == s.task
    ensures s.task == Running && op == WakeOp(Tick) ==> r.task == Sampled
  {
    match op
    case AddRxOp(k) => AddRx(s, k)
    case AddTxOp(k) => AddTx(s, k)
    case ResetOp => Reset(s)
    case CloseOp => Close(s)
    case WakeOp(w) => SamplerStep(s, w)
  }

  /** The state after applying `ops` in order. */
  function Run(s: Stat, ops: seq<StatOp>): Stat
    decreases |ops|
  {
    if ops == [] then s else Run(Step(s, ops[0]), ops[1..])
  }

  /** How many of `ops` make the sampler compute a bandwidth sample. */
  function Samples(s: Stat, ops: seq<StatOp>): nat
    decreases |ops|
  {
    if ops == [] then 0
    else (if ops[0] == WakeOp(Tick) && s.task == Running then 1 else 0) + Samples(Step(s, ops[0]), ops[1..])
  }

  /** The sampler is single-shot: whatever happens, at most one sample is
      ever taken, and none once the task has returned. */
  lemma {:induction false} AtMostOneSample(s: Stat, ops: seq<StatOp>)
    ensures Samples(s, ops) <= if s.task == Running then 1 else 0
    decreases |ops|
  {
    if ops != [] {
      var s' := Step(s, ops[0]);
      AtMostOneSample(s', ops[1..]);
      if s.task == Running && ops[0] == WakeOp(Tick) {
        assert s'.task == Sampled;
      }
    }
  }

  /** A task that is not running stays that way and never samples again. */
  lemma {:induction false} TerminatedStaysTerminated(s: Stat, ops: seq<StatOp>)
    requires s.task != Running
    ensures Run(s, ops).task == s.task
    ensures Samples(s, ops) == 0
    decreases |ops|
  {
    if ops != [] {
      TerminatedStaysTerminated(Step(s, ops[0]), ops[1..]);
    }
  }

  /** Cancellation first: the task ends without sampling, and no later
      event makes it sample. */
  lemma CancelledFirstNeverSamples(s: Stat, ops: seq<StatOp>)
    requires s.task == Running && s.cancelled
    ensures Run(s, [WakeOp(Done)] + ops).task == Cancelled
    ensures Samples(s, [WakeOp(Done)] + ops) == 0
    ensures Bandwidth(Step(s, WakeOp(Done))) == Bandwidth(s)
  {
    var all := [WakeOp(Done)] + ops;
    assert all[0] == WakeOp(Done) && all[1..] == ops;
    TerminatedStaysTerminated(Step(s, WakeOp(Done)), ops);
  }

  /** Tick first: exactly one sample, whatever follows. */
  lemma TickFirstSamplesOnce(s: Stat, ops: seq<StatOp>)
    requires s.task == Running
    ensures Samples(s, [WakeOp(Tick)] + ops) == 1
    ensures Run(s, [WakeOp(Tick)] + ops).task == Sampled
  {
    var all := [WakeOp(Tick)] + ops;
    assert all[0] == WakeOp(Tick) && all[1..] == ops;
    TerminatedStaysTerminated(Step(s, WakeOp(Tick)), ops);
  }

  /** `Close` twice is `Close` once. */
  lemma CloseIdempotent(s: Stat)
    ensures Close(Close(s)) == Close(s)
  {
  }

  /** A second sample with no addition in between reports zero bandwidth. */
  lemma SampleTwiceIsZero(s: Stat)
    ensures Bandwidth(Sample(Sample(s))) == (0, 0)
  {
  }

  /** Only counter additions. */
  predicate AddsOnly(ops: seq<StatOp>)
  {
    forall i :: 0 <= i < |ops| ==> ops[i].AddRxOp? || ops[i].AddTxOp?
  }

  /** Total receive bits added by `ops`, without truncation. */
  function SumRx(ops: seq<StatOp>): nat
    decreases |ops|
  {
    if ops == [] then 0 else (if ops[0].AddRxOp? then ops[0].rxBits else 0) + SumRx(ops[1..])
  }

  /** Total transmit bits added by `ops`, without truncation. */
  function SumTx(ops: seq<StatOp>): nat
    decreases |ops|
  {
    if ops == [] then 0 else (if ops[0].AddTxOp? then ops[0].txBits else 0) + SumTx(ops[1..])
  }

  /** Dropping the first operation keeps a run additions-only. */
  lemma AddsOnlyTail(ops: seq<StatOp>)
    requires ops != [] && AddsOnly(ops)
    ensures AddsOnly(ops[1..])
  {
    forall i | 0 <= i < |ops[1..]| ensures ops[1..][i].AddRxOp? || ops[1..][i].AddTxOp? {
      assert ops[1..][i] == ops[i + 1];
    }
  }

  /** A run of additions is one addition of the totals, modulo 2^64. */
  lemma {:induction false} AddsAccumulate(s: Stat, ops: seq<StatOp>)
    requires AddsOnly(ops)
    ensures var t := Run(s, ops);
            && t.rx == Wrap(s.rx + SumRx(ops)) && t.tx == Wrap(s.tx + SumTx(ops))
            && t.bw == s.bw && t.task == s.task && t.cancelled == s.cancelled
    decreases |ops|
  {
    if ops != [] {
      var s' := Step(s, ops[0]);
      var rest := ops[1..];
      AddsOnlyTail(ops);
      AddsAccumulate(s', rest);
      assert Run(s, ops) == Run(s', rest);
      if ops[0].AddRxOp? {
        var k := ops[0].rxBits;
        assert s' == s.(rx := Add(s.rx, k));
        assert SumRx(ops) == k + SumRx(rest) && SumTx(ops) == SumTx(rest);
        AddThenWrap(s.rx, k, SumRx(rest));
      } else {
        var k := ops[0].txBits;
        assert s' == s.(tx := Add(s.tx, k));
        assert SumTx(ops) == k + SumTx(rest) && SumRx(ops) == SumRx(rest);
        AddThenWrap(s.tx, k, SumTx(rest));
      }
    } else {
      WrapId(s.rx);
      WrapId(s.tx);
    }
  }

  /** Adding `k` to a counter and then `x` more, truncated, is adding
      `k + x` at once. */
  lemma AddThenWrap(a: u64, k: u64, x: int)
    ensures Wrap(Add(a, k) + x) == Wrap(a + (k + x))
  {
    AddIsWrap(a, k);
    WrapAdd(a + k, x);
  }

  /** From a point where the baseline equals the counters (construction or
      just after a sample), the next sample reports exactly what was added
      since, modulo 2^64, and exactly the sum when it does not wrap. */
  lemma BandwidthIsSumOfAdds(s: Stat, ops: seq<StatOp>)
    requires AddsOnly(ops)
    requires s.bw.lastRx == s.rx && s.bw.lastTx == s.tx
    ensures var r := Sample(Run(s, ops));
            Bandwidth(r) == (Wrap(SumRx(ops)), Wrap(SumTx(ops))) && GetRx(r) == Wrap(s.rx + SumRx(ops))
  {
    AddsAccumulate(s, ops);
    WindowAfterAdds(s, Run(s, ops), SumRx(ops), SumTx(ops));
  }

  /** A state reached from a fresh baseline by adding `x` and `y` bits
      samples as `x` and `y` modulo 2^64. */
  lemma WindowAfterAdds(s: Stat, t: Stat, x: nat, y: nat)
    requires s.bw.lastRx == s.rx && s.bw.lastTx == s.tx
    requires t.rx == Wrap(s.rx + x) && t.tx == Wrap(s.tx + y) && t.bw == s.bw
    ensures Bandwidth(Sample(t)) == (Wrap(x), Wrap(y)) && GetRx(Sample(t)) == t.rx
  {
    SubWrap(s.rx, x);
    SubWrap(s.tx, y);
  }

  /** Without wrap-around the sample is exactly the number of bits added. */
  lemma BandwidthExactWithoutWrap(s: Stat, ops: seq<StatOp>)
    requires AddsOnly(ops)
    requires s.bw.lastRx == s.rx && s.bw.lastTx == s.tx
    requires SumRx(ops) < Modulus && SumTx(ops) < Modulus
    ensures Bandwidth(Sample(Run(s, ops))) == (SumRx(ops), SumTx(ops))
  {
    BandwidthIsSumOfAdds(s, ops);
    WrapId(SumRx(ops));
    WrapId(SumTx(ops));
  }

  /** `Reset` restarts the window: after it, whatever came before, the
      next sample reports exactly the bits added since the reset, modulo
      2^64, and the counters hold just those bits. */
  lemma ResetRestartsWindow(s: Stat, ops: seq<StatOp>)
    requires AddsOnly(ops)
    ensures var r := Sample(Run(Reset(s), ops));
            Bandwidth(r) == (Wrap(SumRx(ops)), Wrap(SumTx(ops)))
            && GetRx(r) == Wrap(SumRx(ops)) && GetTx(r) == Wrap(SumTx(ops))
  {
    var z := Reset(s);
    BandwidthIsSumOfAdds(z, ops);
    AddsAccumulate(z, ops);
  }

  /** The scenario of a fresh Stat: add `k` transmit bits, let the tick
      fire; the bandwidth reports `k` and the cumulative counter still
      holds `k`. */
  lemma FreshStatFirstTick(k: u64)
    ensures var s := SamplerStep(AddTx(NewStat(), k), Tick);
            Bandwidth(s) == (0, k) && GetTx(s) == k && s.task == Sampled
  {
  }
}
