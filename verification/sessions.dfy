/** What a sequence of intercepted calls does to the shared `Stat` and to
    the token buckets: the effect traces of conn.go are replayed on the
    state machine of stat.go. */
module Sessions {
  import opened GoTypes
  import Stats
  import Conn

  /** The Stat transitions a trace causes: its additions, in order. */
  function StatOps(effects: seq<Conn.Effect>): seq<Stats.StatOp>
    decreases |effects|
  {
    if effects == [] then []
    else
      var head := match effects[0]
        case AddRx(b) => [Stats.AddRxOp(b)]
        case AddTx(b) => [Stats.AddTxOp(b)]
        case _ => [];
      head + StatOps(effects[1..])
  }

  /** Total tokens a trace asks of the receive bucket. */
  function RxCharged(effects: seq<Conn.Effect>): int
    decreases |effects|
  {
    if effects == [] then 0
    else (if effects[0].WaitRx? then effects[0].rxCost else 0) + RxCharged(effects[1..])
  }

  /** Total tokens a trace asks of the transmit bucket. */
  function TxCharged(effects: seq<Conn.Effect>): int
    decreases |effects|
  {
    if effects == [] then 0
    else (if effects[0].WaitTx? then effects[0].txCost else 0) + TxCharged(effects[1..])
  }

  /** The Stat transitions and bucket charges of consecutive traces are
      the concatenation and the sums of those of each. */
  lemma StatOpsAppend(a: seq<Conn.Effect>, b: seq<Conn.Effect>)
    ensures StatOps(a + b) == StatOps(a) + StatOps(b)
    ensures RxCharged(a + b) == RxCharged(a) + RxCharged(b)
    ensures TxCharged(a + b) == TxCharged(a) + TxCharged(b)
  {
    OpsAppend(a, b);
    RxChargedAppend(a, b);
    TxChargedAppend(a, b);
  }

  lemma {:induction false} OpsAppend(a: seq<Conn.Effect>, b: seq<Conn.Effect>)
    ensures StatOps(a + b) == StatOps(a) + StatOps(b)
    decreases |a|
  {
    if a == [] {
      assert a + b == b;
    } else {
      assert (a + b)[0] == a[0];
      assert (a + b)[1..] == a[1..] + b;
      OpsAppend(a[1..], b);
    }
  }

  lemma {:induction false} RxChargedAppend(a: seq<Conn.Effect>, b: seq<Conn.Effect>)
    ensures RxCharged(a + b) == RxCharged(a) + RxCharged(b)
    decreases |a|
  {
    if a == [] {
      assert a + b == b;
    } else {
      assert (a + b)[0] == a[0];
      assert (a + b)[1..] == a[1..] + b;
      RxChargedAppend(a[1..], b);
    }
  }

  lemma {:induction false} TxChargedAppend(a: seq<Conn.Effect>, b: seq<Conn.Effect>)
    ensures TxCharged(a + b) == TxCharged(a) + TxCharged(b)
    decreases |a|
  {
    if a == [] {
      assert a + b == b;
    } else {
      assert (a + b)[0] == a[0];
      assert (a + b)[1..] == a[1..] + b;
      TxChargedAppend(a[1..], b);
    }
  }

  lemma {:induction false} RunAppend(s: Stats.Stat, a: seq<Stats.StatOp>, b: seq<Stats.StatOp>)
    ensures Stats.Run(s, a + b) == Stats.Run(Stats.Run(s, a), b)
    decreases |a|
  {
    if a == [] {
      assert a + b == b;
    } else {
      assert (a + b)[0] == a[0];
      assert (a + b)[1..] == a[1..] + b;
      RunAppend(Stats.Step(s, a[0]), a[1..], b);
    }
  }

  /** Two additions to the receive counter are one addition of their sum. */
  lemma AddRxTwice(s: Stats.Stat, x: nat, y: nat)
    ensures Stats.AddRx(Stats.AddRx(s, Wrap(x)), Wrap(y)) == Stats.AddRx(s, Wrap(x + y))
  {
    AddTwice(s.rx, x, y);
    assert Stats.AddRx(s, Wrap(x)) == s.(rx := Add(s.rx, Wrap(x)));
  }

  /** Two additions to the transmit counter are one addition of their sum. */
  lemma AddTxTwice(s: Stats.Stat, x: nat, y: nat)
    ensures Stats.AddTx(Stats.AddTx(s, Wrap(x)), Wrap(y)) == Stats.AddTx(s, Wrap(x + y))
  {
    AddTwice(s.tx, x, y);
    assert Stats.AddTx(s, Wrap(x)) == s.(tx := Add(s.tx, Wrap(x)));
  }

  /** Adding zero bits changes nothing. */
  lemma AddNothing(s: Stats.Stat)
    ensures Stats.AddRx(s, Wrap(0)) == s && Stats.AddTx(s, Wrap(0)) == s
  {
  }

  /** The effects of reading, one call per transport outcome in `ios`. */
  function ReadSession(adv: Conn.Advanced, ios: seq<Conn.IoResult>): seq<Conn.Effect>
    decreases |ios|
  {
    if ios == [] then [] else Conn.Read(adv, ios[0]).effects + ReadSession(adv, ios[1..])
  }

  /** Bytes delivered by the successful reads of `ios`. */
  function Delivered(ios: seq<Conn.IoResult>): nat
    decreases |ios|
  {
    if ios == [] then 0 else (if ios[0].err == None then ios[0].n else 0) + Delivered(ios[1..])
  }

  /** The Stat transitions and bucket charges of a single effect. */
  lemma Single(e: Conn.Effect)
    ensures StatOps([e]) == match e
              case AddRx(b) => [Stats.AddRxOp(b)]
              case AddTx(b) => [Stats.AddTxOp(b)]
              case _ => []
    ensures RxCharged([e]) == if e.WaitRx? then e.rxCost else 0
    ensures TxCharged([e]) == if e.WaitTx? then e.txCost else 0
  {
    assert [e][1..] == [];
  }

  /** The Stat transitions and bucket charges of at most one effect. */
  lemma Optional(es: seq<Conn.Effect>)
    requires |es| <= 1
    ensures es == [] ==> StatOps(es) == [] && RxCharged(es) == 0 && TxCharged(es) == 0
    ensures es != [] ==> StatOps(es) == StatOps([es[0]]) && RxCharged(es) == RxCharged([es[0]])
                         && TxCharged(es) == TxCharged([es[0]])
  {
    if es != [] {
      assert es == [es[0]];
    }
  }

  /** One read credits the Stat with `n * 8` bits exactly when it succeeded
      with accounting on, and charges the receive bucket `n * 8` tokens
      exactly when it succeeded with throttling on. */
  lemma ReadStatOps(adv: Conn.Advanced, io: Conn.IoResult)
    ensures StatOps(Conn.Read(adv, io).effects)
            == if io.err == None && Conn.Accounting(adv) then [Stats.AddRxOp(Conn.Bits(io.n))] else []
    ensures RxCharged(Conn.Read(adv, io).effects)
            == if io.err == None && Conn.RxThrottled(adv) then io.n * 8 else 0
    ensures TxCharged(Conn.Read(adv, io).effects) == 0
  {
    var es := Conn.Read(adv, io).effects;
    Single(Conn.TransportRead);
    if io.err == None {
      var waits := if Conn.RxThrottled(adv) then [Conn.WaitRx(io.n * 8)] else [];
      var adds := if Conn.Accounting(adv) then [Conn.AddRx(Conn.Bits(io.n))] else [];
      assert es == ([Conn.TransportRead] + waits) + adds;
      StatOpsAppend([Conn.TransportRead] + waits, adds);
      StatOpsAppend([Conn.TransportRead], waits);
      Optional(waits);
      Optional(adds);
      Single(Conn.WaitRx(io.n * 8));
      Single(Conn.AddRx(Conn.Bits(io.n)));
    }
  }

  /** One read, replayed on a Stat. */
  lemma ReadOnStat(adv: Conn.Advanced, io: Conn.IoResult, s: Stats.Stat)
    ensures Stats.Run(s, StatOps(Conn.Read(adv, io).effects))
            == if io.err == None && Conn.Accounting(adv) then Stats.AddRx(s, Wrap(8 * io.n)) else s
  {
    ReadStatOps(adv, io);
    var ops := StatOps(Conn.Read(adv, io).effects);
    if io.err == None && Conn.Accounting(adv) {
      assert ops[1..] == [];
    }
  }

  /** Replaying a read session is replaying its first read, then the rest. */
  lemma ReadSessionStep(adv: Conn.Advanced, ios: seq<Conn.IoResult>, s: Stats.Stat)
    requires ios != []
    ensures Stats.Run(s, StatOps(ReadSession(adv, ios)))
            == Stats.Run(if ios[0].err == None && Conn.Accounting(adv)
                         then Stats.AddRx(s, Wrap(8 * ios[0].n)) else s,
                         StatOps(ReadSession(adv, ios[1..])))
  {
    var first := Conn.Read(adv, ios[0]).effects;
    var rest := ReadSession(adv, ios[1..]);
    StatOpsAppend(first, rest);
    RunAppend(s, StatOps(first), StatOps(rest));
    ReadOnStat(adv, ios[0], s);
  }

  /** A session of reads credits the Stat's receive counter with 8 bits per
      delivered byte, modulo 2^64, when accounting is on, and leaves the Stat
      alone otherwise; failed reads count for nothing. */
  lemma {:induction false} ReadSessionAccounting(adv: Conn.Advanced, ios: seq<Conn.IoResult>, s: Stats.Stat)
    ensures Stats.Run(s, StatOps(ReadSession(adv, ios)))
            == if Conn.Accounting(adv) then Stats.AddRx(s, Wrap(8 * Delivered(ios))) else s
    decreases |ios|
  {
    if ios == [] {
      AddNothing(s);
    } else {
      var io := ios[0];
      var tail := ios[1..];
      ReadSessionStep(adv, ios, s);
      var k := if io.err == None then io.n else 0;
      var s1 := if io.err == None && Conn.Accounting(adv) then Stats.AddRx(s, Wrap(8 * io.n)) else s;
      ReadSessionAccounting(adv, tail, s1);
      assert Delivered(ios) == k + Delivered(tail);
      if Conn.Accounting(adv) {
        assert s1 == Stats.AddRx(s, Wrap(8 * k)) by {
          if io.err != None {
            AddNothing(s);
          }
        }
        AddRxTwice(s, 8 * k, 8 * Delivered(tail));
      }
    }
  }

  /** The receive bucket is charged 8 tokens per delivered byte when
      throttling is on: after the data arrived, and never for a failed read. */
  lemma {:induction false} ReadSessionCharges(adv: Conn.Advanced, ios: seq<Conn.IoResult>)
    ensures RxCharged(ReadSession(adv, ios)) == if Conn.RxThrottled(adv) then 8 * Delivered(ios) else 0
    ensures TxCharged(ReadSession(adv, ios)) == 0
    decreases |ios|
  {
    if ios != [] {
      StatOpsAppend(Conn.Read(adv, ios[0]).effects, ReadSession(adv, ios[1..]));
      ReadStatOps(adv, ios[0]);
      ReadSessionCharges(adv, ios[1..]);
    }
  }

  /** One call of `Write` on a buffer of `len` bytes. */
  datatype WriteCall = WriteCall(len: nat, io: Conn.IoResult)

  /** The effects of writing, one call per entry of `calls`. */
  function WriteSession(adv: Conn.Advanced, calls: seq<WriteCall>): seq<Conn.Effect>
    decreases |calls|
  {
    if calls == [] then [] else Conn.Write(adv, calls[0].len, calls[0].io).effects + WriteSession(adv, calls[1..])
  }

  /** Bytes the transport reported written by the successful calls. */
  function Written(calls: seq<WriteCall>): nat
    decreases |calls|
  {
    if calls == [] then 0 else (if calls[0].io.err == None then calls[0].io.n else 0) + Written(calls[1..])
  }

  /** Bytes handed to `Write`, whether or not the write succeeded. */
  function Requested(calls: seq<WriteCall>): nat
    decreases |calls|
  {
    if calls == [] then 0 else calls[0].len + Requested(calls[1..])
  }

  /** One write credits the Stat with the transport's `n * 8` bits exactly
      when it succeeded with accounting on, and charges the transmit bucket
      `len * 8` tokens whenever throttling is on. */
  lemma WriteStatOps(adv: Conn.Advanced, len: nat, io: Conn.IoResult)
    ensures StatOps(Conn.Write(adv, len, io).effects)
            == if io.err == None && Conn.Accounting(adv) then [Stats.AddTxOp(Conn.Bits(io.n))] else []
    ensures TxCharged(Conn.Write(adv, len, io).effects) == if Conn.TxThrottled(adv) then len * 8 else 0
  {
    var es := Conn.Write(adv, len, io).effects;
    var waits := if Conn.TxThrottled(adv) then [Conn.WaitTx(len * 8)] else [];
    var adds := if io.err == None && Conn.Accounting(adv) then [Conn.AddTx(Conn.Bits(io.n))] else [];
    assert es == (waits + [Conn.TransportWrite]) + adds;
    StatOpsAppend(waits + [Conn.TransportWrite], adds);
    StatOpsAppend(waits, [Conn.TransportWrite]);
    Single(Conn.TransportWrite);
    Optional(waits);
    Optional(adds);
    Single(Conn.WaitTx(len * 8));
    Single(Conn.AddTx(Conn.Bits(io.n)));
  }

  /** One write, replayed on a Stat. */
  lemma WriteOnStat(adv: Conn.Advanced, c: WriteCall, s: Stats.Stat)
    ensures Stats.Run(s, StatOps(Conn.Write(adv, c.len, c.io).effects))
            == if c.io.err == None && Conn.Accounting(adv) then Stats.AddTx(s, Wrap(8 * c.io.n)) else s
  {
    WriteStatOps(adv, c.len, c.io);
    var ops := StatOps(Conn.Write(adv, c.len, c.io).effects);
    if c.io.err == None && Conn.Accounting(adv) {
      assert ops[1..] == [];
    }
  }

  /** Replaying a write session is replaying its first write, then the rest. */
  lemma WriteSessionStep(adv: Conn.Advanced, calls: seq<WriteCall>, s: Stats.Stat)
    requires calls != []
    ensures Stats.Run(s, StatOps(WriteSession(adv, calls)))
            == Stats.Run(if calls[0].io.err == None && Conn.Accounting(adv)
                         then Stats.AddTx(s, Wrap(8 * calls[0].io.n)) else s,
                         StatOps(WriteSession(adv, calls[1..])))
  {
    var first := Conn.Write(adv, calls[0].len, calls[0].io).effects;
    var rest := WriteSession(adv, calls[1..]);
    StatOpsAppend(first, rest);
    RunAppend(s, StatOps(first), StatOps(rest));
    WriteOnStat(adv, calls[0], s);
  }

  /** Without accounting, a write session leaves the Stat alone. */
  lemma {:induction false} WriteSessionSilent(adv: Conn.Advanced, calls: seq<WriteCall>, s: Stats.Stat)
    requires !Conn.Accounting(adv)
    ensures Stats.Run(s, StatOps(WriteSession(adv, calls))) == s
    decreases |calls|
  {
    if calls != [] {
      WriteSessionStep(adv, calls, s);
      WriteSessionSilent(adv, calls[1..], s);
    }
  }

  /** With accounting, a write session credits the Stat's transmit counter
      with 8 bits per byte the transport reports written, modulo 2^64. */
  lemma {:induction false} WriteSessionCredits(adv: Conn.Advanced, calls: seq<WriteCall>, s: Stats.Stat)
    requires Conn.Accounting(adv)
    ensures Stats.Run(s, StatOps(WriteSession(adv, calls))) == Stats.AddTx(s, Wrap(8 * Written(calls)))
    decreases |calls|
  {
    if calls == [] {
      AddNothing(s);
    } else {
      var c := calls[0];
      var tail := calls[1..];
      WriteSessionStep(adv, calls, s);
      if c.io.err == None {
        var s1 := Stats.AddTx(s, Wrap(8 * c.io.n));
        WriteSessionCredits(adv, tail, s1);
        assert Written(calls) == c.io.n + Written(tail);
        AddTxTwice(s, 8 * c.io.n, 8 * Written(tail));
      } else {
        WriteSessionCredits(adv, tail, s);
        assert Written(calls) == Written(tail);
      }
    }
  }

  /** A session of writes credits the Stat's transmit counter with 8 bits
      per byte the transport reports written (not per byte requested),
      modulo 2^64, when accounting is on, and leaves it alone otherwise. */
  lemma WriteSessionAccounting(adv: Conn.Advanced, calls: seq<WriteCall>, s: Stats.Stat)
    ensures Stats.Run(s, StatOps(WriteSession(adv, calls)))
            == if Conn.Accounting(adv) then Stats.AddTx(s, Wrap(8 * Written(calls))) else s
  {
    if Conn.Accounting(adv) {
      WriteSessionCredits(adv, calls, s);
    } else {
      WriteSessionSilent(adv, calls, s);
    }
  }

  /** The transmit bucket is charged 8 tokens per requested byte when
      throttling is on, including the bytes of writes that then failed. */
  lemma {:induction false} WriteSessionCharges(adv: Conn.Advanced, calls: seq<WriteCall>)
    ensures TxCharged(WriteSession(adv, calls)) == if Conn.TxThrottled(adv) then 8 * Requested(calls) else 0
    decreases |calls|
  {
    if calls != [] {
      StatOpsAppend(Conn.Write(adv, calls[0].len, calls[0].io).effects, WriteSession(adv, calls[1..]));
      WriteStatOps(adv, calls[0].len, calls[0].io);
      WriteSessionCharges(adv, calls[1..]);
    }
  }

  /** A call that fails at the transport leaves the Stat as it was. */
  lemma FailedCallsLeaveStat(adv: Conn.Advanced, len: nat, io: Conn.IoResult, s: Stats.Stat)
    requires io.err.Some?
    ensures Stats.Run(s, StatOps(Conn.Read(adv, io).effects)) == s
    ensures Stats.Run(s, StatOps(Conn.Write(adv, len, io).effects)) == s
  {
    ReadStatOps(adv, io);
    WriteStatOps(adv, len, io);
  }

  /** As written, no wrapper built from any options ever credits a Stat:
      `WithStat` binds it but raises the rate-limit bit. */
  lemma AsWrittenNeverAccounts(opts: seq<Conn.OptionHandler>, ios: seq<Conn.IoResult>,
                               calls: seq<WriteCall>, s: Stats.Stat)
    ensures Stats.Run(s, StatOps(ReadSession(Conn.Configure(opts), ios))) == s
    ensures Stats.Run(s, StatOps(WriteSession(Conn.Configure(opts), calls))) == s
  {
    Conn.NoOptionRaisesStatFlag(opts);
    ReadSessionAccounting(Conn.Configure(opts), ios, s);
    WriteSessionAccounting(Conn.Configure(opts), calls, s);
  }

  /** The concrete case: accounting only, write 100 bytes and read 100
      bytes. As written both counters stay at 0, not 800. */
  lemma AsWrittenLoopbackCountsNothing()
    ensures var adv := Conn.Configure([Conn.WithStat(Some(0))]);
            var tx := Stats.Run(Stats.NewStat(), StatOps(Conn.Write(adv, 100, Conn.IoResult(100, None)).effects));
            var rx := Stats.Run(Stats.NewStat(), StatOps(Conn.Read(adv, Conn.IoResult(100, None)).effects));
            Stats.GetTx(tx) == 0 && Stats.GetRx(rx) == 0
  {
    var adv := Conn.Configure([Conn.WithStat(Some(0))]);
    Conn.NoOptionRaisesStatFlag([Conn.WithStat(Some(0))]);
    UncountedWriteIsIdle(adv, 100, Conn.IoResult(100, None));
    ReadStatOps(adv, Conn.IoResult(100, None));
  }

  /** Without accounting a write causes no Stat transition, whatever its
      outcome. */
  lemma UncountedWriteIsIdle(adv: Conn.Advanced, len: nat, io: Conn.IoResult)
    requires !Conn.Accounting(adv)
    ensures StatOps(Conn.Write(adv, len, io).effects) == []
  {
    WriteStatOps(adv, len, io);
  }

  /** With the dedicated stat bit, any options that bind a Stat make every
      read session credit it with 8 bits per delivered byte. */
  lemma CorrectedAccountsEveryRead(opts: seq<Conn.OptionHandler>, ios: seq<Conn.IoResult>, s: Stats.Stat)
    requires Conn.HasStat(opts)
    ensures Stats.Run(s, StatOps(ReadSession(Conn.ConfigureCorrected(opts), ios)))
            == Stats.AddRx(s, Wrap(8 * Delivered(ios)))
  {
    Conn.CorrectedFlagsAreIndependent(opts);
    ReadSessionAccounting(Conn.ConfigureCorrected(opts), ios, s);
  }

  /** With the dedicated stat bit, any options that bind a Stat make every
      write session credit it with 8 bits per byte written. */
  lemma CorrectedAccountsEveryWrite(opts: seq<Conn.OptionHandler>, calls: seq<WriteCall>, s: Stats.Stat)
    requires Conn.HasStat(opts)
    ensures Stats.Run(s, StatOps(WriteSession(Conn.ConfigureCorrected(opts), calls)))
            == Stats.AddTx(s, Wrap(8 * Written(calls)))
  {
    Conn.CorrectedFlagsAreIndependent(opts);
    WriteSessionAccounting(Conn.ConfigureCorrected(opts), calls, s);
  }

  /** The loopback case with the dedicated bit: 100 bytes each way read back
      as 800 bits each way. */
  lemma CorrectedLoopbackCounts800()
    ensures var adv := Conn.ConfigureCorrected([Conn.WithStat(Some(0))]);
            var tx := Stats.Run(Stats.NewStat(), StatOps(Conn.Write(adv, 100, Conn.IoResult(100, None)).effects));
            var rx := Stats.Run(Stats.NewStat(), StatOps(Conn.Read(adv, Conn.IoResult(100, None)).effects));
            Stats.GetTx(tx) == 800 && Stats.GetRx(rx) == 800
  {
    var opts := [Conn.WithStat(Some(0))];
    var adv := Conn.ConfigureCorrected(opts);
    assert Conn.SetsStat(opts[0]);
    Conn.CorrectedFlagsAreIndependent(opts);
    assert Conn.Bits(100) == 800;
    WriteStatOps(adv, 100, Conn.IoResult(100, None));
    ReadStatOps(adv, Conn.IoResult(100, None));
    var ops := [Stats.AddTxOp(800)];
    assert Stats.Run(Stats.NewStat(), ops) == Stats.Run(Stats.AddTx(Stats.NewStat(), 800), ops[1..]);
  }
}
