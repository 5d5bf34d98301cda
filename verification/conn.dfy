/** conn.go: the feature flags, the `advanced` configuration built by
    folding option handlers over a zero value, and the interception rules
    of the stream wrapper's `Read`, `Write` and `Close`.

    Each intercepted call is a pure function of the configuration, the
    transport's outcome and the buffer length. It returns what the wrapper
    returns plus the ordered trace of effects it causes: waits on a token
    bucket, the transport call, and additions to the shared `Stat`. */
module Conn {
  import opened GoTypes

  /** A position in the 64-bit `int` flag word. */
  type BitIndex = i: nat | i < 64

  /** A flag word, as the set of positions of its 1 bits: Go's `a | b` is
      `a + b` here and `a & b` is `a * b`; the word 0 is `{}`. */
  type Mask = set<BitIndex>

  /** `FlagRatelimit = 1 << iota` (bit 0) and `FlagStat` (bit 1). */
  const FlagRatelimit: Mask := {0}
  const FlagStat: Mask := {1}

  /** Identity of a `*rate.Limiter`, of a `*Stat`, of an `error` value and
      of a wrapped transport. Only identity matters to the wrapper. */
  type BucketId = nat
  type StatId = nat
  type ErrorId = nat
  type TransportId = nat

  /** The `advanced` record shared by both wrappers. */
  datatype Advanced = Advanced(flag: Mask, txBucket: Option<BucketId>, rxBucket: Option<BucketId>, stat: Option<StatId>)

  /** `&advanced{Flag: 0}`: no flag, no bucket, no Stat. */
  const Zero: Advanced := Advanced({}, None, None, None)

  /** The two option constructors, `WithLimit(tx, rx)` and `WithStat(stat)`. */
  datatype OptionHandler =
    | WithLimit(tx: Option<BucketId>, rx: Option<BucketId>)
    | WithStat(st: Option<StatId>)

  /** The stream wrapper: the transport and its configuration. */
  datatype Wrapped = Wrapped(transport: TransportId, adv: Advanced)

  /** `haveFlags`: some wanted bit is set. */
  predicate HaveFlags(flags: Mask, want: Mask)
  {
    flags * want != {}
  }

  /** Raising a non-empty mask makes it present. */
  lemma HaveFlagsRaised(f: Mask, w: Mask)
    requires w != {}
    ensures HaveFlags(f + w, w)
  {
    var b :| b in w;
    assert b in (f + w) * w;
  }

  /** Raising bits disjoint from the wanted ones does not change the test. */
  lemma HaveFlagsDisjoint(f: Mask, w: Mask, v: Mask)
    requires w * v == {}
    ensures HaveFlags(f + v, w) <==> HaveFlags(f, w)
  {
    forall b | b in (f + v) * w ensures b in f * w {
      assert b !in w * v;
    }
    assert (f + v) * w == f * w;
  }

  /** Reads are throttled: the rate-limit bit and a receive bucket. */
  predicate RxThrottled(adv: Advanced)
  {
    HaveFlags(adv.flag, FlagRatelimit) && adv.rxBucket.Some?
  }

  /** Writes are throttled: the rate-limit bit and a transmit bucket. */
  predicate TxThrottled(adv: Advanced)
  {
    HaveFlags(adv.flag, FlagRatelimit) && adv.txBucket.Some?
  }

  /** Traffic is counted: the stat bit and a Stat. */
  predicate Accounting(adv: Advanced)
  {
    HaveFlags(adv.flag, FlagStat) && adv.stat.Some?
  }

  /** An option that binds a Stat (`WithStat` with a non-nil argument). */
  predicate SetsStat(h: OptionHandler)
  {
    h.WithStat? && h.st.Some?
  }

  /** The body of an option handler, given the bit `WithStat` raises. */
  function ApplyUsing(adv: Advanced, h: OptionHandler, statBit: Mask): Advanced
  {
    match h
    case WithLimit(tx, rx) => adv.(txBucket := tx, rxBucket := rx, flag := adv.flag + FlagRatelimit)
    case WithStat(st) => if st.Some? then adv.(stat := st, flag := adv.flag + statBit) else adv
  }

  /** An option handler as written: `WithStat` raises `FlagRatelimit`, so
      no handler ever changes whether the stat bit is set. */
  function Apply(adv: Advanced, h: OptionHandler): (r: Advanced)
    ensures h.WithLimit? ==>
              r.txBucket == h.tx && r.rxBucket == h.rx && r.stat == adv.stat
              && HaveFlags(r.flag, FlagRatelimit)
    ensures h == WithStat(None) ==> r == adv
    ensures SetsStat(h) ==>
              r.stat == h.st && r.txBucket == adv.txBucket && r.rxBucket == adv.rxBucket
              && HaveFlags(r.flag, FlagRatelimit)
    ensures HaveFlags(r.flag, FlagStat) <==> HaveFlags(adv.flag, FlagStat)
    ensures HaveFlags(adv.flag, FlagRatelimit) ==> HaveFlags(r.flag, FlagRatelimit)
    ensures h.WithLimit? || SetsStat(h) ==> r.flag == adv.flag + FlagRatelimit
  {
    HaveFlagsDisjoint(adv.flag, FlagStat, FlagRatelimit);
    HaveFlagsRaised(adv.flag, FlagRatelimit);
    ApplyUsing(adv, h, FlagRatelimit)
  }

  /** An option handler with `WithStat` raising the dedicated stat bit. */
  function ApplyCorrected(adv: Advanced, h: OptionHandler): (r: Advanced)
    ensures h.WithLimit? ==>
              r.txBucket == h.tx && r.rxBucket == h.rx && r.stat == adv.stat
              && HaveFlags(r.flag, FlagRatelimit)
              && (HaveFlags(r.flag, FlagStat) <==> HaveFlags(adv.flag, FlagStat))
    ensures h == WithStat(None) ==> r == adv
    ensures SetsStat(h) ==>
              r.stat == h.st && r.txBucket == adv.txBucket && r.rxBucket == adv.rxBucket
              && Accounting(r)
              && (HaveFlags(r.flag, FlagRatelimit) <==> HaveFlags(adv.flag, FlagRatelimit))
  {
    HaveFlagsDisjoint(adv.flag, FlagStat, FlagRatelimit);
    HaveFlagsDisjoint(adv.flag, FlagRatelimit, FlagStat);
    HaveFlagsRaised(adv.flag, FlagRatelimit);
    HaveFlagsRaised(adv.flag, FlagStat);
    ApplyUsing(adv, h, FlagStat)
  }

  /** The handlers applied in order to the zero configuration. */
  function ConfigureUsing(opts: seq<OptionHandler>, statBit: Mask): Advanced
    decreases |opts|
  {
    if opts == [] then Zero
    else ApplyUsing(ConfigureUsing(opts[..|opts| - 1], statBit), opts[|opts| - 1], statBit)
  }

  /** The configuration `WrapConn` and `WrapPacketConn` build, as written. */
  function Configure(opts: seq<OptionHandler>): Advanced
  {
    ConfigureUsing(opts, FlagRatelimit)
  }

  /** The configuration with `WithStat` raising `FlagStat`. */
  function ConfigureCorrected(opts: seq<OptionHandler>): Advanced
  {
    ConfigureUsing(opts, FlagStat)
  }

  /** Some handler in `opts` is a `WithLimit`. */
  predicate HasLimit(opts: seq<OptionHandler>)
  {
    exists i :: 0 <= i < |opts| && opts[i].WithLimit?
  }

  /** Some handler in `opts` binds a Stat. */
  predicate HasStat(opts: seq<OptionHandler>)
  {
    exists i :: 0 <= i < |opts| && SetsStat(opts[i])
  }

  /** `opts[i]` is the last `WithLimit` of `opts`. */
  predicate LastLimitAt(opts: seq<OptionHandler>, i: int)
  {
    0 <= i < |opts| && opts[i].WithLimit? && forall j :: i < j < |opts| ==> !opts[j].WithLimit?
  }

  /** `opts[i]` is the last handler of `opts` that binds a Stat. */
  predicate LastStatAt(opts: seq<OptionHandler>, i: int)
  {
    0 <= i < |opts| && SetsStat(opts[i]) && forall j :: i < j < |opts| ==> !SetsStat(opts[j])
  }

  /** Splitting off the last handler: something occurs in `opts` iff it
      occurs before the last handler or is the last handler. */
  lemma HasSplit(opts: seq<OptionHandler>)
    requires opts != []
    ensures HasLimit(opts) <==> HasLimit(opts[..|opts| - 1]) || opts[|opts| - 1].WithLimit?
    ensures HasStat(opts) <==> HasStat(opts[..|opts| - 1]) || SetsStat(opts[|opts| - 1])
  {
    var n := |opts| - 1;
    var p := opts[..n];
    if HasLimit(opts) && !opts[n].WithLimit? {
      var i :| 0 <= i < |opts| && opts[i].WithLimit?;
      assert p[i] == opts[i];
    }
    if HasLimit(p) {
      var i :| 0 <= i < |p| && p[i].WithLimit?;
      assert opts[i] == p[i];
    }
    if HasStat(opts) && !SetsStat(opts[n]) {
      var i :| 0 <= i < |opts| && SetsStat(opts[i]);
      assert p[i] == opts[i];
    }
    if HasStat(p) {
      var i :| 0 <= i < |p| && SetsStat(p[i]);
      assert opts[i] == p[i];
    }
  }

  /** A Stat is bound exactly when some handler binds one. */
  lemma {:induction false} ConfigureHasStat(opts: seq<OptionHandler>, statBit: Mask)
    ensures ConfigureUsing(opts, statBit).stat.Some? <==> HasStat(opts)
    decreases |opts|
  {
    if opts != [] {
      HasSplit(opts);
      ConfigureHasStat(opts[..|opts| - 1], statBit);
    }
  }

  /** Last write wins for the Stat: it is the one bound by the last
      `WithStat` with a non-nil argument. */
  lemma {:induction false} ConfigureLastStat(opts: seq<OptionHandler>, statBit: Mask, i: int)
    requires LastStatAt(opts, i)
    ensures ConfigureUsing(opts, statBit).stat == opts[i].st
    decreases |opts|
  {
    var n := |opts| - 1;
    if i < n {
      var p := opts[..n];
      assert !SetsStat(opts[n]);
      assert LastStatAt(p, i) by {
        forall j | i < j < |p| ensures !SetsStat(p[j]) {
          assert p[j] == opts[j];
        }
      }
      ConfigureLastStat(p, statBit, i);
    }
  }

  /** With no `WithLimit`, both buckets stay nil. */
  lemma {:induction false} ConfigureNoLimit(opts: seq<OptionHandler>, statBit: Mask)
    requires !HasLimit(opts)
    ensures ConfigureUsing(opts, statBit).txBucket == None
    ensures ConfigureUsing(opts, statBit).rxBucket == None
    decreases |opts|
  {
    if opts != [] {
      HasSplit(opts);
      ConfigureNoLimit(opts[..|opts| - 1], statBit);
    }
  }

  /** Last write wins for the buckets: both come from the last `WithLimit`,
      even when it passes nil. */
  lemma {:induction false} ConfigureLastLimit(opts: seq<OptionHandler>, statBit: Mask, i: int)
    requires LastLimitAt(opts, i)
    ensures ConfigureUsing(opts, statBit).txBucket == opts[i].tx
    ensures ConfigureUsing(opts, statBit).rxBucket == opts[i].rx
    decreases |opts|
  {
    var n := |opts| - 1;
    if i < n {
      var p := opts[..n];
      assert !opts[n].WithLimit?;
      assert LastLimitAt(p, i) by {
        forall j | i < j < |p| ensures !p[j].WithLimit? {
          assert p[j] == opts[j];
        }
      }
      ConfigureLastLimit(p, statBit, i);
    }
  }

  /** The flag word: the rate-limit bit when some `WithLimit` was applied,
      and the bit `WithStat` raises when some Stat was bound. */
  lemma {:induction false} ConfigureFlag(opts: seq<OptionHandler>, statBit: Mask)
    ensures ConfigureUsing(opts, statBit).flag
            == (if HasLimit(opts) then FlagRatelimit else {}) + (if HasStat(opts) then statBit else {})
    decreases |opts|
  {
    if opts != [] {
      HasSplit(opts);
      ConfigureFlag(opts[..|opts| - 1], statBit);
    }
  }

  /** The defect of `WithStat`: whatever options are given, the stat bit is
      never raised, so no wrapper built by `WrapConn` ever counts traffic. */
  lemma NoOptionRaisesStatFlag(opts: seq<OptionHandler>)
    ensures !HaveFlags(Configure(opts).flag, FlagStat)
    ensures !Accounting(Configure(opts))
    ensures HaveFlags(Configure(opts).flag, FlagRatelimit) <==> HasLimit(opts) || HasStat(opts)
  {
    ConfigureFlag(opts, FlagRatelimit);
  }

  /** With the dedicated bit, each feature is enabled exactly by its own
      option: accounting iff some Stat was bound, the rate-limit bit iff
      some `WithLimit` was applied. */
  lemma CorrectedFlagsAreIndependent(opts: seq<OptionHandler>)
    ensures Accounting(ConfigureCorrected(opts)) <==> HasStat(opts)
    ensures HaveFlags(ConfigureCorrected(opts).flag, FlagRatelimit) <==> HasLimit(opts)
  {
    ConfigureFlag(opts, FlagStat);
    ConfigureHasStat(opts, FlagStat);
  }

  /** `WrapConn`: the loop over the handlers, from a zeroed configuration. */
  method WrapConn(c: TransportId, opts: seq<OptionHandler>) returns (w: Wrapped)
    ensures w.transport == c
    ensures w.adv == Configure(opts)
    ensures !HaveFlags(w.adv.flag, FlagStat)
  {
    var adv := Zero;
    var i := 0;
    while i < |opts|
      invariant 0 <= i <= |opts|
      invariant adv == Configure(opts[..i])
    {
      assert opts[..i + 1][..i] == opts[..i];
      adv := Apply(adv, opts[i]);
      i := i + 1;
    }
    assert opts[..|opts|] == opts;
    NoOptionRaisesStatFlag(opts);
    w := Wrapped(c, adv);
  }

  /** An error value, or nil. */
  type Error = Option<ErrorId>

  /** What the transport reported: a byte count and an error. */
  datatype IoResult = IoResult(n: nat, err: Error)

  /** What an intercepted call returns, and the effects it caused in order. */
  datatype CallResult = CallResult(n: nat, err: Error, effects: seq<Effect>)

  /** The observable effects of an intercepted call. A wait stands for
      `WaitN` on the bucket of that direction; its error is discarded. */
  datatype Effect =
    | TransportRead
    | TransportWrite
    | TransportClose
    | WaitRx(rxCost: int)
    | WaitTx(txCost: int)
    | AddRx(rxBits: u64)
    | AddTx(txBits: u64)

  /** `uint64(n) * 8`: the bit count added to a Stat. */
  function Bits(n: nat): u64
  {
    Wrap(n * 8)
  }

  /** No effect occurs twice. */
  predicate Distinct(es: seq<Effect>)
  {
    forall i, j :: 0 <= i < j < |es| ==> es[i] != es[j]
  }

  /** Every occurrence of `a` comes before every occurrence of `b`. */
  predicate Precedes(es: seq<Effect>, a: Effect, b: Effect)
  {
    forall i, j :: 0 <= i < |es| && 0 <= j < |es| && es[i] == a && es[j] == b ==> i < j
  }

  /** `Conn.Read`: the transport's count and error are returned as they
      came; see `ReadTrace` for the effects. */
  function Read(adv: Advanced, io: IoResult): (r: CallResult)
    ensures r.n == io.n && r.err == io.err
  {
    if io.err.Some? then CallResult(io.n, io.err, [TransportRead])
    else
      var waits := if RxThrottled(adv) then [WaitRx(io.n * 8)] else [];
      var adds := if Accounting(adv) then [AddRx(Bits(io.n))] else [];
      CallResult(io.n, io.err, [TransportRead] + waits + adds)
  }

  /** The effects of `Conn.Read`: the transport read comes first. On error
      nothing else happens. Otherwise the receive bucket is charged `n * 8`
      tokens, after the data arrived, and then `n * 8` bits are added to the
      Stat; each only when its flag and its resource are both present. */
  lemma ReadTrace(adv: Advanced, io: IoResult)
    ensures var es := Read(adv, io).effects;
            && |es| > 0 && es[0] == TransportRead
            && (forall e :: e in es ==> e in [TransportRead, WaitRx(io.n * 8), AddRx(Bits(io.n))])
            && Distinct(es)
            && (WaitRx(io.n * 8) in es <==> io.err == None && RxThrottled(adv))
            && (AddRx(Bits(io.n)) in es <==> io.err == None && Accounting(adv))
            && Precedes(es, WaitRx(io.n * 8), AddRx(Bits(io.n)))
  {
  }

  /** `Conn.Write`: the transport's count is returned, with its error on
      failure and nil on success; see `WriteTrace` for the effects. */
  function Write(adv: Advanced, len: nat, io: IoResult): (r: CallResult)
    ensures r.n == io.n && r.err == io.err
  {
    var waits := if TxThrottled(adv) then [WaitTx(len * 8)] else [];
    if io.err.Some? then CallResult(io.n, io.err, waits + [TransportWrite])
    else
      var adds := if Accounting(adv) then [AddTx(Bits(io.n))] else [];
      CallResult(io.n, None, waits + [TransportWrite] + adds)
  }

  /** The effects of `Conn.Write` of a buffer of `len` bytes: the transmit
      bucket is charged `len * 8` tokens before the transport write,
      whatever its outcome. On error there is no accounting; on success the
      transport's count `n` (not `len`) is added as `n * 8` bits. */
  lemma WriteTrace(adv: Advanced, len: nat, io: IoResult)
    ensures var es := Write(adv, len, io).effects;
            && TransportWrite in es
            && (forall e :: e in es ==> e in [WaitTx(len * 8), TransportWrite, AddTx(Bits(io.n))])
            && Distinct(es)
            && (WaitTx(len * 8) in es <==> TxThrottled(adv))
            && (AddTx(Bits(io.n)) in es <==> io.err == None && Accounting(adv))
            && Precedes(es, WaitTx(len * 8), TransportWrite)
            && Precedes(es, TransportWrite, AddTx(Bits(io.n)))
  {
  }

  /** `Conn.Close`: plain delegation. The configuration is not consulted,
      so no bucket and no Stat is involved. */
  function Close(closeErr: Error): (r: (Error, seq<Effect>))
    ensures r.0 == closeErr
    ensures TransportClose in r.1
    ensures forall e :: e in r.1 ==> e == TransportClose
  {
    (closeErr, [TransportClose])
  }

  /** A failed write has still waited for its tokens when throttled. */
  lemma FailedWriteStillWaits(adv: Advanced, len: nat, io: IoResult)
    requires io.err.Some? && TxThrottled(adv)
    ensures WaitTx(len * 8) in Write(adv, len, io).effects
    ensures forall b :: AddTx(b) !in Write(adv, len, io).effects
  {
  }

  /** A failed read has neither waited nor counted. */
  lemma FailedReadHasNoEffect(adv: Advanced, io: IoResult)
    requires io.err.Some?
    ensures Read(adv, io).effects == [TransportRead]
  {
  }
}
