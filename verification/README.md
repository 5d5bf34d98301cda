# freconn in Dafny

freconn wraps a Go `net.Conn` or `net.PacketConn` so that its traffic can be
throttled by token buckets and counted in a shared `Stat`. This project
models that core:

- `gotypes.dfy` (`GoTypes`): Go's `uint64` with its wrap-around addition and
  subtraction, and nil-able pointers as `Option`.
- `stat.dfy` (`Stats`): the `Stat` record, with two cumulative bit counters
  and the `bandwidth` window. It also models the single-shot sampling
  goroutine as a state machine (`Running`, `Sampled`, `Cancelled`). Its
  wake-ups (`Done`, `Tick`) are inputs.
- `conn.dfy` (`Conn`): the flags `FlagRatelimit` and `FlagStat`, the
  `advanced` configuration built by folding option handlers over a zero
  value, `haveFlags`, and the intercepted `Read`, `Write` and `Close`. Each
  call is a pure function of the configuration, the transport's outcome
  and the buffer length. It returns what the wrapper returns plus the
  ordered trace of its effects: the transport call, `WaitN` on a bucket,
  `AddRx`/`AddTx` on the Stat.
- `packetconn.dfy` (`PacketConn`): `WrapPacketConn`, `ReadFrom` and
  `WriteTo`. They are shown to behave exactly as the stream wrapper does,
  with the peer address passed through.
- `sessions.dfy` (`Sessions`): sequences of calls replayed on a Stat and
  on the buckets. It states what a whole session adds to the counters and
  charges to the buckets.

The flag word is a set of bit positions: Go's `|` is union and `&` is
intersection. A `uint64` counter is an integer in `[0, 2^64)`, and every
addition and subtraction wraps explicitly.

`WithStat` (conn.go:37-44) raises `FlagRatelimit` rather than `FlagStat`.
The model reproduces this in `Conn.Apply` and `Conn.Configure`, which is
what `WrapConn` and `WrapPacketConn` build. `Conn.ConfigureCorrected` is the
same fold with `WithStat` raising `FlagStat`. The consequences of both are
proved; see "Findings".

The transmit bucket's `WaitN` happens before the transport write
(conn.go:73-76), so a failed write has already consumed its tokens; see
`Conn.FailedWriteStillWaits`.

## Model

| member | source | states |
|---|---|---|
| GoTypes.Add | stat.go:77-83 | `uint64` addition: the result is the sum, or the sum less 2^64 when it overflows |
| GoTypes.Sub | stat.go:60-61 | `uint64` subtraction is the inverse of addition: `b + (a - b) == a` modulo 2^64, and it is the plain difference when `b <= a` |
| GoTypes.SubWrap | stat.go:58-63 | the wrapped delta between a counter advanced by `x` and its old value is `x` modulo 2^64 |
| Stats.NewStatWithInterval | stat.go:35-50 | a new Stat has zero counters, a zero window and a running sampler; its context is cancelled iff the parent's is |
| Stats.NewStat | stat.go:31-33 | a new Stat with a never-cancelled background parent: zero counters, zero baselines, zero bandwidth and a running sampler |
| Stats.AddRx | stat.go:77-79 | the receive counter advances by exactly `k` modulo 2^64 (exactly `k` without overflow) and nothing else changes |
| Stats.AddTx | stat.go:81-83 | the transmit counter advances by exactly `k` modulo 2^64 and nothing else changes |
| Stats.Reset | stat.go:91-95 | after `Reset` the counters, the baselines and the bandwidth read zero; the sampler and the context are untouched |
| Stats.Close | stat.go:97-99 | `Close` cancels the context and changes no counter, no window and not the task |
| Stats.Sample | stat.go:57-63 | a sample reports the deltas since the previous baseline (`lastRx + bandwidthRx == Rx` modulo 2^64) and makes the current counters the new baseline |
| Stats.SamplerStep | stat.go:52-67 | a returned task never acts again; `Done` ends the task without sampling and only once cancelled; `Tick` samples once and ends the task; the counters are never touched |
| Stats.AtMostOneSample | stat.go:52-67 | whatever sequence of events occurs, the sampler computes at most one sample, and none once it has returned |
| Stats.TerminatedStaysTerminated | stat.go:52-67 | a returned sampler stays returned and never samples |
| Stats.CancelledFirstNeverSamples | stat.go:54-56 | cancellation before the first tick ends the task with the window untouched, and no later event samples |
| Stats.TickFirstSamplesOnce | stat.go:57-63 | a tick before cancellation yields exactly one sample, whatever follows |
| Stats.CloseIdempotent | stat.go:97-99 | closing twice is closing once |
| Stats.SampleTwiceIsZero | stat.go:58-63 | a sample with no additions since the previous one reports zero bandwidth |
| Stats.ResetRestartsWindow | stat.go:91-95 | after `Reset`, whatever the history, the next sample reports exactly the bits added since the reset (modulo 2^64), and the counters hold just those bits |
| Stats.AddsAccumulate | stat.go:77-83 | a run of additions leaves each counter at its start plus the sum of the additions modulo 2^64, and leaves the window, task and context alone |
| Stats.BandwidthIsSumOfAdds | stat.go:58-63 | from a baseline equal to the counters, the next sample reports the sum of the bits added since, modulo 2^64 |
| Stats.BandwidthExactWithoutWrap | stat.go:58-63 | when the sums stay below 2^64, the sample is exactly the number of bits added |
| Stats.FreshStatFirstTick | stat.go:85-89 | on a new Stat, `k` transmit bits and one tick give `Bandwidth() == (0, k)` while `GetTx()` stays `k` |
| Conn.HaveFlagsRaised | conn.go:54-56 | a mask OR-ed into the flag word is then present |
| Conn.HaveFlagsDisjoint | conn.go:54-56 | raising bits disjoint from the wanted ones does not change `haveFlags` |
| Conn.Apply | conn.go:29-44 | `WithLimit` sets both buckets (nil included) and ORs in the rate-limit bit, keeping every other bit; `WithStat(nil)` does nothing; `WithStat(s)` binds `s` but ORs in the rate-limit bit, keeping every other bit, so no handler changes the stat bit |
| Conn.ApplyCorrected | conn.go:37-44 | with `WithStat` raising `FlagStat`, binding a Stat turns accounting on and leaves the rate-limit bit as it was |
| Conn.ConfigureHasStat | conn.go:46-52 | after the fold a Stat is bound iff some option binds a non-nil Stat |
| Conn.ConfigureLastStat | conn.go:37-52 | the bound Stat is the one from the last `WithStat` with a non-nil argument |
| Conn.ConfigureNoLimit | conn.go:46-52 | with no `WithLimit`, both buckets stay nil |
| Conn.ConfigureLastLimit | conn.go:29-52 | both buckets come from the last `WithLimit`, even when it passes nil |
| Conn.ConfigureFlag | conn.go:10-52 | the flag word is the rate-limit bit iff some `WithLimit` was applied, plus the `WithStat` bit iff some Stat was bound |
| Conn.NoOptionRaisesStatFlag | conn.go:37-52 | as written, no options ever set `FlagStat`, so accounting is never on; the rate-limit bit is set iff a `WithLimit` or a non-nil `WithStat` was given |
| Conn.CorrectedFlagsAreIndependent | conn.go:10-44 | with the dedicated bit, accounting is on iff a Stat is bound and the rate-limit bit is set iff a `WithLimit` was given |
| Conn.WrapConn | conn.go:46-52 | the loop over the handlers yields the fold of the options over the zero configuration, around the given transport, with the stat bit clear |
| Conn.Read | conn.go:58-70 | the transport's count and error are returned unchanged |
| Conn.ReadTrace | conn.go:58-70 | the transport read comes first; on error nothing else happens; otherwise the receive bucket waits iff throttled, then the Stat is credited iff accounting, each at most once |
| Conn.Write | conn.go:72-84 | the transport's count is returned, with its error on failure and nil on success |
| Conn.WriteTrace | conn.go:72-84 | the transmit bucket waits for `len * 8` tokens iff throttled and before the transport write, whatever its outcome; only a successful write credits the Stat, by the transport's `n * 8` |
| Conn.Close | conn.go:86-88 | `Close` returns the transport's error and only closes the transport |
| Conn.FailedWriteStillWaits | conn.go:72-79 | a throttled write that fails has still waited for its tokens and has credited nothing |
| Conn.FailedReadHasNoEffect | conn.go:58-62 | a failed read neither waits nor counts |
| PacketConn.WrapPacketConn | packetconn.go:13-19 | the datagram wrapper gets the same configuration as `WrapConn` would, and never accounts |
| PacketConn.WrapBoth | packetconn.go:13-19 | the same options give both wrappers the same configuration |
| PacketConn.ReadFrom | packetconn.go:21-34 | count, error and sender address are returned as the transport gave them |
| PacketConn.WriteTo | packetconn.go:36-49 | count and error come from the transport, and the destination reaches it unchanged |
| PacketConn.ReadFromTrace | packetconn.go:21-34 | the read comes first; the receive bucket waits iff the read succeeded and is throttled, then the Stat is credited iff accounting |
| PacketConn.WriteToTrace | packetconn.go:36-49 | the transmit bucket waits before the send iff throttled, whatever the outcome; only success credits the Stat |
| PacketConn.ReadFromMatchesRead | packetconn.go:21-34 | `ReadFrom` has the same count, error and effects as the stream `Read` |
| PacketConn.WriteToMatchesWrite | packetconn.go:36-49 | `WriteTo` has the same count, error and effects as the stream `Write` |
| Sessions.StatOpsAppend | conn.go:58-84 | effects of consecutive calls compose: Stat transitions and bucket requests of a concatenation are the concatenation and the sums |
| Sessions.RunAppend | stat.go:77-95 | replaying two runs of Stat transitions one after the other is replaying their concatenation |
| Sessions.AddRxTwice | stat.go:77-79 | two receive additions are one addition of their sum |
| Sessions.AddTxTwice | stat.go:81-83 | two transmit additions are one addition of their sum |
| Sessions.ReadStatOps | conn.go:58-70 | one read causes the Stat transition `AddRx(n * 8)` iff it succeeded with accounting on, and asks the receive bucket for `n * 8` tokens iff it succeeded and is throttled |
| Sessions.ReadSessionAccounting | conn.go:58-70 | a session of reads credits the receive counter with 8 bits per byte of the reads that returned no error when accounting is on, and leaves the Stat unchanged otherwise |
| Sessions.ReadSessionCharges | conn.go:63-65 | a session of reads asks the receive bucket for 8 tokens per byte of the reads that returned no error when throttled, and the transmit bucket for nothing |
| Sessions.WriteStatOps | conn.go:72-84 | one write causes `AddTx(n * 8)` iff it succeeded with accounting on, and asks the transmit bucket for `len * 8` tokens iff throttled |
| Sessions.WriteSessionSilent | conn.go:80-82 | without accounting a session of writes leaves the Stat unchanged |
| Sessions.WriteSessionCredits | conn.go:76-83 | with accounting a session of writes credits 8 bits per byte the transport reported written by successful calls |
| Sessions.WriteSessionAccounting | conn.go:72-84 | the transmit counter gains 8 bits per byte written when accounting is on, and nothing otherwise |
| Sessions.WriteSessionCharges | conn.go:73-75 | a session of writes asks the transmit bucket for 8 tokens per requested byte when throttled, including failed writes |
| Sessions.FailedCallsLeaveStat | conn.go:58-84 | a call that fails at the transport leaves the Stat as it was |
| Sessions.AsWrittenNeverAccounts | conn.go:37-44 | as written, whatever options are given, read and write sessions never change a Stat |
| Sessions.AsWrittenLoopbackCountsNothing | conn.go:37-44 | as written, with only `WithStat(s)`, writing and reading 100 bytes leaves both counters at 0 |
| Sessions.CorrectedAccountsEveryRead | conn.go:37-70 | with the dedicated bit, any options binding a Stat make a read session credit 8 bits per byte of the reads that returned no error |
| Sessions.CorrectedAccountsEveryWrite | conn.go:37-84 | with the dedicated bit, any options binding a Stat make a write session credit 8 bits per byte written |
| Sessions.CorrectedLoopbackCounts800 | conn.go:37-44 | with the dedicated bit, writing and reading 100 bytes leaves each counter at 800 |

## Left out

- The sampling goroutine's timing: the ticker, its interval and the `time.Duration` argument are not modelled. Which wake-up comes first is an input (`Wake`), and the ticker, which the source never stops, is not represented.
- Concurrency and atomics: each Stat method is one sequential step. In the source `Reset` is six separate stores and the sample step several loads and stores; their interleavings with each other and with `AddRx`/`AddTx` are not modelled. For example, a sample that loads `Rx` before a `Reset` and stores the window after it leaves a non-zero bandwidth and `lastRx != Rx` after the `Reset`, which the contract of `Stats.Reset` does not admit.
- Parent-context cancellation: a cancelled parent and `Close` set the same `cancelled` flag. A context tree is not modelled.
- `rate.Limiter`: only the request to a bucket is recorded, as a `WaitRx`/`WaitTx` effect. The limiter's timing, its burst and the error `WaitN` returns (which the wrapper discards) are not modelled.
- The wrapped `net.Conn`/`net.PacketConn`: its outcome is an input (`IoResult`) and its operations are effects. Buffers are represented only by their length, and addresses by an identity.
- The token cost `n * 8` of `WaitN` is an unbounded integer. Go's `int` overflows there for buffers of 2^60 bytes or more on 64-bit platforms, and of 2^28 bytes (256 MiB) or more on 32-bit platforms; the model assumes no such buffer.
- Stats.NewStatWithInterval: `time.NewTicker` panics on a non-positive interval, and that panic in the sampling goroutine ends the process. A nil parent context makes `context.WithCancel` panic. The model assumes a positive interval and a non-nil parent, and always yields a Stat with a running sampler.
- `uint64(n)` of a negative count is not modelled: counts are natural numbers, as a correct transport returns.
- The embedded methods a wrapper inherits without interception (`LocalAddr`, deadlines and the like) are not modelled. `PacketConn.Close` is inherited the same way.
- `Stats.GetRx`, `Stats.GetTx` and `Stats.Bandwidth` are plain reads of the record and carry no contract of their own. Their meaning is stated by the contracts of the operations that change the record.
- Conn.WrapConn: a nil `OptionHandler` among the options makes the loop call a nil function and panic; the model's options are only `WithLimit` and `WithStat`, so `Conn.WrapConn` and `PacketConn.WrapPacketConn` always return.
- Stats.Close: on the zero value `&Stat{}` (which `WithStat` accepts and which counts traffic but has no sampler) `Close` calls a nil `cancel` and panics; the model's Stats are only those built by `NewStatWithInterval`, so `Stats.Close` always succeeds.
- Conn.Read: its own contract states only the returned count and error; the trace of effects is stated in `Conn.ReadTrace`.
- Conn.Write: its own contract states only the returned count and error; the trace of effects is stated in `Conn.WriteTrace`.
- PacketConn.ReadFrom: its own contract states only the returned count, address and error; the trace of effects is stated in `PacketConn.ReadFromTrace` and `PacketConn.ReadFromMatchesRead`.
- PacketConn.WriteTo: its own contract states only the returned count and error and the destination; the trace of effects is stated in `PacketConn.WriteToTrace` and `PacketConn.WriteToMatchesWrite`.

## Findings

| source | as written | input that shows it | evidently intended | confidence | as-written member | corrected member |
|---|---|---|---|---|---|---|
| conn.go:41 | `WithStat` with a non-nil Stat raises `FlagRatelimit`, while `Read`/`Write` count only under `FlagStat`, so traffic is never counted | `WrapConn(c, WithStat(s))`, then write 100 bytes and read 100 bytes: `s.GetTx()` and `s.GetRx()` stay 0 instead of 800 | `WithStat` raises `FlagStat` | not executed | Sessions.AsWrittenLoopbackCountsNothing | Sessions.CorrectedLoopbackCounts800 |
