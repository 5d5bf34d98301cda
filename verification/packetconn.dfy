/** packetconn.go: the datagram wrapper. It is built by the same option
    fold as the stream wrapper, and `ReadFrom`/`WriteTo` follow the rules of
    `Read`/`Write`, with the peer address passed through untouched. */
module PacketConn {
  import opened GoTypes
  import Conn

  /** Identity of a `net.Addr`. */
  type Addr = nat

  /** The datagram wrapper: the transport and its configuration. */
  datatype Wrapped = Wrapped(transport: Conn.TransportId, adv: Conn.Advanced)

  /** What `ReadFrom` returns, and the effects it caused in order. */
  datatype ReadFromResult = ReadFromResult(n: nat, addr: Option<Addr>, err: Conn.Error, effects: seq<Conn.Effect>)

  /** What `WriteTo` returns, the address it handed to the transport, and
      the effects it caused in order. */
  datatype WriteToResult = WriteToResult(n: nat, err: Conn.Error, sentTo: Addr, effects: seq<Conn.Effect>)

  /** `WrapPacketConn`: the same loop over the handlers as `WrapConn`. */
  method WrapPacketConn(pc: Conn.TransportId, opts: seq<Conn.OptionHandler>) returns (w: Wrapped)
    ensures w.transport == pc
    ensures w.adv == Conn.Configure(opts)
    ensures !Conn.Accounting(w.adv)
  {
    var adv := Conn.Zero;
    var i := 0;
    while i < |opts|
      invariant 0 <= i <= |opts|
      invariant adv == Conn.Configure(opts[..i])
    {
      assert opts[..i + 1][..i] == opts[..i];
      adv := Conn.Apply(adv, opts[i]);
      i := i + 1;
    }
    assert opts[..|opts|] == opts;
    Conn.NoOptionRaisesStatFlag(opts);
    w := Wrapped(pc, adv);
  }

  /** Both wrappers see the same configuration for the same options. */
  method WrapBoth(c: Conn.TransportId, pc: Conn.TransportId, opts: seq<Conn.OptionHandler>)
    returns (stream: Conn.Wrapped, datagram: Wrapped)
    ensures stream.adv == datagram.adv
    ensures stream.transport == c && datagram.transport == pc
  {
    stream := Conn.WrapConn(c, opts);
    datagram := WrapPacketConn(pc, opts);
  }

  /** `PacketConn.ReadFrom`: the datagram and its sender come first; on
      error everything is returned at once; otherwise the receive bucket is
      charged, then the Stat is credited, under the guards of `Read`. The
      sender address is returned as the transport gave it. */
  function ReadFrom(adv: Conn.Advanced, io: Conn.IoResult, from: Option<Addr>): (r: ReadFromResult)
    ensures r.n == io.n && r.err == io.err && r.addr == from
  {
    if io.err.Some? then ReadFromResult(io.n, from, io.err, [Conn.TransportRead])
    else
      var waits := if Conn.RxThrottled(adv) then [Conn.WaitRx(io.n * 8)] else [];
      var adds := if Conn.Accounting(adv) then [Conn.AddRx(Conn.Bits(io.n))] else [];
      ReadFromResult(io.n, from, io.err, [Conn.TransportRead] + waits + adds)
  }

  /** `PacketConn.WriteTo` of `len` bytes to `addr`: the transmit bucket is
      charged before the send whatever its outcome, `addr` reaches the
      transport unchanged, and only a successful send is counted, by the
      transport's `n`. */
  function WriteTo(adv: Conn.Advanced, len: nat, addr: Addr, io: Conn.IoResult): (r: WriteToResult)
    ensures r.n == io.n && r.err == io.err && r.sentTo == addr
  {
    var waits := if Conn.TxThrottled(adv) then [Conn.WaitTx(len * 8)] else [];
    if io.err.Some? then WriteToResult(io.n, io.err, addr, waits + [Conn.TransportWrite])
    else
      var adds := if Conn.Accounting(adv) then [Conn.AddTx(Conn.Bits(io.n))] else [];
      WriteToResult(io.n, None, addr, waits + [Conn.TransportWrite] + adds)
  }

  /** The effects of `ReadFrom`: the transport read first; on success the
      receive bucket is charged, then the Stat credited, under the guards of
      `Read`; on error nothing else. */
  lemma ReadFromTrace(adv: Conn.Advanced, io: Conn.IoResult, from: Option<Addr>)
    ensures var es := ReadFrom(adv, io, from).effects;
            && |es| > 0 && es[0] == Conn.TransportRead
            && (Conn.WaitRx(io.n * 8) in es <==> io.err == None && Conn.RxThrottled(adv))
            && (Conn.AddRx(Conn.Bits(io.n)) in es <==> io.err == None && Conn.Accounting(adv))
            && Conn.Precedes(es, Conn.WaitRx(io.n * 8), Conn.AddRx(Conn.Bits(io.n)))
  {
  }

  /** The effects of `WriteTo`: the transmit bucket is charged before the
      send whatever its outcome; only a successful send is counted, by the
      transport's `n`. */
  lemma WriteToTrace(adv: Conn.Advanced, len: nat, addr: Addr, io: Conn.IoResult)
    ensures var es := WriteTo(adv, len, addr, io).effects;
            && Conn.TransportWrite in es
            && (Conn.WaitTx(len * 8) in es <==> Conn.TxThrottled(adv))
            && (Conn.AddTx(Conn.Bits(io.n)) in es <==> io.err == None && Conn.Accounting(adv))
            && Conn.Precedes(es, Conn.WaitTx(len * 8), Conn.TransportWrite)
            && Conn.Precedes(es, Conn.TransportWrite, Conn.AddTx(Conn.Bits(io.n)))
  {
  }

  /** The datagram read behaves as the stream read: same count, same error,
      same effects, for any sender address. */
  lemma ReadFromMatchesRead(adv: Conn.Advanced, io: Conn.IoResult, from: Option<Addr>)
    ensures var r := ReadFrom(adv, io, from); var c := Conn.Read(adv, io);
            r.n == c.n && r.err == c.err && r.effects == c.effects
  {
  }

  /** The datagram write behaves as the stream write: same count, same
      error, same effects, whatever the destination. */
  lemma WriteToMatchesWrite(adv: Conn.Advanced, len: nat, addr: Addr, io: Conn.IoResult)
    ensures var r := WriteTo(adv, len, addr, io); var c := Conn.Write(adv, len, io);
            r.n == c.n && r.err == c.err && r.effects == c.effects
  {
  }
}
