/** The datagram connection of vendor/github.com/go-ocf/go-coap/net/connUDP.go:
    the IPv4/IPv6 classification of addresses, the unicast and multicast
    write loops and the read loop, over a socket whose answers are given as a
    script of steps, one per loop iteration. */
module DatagramConn {
  import opened NetBase

  // ---------------------------------------------------------------------
  // Addresses

  /** A net.IP: 4 bytes for IPv4, 16 for IPv6; any other length is not an
      address, and its 4- and 16-byte forms are both nil. */
  type IP = seq<byte>

  /** The first twelve bytes of an IPv4-mapped IPv6 address (::ffff:0:0/96). */
  const V4InV6Prefix: seq<byte> := [0, 0, 0, 0, 0, 0, 0, 0, 0, 0, 0xff, 0xff]

  predicate IsV4Mapped(ip: IP)
  {
    |ip| == 16 && ip[..12] == V4InV6Prefix
  }

  predicate AllZero(s: seq<byte>)
  {
    forall k :: 0 <= k < |s| ==> s[k] == 0
  }

  /** net.IP.To4: the 4-byte form of an IPv4 or IPv4-mapped address. */
  function To4(ip: IP): (r: Option<IP>)
    ensures r.Some? <==> |ip| == 4 || IsV4Mapped(ip)
    ensures r.Some? ==> |r.value| == 4 && r.value == ip[|ip| - 4..]
  {
    if |ip| == 4 then Some(ip)
    else if |ip| != 16 then None
    else
      V4MappedForm(ip);
      if AllZero(ip[..10]) && ip[10] == 0xff && ip[11] == 0xff then Some(ip[12..])
      else None
  }

  /** Go's test for the mapped form: ten zero bytes, then 0xff, 0xff. */
  lemma V4MappedForm(ip: IP)
    requires |ip| == 16
    ensures IsV4Mapped(ip) <==> AllZero(ip[..10]) && ip[10] == 0xff && ip[11] == 0xff
  {
    assert ip[..12] == ip[..10] + [ip[10], ip[11]];
    assert V4InV6Prefix == V4InV6Prefix[..10] + [0xff, 0xff];
    if AllZero(ip[..10]) {
      assert ip[..10] == V4InV6Prefix[..10];
    }
  }

  /** net.IP.To16: the 16-byte form of an address, mapping IPv4 into
      ::ffff:0:0/96. */
  function To16(ip: IP): (r: Option<IP>)
    ensures r.Some? <==> |ip| == 4 || |ip| == 16
    ensures r.Some? ==> |r.value| == 16 && r.value[16 - |ip|..] == ip
  {
    if |ip| == 4 then Some(V4InV6Prefix + ip)
    else if |ip| == 16 then Some(ip)
    else None
  }

  /** The 16-byte form of an IPv4 address is IPv4-mapped, and its 4-byte
      form is the address again. */
  lemma To4OfTo16(ip: IP)
    requires |ip| == 4
    ensures IsV4Mapped(To16(ip).value)
    ensures To4(To16(ip).value) == Some(ip)
  {
    assert (V4InV6Prefix + ip)[..12] == V4InV6Prefix;
  }

  /** Any address with a 4-byte form has the same 16-byte form as that
      4-byte form. */
  lemma To16OfTo4(ip: IP)
    requires To4(ip).Some?
    ensures To16(To4(ip).value) == To16(ip)
  {
    if |ip| == 16 {
      var v4 := ip[12..];
      assert ip == ip[..12] + v4;
    }
  }

  /** isIPv6: the address has a 16-byte form and no 4-byte form, that is,
      it is a 16-byte address outside ::ffff:0:0/96. */
  function IsIPv6(addr: IP): (b: bool)
    ensures b <==> |addr| == 16 && !IsV4Mapped(addr)
  {
    var ip := To16(addr);
    ip.Some? && To4(ip.value).None?
  }

  /** An IPv4 address, plain or mapped, is never IPv6. */
  lemma V4FormsAreNotIPv6(ip: IP)
    requires |ip| == 4
    ensures !IsIPv6(ip) && !IsIPv6(To16(ip).value)
  {
    To4OfTo16(ip);
  }

  /** net.IP.IsMulticast: an IPv4 address (plain or mapped) in
      224.0.0.0/4, or any other 16-byte address in ff00::/8. */
  function IsMulticast(ip: IP): (b: bool)
    ensures b <==>
      || (|ip| == 4 && 224 <= ip[0] < 240)
      || (IsV4Mapped(ip) && 224 <= ip[12] < 240)
      || (IsIPv6(ip) && ip[0] == 0xff)
  {
    var ip4 := To4(ip);
    if ip4.Some? then ip4.value[0] / 16 == 0xe   // ip4[0]&0xf0 == 0xe0
    else |ip| == 16 && ip[0] == 0xff
  }

  /** The packet connection NewConnUDP wraps the socket in. */
  datatype PacketConnKind = PacketConnIPv4 | PacketConnIPv6

  /** NewConnUDP's choice: IPv6 exactly when the local address is IPv6. */
  function PacketConnFor(localIP: IP): (k: PacketConnKind)
    ensures k == PacketConnIPv6 <==> |localIP| == 16 && !IsV4Mapped(localIP)
  {
    if IsIPv6(localIP) then PacketConnIPv6 else PacketConnIPv4
  }

  // ---------------------------------------------------------------------
  // Calls on the socket

  datatype UdpAddr = UdpAddr(ip: IP, port: int)

  /** A ConnUDPContext: the peer a datagram came from or goes to. */
  datatype UdpCtx = UdpCtx(raddr: UdpAddr)

  /** A network interface from net.Interfaces(). */
  datatype Iface = Iface(index: int, name: string)

  /** A datagram ReadFromSessionUDP reports: its length and its sender. */
  datatype Datagram = Datagram(n: nat, session: UdpCtx)

  /** The calls the loops make, each with its result. */
  datatype UdpCall =
    | SetWriteDeadline(after: Duration, ok: bool)
    | WriteToSession(session: UdpCtx, chunk: seq<byte>, wrote: Io<nat>)
    | SetMulticastInterface(iface: Iface, ok: bool)
    | SetMulticastHopLimit(limit: int)
    | WriteTo(packet: seq<byte>, dst: UdpAddr, sent: Io<nat>)
    | SetReadDeadline(after: Duration, ok: bool)
    | ReadFromSession(size: nat, got: Io<Datagram>)

  /** One iteration of the multicast loop: whether selecting the interface
      succeeds, whether setting the deadline succeeds, and what WriteTo
      returns. The hop limit's result is not looked at. */
  datatype McStep = McStep(ifaceOk: bool, deadlineOk: bool, io: Io<nat>)

  datatype UdpRun = UdpRun(status: Status, calls: seq<UdpCall>, next: nat)

  // ---------------------------------------------------------------------
  // Unicast write

  /** Bytes the socket reports having sent in one WriteToSession. */
  function Taken(c: UdpCall): seq<byte>
  {
    if c.WriteToSession? && c.wrote.Ok? then c.chunk[..Min(c.wrote.value, |c.chunk|)] else []
  }

  /** Everything sent to the peer, in order. */
  function Delivered(calls: seq<UdpCall>): seq<byte>
    decreases |calls|
  {
    if calls == [] then [] else Taken(calls[0]) + Delivered(calls[1..])
  }

  /** Sum of the counts the successful writes returned. */
  function Sent(calls: seq<UdpCall>): nat
    decreases |calls|
  {
    if calls == [] then 0
    else (if calls[0].WriteToSession? && calls[0].wrote.Ok? then calls[0].wrote.value else 0) + Sent(calls[1..])
  }

  /** The socket never reports more bytes than it was given. */
  predicate HonestWriter(calls: seq<UdpCall>)
  {
    forall c :: c in calls ==> HonestCall(c)
  }

  predicate HonestCall(c: UdpCall)
  {
    c.WriteToSession? && c.wrote.Ok? ==> c.wrote.value <= |c.chunk|
  }

  /** The unicast write loop, from `written` bytes sent and script position i. */
  function WriteLoop(hb: Duration, ctx: Context, session: UdpCtx, buffer: seq<byte>,
                     env: seq<Step<Io<nat>>>, written: nat, i: nat): (r: UdpRun)
    requires i <= |env|
    ensures i <= r.next <= |env|
    decreases |env| - i
  {
    if written >= |buffer| then UdpRun(Nil, [], i)
    else if ctx.DoneAt(i) then UdpRun(Error(ContextErr(ctx.cause)), [], i)
    else if i == |env| then UdpRun(Pending, [], i)
    else if !env[i].deadlineOk then
      UdpRun(Error(CannotSetUdpWriteDeadline), [SetWriteDeadline(hb, false)], i + 1)
    else
      var attempt := [SetWriteDeadline(hb, true), WriteToSession(session, buffer[written..], env[i].io)];
      if env[i].io.Fatal? then UdpRun(Error(CannotWriteUdp), attempt, i + 1)
      else
        // a temporary error retries; a send of n bytes counts them
        var w := if env[i].io.Ok? then written + env[i].io.value else written;
        var r := WriteLoop(hb, ctx, session, buffer, env, w, i + 1);
        r.(calls := attempt + r.calls)
  }

  /** The unicast loop succeeds exactly when the counts sent reach the
      length of the buffer. */
  lemma SentAttempt(d: UdpCall, w: UdpCall, rest: seq<UdpCall>)
    requires d.SetWriteDeadline? && w.WriteToSession?
    ensures Sent([d, w] + rest) == (if w.wrote.Ok? then w.wrote.value else 0) + Sent(rest)
  {
    var all := [d, w] + rest;
    assert all[1..] == [w] + rest;
    assert all[1..][1..] == rest;
  }

  lemma {:induction false} WriteSucceeds(hb: Duration, ctx: Context, session: UdpCtx, buffer: seq<byte>,
                                         env: seq<Step<Io<nat>>>, written: nat, i: nat)
    requires i <= |env|
    ensures var r := WriteLoop(hb, ctx, session, buffer, env, written, i);
      r.status == Nil <==> written + Sent(r.calls) >= |buffer|
    decreases |env| - i
  {
    if written >= |buffer| || ctx.DoneAt(i) || i == |env| {
    } else if !env[i].deadlineOk {
      assert Sent([SetWriteDeadline(hb, false)]) == 0;
    } else {
      var io := env[i].io;
      var k: nat := if io.Ok? then io.value else 0;
      var w: nat := written + k;
      var attempt := [SetWriteDeadline(hb, true), WriteToSession(session, buffer[written..], io)];
      if io.Fatal? {
        SentAttempt(attempt[0], attempt[1], []);
        assert attempt + [] == attempt;
      } else {
        WriteSucceeds(hb, ctx, session, buffer, env, w, i + 1);
        var r := WriteLoop(hb, ctx, session, buffer, env, w, i + 1);
        assert WriteLoop(hb, ctx, session, buffer, env, written, i) == r.(calls := attempt + r.calls);
        SentAttempt(attempt[0], attempt[1], r.calls);
      }
    }
  }

  /** How the unicast loop ends: each error names the check that failed,
      and a done context is the only other way out. */
  lemma {:induction false} WriteOutcomes(hb: Duration, ctx: Context, session: UdpCtx, buffer: seq<byte>,
                                         env: seq<Step<Io<nat>>>, written: nat, i: nat)
    requires i <= |env|
    ensures var r := WriteLoop(hb, ctx, session, buffer, env, written, i);
      && (r.status == Error(CannotSetUdpWriteDeadline) <==>
            |r.calls| > 0 && Last(r.calls) == SetWriteDeadline(hb, false))
      && (r.status == Error(CannotWriteUdp) <==>
            |r.calls| > 0 && Last(r.calls).WriteToSession? && Last(r.calls).wrote.Fatal?)
      && (r.status.Error? ==>
            || (ctx.DoneAt(r.next) && r.status.err == ContextErr(ctx.cause))
            || r.status.err == CannotSetUdpWriteDeadline
            || r.status.err == CannotWriteUdp)
    decreases |env| - i
  {
    if written >= |buffer| || ctx.DoneAt(i) || i == |env| || !env[i].deadlineOk || env[i].io.Fatal? {
    } else {
      var io := env[i].io;
      var attempt := [SetWriteDeadline(hb, true), WriteToSession(session, buffer[written..], io)];
      var w: nat := if io.Ok? then written + io.value else written;
      WriteOutcomes(hb, ctx, session, buffer, env, w, i + 1);
      var r := WriteLoop(hb, ctx, session, buffer, env, w, i + 1);
      assert WriteLoop(hb, ctx, session, buffer, env, written, i) == r.(calls := attempt + r.calls);
      if |r.calls| > 0 { assert Last(attempt + r.calls) == Last(r.calls); }
    }
  }

  lemma DeliveredAttempt(d: UdpCall, w: UdpCall, rest: seq<UdpCall>)
    requires d.SetWriteDeadline?
    ensures Delivered([d, w] + rest) == Taken(w) + Delivered(rest)
  {
    var all := [d, w] + rest;
    assert all[1..] == [w] + rest;
    assert all[1..][1..] == rest;
  }

  lemma HonestStep(attempt: seq<UdpCall>, rest: seq<UdpCall>)
    requires |attempt| == 2 && HonestWriter(attempt + rest)
    ensures HonestWriter(rest)
    ensures attempt[1].WriteToSession? && attempt[1].wrote.Ok? ==> attempt[1].wrote.value <= |attempt[1].chunk|
  {
    assert attempt[1] == (attempt + rest)[1] && attempt[1] in attempt + rest;
    assert HonestCall(attempt[1]);
    assert forall c :: c in rest ==> c in attempt + rest;
  }

  lemma DeliveredStep(hb: Duration, session: UdpCtx, buffer: seq<byte>, written: nat, io: Io<nat>,
                      k: nat, rest: seq<UdpCall>)
    requires written + k <= |buffer|
    requires Taken(WriteToSession(session, buffer[written..], io)) == buffer[written..][..k]
    requires Delivered(rest) == buffer[written + k..]
    ensures Delivered([SetWriteDeadline(hb, true), WriteToSession(session, buffer[written..], io)] + rest)
      == buffer[written..]
  {
    var left := buffer[written..];
    DeliveredAttempt(SetWriteDeadline(hb, true), WriteToSession(session, left, io), rest);
    assert left[k..] == buffer[written + k..];
    assert left == left[..k] + left[k..];
  }

  /** With an honest socket a nil result means the peer was sent exactly
      buffer[written:], in order: each write is handed the part not yet
      sent, and a temporary error sends nothing. */
  lemma {:induction false} WriteDelivers(hb: Duration, ctx: Context, session: UdpCtx, buffer: seq<byte>,
                                         env: seq<Step<Io<nat>>>, written: nat, i: nat)
    requires i <= |env| && written <= |buffer|
    ensures var r := WriteLoop(hb, ctx, session, buffer, env, written, i);
      r.status == Nil && HonestWriter(r.calls) ==> Delivered(r.calls) == buffer[written..]
    decreases |env| - i
  {
    var whole := WriteLoop(hb, ctx, session, buffer, env, written, i);
    if written >= |buffer| {
      assert whole.calls == [] && buffer[written..] == [];
    } else if ctx.DoneAt(i) || i == |env| || !env[i].deadlineOk || env[i].io.Fatal? {
      assert whole.status != Nil;
    } else {
      var io := env[i].io;
      var attempt := [SetWriteDeadline(hb, true), WriteToSession(session, buffer[written..], io)];
      var k: nat := if io.Ok? then io.value else 0;
      var r := WriteLoop(hb, ctx, session, buffer, env, written + k, i + 1);
      assert whole == r.(calls := attempt + r.calls);
      if r.status == Nil && HonestWriter(attempt + r.calls) {
        HonestStep(attempt, r.calls);
        var mid: nat := written + k;
        assert mid <= |buffer|;
        WriteDelivers(hb, ctx, session, buffer, env, mid, i + 1);
        assert Taken(attempt[1]) == buffer[written..][..k];
        DeliveredStep(hb, session, buffer, written, io, k, r.calls);
      }
    }
  }

  /** Every unicast write goes to the given peer, and the loop makes no
      multicast call. */
  lemma {:induction false} WriteAddressed(hb: Duration, ctx: Context, session: UdpCtx, buffer: seq<byte>,
                                          env: seq<Step<Io<nat>>>, written: nat, i: nat)
    requires i <= |env|
    ensures forall c :: c in WriteLoop(hb, ctx, session, buffer, env, written, i).calls ==>
      !c.WriteTo? && !c.SetMulticastInterface? && (c.WriteToSession? ==> c.session == session)
    decreases |env| - i
  {
    if written >= |buffer| || ctx.DoneAt(i) || i == |env| || !env[i].deadlineOk || env[i].io.Fatal? {
    } else {
      var io := env[i].io;
      var attempt := [SetWriteDeadline(hb, true), WriteToSession(session, buffer[written..], io)];
      var w := if io.Ok? then written + io.value else written;
      WriteAddressed(hb, ctx, session, buffer, env, w, i + 1);
      var r := WriteLoop(hb, ctx, session, buffer, env, w, i + 1);
      assert WriteLoop(hb, ctx, session, buffer, env, written, i).calls == attempt + r.calls;
      assert forall c :: c in attempt + r.calls ==> c in attempt || c in r.calls;
    }
  }

  /** A context done at the start of an iteration ends the loop before any
      further socket call; the loop is left pending only when the script
      ran out first. */
  lemma {:induction false} WriteStopsAtCancel(hb: Duration, ctx: Context, session: UdpCtx, buffer: seq<byte>,
                                              env: seq<Step<Io<nat>>>, written: nat, i: nat)
    requires i <= |env|
    ensures var r := WriteLoop(hb, ctx, session, buffer, env, written, i);
      && (ctx.Cancellable? && i <= ctx.doneAt ==> r.next <= ctx.doneAt)
      && (r.status == Pending ==> r.next == |env| && !ctx.DoneAt(r.next))
    decreases |env| - i
  {
    if written >= |buffer| || ctx.DoneAt(i) || i == |env| || !env[i].deadlineOk || env[i].io.Fatal? {
    } else {
      var k := if env[i].io.Ok? then env[i].io.value else 0;
      WriteStopsAtCancel(hb, ctx, session, buffer, env, written + k, i + 1);
    }
  }

  // ---------------------------------------------------------------------
  // Multicast write

  /** The inner loop of writeMulticastWithContext on one interface. Nil
      means the loop moved on to the next interface: the buffer counts as
      written, selecting the interface failed, or WriteTo failed for good. */
  function InterfaceLoop(hb: Duration, hop: int, ctx: Context, iface: Iface, buffer: seq<byte>,
                         dst: UdpAddr, env: seq<McStep>, written: nat, i: nat): (r: UdpRun)
    requires i <= |env|
    ensures i <= r.next <= |env|
    decreases |env| - i
  {
    if written >= |buffer| then UdpRun(Nil, [], i)
    else if ctx.DoneAt(i) then UdpRun(Error(ContextErr(ctx.cause)), [], i)
    else if i == |env| then UdpRun(Pending, [], i)
    else if !env[i].ifaceOk then UdpRun(Nil, [SetMulticastInterface(iface, false)], i + 1)
    else
      var setup := [SetMulticastInterface(iface, true), SetMulticastHopLimit(hop),
                    SetWriteDeadline(hb, env[i].deadlineOk)];
      if !env[i].deadlineOk then UdpRun(Error(CannotSetMulticastWriteDeadline), setup, i + 1)
      else
        var attempt := setup + [WriteTo(buffer, dst, env[i].io)];
        if env[i].io.Fatal? then UdpRun(Nil, attempt, i + 1)
        else
          // a temporary error retries; a send of n bytes counts them
          var w := if env[i].io.Ok? then written + env[i].io.value else written;
          var r := InterfaceLoop(hb, hop, ctx, iface, buffer, dst, env, w, i + 1);
          r.(calls := attempt + r.calls)
  }

  /** The outer loop of writeMulticastWithContext, over ifaces[k:]. */
  function MulticastLoop(hb: Duration, hop: int, ctx: Context, ifaces: seq<Iface>, buffer: seq<byte>,
                         dst: UdpAddr, env: seq<McStep>, k: nat, i: nat): (r: UdpRun)
    requires k <= |ifaces| && i <= |env|
    ensures i <= r.next <= |env|
    decreases |ifaces| - k
  {
    if k == |ifaces| then UdpRun(Nil, [], i)
    else
      var one := InterfaceLoop(hb, hop, ctx, ifaces[k], buffer, dst, env, 0, i);
      if one.status != Nil then one
      else
        var rest := MulticastLoop(hb, hop, ctx, ifaces, buffer, dst, env, k + 1, one.next);
        rest.(calls := one.calls + rest.calls)
  }

  /** writeMulticastWithContext: the up-front checks, then the interface
      loop; `ifaces` is what net.Interfaces() returned, None for an error. */
  function WriteMulticast(hb: Duration, hop: int, kind: PacketConnKind, ctx: Context,
                          udpCtx: Option<UdpCtx>, buffer: seq<byte>,
                          ifaces: Option<seq<Iface>>, env: seq<McStep>): (r: UdpRun)
    ensures r.next <= |env|
    ensures r.calls != [] ==>
      udpCtx.Some? && ifaces.Some? && !(kind == PacketConnIPv4 && IsIPv6(udpCtx.value.raddr.ip))
  {
    if udpCtx.None? then UdpRun(Error(InvalidMulticastUdpCtx), [], 0)
    else if kind == PacketConnIPv4 && IsIPv6(udpCtx.value.raddr.ip) then
      UdpRun(Error(InvalidMulticastDestination), [], 0)
    else if ifaces.None? then UdpRun(Error(CannotGetInterfaces), [], 0)
    else MulticastLoop(hb, hop, ctx, ifaces.value, buffer, udpCtx.value.raddr, env, 0, 0)
  }

  /** The only errors of the interface loops: a done context, or a failure
      to set the write deadline, which is then the last call. */
  predicate LoopError(hb: Duration, ctx: Context, r: UdpRun)
  {
    r.status.Error? ==>
      || (ctx.DoneAt(r.next) && r.status.err == ContextErr(ctx.cause))
      || (r.status.err == CannotSetMulticastWriteDeadline &&
          |r.calls| > 0 && Last(r.calls) == SetWriteDeadline(hb, false))
  }

  lemma {:induction false} InterfaceErrors(hb: Duration, hop: int, ctx: Context, iface: Iface, buffer: seq<byte>,
                                           dst: UdpAddr, env: seq<McStep>, written: nat, i: nat)
    requires i <= |env|
    ensures LoopError(hb, ctx, InterfaceLoop(hb, hop, ctx, iface, buffer, dst, env, written, i))
    decreases |env| - i
  {
    if written >= |buffer| || ctx.DoneAt(i) || i == |env| || !env[i].ifaceOk || !env[i].deadlineOk || env[i].io.Fatal? {
    } else {
      var io := env[i].io;
      var attempt := [SetMulticastInterface(iface, true), SetMulticastHopLimit(hop),
                      SetWriteDeadline(hb, true), WriteTo(buffer, dst, io)];
      var w := if io.Ok? then written + io.value else written;
      InterfaceErrors(hb, hop, ctx, iface, buffer, dst, env, w, i + 1);
      var r := InterfaceLoop(hb, hop, ctx, iface, buffer, dst, env, w, i + 1);
      assert InterfaceLoop(hb, hop, ctx, iface, buffer, dst, env, written, i) == r.(calls := attempt + r.calls);
      if |r.calls| > 0 { assert Last(attempt + r.calls) == Last(r.calls); }
    }
  }

  lemma {:induction false} MulticastErrors(hb: Duration, hop: int, ctx: Context, ifaces: seq<Iface>, buffer: seq<byte>,
                                           dst: UdpAddr, env: seq<McStep>, k: nat, i: nat)
    requires k <= |ifaces| && i <= |env|
    ensures LoopError(hb, ctx, MulticastLoop(hb, hop, ctx, ifaces, buffer, dst, env, k, i))
    decreases |ifaces| - k
  {
    if k < |ifaces| {
      var one := InterfaceLoop(hb, hop, ctx, ifaces[k], buffer, dst, env, 0, i);
      InterfaceErrors(hb, hop, ctx, ifaces[k], buffer, dst, env, 0, i);
      if one.status == Nil {
        var rest := MulticastLoop(hb, hop, ctx, ifaces, buffer, dst, env, k + 1, one.next);
        MulticastErrors(hb, hop, ctx, ifaces, buffer, dst, env, k + 1, one.next);
        if |rest.calls| > 0 { assert Last(one.calls + rest.calls) == Last(rest.calls); }
      }
    }
  }

  /** How a multicast write ends: each up-front check has its own error, and
      after them the only errors are a done context and a failure to set the
      deadline. A failed interface selection or a failed WriteTo never
      surfaces: with every interface failing the result is still nil. */
  lemma MulticastOutcomes(hb: Duration, hop: int, kind: PacketConnKind, ctx: Context,
                          udpCtx: Option<UdpCtx>, buffer: seq<byte>,
                          ifaces: Option<seq<Iface>>, env: seq<McStep>)
    ensures var r := WriteMulticast(hb, hop, kind, ctx, udpCtx, buffer, ifaces, env);
      && (r.status == Error(InvalidMulticastUdpCtx) <==> udpCtx.None?)
      && (r.status == Error(InvalidMulticastDestination) <==>
            udpCtx.Some? && kind == PacketConnIPv4 && IsIPv6(udpCtx.value.raddr.ip))
      && (r.status == Error(CannotGetInterfaces) <==>
            udpCtx.Some? && !(kind == PacketConnIPv4 && IsIPv6(udpCtx.value.raddr.ip)) && ifaces.None?)
      && (r.status.Error? && udpCtx.Some? && ifaces.Some? &&
          !(kind == PacketConnIPv4 && IsIPv6(udpCtx.value.raddr.ip))
          ==> LoopError(hb, ctx, r))
  {
    if udpCtx.Some? && !(kind == PacketConnIPv4 && IsIPv6(udpCtx.value.raddr.ip)) && ifaces.Some? {
      MulticastErrors(hb, hop, ctx, ifaces.value, buffer, udpCtx.value.raddr, env, 0, 0);
    }
  }

  /** The calls a multicast write makes carry the connection's settings:
      every WriteTo sends the whole buffer to the destination, every hop
      limit is the configured one, every deadline is now+hb. */
  predicate McCallsCarry(hb: Duration, hop: int, buffer: seq<byte>, dst: UdpAddr, calls: seq<UdpCall>)
  {
    forall c :: c in calls ==> Carries(hb, hop, buffer, dst, c)
  }

  /** One multicast call carries the settings. */
  predicate Carries(hb: Duration, hop: int, buffer: seq<byte>, dst: UdpAddr, c: UdpCall)
  {
    && (c.WriteTo? ==> c.packet == buffer && c.dst == dst)
    && (c.SetMulticastHopLimit? ==> c.limit == hop)
    && (c.SetWriteDeadline? ==> c.after == hb)
    && !c.WriteToSession? && !c.SetReadDeadline? && !c.ReadFromSession?
  }

  /** Interfaces selected, in the order the calls select them. */
  function Selected(calls: seq<UdpCall>): seq<Iface>
    decreases |calls|
  {
    if calls == [] then []
    else if calls[0].SetMulticastInterface? then [calls[0].iface] + Selected(calls[1..])
    else Selected(calls[1..])
  }

  /** xs walks along ys, staying on an element or moving forward, never
      back; it need not reach every element of ys (a run cut short by an
      error does not), which Turns states for runs that move on. */
  predicate InOrder(xs: seq<Iface>, ys: seq<Iface>)
    decreases |xs| + |ys|
  {
    || xs == []
    || (&& ys != []
        && ((xs[0] == ys[0] && InOrder(xs[1..], ys)) || InOrder(xs, ys[1..])))
  }

  /** The shape of one interface's calls: each names that interface, and a
      failed selection or a fatal WriteTo is the last thing done on it. */
  predicate InterfaceShape(iface: Iface, calls: seq<UdpCall>)
  {
    && (forall c :: c in calls && c.SetMulticastInterface? ==> c.iface == iface)
    && (forall j :: 0 <= j < |calls| - 1 ==> calls[j] != SetMulticastInterface(iface, false))
    && (forall j :: 0 <= j < |calls| - 1 && calls[j].WriteTo? ==> !calls[j].sent.Fatal?)
  }

  lemma {:induction false} SelectedAppend(a: seq<UdpCall>, b: seq<UdpCall>)
    ensures Selected(a + b) == Selected(a) + Selected(b)
    decreases |a|
  {
    if a == [] {
      assert a + b == b;
    } else {
      assert (a + b)[0] == a[0];
      assert (a + b)[1..] == a[1..] + b;
      SelectedAppend(a[1..], b);
    }
  }

  lemma {:induction false} SelectedOne(iface: Iface, calls: seq<UdpCall>)
    requires forall c :: c in calls && c.SetMulticastInterface? ==> c.iface == iface
    ensures forall x :: x in Selected(calls) ==> x == iface
    decreases |calls|
  {
    if calls != [] {
      assert forall c :: c in calls[1..] ==> c in calls;
      SelectedOne(iface, calls[1..]);
    }
  }

  /** Selections all of y, and then selections in order of ys, are in order
      of [y] + ys. */
  lemma {:induction false} InOrderCons(xs: seq<Iface>, zs: seq<Iface>, y: Iface, ys: seq<Iface>)
    requires forall x :: x in xs ==> x == y
    requires InOrder(zs, ys)
    ensures InOrder(xs + zs, [y] + ys)
    decreases |xs|
  {
    if xs == [] {
      assert xs + zs == zs;
      assert ([y] + ys)[1..] == ys;
      if zs != [] {
        assert InOrder(zs, ([y] + ys)[1..]);
      }
    } else {
      assert xs[0] in xs && (xs + zs)[0] == xs[0];
      assert forall x :: x in xs[1..] ==> x in xs;
      assert (xs + zs)[1..] == xs[1..] + zs;
      InOrderCons(xs[1..], zs, y, ys);
    }
  }

  /** One successful or temporary attempt keeps the settings carried. */
  lemma CarriesCons(hb: Duration, hop: int, buffer: seq<byte>, dst: UdpAddr, iface: Iface, io: Io<nat>,
                    rest: seq<UdpCall>)
    requires McCallsCarry(hb, hop, buffer, dst, rest)
    ensures McCallsCarry(hb, hop, buffer, dst, [SetMulticastInterface(iface, true), SetMulticastHopLimit(hop),
                                                SetWriteDeadline(hb, true), WriteTo(buffer, dst, io)] + rest)
  {
    var attempt := [SetMulticastInterface(iface, true), SetMulticastHopLimit(hop),
                    SetWriteDeadline(hb, true), WriteTo(buffer, dst, io)];
    assert forall c :: c in attempt + rest ==> c in attempt || c in rest;
  }

  /** One attempt that is not fatal keeps an interface's shape. */
  lemma ShapeCons(hb: Duration, hop: int, buffer: seq<byte>, dst: UdpAddr, iface: Iface, io: Io<nat>,
                  rest: seq<UdpCall>)
    requires !io.Fatal? && InterfaceShape(iface, rest)
    ensures InterfaceShape(iface, [SetMulticastInterface(iface, true), SetMulticastHopLimit(hop),
                                   SetWriteDeadline(hb, true), WriteTo(buffer, dst, io)] + rest)
  {
    var attempt := [SetMulticastInterface(iface, true), SetMulticastHopLimit(hop),
                    SetWriteDeadline(hb, true), WriteTo(buffer, dst, io)];
    var all := attempt + rest;
    assert forall c :: c in all ==> c in attempt || c in rest;
    assert forall j :: 4 <= j < |all| ==> all[j] == rest[j - 4];
  }

  lemma {:induction false} InterfaceCarries(hb: Duration, hop: int, ctx: Context, iface: Iface, buffer: seq<byte>,
                                            dst: UdpAddr, env: seq<McStep>, written: nat, i: nat)
    requires i <= |env|
    ensures McCallsCarry(hb, hop, buffer, dst, InterfaceLoop(hb, hop, ctx, iface, buffer, dst, env, written, i).calls)
    decreases |env| - i
  {
    var whole := InterfaceLoop(hb, hop, ctx, iface, buffer, dst, env, written, i);
    if written >= |buffer| || ctx.DoneAt(i) || i == |env| {
      assert whole.calls == [];
    } else if !env[i].ifaceOk {
      assert whole.calls == [SetMulticastInterface(iface, false)];
    } else if !env[i].deadlineOk {
      assert whole.calls == [SetMulticastInterface(iface, true), SetMulticastHopLimit(hop), SetWriteDeadline(hb, false)];
    } else if env[i].io.Fatal? {
      assert whole.calls == [SetMulticastInterface(iface, true), SetMulticastHopLimit(hop),
                             SetWriteDeadline(hb, true), WriteTo(buffer, dst, Fatal)];
    } else {
      var io := env[i].io;
      var w: nat := if io.Ok? then written + io.value else written;
      InterfaceCarries(hb, hop, ctx, iface, buffer, dst, env, w, i + 1);
      var r := InterfaceLoop(hb, hop, ctx, iface, buffer, dst, env, w, i + 1);
      var attempt := [SetMulticastInterface(iface, true), SetMulticastHopLimit(hop),
                      SetWriteDeadline(hb, true), WriteTo(buffer, dst, io)];
      assert whole == r.(calls := attempt + r.calls);
      CarriesCons(hb, hop, buffer, dst, iface, io, r.calls);
    }
  }

  lemma {:induction false} InterfaceCalls(hb: Duration, hop: int, ctx: Context, iface: Iface, buffer: seq<byte>,
                                          dst: UdpAddr, env: seq<McStep>, written: nat, i: nat)
    requires i <= |env|
    ensures InterfaceShape(iface, InterfaceLoop(hb, hop, ctx, iface, buffer, dst, env, written, i).calls)
    decreases |env| - i
  {
    var whole := InterfaceLoop(hb, hop, ctx, iface, buffer, dst, env, written, i);
    if written >= |buffer| || ctx.DoneAt(i) || i == |env| {
      assert whole.calls == [];
    } else if !env[i].ifaceOk {
      assert whole.calls == [SetMulticastInterface(iface, false)];
    } else if !env[i].deadlineOk {
      assert whole.calls == [SetMulticastInterface(iface, true), SetMulticastHopLimit(hop), SetWriteDeadline(hb, false)];
    } else if env[i].io.Fatal? {
      assert whole.calls == [SetMulticastInterface(iface, true), SetMulticastHopLimit(hop),
                             SetWriteDeadline(hb, true), WriteTo(buffer, dst, Fatal)];
    } else {
      var io := env[i].io;
      var w: nat := if io.Ok? then written + io.value else written;
      InterfaceCalls(hb, hop, ctx, iface, buffer, dst, env, w, i + 1);
      var r := InterfaceLoop(hb, hop, ctx, iface, buffer, dst, env, w, i + 1);
      assert whole.calls ==
        [SetMulticastInterface(iface, true), SetMulticastHopLimit(hop),
         SetWriteDeadline(hb, true), WriteTo(buffer, dst, io)] + r.calls;
      ShapeCons(hb, hop, buffer, dst, iface, io, r.calls);
    }
  }

  lemma {:induction false} MulticastCalls(hb: Duration, hop: int, ctx: Context, ifaces: seq<Iface>, buffer: seq<byte>,
                                          dst: UdpAddr, env: seq<McStep>, k: nat, i: nat)
    requires k <= |ifaces| && i <= |env|
    ensures var r := MulticastLoop(hb, hop, ctx, ifaces, buffer, dst, env, k, i);
      InOrder(Selected(r.calls), ifaces[k..]) && McCallsCarry(hb, hop, buffer, dst, r.calls)
    decreases |ifaces| - k
  {
    if k < |ifaces| {
      var one := InterfaceLoop(hb, hop, ctx, ifaces[k], buffer, dst, env, 0, i);
      InterfaceCalls(hb, hop, ctx, ifaces[k], buffer, dst, env, 0, i);
      InterfaceCarries(hb, hop, ctx, ifaces[k], buffer, dst, env, 0, i);
      SelectedOne(ifaces[k], one.calls);
      assert ifaces[k..] == [ifaces[k]] + ifaces[k + 1..];
      if one.status == Nil {
        var rest := MulticastLoop(hb, hop, ctx, ifaces, buffer, dst, env, k + 1, one.next);
        MulticastCalls(hb, hop, ctx, ifaces, buffer, dst, env, k + 1, one.next);
        SelectedAppend(one.calls, rest.calls);
        InOrderCons(Selected(one.calls), Selected(rest.calls), ifaces[k], ifaces[k + 1..]);
        assert forall c :: c in one.calls + rest.calls ==> c in one.calls || c in rest.calls;
      } else {
        assert Selected(one.calls) == Selected(one.calls) + [];
        InOrderCons(Selected(one.calls), [], ifaces[k], ifaces[k + 1..]);
      }
    }
  }

  /** Multicast never goes back to an interface it left, and every packet
      it sends is the whole buffer, to the destination, with the configured
      hop limit and a deadline of now+hb. */
  lemma MulticastInOrder(hb: Duration, hop: int, kind: PacketConnKind, ctx: Context,
                         udpCtx: Option<UdpCtx>, buffer: seq<byte>,
                         ifaces: Option<seq<Iface>>, env: seq<McStep>)
    requires udpCtx.Some? && ifaces.Some?
    ensures var r := WriteMulticast(hb, hop, kind, ctx, udpCtx, buffer, ifaces, env);
      && InOrder(Selected(r.calls), ifaces.value)
      && McCallsCarry(hb, hop, buffer, udpCtx.value.raddr, r.calls)
  {
    var r := WriteMulticast(hb, hop, kind, ctx, udpCtx, buffer, ifaces, env);
    if kind == PacketConnIPv4 && IsIPv6(udpCtx.value.raddr.ip) {
      assert r.calls == [];
    } else {
      assert r == MulticastLoop(hb, hop, ctx, ifaces.value, buffer, udpCtx.value.raddr, env, 0, 0);
      MulticastCalls(hb, hop, ctx, ifaces.value, buffer, udpCtx.value.raddr, env, 0, 0);
      assert ifaces.value[0..] == ifaces.value;
    }
  }

  /** A multicast write of a non-empty buffer that returns nil gave every
      interface of the list one turn, in list order. */
  lemma MulticastTriesEvery(hb: Duration, hop: int, kind: PacketConnKind, ctx: Context,
                            udpCtx: Option<UdpCtx>, buffer: seq<byte>,
                            ifaces: Option<seq<Iface>>, env: seq<McStep>)
    requires ifaces.Some? && |buffer| > 0
    ensures var r := WriteMulticast(hb, hop, kind, ctx, udpCtx, buffer, ifaces, env);
      r.status == Nil ==> Turns(r.calls, ifaces.value, |buffer|)
  {
    var ys := ifaces.value;
    assert ys[0..] == ys;
    if udpCtx.Some? && !(kind == PacketConnIPv4 && IsIPv6(udpCtx.value.raddr.ip)) {
      MulticastVisitsAll(hb, hop, ctx, ys, buffer, udpCtx.value.raddr, env, 0, 0);
    }
  }

  /** An empty buffer sends nothing on any interface: the write is nil
      without looking at the context or the socket. */
  lemma {:induction false} MulticastEmptyBuffer(hb: Duration, hop: int, ctx: Context, ifaces: seq<Iface>,
                                                dst: UdpAddr, env: seq<McStep>, k: nat, i: nat)
    requires k <= |ifaces| && i <= |env|
    ensures MulticastLoop(hb, hop, ctx, ifaces, [], dst, env, k, i) == UdpRun(Nil, [], i)
    decreases |ifaces| - k
  {
    if k < |ifaces| {
      MulticastEmptyBuffer(hb, hop, ctx, ifaces, dst, env, k + 1, i);
    }
  }

  /** Every packet handed to an interface failed for good: none was sent. */
  predicate NothingSent(calls: seq<UdpCall>)
  {
    forall c :: c in calls ==> !c.WriteTo? || c.sent.Fatal?
  }

  /** When every interface either refuses to be selected or fails its
      WriteTo for good, the write still returns nil: each interface is
      selected exactly once, in list order, and no packet is sent. */
  lemma {:induction false} MulticastNilWhenEveryInterfaceFails(hb: Duration, hop: int, ctx: Context,
                                                               ifaces: seq<Iface>, buffer: seq<byte>,
                                                               dst: UdpAddr, env: seq<McStep>, k: nat, i: nat)
    requires k <= |ifaces| && i <= |env|
    requires |buffer| > 0 && !ctx.DoneAt(i + |ifaces| - k)
    requires |ifaces| - k <= |env| - i
    requires forall j :: i <= j < |env| ==> !env[j].ifaceOk || (env[j].deadlineOk && env[j].io.Fatal?)
    ensures var r := MulticastLoop(hb, hop, ctx, ifaces, buffer, dst, env, k, i);
      r.status == Nil && NothingSent(r.calls) && Selected(r.calls) == ifaces[k..]
    decreases |ifaces| - k
  {
    var whole := MulticastLoop(hb, hop, ctx, ifaces, buffer, dst, env, k, i);
    if k == |ifaces| {
      assert whole.calls == [];
    } else {
      var x := ifaces[k];
      assert ifaces[k..] == [x] + ifaces[k + 1..];
      FailedTurn(hb, hop, ctx, x, buffer, dst, env, i);
      var one := InterfaceLoop(hb, hop, ctx, x, buffer, dst, env, 0, i);
      MulticastNilWhenEveryInterfaceFails(hb, hop, ctx, ifaces, buffer, dst, env, k + 1, i + 1);
      var rest := MulticastLoop(hb, hop, ctx, ifaces, buffer, dst, env, k + 1, i + 1);
      assert whole.calls == one.calls + rest.calls;
      SelectedAppend(one.calls, rest.calls);
      assert forall c :: c in one.calls + rest.calls ==> c in one.calls || c in rest.calls;
    }
  }

  /** One interface that refuses selection or fails its WriteTo for good
      takes one step, is selected once and sends nothing. */
  lemma FailedTurn(hb: Duration, hop: int, ctx: Context, x: Iface, buffer: seq<byte>,
                   dst: UdpAddr, env: seq<McStep>, i: nat)
    requires i < |env| && |buffer| > 0 && !ctx.DoneAt(i)
    requires !env[i].ifaceOk || (env[i].deadlineOk && env[i].io.Fatal?)
    ensures var one := InterfaceLoop(hb, hop, ctx, x, buffer, dst, env, 0, i);
      one.status == Nil && one.next == i + 1 && NothingSent(one.calls) && Selected(one.calls) == [x]
  {
    var one := InterfaceLoop(hb, hop, ctx, x, buffer, dst, env, 0, i);
    if !env[i].ifaceOk {
      var c := [SetMulticastInterface(x, false)];
      assert one == UdpRun(Nil, c, i + 1);
      assert c[1..] == [];
    } else {
      var w := WriteTo(buffer, dst, Fatal);
      var c := [SetMulticastInterface(x, true), SetMulticastHopLimit(hop), SetWriteDeadline(hb, true), w];
      assert one == UdpRun(Nil, c, i + 1);
      var c3 := [w];
      var c2 := [SetWriteDeadline(hb, true)] + c3;
      var c1 := [SetMulticastHopLimit(hop)] + c2;
      assert c3[1..] == [] && c2[1..] == c3 && c1[1..] == c2 && c[1..] == c1;
      assert Selected(c3) == [];
      assert Selected(c2) == [];
      assert Selected(c1) == [];
    }
  }

  /** Sum of the counts the successful multicast WriteTos returned. */
  function McSent(calls: seq<UdpCall>): nat
    decreases |calls|
  {
    if calls == [] then 0
    else (if calls[0].WriteTo? && calls[0].sent.Ok? then calls[0].sent.value else 0) + McSent(calls[1..])
  }

  /** The count the last call returned, if it is a successful WriteTo. */
  function LastSent(calls: seq<UdpCall>): nat
  {
    if calls != [] && Last(calls).WriteTo? && Last(calls).sent.Ok? then Last(calls).sent.value else 0
  }

  /** One attempt on an interface counts what its WriteTo returned. */
  lemma McSentAttempt(iface: Iface, hop: int, hb: Duration, buffer: seq<byte>, dst: UdpAddr, io: Io<nat>,
                      rest: seq<UdpCall>)
    ensures McSent([SetMulticastInterface(iface, true), SetMulticastHopLimit(hop),
                    SetWriteDeadline(hb, true), WriteTo(buffer, dst, io)] + rest) ==
            (if io.Ok? then io.value else 0) + McSent(rest)
  {
    var c3 := [WriteTo(buffer, dst, io)] + rest;
    var c2 := [SetWriteDeadline(hb, true)] + c3;
    var c1 := [SetMulticastHopLimit(hop)] + c2;
    var c := [SetMulticastInterface(iface, true)] + c1;
    assert c3[1..] == rest && c2[1..] == c3 && c1[1..] == c2 && c[1..] == c1;
    assert McSent(c3) == (if io.Ok? then io.value else 0) + McSent(rest);
    assert McSent(c2) == McSent(c3);
    assert McSent(c1) == McSent(c2);
    assert McSent(c) == McSent(c1);
    assert [SetMulticastInterface(iface, true), SetMulticastHopLimit(hop),
            SetWriteDeadline(hb, true), WriteTo(buffer, dst, io)] + rest == c;
  }

  /** The calls of one interface's turn, on a write that moved on from it,
      with `need` bytes still to send when the turn began: the turn begins
      by selecting the interface, every call names it, a failed selection
      or a fatal WriteTo ends the turn, and the turn ends with one of those
      or with a WriteTo that did not fail temporarily. The calls before the
      last sent fewer than `need` bytes (the whole count less the last
      call's own), and the turn reaches `need` exactly when it ends at a
      successful WriteTo: that WriteTo completed the buffer. */
  predicate Turn(iface: Iface, need: nat, calls: seq<UdpCall>)
  {
    && calls != []
    && calls[0].SetMulticastInterface? && calls[0].iface == iface
    && InterfaceShape(iface, calls)
    && (|| Last(calls) == SetMulticastInterface(iface, false)
        || (Last(calls).WriteTo? && !Last(calls).sent.Temporary?))
    && McSent(calls) < need + LastSent(calls)
    && (need <= McSent(calls) <==> Last(calls).WriteTo? && Last(calls).sent.Ok?)
  }

  function Flatten(turns: seq<seq<UdpCall>>): seq<UdpCall>
    decreases |turns|
  {
    if turns == [] then [] else turns[0] + Flatten(turns[1..])
  }

  /** The calls split into one turn per interface of `ifaces`, in order,
      each with the whole `size`-byte buffer to send. */
  ghost predicate Turns(calls: seq<UdpCall>, ifaces: seq<Iface>, size: nat)
  {
    exists turns: seq<seq<UdpCall>> ::
      && |turns| == |ifaces|
      && Flatten(turns) == calls
      && forall j :: 0 <= j < |turns| ==> Turn(ifaces[j], size, turns[j])
  }

  /** One interface's loop, started on a non-empty rest of the buffer,
      moves on to the next interface only after one whole turn. */
  lemma {:induction false} InterfaceTurn(hb: Duration, hop: int, ctx: Context, iface: Iface, buffer: seq<byte>,
                                         dst: UdpAddr, env: seq<McStep>, written: nat, i: nat)
    requires i <= |env| && written < |buffer|
    ensures var r := InterfaceLoop(hb, hop, ctx, iface, buffer, dst, env, written, i);
      r.status == Nil ==> Turn(iface, |buffer| - written, r.calls)
    decreases |env| - i
  {
    var whole := InterfaceLoop(hb, hop, ctx, iface, buffer, dst, env, written, i);
    if ctx.DoneAt(i) || i == |env| {
      assert whole.status != Nil;
    } else if !env[i].ifaceOk {
      assert whole.calls == [SetMulticastInterface(iface, false)];
      TurnRefused(iface, |buffer| - written);
    } else if !env[i].deadlineOk {
      assert whole.status != Nil;
    } else {
      var io := env[i].io;
      var attempt := [SetMulticastInterface(iface, true), SetMulticastHopLimit(hop),
                      SetWriteDeadline(hb, true), WriteTo(buffer, dst, io)];
      if io.Fatal? {
        assert whole.calls == attempt;
        TurnFinal(iface, hop, hb, buffer, dst, io, |buffer| - written);
      } else {
        var w: nat := if io.Ok? then written + io.value else written;
        var r := InterfaceLoop(hb, hop, ctx, iface, buffer, dst, env, w, i + 1);
        assert whole == r.(calls := attempt + r.calls);
        if w >= |buffer| {
          assert r.calls == [] && io.Ok?;
          assert attempt + r.calls == attempt;
          TurnFinal(iface, hop, hb, buffer, dst, io, |buffer| - written);
        } else {
          InterfaceTurn(hb, hop, ctx, iface, buffer, dst, env, w, i + 1);
          if r.status == Nil {
            TurnExtend(iface, hop, hb, buffer, dst, io, |buffer| - written, r.calls);
          }
        }
      }
    }
  }

  /** A refused selection is a whole turn, with nothing sent. */
  lemma TurnRefused(iface: Iface, need: nat)
    requires 0 < need
    ensures Turn(iface, need, [SetMulticastInterface(iface, false)])
  {
    var calls := [SetMulticastInterface(iface, false)];
    assert calls[1..] == [];
  }

  /** A last attempt, fatal or completing the `need` bytes, is a whole turn. */
  lemma TurnFinal(iface: Iface, hop: int, hb: Duration, buffer: seq<byte>, dst: UdpAddr, io: Io<nat>, need: nat)
    requires 0 < need && (io.Fatal? || (io.Ok? && need <= io.value))
    ensures Turn(iface, need, [SetMulticastInterface(iface, true), SetMulticastHopLimit(hop),
                               SetWriteDeadline(hb, true), WriteTo(buffer, dst, io)])
  {
    var attempt := [SetMulticastInterface(iface, true), SetMulticastHopLimit(hop),
                    SetWriteDeadline(hb, true), WriteTo(buffer, dst, io)];
    McSentAttempt(iface, hop, hb, buffer, dst, io, []);
    assert attempt + [] == attempt;
    assert McSent(attempt) == LastSent(attempt);
    assert forall c :: c in attempt && c.SetMulticastInterface? ==> c == attempt[0];
  }

  /** An attempt that is not fatal and leaves bytes to send, followed by a
      turn on what is left, is a turn on the bytes before it. */
  lemma TurnExtend(iface: Iface, hop: int, hb: Duration, buffer: seq<byte>, dst: UdpAddr, io: Io<nat>,
                   need: nat, rest: seq<UdpCall>)
    requires !io.Fatal?
    requires var k := if io.Ok? then io.value else 0; k < need && Turn(iface, need - k, rest)
    ensures Turn(iface, need, [SetMulticastInterface(iface, true), SetMulticastHopLimit(hop),
                               SetWriteDeadline(hb, true), WriteTo(buffer, dst, io)] + rest)
  {
    var attempt := [SetMulticastInterface(iface, true), SetMulticastHopLimit(hop),
                    SetWriteDeadline(hb, true), WriteTo(buffer, dst, io)];
    var all := attempt + rest;
    ShapeCons(hb, hop, buffer, dst, iface, io, rest);
    assert Last(all) == Last(rest);
    McSentAttempt(iface, hop, hb, buffer, dst, io, rest);
    var k := if io.Ok? then io.value else 0;
    assert McSent(all) == k + McSent(rest) && LastSent(all) == LastSent(rest);
  }

  /** A multicast loop that returns nil on a non-empty buffer gave every
      remaining interface exactly one turn, in list order: it selected each
      of them, and it left each only after a failed selection, a fatal
      WriteTo or a completed send. */
  lemma {:induction false} MulticastVisitsAll(hb: Duration, hop: int, ctx: Context, ifaces: seq<Iface>,
                                              buffer: seq<byte>, dst: UdpAddr, env: seq<McStep>, k: nat, i: nat)
    requires k <= |ifaces| && i <= |env| && |buffer| > 0
    ensures var r := MulticastLoop(hb, hop, ctx, ifaces, buffer, dst, env, k, i);
      r.status == Nil ==> Turns(r.calls, ifaces[k..], |buffer|)
    decreases |ifaces| - k
  {
    var whole := MulticastLoop(hb, hop, ctx, ifaces, buffer, dst, env, k, i);
    if k == |ifaces| {
      assert whole.calls == [] && ifaces[k..] == [];
      TurnsNone(|buffer|);
    } else {
      var x := ifaces[k];
      assert ifaces[k..] == [x] + ifaces[k + 1..];
      var one := InterfaceLoop(hb, hop, ctx, x, buffer, dst, env, 0, i);
      if one.status == Nil {
        InterfaceTurn(hb, hop, ctx, x, buffer, dst, env, 0, i);
        var rest := MulticastLoop(hb, hop, ctx, ifaces, buffer, dst, env, k + 1, one.next);
        assert whole == rest.(calls := one.calls + rest.calls);
        if rest.status == Nil {
          MulticastVisitsAll(hb, hop, ctx, ifaces, buffer, dst, env, k + 1, one.next);
          TurnsCons(x, |buffer|, one.calls, rest.calls, ifaces[k + 1..]);
        }
      }
    }
  }

  lemma TurnsNone(size: nat)
    ensures Turns([], [], size)
  {
    var none: seq<seq<UdpCall>> := [];
    assert Flatten(none) == [];
  }

  /** A turn on x followed by turns on xs are turns on [x] + xs. */
  lemma TurnsCons(x: Iface, size: nat, first: seq<UdpCall>, rest: seq<UdpCall>, xs: seq<Iface>)
    requires Turn(x, size, first) && Turns(rest, xs, size)
    ensures Turns(first + rest, [x] + xs, size)
  {
    var later: seq<seq<UdpCall>> :| |later| == |xs| && Flatten(later) == rest &&
      forall j :: 0 <= j < |later| ==> Turn(xs[j], size, later[j]);
    var turns := [first] + later;
    assert turns[1..] == later;
    assert Flatten(turns) == first + rest;
    forall j | 0 <= j < |turns|
      ensures Turn(([x] + xs)[j], size, turns[j])
    {
      if j > 0 {
        assert turns[j] == later[j - 1];
        assert ([x] + xs)[j] == xs[j - 1];
      }
    }
  }

  // ---------------------------------------------------------------------
  // WriteWithContext

  /** WriteWithContext: a nil peer context fails first; a multicast
      destination goes wholly to the multicast write, with its own script;
      any other destination to the unicast loop. */
  function WriteUdp(hb: Duration, hop: int, kind: PacketConnKind, ctx: Context, udpCtx: Option<UdpCtx>,
                    buffer: seq<byte>, ifaces: Option<seq<Iface>>, mcEnv: seq<McStep>,
                    env: seq<Step<Io<nat>>>): (r: UdpRun)
    ensures r.calls != [] ==> udpCtx.Some?
    ensures udpCtx.Some? && IsMulticast(udpCtx.value.raddr.ip) ==> r.next <= |mcEnv|
    ensures udpCtx.Some? && !IsMulticast(udpCtx.value.raddr.ip) ==> r.next <= |env|
  {
    if udpCtx.None? then UdpRun(Error(InvalidUdpCtx), [], 0)
    else if IsMulticast(udpCtx.value.raddr.ip) then WriteMulticast(hb, hop, kind, ctx, udpCtx, buffer, ifaces, mcEnv)
    else WriteLoop(hb, ctx, udpCtx.value, buffer, env, 0, 0)
  }

  /** A multicast write makes no unicast call. */
  lemma MulticastNoSession(hb: Duration, hop: int, kind: PacketConnKind, ctx: Context,
                           udpCtx: Option<UdpCtx>, buffer: seq<byte>,
                           ifaces: Option<seq<Iface>>, env: seq<McStep>)
    ensures forall c :: c in WriteMulticast(hb, hop, kind, ctx, udpCtx, buffer, ifaces, env).calls ==> !c.WriteToSession?
  {
    if udpCtx.Some? && ifaces.Some? {
      MulticastInOrder(hb, hop, kind, ctx, udpCtx, buffer, ifaces, env);
    } else {
      assert WriteMulticast(hb, hop, kind, ctx, udpCtx, buffer, ifaces, env).calls == [];
    }
  }

  /** The dispatch: a nil peer context is refused before any socket call, a
      multicast destination makes only multicast calls, and any other
      destination makes only unicast calls to that peer. */
  lemma WriteDispatch(hb: Duration, hop: int, kind: PacketConnKind, ctx: Context, udpCtx: Option<UdpCtx>,
                      buffer: seq<byte>, ifaces: Option<seq<Iface>>, mcEnv: seq<McStep>,
                      env: seq<Step<Io<nat>>>)
    ensures var r := WriteUdp(hb, hop, kind, ctx, udpCtx, buffer, ifaces, mcEnv, env);
      udpCtx.None? ==> r.status == Error(InvalidUdpCtx) && r.calls == []
    ensures var r := WriteUdp(hb, hop, kind, ctx, udpCtx, buffer, ifaces, mcEnv, env);
      udpCtx.Some? && IsMulticast(udpCtx.value.raddr.ip) ==>
        r == WriteMulticast(hb, hop, kind, ctx, udpCtx, buffer, ifaces, mcEnv) &&
        forall c :: c in r.calls ==> !c.WriteToSession?
    ensures var r := WriteUdp(hb, hop, kind, ctx, udpCtx, buffer, ifaces, mcEnv, env);
      udpCtx.Some? && !IsMulticast(udpCtx.value.raddr.ip) ==>
        forall c :: c in r.calls ==> !c.WriteTo? && (c.WriteToSession? ==> c.session == udpCtx.value)
  {
    if udpCtx.Some? {
      if IsMulticast(udpCtx.value.raddr.ip) {
        MulticastNoSession(hb, hop, kind, ctx, udpCtx, buffer, ifaces, mcEnv);
      } else {
        WriteAddressed(hb, ctx, udpCtx.value, buffer, env, 0, 0);
      }
    }
  }

  // ---------------------------------------------------------------------
  // ReadWithContext

  datatype UdpReadRun = UdpReadRun(n: int, session: Option<UdpCtx>, status: Status, calls: seq<UdpCall>, next: nat)

  /** The read loop of connUDP.go on a buffer of `size` bytes. */
  function ReadLoop(hb: Duration, ctx: Context, size: nat, env: seq<Step<Io<Datagram>>>, i: nat): (r: UdpReadRun)
    requires i <= |env|
    ensures i <= r.next <= |env|
    decreases |env| - i
  {
    if ctx.DoneAt(i) then UdpReadRun(-1, None, Error(UdpReadCancelled(ctx.cause)), [], i)
    else if i == |env| then UdpReadRun(-1, None, Pending, [], i)
    else if !env[i].deadlineOk then
      UdpReadRun(-1, None, Error(CannotSetUdpReadDeadline), [SetReadDeadline(hb, false)], i + 1)
    else
      var attempt := [SetReadDeadline(hb, true), ReadFromSession(size, env[i].io)];
      match env[i].io
      case Temporary =>
        var r := ReadLoop(hb, ctx, size, env, i + 1);
        r.(calls := attempt + r.calls)
      // the error wraps ctx.Err() as it stands once the read has failed
      case Fatal => UdpReadRun(-1, None, Error(CannotReadUdp(ctx.Err(i + 1))), attempt, i + 1)
      case Ok(d) => UdpReadRun(d.n, Some(d.session), Nil, attempt, i + 1)
  }

  /** How a read ends: on every error path -1 and no peer; on success the
      datagram's length and sender, taken from the last call. Only
      temporary errors are followed by another attempt, every read is given
      the whole buffer, and a done context ends the loop. */
  lemma {:induction false} ReadOutcomes(hb: Duration, ctx: Context, size: nat,
                                        env: seq<Step<Io<Datagram>>>, i: nat)
    requires i <= |env|
    ensures var r := ReadLoop(hb, ctx, size, env, i);
      && (r.status != Nil ==> r.n == -1 && r.session.None?)
      && (r.status == Nil <==> |r.calls| > 0 && Last(r.calls).ReadFromSession? && Last(r.calls).got.Ok?)
      && (r.status == Nil ==>
            Last(r.calls).got.value.n == r.n && r.session == Some(Last(r.calls).got.value.session))
      && (r.status == Error(CannotSetUdpReadDeadline) <==>
            |r.calls| > 0 && Last(r.calls) == SetReadDeadline(hb, false))
      && (r.status.Error? && r.status.err.CannotReadUdp? <==>
            |r.calls| > 0 && Last(r.calls).ReadFromSession? && Last(r.calls).got.Fatal?)
      && (r.status.Error? && r.status.err.CannotReadUdp? ==> r.status.err.ctxErr == ctx.Err(r.next))
      && (r.status.Error? ==>
            || (ctx.DoneAt(r.next) && r.status.err == UdpReadCancelled(ctx.cause))
            || r.status.err == CannotSetUdpReadDeadline
            || r.status.err.CannotReadUdp?)
      && (r.status == Pending ==> r.next == |env| && !ctx.DoneAt(r.next))
    decreases |env| - i
  {
    if ctx.DoneAt(i) || i == |env| || !env[i].deadlineOk || !env[i].io.Temporary? {
    } else {
      var attempt := [SetReadDeadline(hb, true), ReadFromSession(size, env[i].io)];
      ReadOutcomes(hb, ctx, size, env, i + 1);
      var r := ReadLoop(hb, ctx, size, env, i + 1);
      var all := attempt + r.calls;
      assert ReadLoop(hb, ctx, size, env, i) == r.(calls := all);
      if |r.calls| > 0 { assert Last(all) == Last(r.calls); }
    }
  }

  /** The read attempts: only a temporary error is followed by another
      attempt, and every read is given the whole buffer. */
  predicate ReadRetries(size: nat, calls: seq<UdpCall>)
  {
    && (forall j :: 0 <= j < |calls| - 1 && calls[j].ReadFromSession? ==> calls[j].got.Temporary?)
    && (forall c :: c in calls && c.ReadFromSession? ==> c.size == size)
  }

  /** A temporary attempt in front keeps the read attempts' shape. */
  lemma RetriesCons(hb: Duration, size: nat, rest: seq<UdpCall>)
    requires ReadRetries(size, rest)
    ensures ReadRetries(size, [SetReadDeadline(hb, true), ReadFromSession(size, Temporary)] + rest)
  {
    var attempt := [SetReadDeadline(hb, true), ReadFromSession(size, Temporary)];
    var all := attempt + rest;
    assert forall j :: 2 <= j < |all| ==> all[j] == rest[j - 2];
    assert forall c :: c in all ==> c in attempt || c in rest;
  }

  /** A datagram read retries only after a temporary error, and always into
      the whole buffer. */
  lemma {:induction false} ReadRetried(hb: Duration, ctx: Context, size: nat,
                                       env: seq<Step<Io<Datagram>>>, i: nat)
    requires i <= |env|
    ensures ReadRetries(size, ReadLoop(hb, ctx, size, env, i).calls)
    decreases |env| - i
  {
    var whole := ReadLoop(hb, ctx, size, env, i);
    if ctx.DoneAt(i) || i == |env| {
      assert whole.calls == [];
    } else if !env[i].deadlineOk {
      assert whole.calls == [SetReadDeadline(hb, false)];
    } else if !env[i].io.Temporary? {
      assert whole.calls == [SetReadDeadline(hb, true), ReadFromSession(size, env[i].io)];
    } else {
      ReadRetried(hb, ctx, size, env, i + 1);
      var r := ReadLoop(hb, ctx, size, env, i + 1);
      assert whole.calls == [SetReadDeadline(hb, true), ReadFromSession(size, Temporary)] + r.calls;
      RetriesCons(hb, size, r.calls);
    }
  }

  /** The read loop as written loses the read's own failure: a fatal read
      on a context that is not done reports `ctx.Err()`, which is nil. */
  lemma FatalReadLosesCause(hb: Duration, size: nat)
    ensures var r := ReadLoop(hb, Background, size, [Step(true, Fatal)], 0);
      && Last(r.calls) == ReadFromSession(size, Fatal)
      && r.status == Error(CannotReadUdp(None))
  {
    var env: seq<Step<Io<Datagram>>> := [Step(true, Fatal)];
    assert ReadLoop(hb, Background, size, env, 0) ==
      UdpReadRun(-1, None, Error(CannotReadUdp(None)), [SetReadDeadline(hb, true), ReadFromSession(size, Fatal)], 1);
  }

  /** The read loop with the evident intent: a fatal read is reported with
      the read's own error. */
  function CorrectedReadLoop(hb: Duration, ctx: Context, size: nat, env: seq<Step<Io<Datagram>>>, i: nat)
    : (r: UdpReadRun)
    requires i <= |env|
    ensures i <= r.next <= |env|
    decreases |env| - i
  {
    if ctx.DoneAt(i) then UdpReadRun(-1, None, Error(UdpReadCancelled(ctx.cause)), [], i)
    else if i == |env| then UdpReadRun(-1, None, Pending, [], i)
    else if !env[i].deadlineOk then
      UdpReadRun(-1, None, Error(CannotSetUdpReadDeadline), [SetReadDeadline(hb, false)], i + 1)
    else
      var attempt := [SetReadDeadline(hb, true), ReadFromSession(size, env[i].io)];
      match env[i].io
      case Temporary =>
        var r := CorrectedReadLoop(hb, ctx, size, env, i + 1);
        r.(calls := attempt + r.calls)
      case Fatal => UdpReadRun(-1, None, Error(UdpReadFailed), attempt, i + 1)
      case Ok(d) => UdpReadRun(d.n, Some(d.session), Nil, attempt, i + 1)
  }

  /** The corrected loop differs from the loop as written only in the error
      of a fatal read, and that error names the failed read: it is reported
      exactly when the last call is a read that failed for good. */
  lemma {:induction false} CorrectedReadNamesFailure(hb: Duration, ctx: Context, size: nat,
                                                     env: seq<Step<Io<Datagram>>>, i: nat)
    requires i <= |env|
    ensures var r := CorrectedReadLoop(hb, ctx, size, env, i);
      var w := ReadLoop(hb, ctx, size, env, i);
      && (r.status == Error(UdpReadFailed) <==>
            |r.calls| > 0 && Last(r.calls).ReadFromSession? && Last(r.calls).got.Fatal?)
      && r == (if w.status.Error? && w.status.err.CannotReadUdp? then w.(status := Error(UdpReadFailed)) else w)
    decreases |env| - i
  {
    var whole := CorrectedReadLoop(hb, ctx, size, env, i);
    if ctx.DoneAt(i) || i == |env| {
      assert whole.calls == [];
    } else if !env[i].deadlineOk {
      assert whole.calls == [SetReadDeadline(hb, false)];
    } else if !env[i].io.Temporary? {
      assert whole.calls == [SetReadDeadline(hb, true), ReadFromSession(size, env[i].io)];
    } else {
      CorrectedReadNamesFailure(hb, ctx, size, env, i + 1);
      var attempt := [SetReadDeadline(hb, true), ReadFromSession(size, Temporary)];
      var r := CorrectedReadLoop(hb, ctx, size, env, i + 1);
      assert whole == r.(calls := attempt + r.calls);
      var w := ReadLoop(hb, ctx, size, env, i + 1);
      assert ReadLoop(hb, ctx, size, env, i) == w.(calls := attempt + w.calls);
      if |r.calls| > 0 { assert Last(attempt + r.calls) == Last(r.calls); }
    }
  }

  // ---------------------------------------------------------------------
  // The connection

  /** A datagram connection: the socket behind it answers through the
      scripts passed to each call. */
  class ConnUDP {
    const heartBeat: Duration
    const packetConn: PacketConnKind
    const multicastHopLimit: int

    /** NewConnUDP: an IPv6 packet connection for a socket bound to an IPv6
        address, an IPv4 one otherwise. */
    constructor (localIP: IP, heartBeat: Duration, multicastHopLimit: int)
      ensures packetConn == PacketConnFor(localIP)
      ensures this.heartBeat == heartBeat && this.multicastHopLimit == multicastHopLimit
    {
      this.heartBeat := heartBeat;
      this.multicastHopLimit := multicastHopLimit;
      if IsIPv6(localIP) {
        packetConn := PacketConnIPv6;
      } else {
        packetConn := PacketConnIPv4;
      }
    }

    /** writeMulticastWithContext; `ifaces` is what net.Interfaces() returns. */
    method WriteMulticastWithContext(ctx: Context, udpCtx: Option<UdpCtx>, buffer: seq<byte>,
                                     ifaces: Option<seq<Iface>>, env: seq<McStep>)
      returns (err: Status, calls: seq<UdpCall>)
      ensures var r := WriteMulticast(heartBeat, multicastHopLimit, packetConn, ctx, udpCtx, buffer, ifaces, env);
        err == r.status && calls == r.calls
    {
      ghost var total := WriteMulticast(heartBeat, multicastHopLimit, packetConn, ctx, udpCtx, buffer, ifaces, env);
      calls := [];
      if udpCtx.None? {
        assert total == UdpRun(Error(InvalidMulticastUdpCtx), [], 0);
        return Error(InvalidMulticastUdpCtx), calls;
      }
      if packetConn == PacketConnIPv4 && IsIPv6(udpCtx.value.raddr.ip) {
        assert total == UdpRun(Error(InvalidMulticastDestination), [], 0);
        return Error(InvalidMulticastDestination), calls;
      }
      if ifaces.None? {
        assert total == UdpRun(Error(CannotGetInterfaces), [], 0);
        return Error(CannotGetInterfaces), calls;
      }
      var list := ifaces.value;
      var dst := udpCtx.value.raddr;
      assert total == MulticastLoop(heartBeat, multicastHopLimit, ctx, list, buffer, dst, env, 0, 0);
      var i: nat := 0;
      var k: nat := 0;
      while k < |list|
        invariant k <= |list| && i <= |env|
        invariant var r := MulticastLoop(heartBeat, multicastHopLimit, ctx, list, buffer, dst, env, k, i);
          total == r.(calls := calls + r.calls)
        decreases |list| - k
      {
        ghost var rest := MulticastLoop(heartBeat, multicastHopLimit, ctx, list, buffer, dst, env, k, i);
        var e, sent, next := WriteOnInterface(ctx, list[k], buffer, dst, env, i);
        if e != Nil {
          assert rest == InterfaceLoop(heartBeat, multicastHopLimit, ctx, list[k], buffer, dst, env, 0, i);
          return e, calls + sent;
        }
        ghost var tail := MulticastLoop(heartBeat, multicastHopLimit, ctx, list, buffer, dst, env, k + 1, next);
        assert rest == tail.(calls := sent + tail.calls);
        AppendAssoc(calls, sent, tail.calls);
        calls := calls + sent;
        i := next;
        k := k + 1;
      }
      assert total == UdpRun(Nil, calls, i);
      return Nil, calls;
    }

    /** The inner loop of writeMulticastWithContext: the iterations spent on
        one interface, from script position `from`. A nil result means the
        outer loop moves on to the next interface. */
    method WriteOnInterface(ctx: Context, iface: Iface, buffer: seq<byte>, dst: UdpAddr,
                            env: seq<McStep>, from: nat)
      returns (err: Status, calls: seq<UdpCall>, next: nat)
      requires from <= |env|
      ensures var r := InterfaceLoop(heartBeat, multicastHopLimit, ctx, iface, buffer, dst, env, 0, from);
        err == r.status && calls == r.calls && next == r.next
    {
      var hb, hop := heartBeat, multicastHopLimit;
      ghost var total := InterfaceLoop(hb, hop, ctx, iface, buffer, dst, env, 0, from);
      var i: nat := from;
      var written: nat := 0;
      calls := [];
      while written < |buffer|
        invariant from <= i <= |env|
        invariant var r := InterfaceLoop(hb, hop, ctx, iface, buffer, dst, env, written, i);
          total == r.(calls := calls + r.calls)
        decreases |env| - i
      {
        ghost var rest := InterfaceLoop(hb, hop, ctx, iface, buffer, dst, env, written, i);
        if ctx.DoneAt(i) {
          return Error(ContextErr(ctx.cause)), calls, i;
        }
        if i == |env| {
          return Pending, calls, i;
        }
        var step := env[i];
        i := i + 1;
        if !step.ifaceOk {
          return Nil, calls + [SetMulticastInterface(iface, false)], i;
        }
        var setup := [SetMulticastInterface(iface, true), SetMulticastHopLimit(hop),
                      SetWriteDeadline(hb, step.deadlineOk)];
        if !step.deadlineOk {
          return Error(CannotSetMulticastWriteDeadline), calls + setup, i;
        }
        var attempt := setup + [WriteTo(buffer, dst, step.io)];
        if step.io.Fatal? {
          return Nil, calls + attempt, i;
        }
        var w: nat := if step.io.Ok? then written + step.io.value else written;
        ghost var tail := InterfaceLoop(hb, hop, ctx, iface, buffer, dst, env, w, i);
        assert rest == tail.(calls := attempt + tail.calls);
        AppendAssoc(calls, attempt, tail.calls);
        calls := calls + attempt;
        written := w;
      }
      return Nil, calls, i;
    }

    /** WriteWithContext; `ifaces` and `mcEnv` are used only for a multicast
        destination, `env` only for any other. */
    method WriteWithContext(ctx: Context, udpCtx: Option<UdpCtx>, buffer: seq<byte>,
                            ifaces: Option<seq<Iface>>, mcEnv: seq<McStep>, env: seq<Step<Io<nat>>>)
      returns (err: Status, calls: seq<UdpCall>)
      ensures var r := WriteUdp(heartBeat, multicastHopLimit, packetConn, ctx, udpCtx, buffer, ifaces, mcEnv, env);
        err == r.status && calls == r.calls
    {
      ghost var total := WriteUdp(heartBeat, multicastHopLimit, packetConn, ctx, udpCtx, buffer, ifaces, mcEnv, env);
      calls := [];
      if udpCtx.None? {
        assert total == UdpRun(Error(InvalidUdpCtx), [], 0);
        return Error(InvalidUdpCtx), calls;
      }
      if IsMulticast(udpCtx.value.raddr.ip) {
        assert total == WriteMulticast(heartBeat, multicastHopLimit, packetConn, ctx, udpCtx, buffer, ifaces, mcEnv);
        err, calls := WriteMulticastWithContext(ctx, udpCtx, buffer, ifaces, mcEnv);
        return;
      }
      err, calls := WriteUnicast(ctx, udpCtx.value, buffer, env);
    }

    /** The write loop of WriteWithContext for a destination that is not
        multicast. */
    method WriteUnicast(ctx: Context, session: UdpCtx, buffer: seq<byte>, env: seq<Step<Io<nat>>>)
      returns (err: Status, calls: seq<UdpCall>)
      ensures var r := WriteLoop(heartBeat, ctx, session, buffer, env, 0, 0);
        err == r.status && calls == r.calls
    {
      var hb := heartBeat;
      ghost var total := WriteLoop(hb, ctx, session, buffer, env, 0, 0);
      var written: nat := 0;
      var i: nat := 0;
      calls := [];
      while written < |buffer|
        invariant i <= |env|
        invariant var r := WriteLoop(hb, ctx, session, buffer, env, written, i);
          total == r.(calls := calls + r.calls)
        decreases |env| - i
      {
        ghost var rest := WriteLoop(hb, ctx, session, buffer, env, written, i);
        if ctx.DoneAt(i) {
          return Error(ContextErr(ctx.cause)), calls;
        }
        if i == |env| {
          return Pending, calls;
        }
        var step := env[i];
        i := i + 1;
        if !step.deadlineOk {
          return Error(CannotSetUdpWriteDeadline), calls + [SetWriteDeadline(hb, false)];
        }
        var attempt := [SetWriteDeadline(hb, true), WriteToSession(session, buffer[written..], step.io)];
        if step.io.Fatal? {
          return Error(CannotWriteUdp), calls + attempt;
        }
        var w: nat := if step.io.Ok? then written + step.io.value else written;
        ghost var tail := WriteLoop(hb, ctx, session, buffer, env, w, i);
        assert rest == tail.(calls := attempt + tail.calls);
        AppendAssoc(calls, attempt, tail.calls);
        calls := calls + attempt;
        written := w;
      }
      return Nil, calls;
    }

    /** ReadWithContext into a buffer of `size` bytes: the datagram's length
        and sender. */
    method ReadWithContext(ctx: Context, size: nat, env: seq<Step<Io<Datagram>>>)
      returns (n: int, session: Option<UdpCtx>, err: Status, calls: seq<UdpCall>)
      ensures var r := ReadLoop(heartBeat, ctx, size, env, 0);
        n == r.n && session == r.session && err == r.status && calls == r.calls
    {
      var hb := heartBeat;
      ghost var total := ReadLoop(hb, ctx, size, env, 0);
      var i: nat := 0;
      calls := [];
      while true
        invariant i <= |env|
        invariant var r := ReadLoop(hb, ctx, size, env, i);
          total == r.(calls := calls + r.calls)
        decreases |env| - i
      {
        ghost var rest := ReadLoop(hb, ctx, size, env, i);
        if ctx.DoneAt(i) {
          return -1, None, Error(UdpReadCancelled(ctx.cause)), calls;
        }
        if i == |env| {
          return -1, None, Pending, calls;
        }
        var step := env[i];
        i := i + 1;
        if !step.deadlineOk {
          return -1, None, Error(CannotSetUdpReadDeadline), calls + [SetReadDeadline(hb, false)];
        }
        var attempt := [SetReadDeadline(hb, true), ReadFromSession(size, step.io)];
        match step.io {
          case Temporary =>
            ghost var tail := ReadLoop(hb, ctx, size, env, i);
            assert rest == tail.(calls := attempt + tail.calls);
            AppendAssoc(calls, attempt, tail.calls);
            calls := calls + attempt;
          case Fatal =>
            return -1, None, Error(CannotReadUdp(ctx.Err(i))), calls + attempt;
          case Ok(d) =>
            return d.n, Some(d.session), Nil, calls + attempt;
        }
      }
    }
  }
}
