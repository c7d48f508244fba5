/**
 Shortest runs that show where the layer does not do what a caller may expect.  The exact
 conditions are in modules Theorems, Ownership and Receive.
 */
module Witnesses {
  import opened Wrappers
  import opened NetLib
  import opened DescriptorTable
  import opened SocketCalls
  import opened Invariant
  import opened Steps
  import opened Runs
  import opened Theorems
  import opened Ownership
  import opened Connections

  lemma StartReachable(zeroType: NcType)
    ensures Reachable(Start(zeroType, 0))
  {
    assert Run(Start(zeroType, 0), []) == Start(zeroType, 0);
  }

  /** The first socket call uses a null record if no memory can be had for the table. */
  lemma SocketCrash(zeroType: NcType)
    ensures Next(Start(zeroType, 0), SocketOp(SOCK_STREAM, Some(7), false)).Crashed?
  {
  }

  /** socket on an empty table gives descriptor 0. */
  lemma FirstSocket(zeroType: NcType, sockType: int, c: Conn)
    requires sockType in {SOCK_STREAM, SOCK_DGRAM}
    ensures var cfg := Next(Start(zeroType, 0), SocketOp(sockType, Some(c), true));
            && Reachable(cfg) && cfg.Running?
            && cfg.mon.socks == map[0 := Sock(c, [], [], 0, true)]
            && cfg.mon.options == map[0 := Options(TypeOf(sockType).value, 0, 0)]
            && IsOpen(cfg.st, 0) && cfg.st.slots[0].pbuf == None && ConnOf(cfg.st, 0) == c
            && cfg.st.lib.open == map[c := Channel([], 0, true, 0)]
  {
    var op := SocketOp(sockType, Some(c), true);
    StartReachable(zeroType);
    ReachableNext(Start(zeroType, 0), op);
    var r := Step(Start(zeroType, 0).st, op);
    SocketOutcome(Start(zeroType, 0), sockType, Some(c), true);
    assert r.ret == 0;
    assert map[0 := Sock(c, [], [], 0, true)].Keys == {0};
  }

  /** FIONREAD takes an empty chunk into the slot. */
  lemma FionreadPullsEmpty(st: State, s: int)
    requires Valid(st) && IsOpen(st, s) && !HasBytes(st.slots[s])
    requires ChannelOf(st, s).queue != [] && ChannelOf(st, s).queue[0] == []
    ensures var st1 := Ioctl(st, s, FIONREAD, Deliver).st;
            && st1 == Pulled(st, s, POLL) && Valid(st1) && IsOpen(st1, s) && !HasBytes(st1.slots[s])
            && st1.slots[s].pbuf == Some(|st.lib.pbufs|)
  {
    RefillIs(st, s, true, Deliver);
    PulledTouches(st, s, POLL);
  }

  /** An empty chunk pulled by FIONREAD is lost by the next FIONREAD, whatever it is answered. */
  lemma EmptyChunkIsLost(st: State, s: int, reply: Reply)
    requires Valid(st) && IsOpen(st, s) && !HasBytes(st.slots[s])
    requires ChannelOf(st, s).queue != [] && ChannelOf(st, s).queue[0] == []
    ensures var st1 := Ioctl(st, s, FIONREAD, Deliver).st;
            && Valid(st1) && IsOpen(st1, s)
            && |st.lib.pbufs| in Leaked(Ioctl(st1, s, FIONREAD, reply).st)
  {
    FionreadPullsEmpty(st, s);
    HeldIsLost(Ioctl(st, s, FIONREAD, Deliver).st, s, reply, |st.lib.pbufs|);
  }

  lemma HeldIsLost(st: State, s: int, reply: Reply, p: Pbuf)
    requires Valid(st) && IsOpen(st, s) && !HasBytes(st.slots[s]) && st.slots[s].pbuf == Some(p)
    ensures p in Leaked(Ioctl(st, s, FIONREAD, reply).st)
  {
    IoctlLeaks(st, s, FIONREAD, reply);
    assert Overwritten(st, IoctlOp(s, FIONREAD, reply)) == {p};
  }

  lemma ArriveEmpty(cfg: Config, c: Conn)
    requires Reachable(cfg) && cfg.Running? && Valid(cfg.st)
    requires IsOpen(cfg.st, 0) && cfg.st.slots[0].pbuf == None && ConnOf(cfg.st, 0) == c
    requires cfg.st.lib.open == map[c := Channel([], 0, true, 0)]
    ensures var cfg' := Next(cfg, ArriveOp(c, []));
            && Reachable(cfg') && cfg'.Running? && Valid(cfg'.st)
            && IsOpen(cfg'.st, 0) && !HasBytes(cfg'.st.slots[0]) && ChannelOf(cfg'.st, 0).queue == [[]]
  {
    ReachableNext(cfg, ArriveOp(c, []));
  }

  /** Such a state is reached by one socket call and one empty chunk. */
  lemma EmptyChunkIsReachable(zeroType: NcType)
    ensures var cfg := Next(Next(Start(zeroType, 0), SocketOp(SOCK_STREAM, Some(7), true)), ArriveOp(7, []));
            && Reachable(cfg) && cfg.Running? && Valid(cfg.st)
            && IsOpen(cfg.st, 0) && !HasBytes(cfg.st.slots[0]) && ChannelOf(cfg.st, 0).queue == [[]]
  {
    FirstSocket(zeroType, SOCK_STREAM, 7);
    ArriveEmpty(Next(Start(zeroType, 0), SocketOp(SOCK_STREAM, Some(7), true)), 7);
  }

  lemma SetFlag(cfg: Config, fd: int, flag: nat)
    requires Reachable(cfg) && cfg.Running? && fd in cfg.mon.socks && flag < 0x1_0000_0000
    ensures var cfg' := Next(cfg, FcntlOp(fd, F_SETFL, flag));
            && Reachable(cfg') && cfg'.Running? && cfg'.mon.socks == cfg.mon.socks
            && OptionsAt(cfg'.mon, fd).fileFlag == flag
  {
    ReachableNext(cfg, FcntlOp(fd, F_SETFL, flag));
    StreamFidelity(cfg, fd);
    SmallUnsigned(flag, 0x1_0000_0000);
    assert Step(cfg.st, FcntlOp(fd, F_SETFL, flag)).ret == 0;
    assert Next(cfg, FcntlOp(fd, F_SETFL, flag)).mon
           == NoteOptions(cfg.mon, fd, OptionsAt(cfg.mon, fd).(fileFlag := flag));
  }

  lemma SmallUnsigned(x: nat, modulus: nat)
    requires x < modulus
    ensures ToUnsigned(x, modulus) == x
  {
  }

  lemma CloseOnly(cfg: Config, fd: int)
    requires Reachable(cfg) && cfg.Running? && cfg.mon.socks.Keys == {fd}
    ensures var cfg' := Next(cfg, CloseOp(fd));
            Reachable(cfg') && cfg'.Running? && cfg'.mon.socks == map[] && cfg'.mon.options == cfg.mon.options
            && cfg'.mon.initial == cfg.mon.initial
  {
    ReachableNext(cfg, CloseOp(fd));
    ReachableAgrees(cfg);
    assert fd in cfg.mon.socks && AgreesAt(cfg.st, cfg.mon, fd);
    assert (cfg.mon.socks - {fd}).Keys == {};
  }

  lemma ReopenZero(cfg: Config, c: Conn)
    requires Reachable(cfg) && cfg.Running? && cfg.mon.socks == map[] && c !in cfg.st.lib.open
    ensures var cfg' := Next(cfg, SocketOp(SOCK_STREAM, Some(c), true));
            && cfg'.Running? && 0 in cfg'.mon.socks
            && OptionsOf(cfg'.st, 0) == OptionsAt(cfg.mon, 0).(ncType := Tcp)
  {
    var op := SocketOp(SOCK_STREAM, Some(c), true);
    SocketOutcome(cfg, SOCK_STREAM, Some(c), true);
    assert 0 !in cfg.mon.socks;
    assert Step(cfg.st, op).ret == 0;
    ReachableNext(cfg, op);
    OptionsAreSticky(Next(cfg, op), 0);
  }

  /** A new TCP socket is non-blocking because the UDP socket before it on the descriptor was. */
  lemma StaleNonBlocking(zeroType: NcType, c: Conn)
    ensures var cfg1 := Next(Start(zeroType, 0), SocketOp(SOCK_DGRAM, Some(1), true));
            var cfg2 := Next(cfg1, FcntlOp(0, F_SETFL, O_NONBLOCK_BIT));
            var cfg3 := Next(cfg2, CloseOp(0));
            && cfg3.Running?
            && (c !in cfg3.st.lib.open ==>
                  var cfg4 := Next(cfg3, SocketOp(SOCK_STREAM, Some(c), true));
                  cfg4.Running? && 0 in cfg4.mon.socks
                  && OptionsOf(cfg4.st, 0).ncType == Tcp && OptionsOf(cfg4.st, 0).fileFlag == O_NONBLOCK_BIT)
  {
    var cfg1 := Next(Start(zeroType, 0), SocketOp(SOCK_DGRAM, Some(1), true));
    var cfg2 := Next(cfg1, FcntlOp(0, F_SETFL, O_NONBLOCK_BIT));
    var cfg3 := Next(cfg2, CloseOp(0));
    FirstSocket(zeroType, SOCK_DGRAM, 1);
    SetFlag(cfg1, 0, O_NONBLOCK_BIT);
    assert cfg2.mon.socks.Keys == {0};
    CloseOnly(cfg2, 0);
    if c !in cfg3.st.lib.open {
      ReopenZero(cfg3, c);
    }
  }

  /**
   With nothing queued and the peer gone, recv reports the end of the stream exactly when the record
   says TCP.  After accept that is what the descriptor's last socket call stored (Theorems.OpenInherits).
   */
  lemma EndOfStreamNeedsType(st: State, s: int, len: nat, flags: int, reply: Reply)
    requires Valid(st) && IsOpen(st, s) && !HasBytes(st.slots[s])
    requires ChannelOf(st, s).queue == [] && !ChannelOf(st, s).active
    ensures Recv(st, s, len, flags, reply).ret == (if OptionsOf(st, s).ncType.Tcp? then 0 else -1)
  {
  }

  // ---------- A full table ----------

  /** n TCP sockets, opened one after another. */
  function Sockets(n: nat): seq<Op> {
    seq(n, i requires i >= 0 => SocketOp(SOCK_STREAM, Some(i), true))
  }

  /** Connections 0 to n - 1 are open, and no others ever were at the same time. */
  ghost predicate OpenedFirst(cfg: Config, n: nat) {
    && Reachable(cfg) && cfg.Running? && cfg.mon.peak == n && cfg.mon.socks.Keys == UpTo(n)
    && forall c :: c in cfg.st.lib.open ==> c < n
  }

  lemma LowestIs(socks: map<int, Sock>, n: nat, fd: int)
    requires socks.Keys == UpTo(n) && IsLowest(socks, fd)
    ensures fd == n
  {
    assert n !in socks && forall k :: 0 <= k < n ==> k in socks;
  }

  lemma SocketOpens(st: State, n: nat)
    requires Valid(st) && Step(st, SocketOp(SOCK_STREAM, Some(n), true)).Done?
    ensures var r := Step(st, SocketOp(SOCK_STREAM, Some(n), true));
            r.ret >= 0 ==> r.st.lib.open.Keys == st.lib.open.Keys + {n}
  {
    SocketIs(st, SOCK_STREAM, Some(n), true);
  }

  lemma NotedNext(mon: Monitor, n: nat, data: seq<byte>)
    requires mon.peak == n && mon.socks.Keys == UpTo(n)
    ensures var mon' := Observe(mon, SocketOp(SOCK_STREAM, Some(n), true), n, data);
            mon'.peak == n + 1 && mon'.socks.Keys == UpTo(n + 1)
  {
    var mon' := Observe(mon, SocketOp(SOCK_STREAM, Some(n), true), n, data);
    assert mon'.socks.Keys == UpTo(n + 1);
    assert |mon'.socks| == |mon'.socks.Keys|;
  }

  lemma OpenNext(cfg: Config, n: nat)
    requires OpenedFirst(cfg, n)
    ensures Sound(cfg) && OpenedFirst(Next(cfg, SocketOp(SOCK_STREAM, Some(n), true)), n + 1)
  {
    var op := SocketOp(SOCK_STREAM, Some(n), true);
    SocketOutcome(cfg, SOCK_STREAM, Some(n), true);
    var r := Step(cfg.st, op);
    LowestIs(cfg.mon.socks, n, r.ret);
    SocketOpens(cfg.st, n);
    NotedNext(cfg.mon, n, r.data);
    ReachableNext(cfg, op);
  }

  lemma {:induction false} OpenMany(zeroType: NcType, n: nat)
    ensures OpenedFirst(Run(Start(zeroType, 0), Sockets(n)), n)
  {
    if n == 0 {
      StartReachable(zeroType);
    } else {
      assert Sockets(n)[..n - 1] == Sockets(n - 1);
      OpenMany(zeroType, n - 1);
      OpenNext(Run(Start(zeroType, 0), Sockets(n - 1)), n - 1);
    }
  }

  /** With 16 sockets open, an accept that is refused memory loses its connection. */
  lemma AcceptLosesConnection(zeroType: NcType)
    ensures var cfg := Run(Start(zeroType, 0), Sockets(GROWTH));
            && Reachable(cfg) && cfg.Running? && Valid(cfg.st) && 0 in cfg.mon.socks
            && GROWTH in Lost(Step(cfg.st, AcceptOp(0, Some(Client(GROWTH, [], true)), false)).st)
  {
    OpenMany(zeroType, GROWTH);
    RefusedWhenFull(Run(Start(zeroType, 0), Sockets(GROWTH)));
  }

  lemma NoRoomAtPeak(cfg: Config, n: nat)
    requires OpenedFirst(cfg, n) && n % GROWTH == 0
    ensures !HasRoom(cfg.mon)
  {
    assert |cfg.mon.socks| == |cfg.mon.socks.Keys| == n;
  }

  lemma RefusedWhenFull(cfg: Config)
    requires OpenedFirst(cfg, GROWTH)
    ensures Valid(cfg.st) && 0 in cfg.mon.socks
    ensures GROWTH in Lost(Step(cfg.st, AcceptOp(0, Some(Client(GROWTH, [], true)), false)).st)
  {
    NoRoomAtPeak(cfg, GROWTH);
    StepLoses(cfg, AcceptOp(0, Some(Client(GROWTH, [], true)), false));
  }
}
