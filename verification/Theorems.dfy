/**
 What holds after every run, in terms of what the callers can see.
 */
module Theorems {
  import opened Wrappers
  import opened NetLib
  import opened DescriptorTable
  import opened SocketCalls
  import opened Invariant
  import opened Steps
  import opened Runs

  /** A configuration that some sequence of calls leads to. */
  ghost predicate Reachable(cfg: Config) {
    exists zeroType, newTimeout, ops :: cfg == Run(Start(zeroType, newTimeout), ops)
  }

  lemma ReachableAgrees(cfg: Config)
    requires Reachable(cfg) && cfg.Running?
    ensures Agrees(cfg.st, cfg.mon)
  {
    var zeroType, newTimeout, ops :| cfg == Run(Start(zeroType, newTimeout), ops);
    RunAgrees(zeroType, newTimeout, ops);
  }

  lemma ReachableNext(cfg: Config, op: Op)
    requires Reachable(cfg)
    ensures Sound(cfg) && Reachable(Next(cfg, op))
  {
    var zeroType, newTimeout, ops :| cfg == Run(Start(zeroType, newTimeout), ops);
    assert (ops + [op])[..|ops + [op]| - 1] == ops;
    assert Next(cfg, op) == Run(Start(zeroType, newTimeout), ops + [op]);
  }

  // ---------- Streams and timeouts ----------

  /**
   Stream fidelity.  After any run, for any open descriptor: what recv has returned since the
   descriptor was opened, then the unread end of its pbuf, then the queue, is exactly what arrived
   on its connection, in order; and the receive timeout is the one last set.
   */
  lemma StreamFidelity(cfg: Config, fd: int)
    requires Reachable(cfg) && cfg.Running? && fd in cfg.mon.socks
    ensures Valid(cfg.st) && IsOpen(cfg.st, fd) && ConnOf(cfg.st, fd) == cfg.mon.socks[fd].conn
    ensures cfg.mon.socks[fd].sent ==
            cfg.mon.socks[fd].given + (Remaining(cfg.st, fd) + Flatten(ChannelOf(cfg.st, fd).queue))
    ensures cfg.mon.socks[fd].given <= cfg.mon.socks[fd].sent
    ensures ChannelOf(cfg.st, fd).timeout == cfg.mon.socks[fd].timeout
    ensures ChannelOf(cfg.st, fd).active == cfg.mon.socks[fd].active
  {
    ReachableAgrees(cfg);
    assert AgreesAt(cfg.st, cfg.mon, fd);
  }

  /** ms is usec / 1000 in C: the whole milliseconds, cut toward zero. */
  predicate WholeMillis(usec: int, ms: int) {
    if usec >= 0 then ms * 1000 <= usec < ms * 1000 + 1000 else ms * 1000 - 1000 < usec <= ms * 1000
  }

  /**
   Wherever neither the product nor the sum overflows a 32-bit int, SO_RCVTIMEO stores seconds and
   whole milliseconds of a timeval, negative ones included, or the int itself.  Both forms poll exactly
   if the result is -1.
   */
  lemma TimevalIsMilliseconds(sec: int, usec: int, ms: int, v: int)
    requires WholeMillis(usec, ms) && IsInt32(sec * 1000) && IsInt32(sec * 1000 + ms) && IsInt32(v)
    ensures ToInt32(TimeoutOf(Timeval(sec, usec))) == sec * 1000 + ms
    ensures TimeoutOf(Timeval(sec, usec)) == POLL <==> sec * 1000 + ms == -1
    ensures ToInt32(TimeoutOf(Int(v))) == v && (TimeoutOf(Int(v)) == POLL <==> v == -1)
  {
    assert CDiv(usec, 1000) == ms;
  }

  predicate IsInt32(x: int) {
    -0x8000_0000 <= x < 0x8000_0000
  }

  // ---------- Capacity ----------

  ghost predicate IsLowest(socks: map<int, Sock>, fd: int) {
    0 <= fd && fd !in socks && forall k :: 0 <= k < fd ==> k in socks
  }

  /** Pigeonhole: below the lowest free descriptor, every number is taken. */
  lemma LowestIsBelowCount(socks: map<int, Sock>, fd: int, sock: Sock)
    requires IsLowest(socks, fd)
    ensures fd < |socks[fd := sock]|
  {
    var socks' := socks[fd := sock];
    SubsetCard(UpTo(fd + 1), socks'.Keys);
    assert |socks'| == |socks'.Keys|;
  }

  ghost predicate BelowPeak(mon: Monitor) {
    forall fd :: fd in mon.socks ==> 0 <= fd < mon.peak
  }

  lemma OpenBelowPeak(mon: Monitor, fd: int, client: Client)
    requires BelowPeak(mon) && IsLowest(mon.socks, fd)
    ensures BelowPeak(NoteOpened(mon, fd, client))
  {
    LowestIsBelowCount(mon.socks, fd, NewSock(mon, client));
  }

  lemma ObserveBelowPeak(mon: Monitor, op: Op, ret: int, data: seq<byte>)
    requires BelowPeak(mon)
    requires (op.SocketOp? || op.AcceptOp?) && ret >= 0 ==> IsLowest(mon.socks, ret)
    ensures BelowPeak(Observe(mon, op, ret, data)) && mon.peak <= Observe(mon, op, ret, data).peak
  {
    if (op.SocketOp? || op.AcceptOp?) && ret >= 0 {
      if ClientOf(op).Some? {
        OpenBelowPeak(mon, ret, ClientOf(op).value);
      }
    }
  }

  lemma OpenIsLeast(st: State, op: Op)
    requires Valid(st) && Step(st, op).Done? && (op.SocketOp? || op.AcceptOp?) && Step(st, op).ret >= 0
    ensures IsLeastFree(View(st.slots), Step(st, op).ret)
  {
  }

  lemma OpenIsLowest(st: State, mon: Monitor, op: Op)
    requires Agrees(st, mon) && Step(st, op).Done? && (op.SocketOp? || op.AcceptOp?) && Step(st, op).ret >= 0
    ensures IsLowest(mon.socks, Step(st, op).ret)
  {
    SocksInView(st, mon);
    OpenIsLeast(st, op);
    LeastIsLowest(View(st.slots), mon.socks, Step(st, op).ret);
  }

  lemma LeastIsLowest(view: map<int, Conn>, socks: map<int, Sock>, fd: int)
    requires view.Keys == socks.Keys && IsLeastFree(view, fd)
    ensures IsLowest(socks, fd)
  {
  }

  lemma {:induction false} RunBelowPeak(zeroType: NcType, newTimeout: nat, ops: seq<Op>)
    ensures var cfg := Run(Start(zeroType, newTimeout), ops);
            cfg.Running? ==> BelowPeak(cfg.mon)
  {
    if ops != [] {
      var before := Run(Start(zeroType, newTimeout), ops[..|ops| - 1]);
      var op := ops[|ops| - 1];
      RunBelowPeak(zeroType, newTimeout, ops[..|ops| - 1]);
      RunAgrees(zeroType, newTimeout, ops[..|ops| - 1]);
      if before.Running? && Step(before.st, op).Done? {
        var r := Step(before.st, op);
        if (op.SocketOp? || op.AcceptOp?) && r.ret >= 0 {
          OpenIsLowest(before.st, before.mon, op);
        }
        ObserveBelowPeak(before.mon, op, r.ret, r.data);
      }
    }
  }

  lemma RoundUpBounds(n: nat)
    ensures RoundUp(n) % 16 == 0 && n <= RoundUp(n) < n + 16
  {
  }

  /**
   Exact capacity.  The table has 16 * ceil(P/16) slots, where P is the largest number of
   connections open at one time so far, and every open descriptor is below P.
   */
  lemma ExactCapacity(cfg: Config)
    requires Reachable(cfg) && cfg.Running?
    ensures |cfg.st.slots| == RoundUp(cfg.mon.peak)
    ensures RoundUp(cfg.mon.peak) % 16 == 0 && cfg.mon.peak <= RoundUp(cfg.mon.peak) < cfg.mon.peak + 16
    ensures |cfg.mon.socks| <= cfg.mon.peak && BelowPeak(cfg.mon)
  {
    ReachableAgrees(cfg);
    var zeroType, newTimeout, ops :| cfg == Run(Start(zeroType, newTimeout), ops);
    RunBelowPeak(zeroType, newTimeout, ops);
    RoundUpBounds(cfg.mon.peak);
  }

  /** In the run of ops, call k is a socket or accept and gives out descriptor fd. */
  ghost predicate GivesOut(zeroType: NcType, newTimeout: nat, ops: seq<Op>, k: nat, fd: nat) {
    && k < |ops| && (ops[k].SocketOp? || ops[k].AcceptOp?)
    && var before := Run(Start(zeroType, newTimeout), ops[..k]);
       before.Running? && Step(before.st, ops[k]).Done? && Step(before.st, ops[k]).ret == fd
  }

  /** The last call of a run. */
  lemma LastStep(zeroType: NcType, newTimeout: nat, ops: seq<Op>)
    requires ops != [] && Run(Start(zeroType, newTimeout), ops).Running?
    ensures var before, op := Run(Start(zeroType, newTimeout), ops[..|ops| - 1]), ops[|ops| - 1];
            var after := Run(Start(zeroType, newTimeout), ops);
            && before.Running? && Agrees(before.st, before.mon) && BelowPeak(before.mon) && Step(before.st, op).Done?
            && var r := Step(before.st, op);
               && after.mon == Observe(before.mon, op, r.ret, r.data)
               && (op.SocketOp? || op.AcceptOp? ==> r.ret >= 0 ==> IsLowest(before.mon.socks, r.ret))
  {
    var before, op := Run(Start(zeroType, newTimeout), ops[..|ops| - 1]), ops[|ops| - 1];
    RunAgrees(zeroType, newTimeout, ops[..|ops| - 1]);
    RunBelowPeak(zeroType, newTimeout, ops[..|ops| - 1]);
    if (op.SocketOp? || op.AcceptOp?) && Step(before.st, op).ret >= 0 {
      OpenIsLowest(before.st, before.mon, op);
    }
  }

  /** An opening puts its descriptor below the new peak; and if the peak rises, just below. */
  lemma OpenAndPeak(mon: Monitor, op: Op, ret: int, data: seq<byte>)
    requires BelowPeak(mon) && |mon.socks| <= mon.peak
    requires (op.SocketOp? || op.AcceptOp?) && ret >= 0 ==> IsLowest(mon.socks, ret)
    ensures var mon' := Observe(mon, op, ret, data);
            mon'.peak != mon.peak ==> mon'.peak == mon.peak + 1 && (op.SocketOp? || op.AcceptOp?) && ret == mon.peak
  {
    if Observe(mon, op, ret, data).peak != mon.peak {
      assert (op.SocketOp? || op.AcceptOp?) && ret >= 0;
      LowestAtPeak(mon, ret, NewSock(mon, ClientOf(op).value));
    }
  }

  lemma LowestAtPeak(mon: Monitor, fd: int, sock: Sock)
    requires BelowPeak(mon) && |mon.socks| <= mon.peak < |mon.socks[fd := sock]| && IsLowest(mon.socks, fd)
    ensures fd == mon.peak && |mon.socks[fd := sock]| == mon.peak + 1
  {
    OneMore(mon.socks, fd, sock);
    assert mon.socks.Keys <= UpTo(mon.peak) && |mon.socks.Keys| == |mon.socks|;
    SubsetCard(mon.socks.Keys, UpTo(mon.peak));
    assert fd !in UpTo(mon.peak) && mon.peak !in mon.socks;
  }

  /** The last call raises the peak above what it gives out, and never lowers it. */
  lemma LastBelowPeak(zeroType: NcType, newTimeout: nat, ops: seq<Op>)
    requires ops != [] && Run(Start(zeroType, newTimeout), ops).Running?
    ensures var n, after := |ops| - 1, Run(Start(zeroType, newTimeout), ops);
            var before := Run(Start(zeroType, newTimeout), ops[..n]);
            && before.Running? && before.mon.peak <= after.mon.peak
            && (forall fd: nat :: GivesOut(zeroType, newTimeout, ops, n, fd) ==> fd < after.mon.peak)
  {
    var before, op := Run(Start(zeroType, newTimeout), ops[..|ops| - 1]), ops[|ops| - 1];
    LastStep(zeroType, newTimeout, ops);
    var r := Step(before.st, op);
    ObserveBelowPeak(before.mon, op, r.ret, r.data);
    if (op.SocketOp? || op.AcceptOp?) && r.ret >= 0 {
      OpenedIsSock(before.st, before.mon, op);
    }
  }

  lemma GivesOutEarlier(zeroType: NcType, newTimeout: nat, ops: seq<Op>, n: nat, k: nat, fd: nat)
    requires k < n <= |ops|
    ensures GivesOut(zeroType, newTimeout, ops, k, fd) <==> GivesOut(zeroType, newTimeout, ops[..n], k, fd)
  {
    assert ops[..n][..k] == ops[..k];
  }

  lemma {:induction false} PeakGrows(zeroType: NcType, newTimeout: nat, ops: seq<Op>, k: nat)
    requires k <= |ops| && Run(Start(zeroType, newTimeout), ops).Running?
    ensures var before := Run(Start(zeroType, newTimeout), ops[..k]);
            before.Running? && before.mon.peak <= Run(Start(zeroType, newTimeout), ops).mon.peak
    decreases |ops|
  {
    if k == |ops| {
      assert ops[..k] == ops;
    } else {
      var n := |ops| - 1;
      LastBelowPeak(zeroType, newTimeout, ops);
      assert ops[..n][..k] == ops[..k];
      PeakGrows(zeroType, newTimeout, ops[..n], k);
    }
  }

  lemma GivenBelowPeak(zeroType: NcType, newTimeout: nat, ops: seq<Op>, k: nat, fd: nat)
    requires Run(Start(zeroType, newTimeout), ops).Running? && GivesOut(zeroType, newTimeout, ops, k, fd)
    ensures fd < Run(Start(zeroType, newTimeout), ops).mon.peak
  {
    PeakGrows(zeroType, newTimeout, ops, k + 1);
    GivesOutEarlier(zeroType, newTimeout, ops, k + 1, k, fd);
    LastBelowPeak(zeroType, newTimeout, ops[..k + 1]);
  }

  lemma OpenedIsSock(st: State, mon: Monitor, op: Op)
    requires Valid(st) && (op.SocketOp? || op.AcceptOp?) && Step(st, op).Done? && Step(st, op).ret >= 0
    ensures Step(st, op).ret in Observe(mon, op, Step(st, op).ret, Step(st, op).data).socks
  {
    if op.SocketOp? {
      SocketIs(st, op.sockType, op.handle, op.memory);
    }
  }

  lemma {:induction false} PeakIsGiven(zeroType: NcType, newTimeout: nat, ops: seq<Op>) returns (k: nat)
    requires var after := Run(Start(zeroType, newTimeout), ops); after.Running? && after.mon.peak > 0
    ensures GivesOut(zeroType, newTimeout, ops, k, Run(Start(zeroType, newTimeout), ops).mon.peak - 1)
    decreases |ops|
  {
    var n := |ops| - 1;
    var before := Run(Start(zeroType, newTimeout), ops[..n]);
    LastStep(zeroType, newTimeout, ops);
    var r := Step(before.st, ops[n]);
    OpenAndPeak(before.mon, ops[n], r.ret, r.data);
    if Run(Start(zeroType, newTimeout), ops).mon.peak == before.mon.peak {
      k := PeakIsGiven(zeroType, newTimeout, ops[..n]);
      GivesOutEarlier(zeroType, newTimeout, ops, n, k, before.mon.peak - 1);
    } else {
      k := n;
    }
  }

  /**
   The descriptors given out by any run, closed ones included, are below the largest number P of
   connections open at one time, and P - 1 is one of them.
   */
  lemma HighestDescriptor(zeroType: NcType, newTimeout: nat, ops: seq<Op>)
    requires Run(Start(zeroType, newTimeout), ops).Running?
    ensures var peak := Run(Start(zeroType, newTimeout), ops).mon.peak;
            && (forall k: nat, fd: nat :: GivesOut(zeroType, newTimeout, ops, k, fd) ==> fd < peak)
            && (peak > 0 ==> exists k: nat, fd: nat :: GivesOut(zeroType, newTimeout, ops, k, fd) && fd == peak - 1)
  {
    forall k: nat, fd: nat | GivesOut(zeroType, newTimeout, ops, k, fd)
      ensures fd < Run(Start(zeroType, newTimeout), ops).mon.peak
    {
      GivenBelowPeak(zeroType, newTimeout, ops, k, fd);
    }
    if Run(Start(zeroType, newTimeout), ops).mon.peak > 0 {
      var k := PeakIsGiven(zeroType, newTimeout, ops);
    }
  }

  // ---------- Opening ----------

  /** Whether the next open needs no memory: the peak is not reached, or not a multiple of 16. */
  predicate HasRoom(mon: Monitor) {
    |mon.socks| < RoundUp(mon.peak)
  }

  /**
   socket, for every input after every run: a bad type gives -1, no connection gives -2, and
   otherwise the lowest descriptor not in use, unless the table is full and memory is refused.
   The code has no error return for that case and uses a null record.
   */
  lemma SocketOutcome(cfg: Config, sockType: int, handle: Option<Conn>, memory: bool)
    requires Reachable(cfg) && cfg.Running?
    ensures Valid(cfg.st)
    ensures var r := Step(cfg.st, SocketOp(sockType, handle, memory));
            var given := handle.Some? && handle.value !in cfg.st.lib.open;
            if sockType != SOCK_STREAM && sockType != SOCK_DGRAM then r == Done(cfg.st, -1, [], None)
            else if !given then r == Done(cfg.st, -2, [], None)
            else if memory || HasRoom(cfg.mon) then
              r.Done? && IsLowest(cfg.mon.socks, r.ret) && IsOpen(r.st, r.ret) && ConnOf(r.st, r.ret) == handle.value
            else r.Halt?
  {
    ReachableAgrees(cfg);
    var st1, fd := OpenStep(cfg.st, Unused(handle), memory);
    SocksInView(cfg.st, cfg.mon);
  }

  /** accept handles the same case: it returns -1 and the table is unchanged. */
  lemma AcceptOutcome(cfg: Config, s: int, client: Option<Client>, memory: bool)
    requires Reachable(cfg) && cfg.Running?
    ensures Valid(cfg.st)
    ensures var r := Step(cfg.st, AcceptOp(s, client, memory));
            var given := client.Some? && client.value.conn !in cfg.st.lib.open;
            r.Done? &&
            if s in cfg.mon.socks && given && (memory || HasRoom(cfg.mon)) then
              IsLowest(cfg.mon.socks, r.ret) && IsOpen(r.st, r.ret) && ConnOf(r.st, r.ret) == client.value.conn
            else r.ret == -1 && r.st.slots == cfg.st.slots
  {
    ReachableAgrees(cfg);
    assert AgreesAt(cfg.st, cfg.mon, s);
    var st1, fd := OpenStep(cfg.st, client, memory);
    SocksInView(cfg.st, cfg.mon);
  }

  /** A run crashes exactly at a socket call with a full table and no memory. */
  lemma CrashExactly(cfg: Config, op: Op)
    requires Reachable(cfg) && cfg.Running?
    ensures Valid(cfg.st)
    ensures Next(cfg, op).Crashed? <==>
            op.SocketOp? && op.sockType in {SOCK_STREAM, SOCK_DGRAM} && op.handle.Some?
            && op.handle.value !in cfg.st.lib.open && !op.memory && |cfg.mon.socks| == RoundUp(cfg.mon.peak)
  {
    ReachableAgrees(cfg);
    if op.SocketOp? {
      SocksInView(cfg.st, cfg.mon);
      SocketOutcome(cfg, op.sockType, op.handle, op.memory);
    } else {
      OnlySocketHalts(cfg.st, op);
    }
  }

  lemma OnlySocketHalts(st: State, op: Op)
    requires Valid(st) && !op.SocketOp?
    ensures Step(st, op).Done?
  {
  }

  // ---------- Stability of descriptors ----------

  lemma OpeningKeepsOpen(st: State, op: Op, fd: int)
    requires Valid(st) && IsOpen(st, fd) && (op.SocketOp? || op.AcceptOp?) && Step(st, op).Done?
    ensures fd != Step(st, op).ret
  {
    if Step(st, op).ret >= 0 {
      OpenIsLeast(st, op);
      assert fd in View(st.slots);
    }
  }

  lemma CallKeepsOpen(st: State, op: Op, fd: int)
    requires Valid(st) && IsOpen(st, fd) && (op.RecvOp? || op.IoctlOp? || op.FcntlOp? || op.SetSockOptOp?) && op.s == fd
    ensures IsOpen(Step(st, op).st, fd) && ConnOf(Step(st, op).st, fd) == ConnOf(st, fd)
  {
    match op {
      case RecvOp(s, len, flags, reply) => RecvDelivers(st, s, len, flags, reply);
      case IoctlOp(s, cmd, reply) => IoctlDelivers(st, s, cmd, reply);
      case FcntlOp(s, cmd, val) => FcntlElsewhere(st, s, cmd, val);
      case SetSockOptOp(s, level, optname, optval) => SetSockOptElsewhere(st, s, level, optname, optval);
    }
  }

  lemma StepKeepsOpen(st: State, op: Op, fd: int)
    requires Valid(st) && IsOpen(st, fd) && op != CloseOp(fd) && Step(st, op).Done?
    ensures IsOpen(Step(st, op).st, fd) && ConnOf(Step(st, op).st, fd) == ConnOf(st, fd)
  {
    if op.SocketOp? || op.AcceptOp? {
      OpeningKeepsOpen(st, op, fd);
    } else if !op.ArriveOp? && !op.PeerOp? && op.s == fd {
      CallKeepsOpen(st, op, fd);
    }
    if op.ArriveOp? || op.PeerOp? {
      assert Step(st, op).st.slots == st.slots;
    } else if fd != Target(st, op) {
      StepElsewhere(st, op);
      assert SameAt(st, Step(st, op).st, fd);
    }
  }

  /**
   Until it is closed, a descriptor names one connection, through any other opens, closes and
   growths; and looking that connection up returns the descriptor and changes nothing.
   */
  lemma {:induction false} StableDescriptor(cfg: Config, ops: seq<Op>, fd: int, memory: bool)
    requires Sound(cfg) && cfg.Running? && IsOpen(cfg.st, fd)
    requires CloseOp(fd) !in ops
    ensures var after := Run(cfg, ops);
            after.Running? ==>
              && IsOpen(after.st, fd) && ConnOf(after.st, fd) == ConnOf(cfg.st, fd)
              && InTable(after.st, ConnOf(cfg.st, fd), memory) == (after.st, fd)
  {
    var after := Run(cfg, ops);
    if ops != [] {
      var before := Run(cfg, ops[..|ops| - 1]);
      StableDescriptor(cfg, ops[..|ops| - 1], fd, memory);
      if after.Running? {
        StepKeepsOpen(before.st, ops[|ops| - 1], fd);
      }
    }
    if after.Running? {
      Conn2FdIdempotent(after.st.slots, fd, ConnOf(cfg.st, fd), memory, after.st.lib.zeroType);
    }
  }

  // ---------- Options ----------

  /**
   The options of a descriptor number are what was last stored through that number, or zero.
   Closing resets nothing and accept stores nothing, so they outlive connections.
   */
  lemma OptionsAreSticky(cfg: Config, fd: int)
    requires Reachable(cfg) && cfg.Running?
    ensures OptionsOf(cfg.st, fd) == OptionsAt(cfg.mon, fd)
  {
    ReachableAgrees(cfg);
    assert AgreesAt(cfg.st, cfg.mon, fd);
  }

  /**
   A new connection does not start with default options.  It does exactly when the last options
   stored through its descriptor were the defaults: socket sets the type and nothing else, accept
   sets nothing.
   */
  lemma OpenInherits(cfg: Config, op: Op, fd: int)
    requires Reachable(cfg) && cfg.Running? && (op.SocketOp? || op.AcceptOp?)
    requires Step(cfg.st, op).Done? && Step(cfg.st, op).ret >= 0 && IsLowest(cfg.mon.socks, fd)
    ensures var r := Step(cfg.st, op);
            var was := OptionsAt(cfg.mon, fd);
            && r.ret == fd
            && (OptionsOf(r.st, fd).fileFlag == 0 <==> was.fileFlag == 0)
            && (OptionsOf(r.st, fd).keepAlive == 0 <==> was.keepAlive == 0)
            && (op.AcceptOp? ==> OptionsOf(r.st, fd).ncType == was.ncType)
            && (op.SocketOp? ==> OptionsOf(r.st, fd).ncType == if op.sockType == 1 then Tcp else Udp)
  {
    ReachableAgrees(cfg);
    OpenIsLowest(cfg.st, cfg.mon, op);
    OptionsAreSticky(cfg, fd);
    var st1, fd1 := OpenStep(cfg.st, ClientOf(op), op.memory);
    if op.SocketOp? {
      OptionsKeep(st1, fd, OptionsOf(st1, fd).(ncType := TypeOf(op.sockType).value), st1.errno);
    }
  }

  /** F_GETFL returns the int that F_SETFL stored, negative ones included. */
  lemma FlagsRoundTrip(st: State, s: int, val: int)
    requires IsOpen(st, s) && -0x8000_0000 <= val < 0x8000_0000
    ensures Fcntl(Fcntl(st, s, F_SETFL, val).0, s, F_GETFL, 0).1 == val
  {
  }

  // ---------- Other descriptors ----------

  /** The calls on descriptor t, and the events of its connection c. */
  predicate Concerns(op: Op, t: int, c: Conn) {
    match op
    case SocketOp(_, _, _) => false
    case AcceptOp(_, _, _) => false
    case CloseOp(s) => s == t
    case RecvOp(s, _, _, _) => s == t
    case IoctlOp(s, _, _) => s == t
    case FcntlOp(s, _, _) => s == t
    case SetSockOptOp(s, _, _, _) => s == t
    case ArriveOp(d, _) => d == c
    case PeerOp(d, _) => d == c
  }

  lemma UnconcernedStep(st: State, op: Op, t: int)
    requires Valid(st) && IsOpen(st, t) && Step(st, op).Done? && !Concerns(op, t, ConnOf(st, t))
    ensures Target(st, op) != t
  {
  }

  /**
   Non-interference over runs.  No sequence of calls on other descriptors, opens, growths and events
   of other connections changes an open descriptor: its whole record, its channel, its unread bytes.
   */
  lemma {:induction false} NonInterference(cfg: Config, ops: seq<Op>, t: int)
    requires Sound(cfg) && cfg.Running? && IsOpen(cfg.st, t)
    requires forall k :: 0 <= k < |ops| ==> !Concerns(ops[k], t, ConnOf(cfg.st, t))
    ensures Run(cfg, ops).Running? ==> SameAt(cfg.st, Run(cfg, ops).st, t)
  {
    if ops != [] {
      var before := Run(cfg, ops[..|ops| - 1]);
      var op := ops[|ops| - 1];
      NonInterference(cfg, ops[..|ops| - 1], t);
      if before.Running? && Step(before.st, op).Done? {
        UnconcernedStep(before.st, op, t);
        StepElsewhere(before.st, op);
        assert SameAt(before.st, Step(before.st, op).st, t);
      }
    }
  }

  /** After any run no connection has two descriptors. */
  lemma OneDescriptorEach(cfg: Config, i: int, j: int)
    requires Reachable(cfg) && cfg.Running? && IsOpen(cfg.st, i) && IsOpen(cfg.st, j)
    requires ConnOf(cfg.st, i) == ConnOf(cfg.st, j)
    ensures i == j
  {
    ReachableAgrees(cfg);
    assert HasConn(cfg.st.slots, i, ConnOf(cfg.st, i)) && HasConn(cfg.st.slots, j, ConnOf(cfg.st, i));
  }
}
