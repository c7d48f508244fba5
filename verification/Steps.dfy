/**
 The steps of the whole layer: any call on any descriptor, data arriving, peers coming and going.
 The main result is non-interference: a step changes one descriptor at most.
 */
module Steps {
  import opened Wrappers
  import opened NetLib
  import opened DescriptorTable
  import opened SocketCalls
  import opened Invariant

  datatype Op =
    | SocketOp(sockType: int, handle: Option<Conn>, memory: bool)
    | AcceptOp(s: int, client: Option<Client>, memory: bool)
    | CloseOp(s: int)
    | RecvOp(s: int, len: nat, flags: int, reply: Reply)
    | IoctlOp(s: int, cmd: int, reply: Reply)
    | FcntlOp(s: int, cmd: int, val: int)
    | SetSockOptOp(s: int, level: int, optname: int, optval: OptVal)
    | ArriveOp(c: Conn, chunk: Chunk)
    | PeerOp(c: Conn, active: bool)

  /** Besides the return value: the bytes recv stores and the count FIONREAD stores for the caller. */
  datatype Outcome = Halt | Done(st: State, ret: int, data: seq<byte>, avail: Option<int>)

  function Step(st: State, op: Op): Outcome
    requires Valid(st)
  {
    match op
    case SocketOp(sockType, handle, memory) =>
      (match Socket(st, sockType, handle, memory)
       case Fault => Halt
       case Opened(st', ret) => Done(st', ret, [], None))
    case AcceptOp(s, client, memory) =>
      var (st', ret) := Accept(st, s, client, memory); Done(st', ret, [], None)
    case CloseOp(s) =>
      var (st', ret) := Close(st, s); Done(st', ret, [], None)
    case RecvOp(s, len, flags, reply) =>
      var r := Recv(st, s, len, flags, reply); Done(r.st, r.ret, r.data, None)
    case IoctlOp(s, cmd, reply) =>
      var r := Ioctl(st, s, cmd, reply); Done(r.st, r.ret, [], r.avail)
    case FcntlOp(s, cmd, val) =>
      var (st', ret) := Fcntl(st, s, cmd, val); Done(st', ret, [], None)
    case SetSockOptOp(s, level, optname, optval) =>
      var (st', ret) := SetSockOpt(st, s, level, optname, optval); Done(st', ret, [], None)
    case ArriveOp(c, chunk) =>
      Done(st.(lib := Arrive(st.lib, c, chunk)), 0, [], None)
    case PeerOp(c, active) =>
      Done(st.(lib := SetActive(st.lib, c, active)), 0, [], None)
  }

  // ---------- What one step changes ----------

  /** The one descriptor a step can change. */
  function Target(st: State, op: Op): int
    requires Valid(st)
  {
    match op
    case SocketOp(_, _, _) => if Step(st, op).Done? then Step(st, op).ret else -1
    case AcceptOp(_, _, _) => if Step(st, op).Done? then Step(st, op).ret else -1
    case CloseOp(s) => s
    case RecvOp(s, _, _, _) => s
    case IoctlOp(s, _, _) => s
    case FcntlOp(s, _, _) => s
    case SetSockOptOp(s, _, _, _) => s
    case ArriveOp(c, _) => IndexOf(st.slots, Some(c))
    case PeerOp(c, _) => IndexOf(st.slots, Some(c))
  }

  /** The connection that socket or accept is given. */
  function ClientOf(op: Op): Option<Client>
    requires op.SocketOp? || op.AcceptOp?
  {
    if op.SocketOp? then Unused(op.handle) else op.client
  }

  /** The common part of socket and accept. */
  lemma OpenStep(st: State, client: Option<Client>, memory: bool) returns (st': State, fd: int)
    requires Valid(st)
    ensures var (lib, nc) := NewConn(st.lib, client);
            (st', fd) == if nc.None? then (st, -1) else InTable(st.(lib := lib), nc.value, memory)
    ensures Elsewhere(st, st', fd)
    ensures fd == -1 ==> st'.slots == st.slots
    ensures fd == -1 || IsLeastFree(View(st.slots), fd)
    ensures fd >= 0 ==> client.Some? && IsOpen(st', fd) && ConnOf(st', fd) == client.value.conn
    ensures fd >= 0 ==> !IsOpen(st, fd) && OptionsOf(st', fd) == OptionsOf(st, fd)
    ensures fd >= 0 ==> ChannelOf(st', fd) == Channel(client.value.queue, st.lib.newTimeout, client.value.active, 0)
    ensures fd >= 0 ==> Pending(st', fd) == Flatten(client.value.queue)
    ensures |st'.slots| == if fd >= 0 && Full(st.slots) then |st.slots| + GROWTH else |st.slots|
    ensures NewConn(st.lib, client).1.Some? ==> (fd == -1 <==> !memory && Full(st.slots))
  {
    var (lib, nc) := NewConn(st.lib, client);
    var st1 := st.(lib := lib);
    NewConnKeeps(st, client);
    st', fd := st, -1;
    if nc.Some? {
      var c := nc.value;
      var r := InTable(st1, c, memory);
      st', fd := r.0, r.1;
      InTableKeeps(st1, c, memory);
      Conn2FdRefinesMap(st.slots, c, memory, st.lib.zeroType);
      forall k | k in View(st.slots) ensures View(st.slots)[k] != c {
        assert SlotOk(st.slots[k], st.lib);
      }
      InView(st.slots, c);
      ElsewhereFrom(st, st', fd, c);
    }
  }

  lemma ErrnoElsewhere(st: State, e: Errno, s: int)
    requires Valid(st)
    ensures Elsewhere(st, st.(errno := e), s)
  {
  }

  lemma DeliversElsewhere(st: State, st': State, s: int, data: seq<byte>)
    requires Valid(st) && IsOpen(st, s) && Delivers(st, st', s, data)
    ensures Elsewhere(st, st', s)
  {
    OthersElsewhere(st, s);
    ElsewhereFrom(st, st', s, ConnOf(st, s));
  }

  /** socket is the common part and one store of the type. */
  lemma SocketElsewhere(st: State, sockType: int, handle: Option<Conn>, memory: bool)
    requires Valid(st)
    ensures var r := Socket(st, sockType, handle, memory);
            r.Opened? ==> Elsewhere(st, r.st, r.ret) && r.ret >= -2
  {
    var r := Socket(st, sockType, handle, memory);
    ErrnoElsewhere(st, st.errno, if r.Opened? then r.ret else -1);
    var st1, fd := OpenStep(st, Unused(handle), memory);
    if r.Opened? && fd >= 0 && TypeOf(sockType).Some? {
      OptionsKeep(st1, fd, OptionsOf(st1, fd).(ncType := TypeOf(sockType).value), st1.errno);
      forall t | t != fd ensures SameAt(st, r.st, t) {
        assert SameAt(st, st1, t) && SameAt(st1, r.st, t);
      }
    }
  }

  /**
   Non-interference.  One step changes at most its target: every other descriptor keeps its whole
   record, its connection, its unread bytes and its options, also when the table is copied.
   */
  lemma StepElsewhere(st: State, op: Op)
    requires Valid(st) && Step(st, op).Done?
    ensures Elsewhere(st, Step(st, op).st, Target(st, op))
  {
    match op {
      case SocketOp(sockType, handle, memory) =>
        SocketElsewhere(st, sockType, handle, memory);
      case AcceptOp(s, client, memory) =>
        ErrnoElsewhere(st, st.errno, -1);
        var st1, fd := OpenStep(st, client, memory);
      case CloseOp(s) => CloseElsewhere(st, s);
      case RecvOp(s, len, flags, reply) =>
        ErrnoElsewhere(st, st.errno, s);
        if IsOpen(st, s) {
          RecvDelivers(st, s, len, flags, reply);
          DeliversElsewhere(st, Recv(st, s, len, flags, reply).st, s, Recv(st, s, len, flags, reply).data);
        }
      case IoctlOp(s, cmd, reply) =>
        ErrnoElsewhere(st, st.errno, s);
        if IsOpen(st, s) {
          IoctlDelivers(st, s, cmd, reply);
          DeliversElsewhere(st, Ioctl(st, s, cmd, reply).st, s, []);
        }
      case FcntlOp(s, cmd, val) => FcntlElsewhere(st, s, cmd, val);
      case SetSockOptOp(s, level, optname, optval) => SetSockOptElsewhere(st, s, level, optname, optval);
      case ArriveOp(c, chunk) =>
        ErrnoElsewhere(st, st.errno, Target(st, op));
        if c in st.lib.open {
          ChannelKeeps(st, IndexOf(st.slots, Some(c)), c, Arrive(st.lib, c, chunk).open[c]);
        }
      case PeerOp(c, active) =>
        ErrnoElsewhere(st, st.errno, Target(st, op));
        if c in st.lib.open {
          ChannelKeeps(st, IndexOf(st.slots, Some(c)), c, SetActive(st.lib, c, active).open[c]);
        }
    }
  }

  lemma CloseElsewhere(st: State, s: int)
    requires Valid(st)
    ensures Elsewhere(st, Close(st, s).0, s)
    ensures IsOpen(st, s) ==> !IsOpen(Close(st, s).0, s) && OptionsOf(Close(st, s).0, s) == OptionsOf(st, s)
  {
    ErrnoElsewhere(st, st.errno, s);
    if IsOpen(st, s) {
      CloseKeeps(st, s);
      OthersElsewhere(st, s);
      ElsewhereFrom(st, Close(st, s).0, s, ConnOf(st, s));
    }
  }

  lemma FcntlElsewhere(st: State, s: int, cmd: int, val: int)
    requires Valid(st)
    ensures var (st', ret) := Fcntl(st, s, cmd, val);
            && Elsewhere(st, st', s) && IsOpen(st', s) == IsOpen(st, s)
            && (IsOpen(st, s) ==> ConnOf(st', s) == ConnOf(st, s) && ChannelOf(st', s) == ChannelOf(st, s)
                                  && Pending(st', s) == Pending(st, s))
            && (cmd == F_SETFL ==> (ret == 0 <==> IsOpen(st, s)))
            && OptionsOf(st', s) == (if ret == 0 && cmd == F_SETFL
                                     then OptionsOf(st, s).(fileFlag := ToUnsigned(val, 0x1_0000_0000))
                                     else OptionsOf(st, s))
  {
    ErrnoElsewhere(st, st.errno, s);
    if IsOpen(st, s) {
      OptionsKeep(st, s, OptionsOf(st, s), EINVAL);
      OptionsKeep(st, s, OptionsOf(st, s).(fileFlag := ToUnsigned(val, 0x1_0000_0000)), st.errno);
      assert st.slots[s := st.slots[s]] == st.slots;
    }
  }

  lemma SetSockOptElsewhere(st: State, s: int, level: int, optname: int, val: OptVal)
    requires Valid(st)
    ensures var (st', ret) := SetSockOpt(st, s, level, optname, val);
            && Elsewhere(st, st', s) && IsOpen(st', s) == IsOpen(st, s)
            && (IsOpen(st, s) ==> ConnOf(st', s) == ConnOf(st, s) && Pending(st', s) == Pending(st, s)
                                  && ChannelOf(st', s).active == ChannelOf(st, s).active
                                  && ChannelOf(st', s).timeout ==
                                     if level == SOL_SOCKET && optname == SO_RCVTIMEO && !val.OtherSize?
                                     then TimeoutOf(val) else ChannelOf(st, s).timeout)
            && OptionsOf(st', s) == (if IsOpen(st, s) && level == SOL_SOCKET && optname == SO_KEEPALIVE && val.Int?
                                     then OptionsOf(st, s).(keepAlive := ToUnsigned(val.v, 0x1_0000))
                                     else OptionsOf(st, s))
            && (!IsOpen(st, s) ==> ret == -1)
  {
    ErrnoElsewhere(st, st.errno, s);
    if IsOpen(st, s) {
      var c := ConnOf(st, s);
      assert HasConn(st.slots, s, c) && HasConn(st.slots, IndexOf(st.slots, Some(c)), c);
      if level == SOL_SOCKET && optname == SO_RCVTIMEO && !val.OtherSize? {
        ChannelKeeps(st, s, c, st.lib.open[c].(timeout := TimeoutOf(val)));
      } else if level == SOL_SOCKET && optname == SO_KEEPALIVE && val.Int? {
        OptionsKeep(st, s, OptionsOf(st, s).(keepAlive := ToUnsigned(val.v, 0x1_0000)), st.errno);
      } else {
        OptionsKeep(st, s, OptionsOf(st, s), EINVAL);
        assert st.slots[s := st.slots[s]] == st.slots;
      }
    }
  }

  lemma StepValid(st: State, op: Op)
    requires Valid(st)
    ensures Step(st, op).Done? ==> Valid(Step(st, op).st)
  {
    if Step(st, op).Done? {
      StepElsewhere(st, op);
    }
  }
}
