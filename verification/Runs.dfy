/**
 Runs of the whole layer, watched from outside.  The monitor is the reference model: it sees the
 arguments and return values of the calls, the bytes stored for the caller and the bytes that
 arrived, never a slot or a pbuf.  After every run the layer agrees with it.
 */
module Runs {
  import opened Wrappers
  import opened NetLib
  import opened DescriptorTable
  import opened SocketCalls
  import opened Invariant
  import opened Steps

  // ---------- The monitor ----------

  /**
   An open descriptor from outside: bytes returned by recv, bytes that arrived, timeout last set, and
   whether the peer is there.
   */
  datatype Sock = Sock(conn: Conn, given: seq<byte>, sent: seq<byte>, timeout: nat, active: bool)

  /** `options` holds what was last stored through a descriptor number, whoever owned it. */
  datatype Monitor = Monitor(socks: map<int, Sock>, options: map<int, Options>, peak: nat,
                             initial: Options, newTimeout: nat)

  function OptionsAt(mon: Monitor, fd: int): Options {
    if fd in mon.options then mon.options[fd] else mon.initial
  }

  function NewSock(mon: Monitor, client: Client): Sock {
    Sock(client.conn, [], Flatten(client.queue), mon.newTimeout, client.active)
  }

  function NoteOpened(mon: Monitor, fd: int, client: Client): Monitor {
    var socks := mon.socks[fd := NewSock(mon, client)];
    mon.(socks := socks, peak := if |socks| > mon.peak then |socks| else mon.peak)
  }

  function NoteSock(mon: Monitor, fd: int, sock: Sock): Monitor {
    mon.(socks := mon.socks[fd := sock])
  }

  function NoteOptions(mon: Monitor, fd: int, options: Options): Monitor {
    mon.(options := mon.options[fd := options])
  }

  function NoteArrival(mon: Monitor, c: Conn, chunk: Chunk): Monitor {
    mon.(socks := map fd | fd in mon.socks ::
                    var sock := mon.socks[fd];
                    if sock.conn == c then sock.(sent := sock.sent + chunk) else sock)
  }

  function NotePeer(mon: Monitor, c: Conn, active: bool): Monitor {
    mon.(socks := map fd | fd in mon.socks ::
                    var sock := mon.socks[fd];
                    if sock.conn == c then sock.(active := active) else sock)
  }

  /** Written in the numbers and values that the caller passes, without the functions of the layer. */
  function Observe(mon: Monitor, op: Op, ret: int, data: seq<byte>): Monitor {
    match op
    case SocketOp(sockType, handle, _) =>
      if ret >= 0 && handle.Some? then
        NoteOptions(NoteOpened(mon, ret, Client(handle.value, [], true)), ret,
                    OptionsAt(mon, ret).(ncType := if sockType == 1 then Tcp else Udp))
      else mon
    case AcceptOp(_, client, _) =>
      if ret >= 0 && client.Some? then NoteOpened(mon, ret, client.value) else mon
    case CloseOp(s) =>
      if ret == 0 then mon.(socks := mon.socks - {s}) else mon
    case RecvOp(s, _, _, _) =>
      if s in mon.socks then NoteSock(mon, s, mon.socks[s].(given := mon.socks[s].given + data)) else mon
    case IoctlOp(_, _, _) => mon
    case FcntlOp(s, cmd, val) =>
      if ret == 0 && cmd == 4 then NoteOptions(mon, s, OptionsAt(mon, s).(fileFlag := val % 0x1_0000_0000))
      else mon
    case SetSockOptOp(s, level, optname, optval) =>
      if ret == 0 && level == 0xfff && optname == 0x1006 && s in mon.socks && !optval.OtherSize? then
        NoteSock(mon, s, mon.socks[s].(timeout := TimeoutOf(optval)))
      else if ret == 0 && level == 0xfff && optname == 8 && optval.Int? then
        NoteOptions(mon, s, OptionsAt(mon, s).(keepAlive := optval.v % 0x1_0000))
      else mon
    case ArriveOp(c, chunk) => NoteArrival(mon, c, chunk)
    case PeerOp(c, active) => NotePeer(mon, c, active)
  }

  // ---------- Runs ----------

  datatype Config = Crashed | Running(st: State, mon: Monitor)

  ghost predicate Sound(cfg: Config) {
    cfg.Running? ==> Valid(cfg.st)
  }

  function Start(zeroType: NcType, newTimeout: nat): (cfg: Config)
    ensures Sound(cfg)
  {
    Running(State([], Lib(map[], [], [], zeroType, newTimeout), Unset),
            Monitor(map[], map[], 0, Options(zeroType, 0, 0), newTimeout))
  }

  function Next(cfg: Config, op: Op): (r: Config)
    requires Sound(cfg)
    ensures Sound(r)
  {
    if cfg.Crashed? then Crashed
    else
      StepValid(cfg.st, op);
      match Step(cfg.st, op)
      case Halt => Crashed
      case Done(st, ret, data, _) => Running(st, Observe(cfg.mon, op, ret, data))
  }

  function Run(cfg: Config, ops: seq<Op>): (r: Config)
    requires Sound(cfg)
    ensures Sound(r)
  {
    if ops == [] then cfg else Next(Run(cfg, ops[..|ops| - 1]), ops[|ops| - 1])
  }

  // ---------- The monitor and the layer agree ----------

  ghost predicate AgreesAt(st: State, mon: Monitor, fd: int)
    requires Valid(st)
  {
    && (fd in mon.socks <==> IsOpen(st, fd))
    && OptionsAt(mon, fd) == OptionsOf(st, fd)
    && (IsOpen(st, fd) ==>
          && mon.socks[fd].conn == ConnOf(st, fd)
          && mon.socks[fd].given + Pending(st, fd) == mon.socks[fd].sent
          && mon.socks[fd].timeout == ChannelOf(st, fd).timeout
          && mon.socks[fd].active == ChannelOf(st, fd).active)
  }

  function RoundUp(n: nat): nat {
    (n + GROWTH - 1) / GROWTH * GROWTH
  }

  ghost predicate CapacityAgrees(st: State, mon: Monitor) {
    |st.slots| == RoundUp(mon.peak) && |mon.socks| <= mon.peak
  }

  ghost predicate Agrees(st: State, mon: Monitor) {
    && Valid(st)
    && mon.initial == Options(st.lib.zeroType, 0, 0) && mon.newTimeout == st.lib.newTimeout
    && (forall fd :: AgreesAt(st, mon, fd))
    && CapacityAgrees(st, mon)
  }

  /** Elsewhere nothing changed and nothing was noted. */
  lemma AgreesAfter(st: State, st': State, mon: Monitor, mon': Monitor, s: int)
    requires Agrees(st, mon) && Elsewhere(st, st', s)
    requires mon'.initial == mon.initial && mon'.newTimeout == mon.newTimeout
    requires forall t :: t != s ==> (t in mon'.socks <==> t in mon.socks) && OptionsAt(mon', t) == OptionsAt(mon, t)
    requires forall t :: t != s && t in mon.socks ==> mon'.socks[t] == mon.socks[t]
    requires AgreesAt(st', mon', s) && CapacityAgrees(st', mon')
    ensures Agrees(st', mon')
  {
    forall fd ensures AgreesAt(st', mon', fd) {
      assert AgreesAt(st, mon, fd) && (fd != s ==> SameAt(st, st', fd));
    }
  }

  lemma SocksInView(st: State, mon: Monitor)
    requires Agrees(st, mon)
    ensures mon.socks.Keys == View(st.slots).Keys && |mon.socks| == |View(st.slots)|
    ensures |mon.socks| <= |st.slots|
    ensures Full(st.slots) <==> |mon.socks| == |st.slots|
  {
    forall fd ensures fd in mon.socks <==> fd in View(st.slots) {
      assert AgreesAt(st, mon, fd);
    }
    assert mon.socks.Keys == View(st.slots).Keys;
    assert |mon.socks.Keys| == |mon.socks| && |View(st.slots).Keys| == |View(st.slots)|;
    FullByCount(st.slots);
  }

  /** A full table means the peak is reached, so growing by 16 follows the peak exactly. */
  lemma CapacityAfterOpen(n: nat, peak: nat, size: nat)
    requires n <= peak && size == RoundUp(peak) && n <= size
    ensures var peak' := if n + 1 > peak then n + 1 else peak;
            RoundUp(peak') == if n == size then size + GROWTH else size
  {
  }

  lemma OpenCapacity(st: State, mon: Monitor, st': State, fd: int, client: Client)
    requires Agrees(st, mon) && !IsOpen(st, fd)
    requires |st'.slots| == if Full(st.slots) then |st.slots| + GROWTH else |st.slots|
    ensures CapacityAgrees(st', NoteOpened(mon, fd, client))
  {
    SocksInView(st, mon);
    assert fd !in mon.socks by { assert AgreesAt(st, mon, fd); }
    OneMore(mon.socks, fd, NewSock(mon, client));
    CapacityAfterOpen(|mon.socks|, mon.peak, |st.slots|);
  }

  lemma OneMore<K, V>(m: map<K, V>, k: K, v: V)
    requires k !in m
    ensures |m[k := v]| == |m| + 1
  {
  }

  lemma SameOptions(st: State, mon: Monitor, fd: int)
    requires Agrees(st, mon)
    ensures OptionsOf(st, fd) == OptionsAt(mon, fd)
  {
    assert AgreesAt(st, mon, fd);
  }

  /** The descriptor just opened. */
  lemma OpenedAgreesAt(st: State, mon: Monitor, client: Client, fd: int)
    requires Valid(st) && IsOpen(st, fd) && ConnOf(st, fd) == client.conn
    requires ChannelOf(st, fd).timeout == mon.newTimeout && ChannelOf(st, fd).active == client.active
    requires Pending(st, fd) == Flatten(client.queue)
    requires OptionsAt(mon, fd) == OptionsOf(st, fd)
    ensures AgreesAt(st, NoteOpened(mon, fd, client), fd)
  {
  }

  lemma OpenedNotes(mon: Monitor, fd: int, client: Client)
    ensures var mon' := NoteOpened(mon, fd, client);
            && mon'.initial == mon.initial && mon'.newTimeout == mon.newTimeout
            && (forall t :: t != fd ==> (t in mon'.socks <==> t in mon.socks) && OptionsAt(mon', t) == OptionsAt(mon, t))
            && (forall t :: t != fd && t in mon.socks ==> mon'.socks[t] == mon.socks[t])
  {
  }

  /** mon' is mon with fd opened. */
  lemma OpenedElsewhere(st: State, st': State, mon: Monitor, mon': Monitor, client: Client, fd: int)
    requires Agrees(st, mon) && Elsewhere(st, st', fd) && mon' == NoteOpened(mon, fd, client)
    requires AgreesAt(st', mon', fd) && CapacityAgrees(st', mon')
    ensures Agrees(st', mon')
  {
    OpenedNotes(mon, fd, client);
    AgreesAfter(st, st', mon, mon', fd);
  }

  lemma OpenAgrees(st: State, mon: Monitor, client: Option<Client>, memory: bool, st': State, fd: int)
    requires Agrees(st, mon)
    requires var (lib, nc) := NewConn(st.lib, client);
             (st', fd) == if nc.None? then (st, -1) else InTable(st.(lib := lib), nc.value, memory)
    ensures Agrees(st', if fd >= 0 && client.Some? then NoteOpened(mon, fd, client.value) else mon)
    ensures fd >= 0 ==> client.Some? && IsOpen(st', fd)
  {
    var st1, fd1 := OpenStep(st, client, memory);
    SameOptions(st, mon, fd);
    if fd >= 0 {
      OpenedAgreesAt(st', mon, client.value, fd);
      OpenCapacity(st, mon, st', fd, client.value);
      OpenedElsewhere(st, st', mon, NoteOpened(mon, fd, client.value), client.value, fd);
    } else {
      NotOpenedAgrees(st, st', mon, fd);
    }
  }

  lemma NotOpenedAgrees(st: State, st': State, mon: Monitor, fd: int)
    requires Agrees(st, mon) && Elsewhere(st, st', fd) && st'.slots == st.slots && fd < 0
    ensures Agrees(st', mon)
  {
    assert AgreesAt(st, mon, fd);
    AgreesAfter(st, st', mon, mon, fd);
  }

  // ---------- Every step keeps the agreement ----------

  lemma OptionsAgree(st: State, mon: Monitor, fd: int, o: Options)
    requires Agrees(st, mon) && IsOpen(st, fd)
    ensures var slot := st.slots[fd].(ncType := o.ncType, keepAlive := o.keepAlive, fileFlag := o.fileFlag);
            Agrees(st.(slots := st.slots[fd := slot]), NoteOptions(mon, fd, o))
  {
    var slot := st.slots[fd].(ncType := o.ncType, keepAlive := o.keepAlive, fileFlag := o.fileFlag);
    assert AgreesAt(st, mon, fd);
    OptionsKeep(st, fd, o, st.errno);
    AgreesAfter(st, st.(slots := st.slots[fd := slot]), mon, NoteOptions(mon, fd, o), fd);
  }

  /** socket is the common part of socket and accept, and one store of the type. */
  lemma SocketIs(st: State, sockType: int, handle: Option<Conn>, memory: bool)
    requires Valid(st) && Socket(st, sockType, handle, memory).Opened?
    ensures var r := Socket(st, sockType, handle, memory);
            var (lib, nc) := NewConn(st.lib, Unused(handle));
            if r.ret < 0 then r.st == st
            else
              && TypeOf(sockType).Some? && nc.Some? && handle.Some?
              && var (st1, fd) := InTable(st.(lib := lib), nc.value, memory);
                 fd == r.ret < |st1.slots|
                 && r.st == st1.(slots := st1.slots[fd := st1.slots[fd].(ncType := TypeOf(sockType).value)])
  {
  }

  lemma TypeAgrees(st: State, mon: Monitor, fd: int, ncType: NcType)
    requires Agrees(st, mon) && IsOpen(st, fd)
    ensures Agrees(st.(slots := st.slots[fd := st.slots[fd].(ncType := ncType)]),
                   NoteOptions(mon, fd, OptionsAt(mon, fd).(ncType := ncType)))
  {
    SameOptions(st, mon, fd);
    OptionsAgree(st, mon, fd, OptionsOf(st, fd).(ncType := ncType));
  }

  lemma SocketOpenedAgrees(st: State, mon: Monitor, sockType: int, handle: Option<Conn>, memory: bool)
    requires Agrees(st, mon) && Socket(st, sockType, handle, memory).Opened?
    requires Socket(st, sockType, handle, memory).ret >= 0
    ensures TypeOf(sockType).Some? && handle.Some?
    ensures var r := Socket(st, sockType, handle, memory);
            Agrees(r.st, NoteOptions(NoteOpened(mon, r.ret, Unused(handle).value), r.ret,
                                     OptionsAt(mon, r.ret).(ncType := TypeOf(sockType).value)))
  {
    SocketIs(st, sockType, handle, memory);
    var (lib, nc) := NewConn(st.lib, Unused(handle));
    var (st1, fd) := InTable(st.(lib := lib), nc.value, memory);
    OpenAgrees(st, mon, Unused(handle), memory, st1, fd);
    TypeAgrees(st1, NoteOpened(mon, fd, Unused(handle).value), fd, TypeOf(sockType).value);
  }

  lemma SocketAgrees(st: State, mon: Monitor, sockType: int, handle: Option<Conn>, memory: bool)
    requires Agrees(st, mon) && Step(st, SocketOp(sockType, handle, memory)).Done?
    ensures var r := Step(st, SocketOp(sockType, handle, memory));
            Agrees(r.st, Observe(mon, SocketOp(sockType, handle, memory), r.ret, r.data))
  {
    if Socket(st, sockType, handle, memory).ret >= 0 {
      SocketOpenedAgrees(st, mon, sockType, handle, memory);
    } else {
      SocketIs(st, sockType, handle, memory);
    }
  }

  lemma DeliversAgreesAt(st: State, st': State, mon: Monitor, s: int, data: seq<byte>)
    requires Valid(st) && AgreesAt(st, mon, s) && IsOpen(st, s) && Delivers(st, st', s, data)
    ensures AgreesAt(st', NoteSock(mon, s, mon.socks[s].(given := mon.socks[s].given + data)), s)
  {
    var given := mon.socks[s].given;
    assert (given + data) + Pending(st', s) == given + (data + Pending(st', s));
  }

  lemma DeliversAgrees(st: State, st': State, mon: Monitor, s: int, data: seq<byte>)
    requires Agrees(st, mon) && IsOpen(st, s) && Delivers(st, st', s, data)
    requires s in mon.socks
    ensures Agrees(st', NoteSock(mon, s, mon.socks[s].(given := mon.socks[s].given + data)))
  {
    var sock' := mon.socks[s].(given := mon.socks[s].given + data);
    assert AgreesAt(st, mon, s);
    DeliversAgreesAt(st, st', mon, s, data);
    DeliversElsewhere(st, st', s, data);
    SameKeys(mon.socks, s, sock');
    AgreesAfter(st, st', mon, NoteSock(mon, s, sock'), s);
  }

  lemma RecvAgrees(st: State, mon: Monitor, s: int, len: nat, flags: int, reply: Reply)
    requires Agrees(st, mon)
    ensures var r := Recv(st, s, len, flags, reply);
            Agrees(r.st, Observe(mon, RecvOp(s, len, flags, reply), r.ret, r.data))
  {
    assert AgreesAt(st, mon, s);
    if IsOpen(st, s) {
      RecvDelivers(st, s, len, flags, reply);
      var r := Recv(st, s, len, flags, reply);
      DeliversAgrees(st, r.st, mon, s, r.data);
    }
  }

  lemma SameKeys<K, V>(m: map<K, V>, k: K, v: V)
    requires k in m
    ensures |m[k := v]| == |m|
  {
  }

  lemma IoctlAgrees(st: State, mon: Monitor, s: int, cmd: int, reply: Reply)
    requires Agrees(st, mon)
    ensures Agrees(Ioctl(st, s, cmd, reply).st, mon)
  {
    assert AgreesAt(st, mon, s);
    if IsOpen(st, s) {
      IoctlDelivers(st, s, cmd, reply);
      DeliversAgrees(st, Ioctl(st, s, cmd, reply).st, mon, s, []);
      var sock := mon.socks[s];
      assert sock.(given := sock.given + []) == sock;
      assert mon.socks[s := sock] == mon.socks;
    }
  }

  lemma CloseAgrees(st: State, mon: Monitor, s: int)
    requires Agrees(st, mon)
    ensures var (st', ret) := Close(st, s);
            Agrees(st', Observe(mon, CloseOp(s), ret, []))
  {
    assert AgreesAt(st, mon, s);
    if IsOpen(st, s) {
      var st' := Close(st, s).0;
      var mon' := mon.(socks := mon.socks - {s});
      CloseElsewhere(st, s);
      assert |mon'.socks| <= |mon.socks| by {
        SubsetCard(mon'.socks.Keys, mon.socks.Keys);
      }
      AgreesAfter(st, st', mon, mon', s);
    }
  }

  lemma FcntlAgrees(st: State, mon: Monitor, s: int, cmd: int, val: int)
    requires Agrees(st, mon)
    ensures var (st', ret) := Fcntl(st, s, cmd, val);
            Agrees(st', Observe(mon, FcntlOp(s, cmd, val), ret, []))
  {
    var (st', ret) := Fcntl(st, s, cmd, val);
    assert AgreesAt(st, mon, s);
    FcntlElsewhere(st, s, cmd, val);
    AgreesAfter(st, st', mon, Observe(mon, FcntlOp(s, cmd, val), ret, []), s);
  }

  lemma SetSockOptAgrees(st: State, mon: Monitor, s: int, level: int, optname: int, val: OptVal)
    requires Agrees(st, mon)
    ensures var (st', ret) := SetSockOpt(st, s, level, optname, val);
            Agrees(st', Observe(mon, SetSockOptOp(s, level, optname, val), ret, []))
  {
    var (st', ret) := SetSockOpt(st, s, level, optname, val);
    var mon' := Observe(mon, SetSockOptOp(s, level, optname, val), ret, []);
    assert AgreesAt(st, mon, s);
    SetSockOptElsewhere(st, s, level, optname, val);
    if s in mon.socks && !val.OtherSize? {
      SameKeys(mon.socks, s, mon.socks[s].(timeout := TimeoutOf(val)));
    }
    AgreesAfter(st, st', mon, mon', s);
  }

  lemma ArriveAgrees(st: State, mon: Monitor, c: Conn, chunk: Chunk)
    requires Agrees(st, mon)
    ensures Agrees(st.(lib := Arrive(st.lib, c, chunk)), NoteArrival(mon, c, chunk))
  {
    var st' := st.(lib := Arrive(st.lib, c, chunk));
    var mon' := NoteArrival(mon, c, chunk);
    var s := IndexOf(st.slots, Some(c));
    forall t ensures AgreesAt(st, mon, t) && (t in mon.socks && mon.socks[t].conn == c ==> t == s) {
      assert AgreesAt(st, mon, t);
      if t in mon.socks && mon.socks[t].conn == c {
        assert HasConn(st.slots, t, c) && HasConn(st.slots, s, c);
      }
    }
    assert mon'.socks.Keys == mon.socks.Keys;
    assert |mon'.socks| == |mon'.socks.Keys| && |mon.socks| == |mon.socks.Keys|;
    StepElsewhere(st, ArriveOp(c, chunk));
    if IsOpen(st, s) {
      ChannelKeeps(st, s, c, Arrive(st.lib, c, chunk).open[c]);
      FlattenAppend(ChannelOf(st, s).queue, chunk);
      var given, held, queued := mon.socks[s].given, Remaining(st, s), Flatten(ChannelOf(st, s).queue);
      assert given + (held + (queued + chunk)) == (given + (held + queued)) + chunk;
    }
    AgreesAfter(st, st', mon, mon', s);
  }

  /** Which descriptor has connection c, if any. */
  lemma ConnAt(st: State, mon: Monitor, c: Conn)
    requires Agrees(st, mon)
    ensures forall t :: t in mon.socks && mon.socks[t].conn == c ==> t == IndexOf(st.slots, Some(c))
  {
    var s := IndexOf(st.slots, Some(c));
    forall t | t in mon.socks && mon.socks[t].conn == c ensures t == s {
      assert AgreesAt(st, mon, t);
      assert HasConn(st.slots, t, c) && HasConn(st.slots, s, c);
    }
  }

  lemma PeerAgrees(st: State, mon: Monitor, c: Conn, active: bool)
    requires Agrees(st, mon)
    ensures Agrees(st.(lib := SetActive(st.lib, c, active)), NotePeer(mon, c, active))
  {
    var st' := st.(lib := SetActive(st.lib, c, active));
    var mon' := NotePeer(mon, c, active);
    var s := IndexOf(st.slots, Some(c));
    ConnAt(st, mon, c);
    assert AgreesAt(st, mon, s);
    assert mon'.socks.Keys == mon.socks.Keys;
    assert |mon'.socks| == |mon'.socks.Keys| && |mon.socks| == |mon.socks.Keys|;
    StepElsewhere(st, PeerOp(c, active));
    if c in st.lib.open {
      ChannelKeeps(st, s, c, SetActive(st.lib, c, active).open[c]);
    }
    AgreesAfter(st, st', mon, mon', s);
  }

  lemma StepAgrees(st: State, mon: Monitor, op: Op)
    requires Agrees(st, mon) && Step(st, op).Done?
    ensures var r := Step(st, op); Agrees(r.st, Observe(mon, op, r.ret, r.data))
  {
    match op {
      case SocketOp(sockType, handle, memory) => SocketAgrees(st, mon, sockType, handle, memory);
      case AcceptOp(s, client, memory) =>
        if IsOpen(st, s) {
          var st1, fd := OpenStep(st, client, memory);
          OpenAgrees(st, mon, client, memory, st1, fd);
        }
      case CloseOp(s) => CloseAgrees(st, mon, s);
      case RecvOp(s, len, flags, reply) => RecvAgrees(st, mon, s, len, flags, reply);
      case IoctlOp(s, cmd, reply) => IoctlAgrees(st, mon, s, cmd, reply);
      case FcntlOp(s, cmd, val) => FcntlAgrees(st, mon, s, cmd, val);
      case SetSockOptOp(s, level, optname, optval) => SetSockOptAgrees(st, mon, s, level, optname, optval);
      case ArriveOp(c, chunk) => ArriveAgrees(st, mon, c, chunk);
      case PeerOp(c, active) => PeerAgrees(st, mon, c, active);
    }
  }

  /** After every run that does not crash, the layer and the monitor agree. */
  lemma {:induction false} RunAgrees(zeroType: NcType, newTimeout: nat, ops: seq<Op>)
    ensures var cfg := Run(Start(zeroType, newTimeout), ops);
            cfg.Running? ==> Agrees(cfg.st, cfg.mon)
  {
    var start := Start(zeroType, newTimeout);
    if ops != [] {
      var before := Run(start, ops[..|ops| - 1]);
      var op := ops[|ops| - 1];
      RunAgrees(zeroType, newTimeout, ops[..|ops| - 1]);
      if before.Running? && Step(before.st, op).Done? {
        StepAgrees(before.st, before.mon, op);
      }
    }
  }
}
