/**
 What each call returns and stores, in the numbers and values a caller sees.  Nothing here is stated
 through the functions that the calls are computed with.
 */
module Results {
  import opened Wrappers
  import opened NetLib
  import opened DescriptorTable
  import opened SocketCalls
  import opened Invariant
  import opened Steps
  import opened Runs
  import opened Theorems

  // ---------- recv ----------

  lemma HeldCount(st: State, s: int, len: nat, flags: int, reply: Reply)
    requires IsOpen(st, s) && Ready(st, s) && st.slots[s].bytesLeft > 0
    ensures var r, b := Recv(st, s, len, flags, reply), st.slots[s].bytesLeft;
            r.ret == |r.data| && r.ret <= len && r.ret <= b && (r.ret == len || r.ret == b) && r.st.errno == st.errno
  {
  }

  lemma PulledCount(st: State, s: int, len: nat, flags: int)
    requires Valid(st) && IsOpen(st, s) && st.slots[s].bytesLeft == 0 && ChannelOf(st, s).queue != []
    ensures var r, b := Recv(st, s, len, flags, Deliver), |ChannelOf(st, s).queue[0]|;
            r.ret == |r.data| && r.ret <= len && r.ret <= b && (r.ret == len || r.ret == b) && r.st.errno == st.errno
  {
    var wait := if NoWait(st.slots[s], len, flags) then POLL else ChannelOf(st, s).timeout;
    RefillIs(st, s, NoWait(st.slots[s], len, flags), Deliver);
    PulledTouches(st, s, wait);
    PulledTake(Pulled(st, s, wait), st, s, wait, len);
  }

  lemma PulledTake(st1: State, st: State, s: int, wait: nat, len: nat)
    requires IsOpen(st, s) && Ready(st, s) && ChannelOf(st, s).queue != [] && st1 == Pulled(st, s, wait)
    requires SlotOk(st1.slots[s], st1.lib)
    ensures var r, b := Take(st1, s, len), |ChannelOf(st, s).queue[0]|;
            r.ret == |r.data| && r.ret <= len && r.ret <= b && (r.ret == len || r.ret == b) && r.st.errno == st.errno
  {
  }

  /**
   How much recv returns: all of what one pbuf has left, or as much of it as the caller has room for,
   and never less.  It is the pbuf at hand, or the first one queued.
   */
  lemma RecvCount(st: State, s: int, len: nat, flags: int, reply: Reply)
    requires Valid(st) && IsOpen(st, s)
    requires st.slots[s].bytesLeft > 0 || (reply == Deliver && ChannelOf(st, s).queue != [])
    ensures var r := Recv(st, s, len, flags, reply);
            var b := if st.slots[s].bytesLeft > 0 then st.slots[s].bytesLeft else |ChannelOf(st, s).queue[0]|;
            && 0 <= r.ret <= len && r.ret <= b && (r.ret == len || r.ret == b)
            && r.ret <= |Pending(st, s)| && r.data == Pending(st, s)[..r.ret] && r.st.errno == st.errno
  {
    var r := Recv(st, s, len, flags, reply);
    if st.slots[s].bytesLeft > 0 {
      HeldCount(st, s, len, flags, reply);
    } else {
      PulledCount(st, s, len, flags);
    }
    RecvDelivers(st, s, len, flags, reply);
    FrontDelivered(st, r.st, s, r.data);
  }

  lemma FrontDelivered(st: State, st': State, s: int, data: seq<byte>)
    requires Valid(st) && IsOpen(st, s) && Delivers(st, st', s, data)
    ensures |data| <= |Pending(st, s)| && data == Pending(st, s)[..|data|]
  {
  }

  /** recv finds nothing, or there is no descriptor. */
  lemma RecvEmpty(st: State, s: int, len: nat, flags: int, reply: Reply)
    requires Valid(st)
    requires IsOpen(st, s) ==> st.slots[s].bytesLeft == 0 && (!reply.Deliver? || ChannelOf(st, s).queue == [])
    ensures var r := Recv(st, s, len, flags, reply);
            var ended := IsOpen(st, s) && st.slots[s].ncType == Tcp && !ChannelOf(st, s).active;
            && r.data == [] && r.ret == (if ended then 0 else -1)
            && r.st.errno == (if ended || !IsOpen(st, s) then st.errno
                              else if reply == Break then ENOENT else EWOULDBLOCK)
  {
    if IsOpen(st, s) {
      RefillIs(st, s, NoWait(st.slots[s], len, flags), reply);
    }
  }

  lemma LowBits(x: int, high: int, bit: int, low: int, weight: nat)
    requires weight in {1, 8} && 0 <= bit <= 1 && 0 <= low < weight && x == high * (2 * weight) + bit * weight + low
    ensures HasBit(x, weight) <==> bit == 1
  {
    assert x / weight == 2 * high + bit;
  }

  /**
   Which recv calls do not wait.  `dontWait` is bit 3 of the flags of the call and `nonBlock` bit 0 of
   those of the descriptor, also for negative flags.
   */
  lemma PollsExactly(st: State, s: int, len: nat, flags: int, reply: Reply,
                     high: int, dontWait: int, low: int, high0: int, nonBlock: int)
    requires Valid(st) && IsOpen(st, s) && st.slots[s].bytesLeft == 0
    requires 0 <= dontWait <= 1 && 0 <= low < 8 && flags == high * 16 + dontWait * 8 + low
    requires 0 <= nonBlock <= 1 && st.slots[s].fileFlag == high0 * 2 + nonBlock
    ensures var c := ConnOf(st, s);
            var r := Recv(st, s, len, flags, reply);
            && c in r.st.lib.open
            && r.st.lib.open[c].lastWait == (if dontWait == 1 || nonBlock == 1 || len == 0 then 0xFFFF_FFFF
                                             else ChannelOf(st, s).timeout)
  {
    LowBits(flags, high, dontWait, low, 8);
    LowBits(st.slots[s].fileFlag, high0, nonBlock, 0, 1);
    RefillIs(st, s, NoWait(st.slots[s], len, flags), reply);
  }

  // ---------- socket ----------

  lemma StepKeepsType(st: State, op: Op, fd: int)
    requires Valid(st) && IsOpen(st, fd) && op != CloseOp(fd) && Step(st, op).Done?
    ensures IsOpen(Step(st, op).st, fd) && Step(st, op).st.slots[fd].ncType == st.slots[fd].ncType
  {
    StepKeepsOpen(st, op, fd);
    if op.SocketOp? || op.AcceptOp? {
      OpeningKeepsOpen(st, op, fd);
      StepElsewhere(st, op);
      assert SameAt(st, Step(st, op).st, fd);
    } else if op.ArriveOp? || op.PeerOp? {
      assert Step(st, op).st.slots == st.slots;
    } else if op.s == fd {
      CallKeepsType(st, op);
    } else {
      StepElsewhere(st, op);
      assert SameAt(st, Step(st, op).st, fd);
    }
  }

  lemma ReadKeepsType(st: State, op: Op)
    requires Valid(st) && (op.RecvOp? || op.IoctlOp?) && IsOpen(st, op.s)
    ensures OptionsOf(Step(st, op).st, op.s) == OptionsOf(st, op.s)
  {
    if op.RecvOp? {
      RecvDelivers(st, op.s, op.len, op.flags, op.reply);
      DeliversKeepsOptions(st, Step(st, op).st, op.s, Recv(st, op.s, op.len, op.flags, op.reply).data);
    } else {
      IoctlDelivers(st, op.s, op.cmd, op.reply);
      DeliversKeepsOptions(st, Step(st, op).st, op.s, []);
    }
  }

  lemma DeliversKeepsOptions(st: State, st': State, s: int, data: seq<byte>)
    requires Valid(st) && IsOpen(st, s) && Delivers(st, st', s, data)
    ensures OptionsOf(st', s) == OptionsOf(st, s)
  {
  }

  lemma SetKeepsType(st: State, op: Op)
    requires Valid(st) && (op.FcntlOp? || op.SetSockOptOp?) && IsOpen(st, op.s)
    ensures OptionsOf(Step(st, op).st, op.s).ncType == OptionsOf(st, op.s).ncType
  {
    if op.FcntlOp? {
      FcntlElsewhere(st, op.s, op.cmd, op.val);
    } else {
      SetSockOptElsewhere(st, op.s, op.level, op.optname, op.optval);
    }
  }

  lemma CallKeepsType(st: State, op: Op)
    requires Valid(st) && (op.RecvOp? || op.IoctlOp? || op.FcntlOp? || op.SetSockOptOp?) && IsOpen(st, op.s)
    ensures OptionsOf(Step(st, op).st, op.s).ncType == OptionsOf(st, op.s).ncType
  {
    if op.RecvOp? || op.IoctlOp? {
      ReadKeepsType(st, op);
    } else {
      SetKeepsType(st, op);
    }
  }

  lemma {:induction false} TypeStays(cfg: Config, ops: seq<Op>, fd: int)
    requires Sound(cfg) && cfg.Running? && IsOpen(cfg.st, fd) && CloseOp(fd) !in ops
    ensures var after := Run(cfg, ops);
            after.Running? ==> IsOpen(after.st, fd) && after.st.slots[fd].ncType == cfg.st.slots[fd].ncType
  {
    if ops != [] && Run(cfg, ops).Running? {
      var before := Run(cfg, ops[..|ops| - 1]);
      TypeStays(cfg, ops[..|ops| - 1], fd);
      StepKeepsType(before.st, ops[|ops| - 1], fd);
    }
  }

  /** A successful socket call, of one of the two types; the record says which. */
  lemma SocketType(cfg: Config, sockType: int, handle: Option<Conn>, memory: bool)
    requires Reachable(cfg) && cfg.Running?
    ensures Sound(cfg)
    ensures var cfg1 := Next(cfg, SocketOp(sockType, handle, memory));
            var r := Step(cfg.st, SocketOp(sockType, handle, memory));
            r.Done? && r.ret >= 0 ==>
              && (sockType == 1 || sockType == 2) && Reachable(cfg1) && cfg1.Running? && cfg1.st == r.st
              && IsOpen(r.st, r.ret) && r.st.slots[r.ret].ncType == (if sockType == 1 then Tcp else Udp)
              && r.st.errno == cfg.st.errno
  {
    var op := SocketOp(sockType, handle, memory);
    SocketOutcome(cfg, sockType, handle, memory);
    ReachableNext(cfg, op);
    var r := Step(cfg.st, op);
    if r.Done? && r.ret >= 0 {
      OptionsAreSticky(Next(cfg, op), r.ret);
      SocketIs(cfg.st, sockType, handle, memory);
    }
  }

  /**
   How recv ends on a socket of either type, at any time until it is closed: when nothing is there to
   read and the peer is gone, a stream returns 0 and a datagram socket -1 with errno set; with the
   peer there both return -1.
   */
  lemma EndOfSocket(cfg: Config, op: Op, ops: seq<Op>, len: nat, flags: int, reply: Reply)
    requires Reachable(cfg) && cfg.Running? && op.SocketOp? && Step(cfg.st, op).Done? && Step(cfg.st, op).ret >= 0
    requires CloseOp(Step(cfg.st, op).ret) !in ops
    ensures var fd := Step(cfg.st, op).ret;
            var after := Run(Next(cfg, op), ops);
            after.Running? ==>
              && fd in after.mon.socks && IsOpen(after.st, fd)
              && (after.st.slots[fd].bytesLeft == 0 && (reply != Deliver || ChannelOf(after.st, fd).queue == []) ==>
                    var r := Recv(after.st, fd, len, flags, reply);
                    var ended := op.sockType == 1 && !after.mon.socks[fd].active;
                    && r.ret == (if ended then 0 else -1)
                    && r.st.errno == (if ended then after.st.errno else if reply == Break then ENOENT else EWOULDBLOCK))
  {
    var fd := Step(cfg.st, op).ret;
    var after := Run(Next(cfg, op), ops);
    SocketType(cfg, op.sockType, op.handle, op.memory);
    if after.Running? {
      TypeStays(Next(cfg, op), ops, fd);
      ReachableRun(Next(cfg, op), ops);
      ReachableAgrees(after);
      assert AgreesAt(after.st, after.mon, fd);
      if after.st.slots[fd].bytesLeft == 0 && (reply != Deliver || ChannelOf(after.st, fd).queue == []) {
        RecvEmpty(after.st, fd, len, flags, reply);
      }
    }
  }

  lemma {:induction false} ReachableRun(cfg: Config, ops: seq<Op>)
    requires Reachable(cfg) && Sound(cfg)
    ensures Reachable(Run(cfg, ops))
  {
    if ops != [] {
      ReachableRun(cfg, ops[..|ops| - 1]);
      ReachableNext(Run(cfg, ops[..|ops| - 1]), ops[|ops| - 1]);
    }
  }

  // ---------- accept and close ----------

  lemma AcceptLeavesErrno(st: State, s: int, client: Option<Client>, memory: bool)
    requires Valid(st)
    ensures Accept(st, s, client, memory).0.errno == st.errno
    ensures s < 0 || s >= |st.slots| || st.slots[s].conn == None ==> Accept(st, s, client, memory) == (st, -1)
  {
  }

  /** close returns 0 on an open descriptor and -1 otherwise; it empties three fields and frees the pbuf. */
  lemma CloseExactly(st: State, s: int)
    requires Valid(st)
    ensures var (st', ret) := Close(st, s);
            if IsOpen(st, s) then
              var slot := st.slots[s];
              && ret == 0 && st'.errno == st.errno
              && st'.slots == st.slots[s := Slot(None, None, 0, slot.ncType, slot.keepAlive, slot.fileFlag)]
              && st'.lib.open == st.lib.open - {ConnOf(st, s)} && st'.lib.pbufs == st.lib.pbufs
              && st'.lib.freed == st.lib.freed + (if slot.pbuf.Some? then [slot.pbuf.value] else [])
            else ret == -1 && st' == st
  {
  }

  // ---------- ioctl and fcntl ----------

  /** FIONREAD is the only command with an effect; every other one returns 0. */
  lemma IoctlOther(st: State, s: int, cmd: int, reply: Reply)
    requires Valid(st) && (IsOpen(st, s) ==> cmd != 0x4004667F)
    ensures var r := Ioctl(st, s, cmd, reply);
            r.st == st && r.avail == None && r.ret == (if IsOpen(st, s) then 0 else -1)
  {
  }

  /** F_GETFL, F_SETFL, any other command. */
  lemma FcntlExactly(st: State, s: int, cmd: int, val: int)
    requires Valid(st)
    ensures var (st', ret) := Fcntl(st, s, cmd, val);
            if !IsOpen(st, s) then ret == -1 && st' == st
            else if cmd == 3 then
              && st' == st && (ret - st.slots[s].fileFlag) % 0x1_0000_0000 == 0 && -0x8000_0000 <= ret < 0x8000_0000
            else if cmd == 4 then
              && ret == 0
              && st' == st.(slots := st.slots[s := st.slots[s].(fileFlag := st'.slots[s].fileFlag)])
              && 0 <= st'.slots[s].fileFlag < 0x1_0000_0000 && (st'.slots[s].fileFlag - val) % 0x1_0000_0000 == 0
            else ret == -1 && st' == st.(errno := EINVAL)
  {
  }

  // ---------- setsockopt ----------

  /** Level, name and size of the options that setsockopt takes, most of them without effect. */
  predicate Accepted(level: int, optname: int, val: OptVal) {
    || (level == 0xfff && optname == 0x1006 && !val.OtherSize?)
    || (level == 0xfff && optname == 0x0008 && val.Int?)
    || (level == 0xfff && (optname == 0x1005 || optname == 0x0001 || optname == 0x0004))
    || (level == 6 && optname == 0x01)
    || (level == 0 && (optname == 3 || optname == 4))
  }

  /** 0 exactly for an accepted option of an open descriptor; otherwise -1, and only errno changes. */
  lemma SetSockOptExactly(st: State, s: int, level: int, optname: int, val: OptVal)
    requires Valid(st)
    ensures var (st', ret) := SetSockOpt(st, s, level, optname, val);
            && (ret == 0 <==> IsOpen(st, s) && Accepted(level, optname, val)) && (ret == 0 || ret == -1)
            && (ret == -1 ==> st' == if IsOpen(st, s) then st.(errno := EINVAL) else st)
            && (ret == 0 && !(level == 0xfff && (optname == 0x1006 || optname == 8)) ==> st' == st)
            && (ret == 0 && level == 0xfff && optname == 8 ==>
                  && st' == st.(slots := st.slots[s := st.slots[s].(keepAlive := st'.slots[s].keepAlive)])
                  && 0 <= st'.slots[s].keepAlive < 0x1_0000 && (st'.slots[s].keepAlive - val.v) % 0x1_0000 == 0)
            && (ret == 0 && level == 0xfff && optname == 0x1006 ==>
                  && ConnOf(st, s) in st'.lib.open
                  && var t := st'.lib.open[ConnOf(st, s)].timeout;
                     st' == st.(lib := st.lib.(open := st.lib.open[ConnOf(st, s) := ChannelOf(st, s).(timeout := t)])))
  {
    if IsOpen(st, s) {
      assert st.slots[s := st.slots[s]] == st.slots;
    }
  }

  /** The timeout stored: the milliseconds themselves, or a negative number of them as unsigned. */
  lemma TimeoutStored(st: State, s: int, val: OptVal, ms: int)
    requires Valid(st) && IsOpen(st, s) && !val.OtherSize? && -0x8000_0000 <= ms < 0x8000_0000
    requires val.Int? ==> ms == val.v
    requires val.Timeval? ==> WholeMillis(val.usec, ms - val.sec * 1000)
    ensures var st' := SetSockOpt(st, s, 0xfff, 0x1006, val).0;
            && ConnOf(st, s) in st'.lib.open
            && st'.lib.open[ConnOf(st, s)].timeout == if ms >= 0 then ms else 0x1_0000_0000 + ms
  {
    if val.Timeval? {
      assert CDiv(val.usec, 1000) == ms - val.sec * 1000;
    }
  }
}
