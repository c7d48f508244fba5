/**
 What each socket call does to the descriptor table, the library and errno, as functions on
 values.  Module Sockets proves that the imperative calls compute exactly these functions.
 */
module SocketCalls {
  import opened Wrappers
  import opened NetLib
  import opened DescriptorTable

  datatype Errno = Unset | ENOENT | EWOULDBLOCK | EBADF | EINVAL

  datatype State = State(slots: seq<Slot>, lib: Lib, errno: Errno)

  // ---------- The invariant of every reachable state ----------

  predicate SlotOk(slot: Slot, lib: Lib) {
    && (slot.conn.Some? ==> slot.conn.value in lib.open)
    && (slot.conn.None? ==> slot.pbuf.None?)
    && (slot.pbuf.None? ==> slot.bytesLeft == 0)
    && (slot.pbuf.Some? ==> PbufLive(lib, slot.pbuf.value) && slot.bytesLeft <= |lib.pbufs[slot.pbuf.value]|)
    && (slot.pbuf.Some? && slot.bytesLeft == 0 ==> lib.pbufs[slot.pbuf.value] == [])
  }

  predicate HasPbuf(slots: seq<Slot>, i: int, p: Pbuf) {
    0 <= i < |slots| && slots[i].pbuf == Some(p)
  }

  ghost predicate HeldOnce(slots: seq<Slot>) {
    forall i, j, p :: HasPbuf(slots, i, p) && HasPbuf(slots, j, p) ==> i == j
  }

  predicate FreedAt(freed: seq<Pbuf>, k: int, p: Pbuf) {
    0 <= k < |freed| && freed[k] == p
  }

  /** Only pbufs that were dequeued, below n, were given back, and each of them once. */
  ghost predicate FreedOnce(freed: seq<Pbuf>, n: nat) {
    && (forall p {:trigger p in freed} :: p in freed ==> p < n)
    && (forall j, k, p :: FreedAt(freed, j, p) && FreedAt(freed, k, p) ==> j == k)
  }

  ghost predicate Held(slots: seq<Slot>, p: Pbuf) {
    exists i :: HasPbuf(slots, i, p)
  }

  /** Nothing with data in it is ever lost: only an empty pbuf can be neither freed nor held. */
  ghost predicate Accounted(slots: seq<Slot>, lib: Lib) {
    forall p {:trigger Held(slots, p)} :: 0 <= p < |lib.pbufs| ==> p in lib.freed || Held(slots, p) || lib.pbufs[p] == []
  }

  ghost predicate SlotsOk(slots: seq<Slot>, lib: Lib) {
    forall i :: 0 <= i < |slots| ==> SlotOk(slots[i], lib)
  }

  ghost predicate Valid(st: State) {
    && |st.slots| % GROWTH == 0
    && Injective(st.slots)
    && SlotsOk(st.slots, st.lib)
    && HeldOnce(st.slots)
    && FreedOnce(st.lib.freed, |st.lib.pbufs|)
    && Accounted(st.slots, st.lib)
  }

  // ---------- Descriptors ----------

  /** The test `!nf || !nf->conn` that guards every call. */
  predicate IsOpen(st: State, s: int) {
    0 <= s < |st.slots| && st.slots[s].conn.Some?
  }

  function ConnOf(st: State, s: int): Conn
    requires IsOpen(st, s)
  {
    st.slots[s].conn.value
  }

  /** All that a call on descriptor s needs to run; it follows from `Valid`. */
  predicate Ready(st: State, s: int) {
    IsOpen(st, s) ==> SlotOk(st.slots[s], st.lib) && |st.lib.pbufs| !in st.lib.freed
  }

  function ChannelOf(st: State, s: int): Channel
    requires IsOpen(st, s) && Ready(st, s)
  {
    st.lib.open[ConnOf(st, s)]
  }

  /** The unread end of the pbuf a slot holds. */
  function Remaining(st: State, s: int): (r: seq<byte>)
    requires Valid(st) && 0 <= s < |st.slots|
    ensures |r| == st.slots[s].bytesLeft
  {
    var slot := st.slots[s];
    if slot.pbuf.None? then [] else
      var data := st.lib.pbufs[slot.pbuf.value];
      data[|data| - slot.bytesLeft..]
  }

  /**
   Everything a call on descriptor s, with connection c, leaves alone: the whole record of every
   other slot, every other connection, the data of every pbuf already dequeued.
   */
  ghost predicate TouchesOnly(st: State, st': State, s: int, c: Conn) {
    && |st.slots| <= |st'.slots|
    && (forall t :: 0 <= t < |st.slots| && t != s ==> st'.slots[t] == st.slots[t])
    && (forall t :: |st.slots| <= t < |st'.slots| && t != s ==> st'.slots[t] == ZeroSlot(st.lib.zeroType))
    && (forall d :: d in st.lib.open && d != c ==> d in st'.lib.open && st'.lib.open[d] == st.lib.open[d])
    && st.lib.pbufs <= st'.lib.pbufs
    && st.lib.freed <= st'.lib.freed
    && st'.lib.zeroType == st.lib.zeroType && st'.lib.newTimeout == st.lib.newTimeout
  }

  // ---------- socket, accept, close ----------

  /** `Fault` is the use of a null descriptor record; the program has no behaviour after it. */
  datatype Opened = Fault | Opened(st: State, ret: int)

  function InTable(st: State, c: Conn, memory: bool): (State, int) {
    var r := Conn2Fd(st.slots, c, memory, st.lib.zeroType);
    (st.(slots := r.slots), r.fd)
  }

  const SOCK_STREAM := 1
  const SOCK_DGRAM := 2

  function TypeOf(sockType: int): Option<NcType> {
    if sockType == SOCK_STREAM then Some(Tcp) else if sockType == SOCK_DGRAM then Some(Udp) else None
  }

  function Socket(st: State, sockType: int, handle: Option<Conn>, memory: bool): Opened {
    if TypeOf(sockType).None? then Opened(st, -1)
    else
      var (lib, nc) := NewConn(st.lib, Unused(handle));
      if nc.None? then Opened(st, -2)
      else
        var (st1, fd) := InTable(st.(lib := lib), nc.value, memory);
        if !(0 <= fd < |st1.slots|) then Fault
        else Opened(st1.(slots := st1.slots[fd := st1.slots[fd].(ncType := TypeOf(sockType).value)]), fd)
  }

  function Accept(st: State, s: int, client: Option<Client>, memory: bool): (State, int) {
    if !IsOpen(st, s) then (st, -1)
    else
      var (lib, nc) := NewConn(st.lib, client);
      if nc.None? then (st, -1) else InTable(st.(lib := lib), nc.value, memory)
  }

  function Close(st: State, s: int): (State, int) {
    if !IsOpen(st, s) then (st, -1)
    else
      var slot := st.slots[s];
      var lib := CloseConn(st.lib, slot.conn.value);
      (st.(slots := st.slots[s := slot.(conn := None, pbuf := None, bytesLeft := 0)],
           lib := if slot.pbuf.Some? then FreePbuf(lib, slot.pbuf.value) else lib), 0)
  }

  // ---------- recv ----------

  const MSG_DONTWAIT_BIT: nat := 8
  const O_NONBLOCK_BIT: nat := 1

  /** `x & bit`, for a power of two; Euclidean division makes it right for negative x too. */
  predicate HasBit(x: int, bit: nat)
    requires bit > 0
  {
    (x / bit) % 2 == 1
  }

  /** `!nf->pbuf || !nf->bytes_left` is false: the next bytes come from the held pbuf. */
  predicate HasBytes(slot: Slot) {
    slot.pbuf.Some? && slot.bytesLeft > 0
  }

  /** The pbuf just dequeued becomes the unread data of the slot. */
  function Measure(st: State, s: int): State
    requires 0 <= s < |st.slots|
    requires st.slots[s].pbuf.Some? ==> st.slots[s].pbuf.value < |st.lib.pbufs|
  {
    var slot := st.slots[s];
    var n := if slot.pbuf.Some? then |st.lib.pbufs[slot.pbuf.value]| else 0;
    st.(slots := st.slots[s := slot.(bytesLeft := n)])
  }

  /**
   Dequeue into the slot.  The user's timeout is never changed by it; `lastWait` shows that the
   library was asked to poll, or to wait for that timeout.
   */
  function Refill(st: State, s: int, poll: bool, reply: Reply): (State, Status)
    requires IsOpen(st, s) && Ready(st, s)
  {
    var c := ConnOf(st, s);
    var timeout := st.lib.open[c].timeout;
    var (lib, status, p) := Receive(SetTimeout(st.lib, c, if poll then POLL else timeout), c, reply);
    (st.(slots := st.slots[s := st.slots[s].(pbuf := p)], lib := SetTimeout(lib, c, timeout)), status)
  }

  datatype Received = Received(st: State, ret: int, data: seq<byte>)

  function Min(a: nat, b: nat): nat {
    if a < b then a else b
  }

  /** Hand out the next bytes of the held pbuf, and free it with its last byte. */
  function Take(st: State, s: int, len: nat): Received
    requires 0 <= s < |st.slots| && st.slots[s].pbuf.Some? && SlotOk(st.slots[s], st.lib)
  {
    var slot := st.slots[s];
    var data := st.lib.pbufs[slot.pbuf.value];
    var sz := Min(slot.bytesLeft, len);
    var from := |data| - slot.bytesLeft;
    var left := slot.bytesLeft - sz;
    Received(if left > 0 then st.(slots := st.slots[s := slot.(bytesLeft := left)])
             else st.(slots := st.slots[s := slot.(bytesLeft := 0, pbuf := None)],
                      lib := FreePbuf(st.lib, slot.pbuf.value)),
             sz, data[from..from + sz])
  }

  predicate NoWait(slot: Slot, len: nat, flags: int) {
    HasBit(flags, MSG_DONTWAIT_BIT) || len == 0 || HasBit(slot.fileFlag, O_NONBLOCK_BIT)
  }

  /** How recv ends when no pbuf came: an inactive TCP connection reads as end of stream. */
  function RecvNothing(st: State, s: int, status: Status): (State, int)
    requires IsOpen(st, s) && ConnOf(st, s) in st.lib.open
  {
    if st.slots[s].ncType.Tcp? && !st.lib.open[ConnOf(st, s)].active then (st, 0)
    else (st.(errno := if status.Failed? then ENOENT else EWOULDBLOCK), -1)
  }

  function Recv(st: State, s: int, len: nat, flags: int, reply: Reply): Received
    requires Ready(st, s)
  {
    if !IsOpen(st, s) then Received(st, -1, [])
    else if HasBytes(st.slots[s]) then Take(st, s, len)
    else
      var (st1, status) := Refill(st, s, NoWait(st.slots[s], len, flags), reply);
      if status.Ok? then Take(Measure(st1, s), s, len)
      else
        var (st2, ret) := RecvNothing(st1, s, status);
        Received(st2, ret, [])
  }

  // ---------- ioctl, fcntl, setsockopt ----------

  /** `avail` is what is stored through a non-null argument pointer. */
  datatype Answered = Answered(st: State, ret: int, avail: Option<int>)

  const FIONREAD: int := 0x4004667F

  function Ioctl(st: State, s: int, cmd: int, reply: Reply): Answered
    requires Ready(st, s)
  {
    if !IsOpen(st, s) then Answered(st, -1, None)
    else if cmd != FIONREAD then Answered(st, 0, None)
    else if HasBytes(st.slots[s]) then Answered(st, 0, Some(st.slots[s].bytesLeft))
    else
      var (st1, status) := Refill(st, s, true, reply);
      if !status.Ok? && !ChannelOf(st, s).active then Answered(st1.(errno := EBADF), -1, None)
      else if status.Failed? then Answered(st1.(errno := ENOENT), -1, None)
      else
        var st2 := Measure(st1, s);
        Answered(st2, 0, Some(st2.slots[s].bytesLeft))
  }

  const F_GETFL := 3
  const F_SETFL := 4

  /** Conversion of an `int` to an unsigned type of the given modulus, and of a uint32_t to `int`. */
  function ToUnsigned(x: int, modulus: nat): nat
    requires modulus > 0
  {
    x % modulus
  }

  function ToInt32(x: int): int {
    var u := x % 0x1_0000_0000;
    if u < 0x8000_0000 then u else u - 0x1_0000_0000
  }

  function Fcntl(st: State, s: int, cmd: int, val: int): (State, int) {
    if !IsOpen(st, s) then (st, -1)
    else if cmd == F_GETFL then (st, ToInt32(st.slots[s].fileFlag))
    else if cmd == F_SETFL then
      (st.(slots := st.slots[s := st.slots[s].(fileFlag := ToUnsigned(val, 0x1_0000_0000))]), 0)
    else (st.(errno := EINVAL), -1)
  }

  const SOL_SOCKET := 0xfff
  const IPPROTO_TCP := 6
  const IPPROTO_IP := 0
  const SO_DEBUG := 0x0001
  const SO_REUSEADDR := 0x0004
  const SO_KEEPALIVE := 0x0008
  const SO_SNDTIMEO := 0x1005
  const SO_RCVTIMEO := 0x1006
  const TCP_NODELAY := 0x01
  const IP_ADD_MEMBERSHIP := 3
  const IP_DROP_MEMBERSHIP := 4

  /** The option value, told apart by its size. */
  datatype OptVal = Timeval(sec: int, usec: int) | Int(v: int) | OtherSize

  /** C division truncates toward zero. */
  function CDiv(a: int, b: int): int
    requires b > 0
  {
    if a >= 0 then a / b else -(-a / b)
  }

  /** The 32-bit receive timeout an option value stands for. */
  function TimeoutOf(val: OptVal): nat
    requires !val.OtherSize?
  {
    match val
    case Timeval(sec, usec) => ToUnsigned(sec * 1000 + CDiv(usec, 1000), 0x1_0000_0000)
    case Int(v) => ToUnsigned(v, 0x1_0000_0000)
  }

  predicate IgnoredOption(level: int, optname: int) {
    || (level == SOL_SOCKET && optname in {SO_SNDTIMEO, SO_DEBUG, SO_REUSEADDR})
    || (level == IPPROTO_TCP && optname == TCP_NODELAY)
    || (level == IPPROTO_IP && optname in {IP_ADD_MEMBERSHIP, IP_DROP_MEMBERSHIP})
  }

  function SetSockOpt(st: State, s: int, level: int, optname: int, val: OptVal): (State, int)
    requires Ready(st, s)
  {
    if !IsOpen(st, s) then (st, -1)
    else if level == SOL_SOCKET && optname == SO_RCVTIMEO && !val.OtherSize? then
        (st.(lib := SetTimeout(st.lib, ConnOf(st, s), TimeoutOf(val))), 0)
    else if level == SOL_SOCKET && optname == SO_KEEPALIVE && val.Int? then
      (st.(slots := st.slots[s := st.slots[s].(keepAlive := ToUnsigned(val.v, 0x1_0000))]), 0)
    else if IgnoredOption(level, optname) then (st, 0)
    else (st.(errno := EINVAL), -1)
  }
}
