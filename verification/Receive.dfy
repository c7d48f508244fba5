/**
 Two calls pull data into a slot, recv and FIONREAD.  They agree with each other, and repeated
 recv calls drain a connection in an exactly known number of calls.
 */
module Receive {
  import opened Wrappers
  import opened NetLib
  import opened SocketCalls
  import opened Invariant

  // ---------- FIONREAD and recv ----------

  /** A state up to errno and the record of how long the library waited on connection c. */
  function Core(st: State, c: Conn): State
    requires c in st.lib.open
  {
    st.(errno := Unset, lib := st.lib.(open := st.lib.open[c := st.lib.open[c].(lastWait := 0)]))
  }

  predicate Pulls(st: State, s: int, reply: Reply)
    requires IsOpen(st, s) && Ready(st, s)
  {
    !HasBytes(st.slots[s]) && reply.Deliver? && ChannelOf(st, s).queue != []
  }

  /** A count reported by FIONREAD stays the count, and asking again does not touch the queue. */
  lemma FionreadRepeats(st: State, s: int, reply: Reply, again: Reply)
    requires Valid(st) && IsOpen(st, s)
    requires var r := Ioctl(st, s, FIONREAD, reply); r.ret == 0 && r.avail.value > 0
    ensures var r := Ioctl(st, s, FIONREAD, reply);
            Ready(r.st, s) && Ioctl(r.st, s, FIONREAD, again) == r
  {
  }

  /** With bytes at hand recv returns the next of them, whatever the flags and the library say. */
  lemma RecvAtHand(st: State, s: int, len: nat, flags: int, reply: Reply)
    requires Valid(st) && IsOpen(st, s) && HasBytes(st.slots[s])
    ensures var n := if st.slots[s].bytesLeft < len then st.slots[s].bytesLeft else len;
            var got := Recv(st, s, len, flags, reply);
            n <= |Pending(st, s)| && got.ret == n && got.data == Pending(st, s)[..n]
  {
  }

  /** After a call that delivers nothing, recv returns the next bytes of the stream as it was. */
  lemma RecvAfterNothing(st: State, st1: State, s: int, n: nat, len: nat, flags: int, reply: Reply)
    requires Valid(st) && IsOpen(st, s) && Delivers(st, st1, s, [])
    requires n > 0 && st1.slots[s].bytesLeft == n
    ensures Ready(st1, s) && n <= |Pending(st, s)|
    ensures var got := Recv(st1, s, len, flags, reply);
            got.ret == (if n < len then n else len) && got.data == Pending(st, s)[..got.ret]
  {
    assert SlotOk(st1.slots[s], st1.lib);
    assert [] + Pending(st1, s) == Pending(st1, s);
    RecvAtHand(st1, s, len, flags, reply);
  }

  /** After a count n > 0, recv returns min(n, len) bytes at once: the next bytes of the stream. */
  lemma RecvAfterFionread(st: State, s: int, reply: Reply, len: nat, flags: int, again: Reply)
    requires Valid(st) && IsOpen(st, s)
    requires var r := Ioctl(st, s, FIONREAD, reply); r.ret == 0 && r.avail.value > 0
    ensures var r := Ioctl(st, s, FIONREAD, reply);
            && Ready(r.st, s) && r.avail.value <= |Pending(st, s)|
            && var got := Recv(r.st, s, len, flags, again);
               got.ret == (if r.avail.value < len then r.avail.value else len) && got.data == Pending(st, s)[..got.ret]
  {
    var r := Ioctl(st, s, FIONREAD, reply);
    IoctlDelivers(st, s, FIONREAD, reply);
    RecvAfterNothing(st, r.st, s, r.avail.value, len, flags, again);
  }

  /** FIONREAD, then recv. */
  function Via(st: State, s: int, peek: Reply, len: nat, flags: int, reply: Reply): Received
    requires Valid(st) && IsOpen(st, s)
  {
    IoctlDelivers(st, s, FIONREAD, peek);
    Recv(Ioctl(st, s, FIONREAD, peek).st, s, len, flags, reply)
  }

  /** recv alone, answered as FIONREAD was if that dequeued something. */
  function Direct(st: State, s: int, peek: Reply, len: nat, flags: int, reply: Reply): Received
    requires Valid(st) && IsOpen(st, s)
  {
    Recv(st, s, len, flags, if Pulls(st, s, peek) then Deliver else reply)
  }

  /** Same return value, same bytes, same state up to errno and waiting. */
  predicate SameResult(a: Received, b: Received, c: Conn) {
    && a.ret == b.ret && a.data == b.data
    && c in a.st.lib.open && c in b.st.lib.open && Core(a.st, c) == Core(b.st, c)
  }

  /** FIONREAD before recv is invisible exactly when it does not pull an empty chunk. */
  lemma FionreadInvisible(st: State, s: int, peek: Reply, len: nat, flags: int, reply: Reply)
    requires Valid(st) && IsOpen(st, s)
    ensures SameResult(Via(st, s, peek, len, flags, reply), Direct(st, s, peek, len, flags, reply), ConnOf(st, s))
            <==> !(Pulls(st, s, peek) && ChannelOf(st, s).queue[0] == [])
  {
    if HasBytes(st.slots[s]) {
      RecvKeepsConn(st, s, len, flags, reply);
    } else if !Pulls(st, s, peek) {
      InvisibleFailure(st, s, peek, len, flags, reply);
    } else if ChannelOf(st, s).queue[0] != [] {
      InvisiblePull(st, s, len, flags, reply);
    } else {
      VisiblePull(st, s, len, flags, reply);
    }
  }

  lemma RecvKeepsConn(st: State, s: int, len: nat, flags: int, reply: Reply)
    requires Valid(st) && IsOpen(st, s)
    ensures ConnOf(st, s) in Recv(st, s, len, flags, reply).st.lib.open
  {
  }

  /** Two states that differ only in errno and waiting give the same bytes. */
  lemma SameTake(a: State, b: State, s: int, len: nat, c: Conn)
    requires 0 <= s < |a.slots| && a.slots[s].pbuf.Some? && SlotOk(a.slots[s], a.lib)
    requires c in a.lib.open && c in b.lib.open && Core(a, c) == Core(b, c)
    ensures SlotOk(b.slots[s], b.lib) && SameResult(Take(a, s, len), Take(b, s, len), c)
  {
    assert Core(a, c).lib.open.Keys == a.lib.open.Keys && Core(b, c).lib.open.Keys == b.lib.open.Keys;
    assert Core(a, c).slots == a.slots && Core(a, c).lib.pbufs == a.lib.pbufs;
  }

  lemma SameNothing(a: State, b: State, s: int, status: Status, c: Conn)
    requires IsOpen(a, s) && ConnOf(a, s) == c
    requires c in a.lib.open && c in b.lib.open && Core(a, c) == Core(b, c)
    ensures var (a1, ra) := RecvNothing(a, s, status);
            var (b1, rb) := RecvNothing(b, s, status);
            SameResult(Received(a1, ra, []), Received(b1, rb, []), c)
  {
    assert Core(a, c).slots == a.slots && Core(b, c).slots == b.slots;
    assert Core(a, c).lib.open[c].active == a.lib.open[c].active;
    assert Core(b, c).lib.open[c].active == b.lib.open[c].active;
  }

  /** A receive does not notice an earlier one that got nothing. */
  lemma SameRefill(st: State, st1: State, s: int, poll: bool, reply: Reply)
    requires IsOpen(st, s) && Ready(st, s) && !HasBytes(st.slots[s])
    requires st1.slots == st.slots[s := st.slots[s].(pbuf := None)]
    requires exists wait :: st1.lib == st.lib.(open := st.lib.open[ConnOf(st, s) := ChannelOf(st, s).(lastWait := wait)])
    requires Ready(st1, s)
    ensures var (a, ra) := Refill(st1, s, poll, reply);
            var (b, rb) := Refill(st, s, poll, reply);
            var c := ConnOf(st, s);
            ra == rb && c in a.lib.open && c in b.lib.open && Core(a, c) == Core(b, c)
  {
  }

  lemma RecvAgain(st: State, st1: State, s: int, len: nat, flags: int, reply: Reply)
    requires IsOpen(st, s) && Ready(st, s) && !HasBytes(st.slots[s])
    requires st1.slots == st.slots[s := st.slots[s].(pbuf := None)]
    requires exists wait :: st1.lib == st.lib.(open := st.lib.open[ConnOf(st, s) := ChannelOf(st, s).(lastWait := wait)])
    requires Ready(st1, s)
    ensures SameResult(Recv(st1, s, len, flags, reply), Recv(st, s, len, flags, reply), ConnOf(st, s))
  {
    var c := ConnOf(st, s);
    var p := NoWait(st.slots[s], len, flags);
    SameRefill(st, st1, s, p, reply);
    var (a, status) := Refill(st1, s, p, reply);
    var b := Refill(st, s, p, reply).0;
    if status.Ok? {
      SameMeasure(a, b, s, c);
      SameTake(Measure(a, s), Measure(b, s), s, len, c);
    } else {
      SameNothing(a, b, s, status, c);
    }
  }

  /** A FIONREAD that pulls nothing leaves the slot without a pbuf, and the library as it was. */
  lemma FailedFionread(st: State, s: int, peek: Reply)
    requires Valid(st) && IsOpen(st, s) && !HasBytes(st.slots[s]) && !Pulls(st, s, peek)
    ensures var st1 := Ioctl(st, s, FIONREAD, peek).st;
            && st1.slots == st.slots[s := st.slots[s].(pbuf := None)]
            && st1.lib == st.lib.(open := st.lib.open[ConnOf(st, s) := ChannelOf(st, s).(lastWait := POLL)])
  {
  }

  lemma InvisibleFailure(st: State, s: int, peek: Reply, len: nat, flags: int, reply: Reply)
    requires Valid(st) && IsOpen(st, s) && !HasBytes(st.slots[s]) && !Pulls(st, s, peek)
    ensures SameResult(Via(st, s, peek, len, flags, reply), Recv(st, s, len, flags, reply), ConnOf(st, s))
  {
    FailedFionread(st, s, peek);
    RecvAgain(st, Ioctl(st, s, FIONREAD, peek).st, s, len, flags, reply);
  }

  lemma SameMeasure(a: State, b: State, s: int, c: Conn)
    requires 0 <= s < |a.slots| && (a.slots[s].pbuf.Some? ==> a.slots[s].pbuf.value < |a.lib.pbufs|)
    requires c in a.lib.open && c in b.lib.open && Core(a, c) == Core(b, c)
    ensures b.slots == a.slots && b.lib.pbufs == a.lib.pbufs
    ensures Core(Measure(a, s), c) == Core(Measure(b, s), c)
  {
  }

  /** Polling or waiting, the same pbuf is dequeued. */
  lemma SamePull(st: State, s: int, wait1: nat, wait2: nat)
    requires Valid(st) && IsOpen(st, s) && !HasBytes(st.slots[s]) && ChannelOf(st, s).queue != []
    ensures var a, b, c := Pulled(st, s, wait1), Pulled(st, s, wait2), ConnOf(st, s);
            && a.slots[s].pbuf.Some? && SlotOk(a.slots[s], a.lib) && SlotOk(b.slots[s], b.lib)
            && c in a.lib.open && c in b.lib.open && Core(a, c) == Core(b, c)
  {
    PulledTouches(st, s, wait1);
    PulledTouches(st, s, wait2);
  }

  /** A FIONREAD and a recv, when the FIONREAD pulls a chunk with data in it. */
  lemma PullTwice(st: State, s: int, len: nat, flags: int, reply: Reply)
    requires Valid(st) && IsOpen(st, s) && Pulls(st, s, Deliver) && ChannelOf(st, s).queue[0] != []
    ensures var wait := if NoWait(st.slots[s], len, flags) then POLL else ChannelOf(st, s).timeout;
            && SlotOk(Pulled(st, s, POLL).slots[s], Pulled(st, s, POLL).lib)
            && SlotOk(Pulled(st, s, wait).slots[s], Pulled(st, s, wait).lib)
            && Via(st, s, Deliver, len, flags, reply) == Take(Pulled(st, s, POLL), s, len)
            && Recv(st, s, len, flags, Deliver) == Take(Pulled(st, s, wait), s, len)
  {
    var wait := if NoWait(st.slots[s], len, flags) then POLL else ChannelOf(st, s).timeout;
    RefillIs(st, s, true, Deliver);
    RefillIs(st, s, NoWait(st.slots[s], len, flags), Deliver);
    SamePull(st, s, POLL, wait);
    assert Ioctl(st, s, FIONREAD, Deliver).st == Pulled(st, s, POLL);
  }

  lemma InvisiblePull(st: State, s: int, len: nat, flags: int, reply: Reply)
    requires Valid(st) && IsOpen(st, s) && Pulls(st, s, Deliver) && ChannelOf(st, s).queue[0] != []
    ensures SameResult(Via(st, s, Deliver, len, flags, reply), Recv(st, s, len, flags, Deliver), ConnOf(st, s))
  {
    var wait := if NoWait(st.slots[s], len, flags) then POLL else ChannelOf(st, s).timeout;
    PullTwice(st, s, len, flags, reply);
    SamePull(st, s, POLL, wait);
    SameTake(Pulled(st, s, POLL), Pulled(st, s, wait), s, len, ConnOf(st, s));
  }

  /** recv frees at most the pbuf it dequeues. */
  lemma FreshFreed(st: State, s: int, len: nat, flags: int, reply: Reply)
    requires IsOpen(st, s) && Ready(st, s) && !HasBytes(st.slots[s])
    ensures forall p :: p in Recv(st, s, len, flags, reply).st.lib.freed ==> p in st.lib.freed || p == |st.lib.pbufs|
    ensures Pulls(st, s, reply) && ChannelOf(st, s).queue[0] == []
            ==> |st.lib.pbufs| in Recv(st, s, len, flags, reply).st.lib.freed
  {
    RefillIs(st, s, NoWait(st.slots[s], len, flags), reply);
  }

  lemma VisiblePull(st: State, s: int, len: nat, flags: int, reply: Reply)
    requires Valid(st) && IsOpen(st, s) && Pulls(st, s, Deliver) && ChannelOf(st, s).queue[0] == []
    ensures |st.lib.pbufs| !in Via(st, s, Deliver, len, flags, reply).st.lib.freed
    ensures |st.lib.pbufs| in Recv(st, s, len, flags, Deliver).st.lib.freed
  {
    var st1 := Pulled(st, s, POLL);
    FreshFreed(st, s, len, flags, Deliver);
    PulledTouches(st, s, POLL);
    RefillIs(st, s, true, Deliver);
    FionreadIs(st, s, Deliver);
    EmptyPulled(st, s);
    FreshFreed(st1, s, len, flags, reply);
  }

  lemma EmptyPulled(st: State, s: int)
    requires IsOpen(st, s) && Ready(st, s) && ChannelOf(st, s).queue != [] && ChannelOf(st, s).queue[0] == []
    ensures var st1 := Pulled(st, s, POLL);
            && IsOpen(st1, s) && !HasBytes(st1.slots[s]) && st1.lib.freed == st.lib.freed
            && |st1.lib.pbufs| == |st.lib.pbufs| + 1
  {
  }

  // ---------- Waiting ----------

  lemma RefillWaits(st: State, s: int, poll: bool, reply: Reply)
    requires IsOpen(st, s) && Ready(st, s)
    ensures var open := Refill(st, s, poll, reply).0.lib.open;
            var c := ConnOf(st, s);
            && c in open && open[c].lastWait == (if poll then POLL else ChannelOf(st, s).timeout)
            && open[c].timeout == ChannelOf(st, s).timeout
  {
  }

  lemma RecvOpen(st: State, s: int, len: nat, flags: int, reply: Reply)
    requires IsOpen(st, s) && Ready(st, s)
    ensures Recv(st, s, len, flags, reply).st.lib.open
            == if HasBytes(st.slots[s]) then st.lib.open
               else Refill(st, s, NoWait(st.slots[s], len, flags), reply).0.lib.open
  {
  }

  /**
   How long a receive may wait.  FIONREAD, MSG_DONTWAIT, O_NONBLOCK and a length of 0 poll; any
   other recv waits for the user's timeout; and with bytes at hand the library is not asked at all.
   The user's timeout itself is the same afterwards on every path.
   */
  lemma WaitsAsTold(st: State, s: int, len: nat, flags: int, reply: Reply)
    requires Valid(st) && IsOpen(st, s)
    ensures var c := ConnOf(st, s);
            var was := st.lib.open;
            var recv := Recv(st, s, len, flags, reply).st.lib.open;
            var peek := Ioctl(st, s, FIONREAD, reply).st.lib.open;
            if HasBytes(st.slots[s]) then recv == was && peek == was
            else
              && c in was && c in recv && c in peek
              && recv[c].timeout == was[c].timeout == peek[c].timeout
              && peek[c].lastWait == POLL
              && recv[c].lastWait
                 == (if HasBit(flags, MSG_DONTWAIT_BIT) || len == 0 || HasBit(st.slots[s].fileFlag, O_NONBLOCK_BIT)
                     then POLL else was[c].timeout)
  {
    RecvOpen(st, s, len, flags, reply);
    RefillWaits(st, s, NoWait(st.slots[s], len, flags), reply);
    RefillWaits(st, s, true, reply);
  }

  // ---------- What the return value and errno tell ----------

  /** recv finds no bytes at hand and the library hands over no pbuf. */
  predicate GetsNothing(st: State, s: int, reply: Reply) {
    IsOpen(st, s) && Ready(st, s) && !HasBytes(st.slots[s]) && !Pulls(st, s, reply)
  }

  /** An inactive TCP connection: recv reports the end of the stream. */
  predicate AtEnd(st: State, s: int) {
    IsOpen(st, s) && Ready(st, s) && st.slots[s].ncType.Tcp? && !ChannelOf(st, s).active
  }

  /**
   recv returns -1 exactly on a closed descriptor or when it gets nothing and is not at the end, and
   errno tells a failure from a timeout; it returns 0 exactly at the end, for a length of 0, or for
   an empty chunk, so 0 alone does not mean the end.
   */
  lemma RecvEnds(st: State, s: int, len: nat, flags: int, reply: Reply)
    requires Valid(st)
    ensures var r := Recv(st, s, len, flags, reply);
            var nothing := GetsNothing(st, s, reply);
            && (r.ret == -1 <==> !IsOpen(st, s) || (nothing && !AtEnd(st, s)))
            && r.st.errno == (if nothing && r.ret == -1 then if reply.Break? then ENOENT else EWOULDBLOCK else st.errno)
            && (r.ret == 0 <==>
                  IsOpen(st, s) && if nothing then AtEnd(st, s)
                                   else len == 0 || (!HasBytes(st.slots[s]) && ChannelOf(st, s).queue[0] == []))
  {
    if IsOpen(st, s) && !HasBytes(st.slots[s]) {
      assert Ready(st, s);
    }
  }

  /** FIONREAD fails exactly when it gets nothing and the connection is inactive or the library failed. */
  lemma FionreadEnds(st: State, s: int, reply: Reply)
    requires Valid(st)
    ensures var r := Ioctl(st, s, FIONREAD, reply);
            var nothing := GetsNothing(st, s, reply);
            && (r.ret == -1 <==> !IsOpen(st, s) || (nothing && (!ChannelOf(st, s).active || reply.Break?)))
            && (r.ret == 0 || r.ret == -1) && (r.avail.Some? <==> r.ret == 0)
            && (r.ret == 0 ==>
                  (r.avail.value == 0 <==> nothing || (!HasBytes(st.slots[s]) && ChannelOf(st, s).queue[0] == [])))
            && r.st.errno == (if nothing && !ChannelOf(st, s).active then EBADF
                              else if nothing && reply.Break? then ENOENT else st.errno)
  {
    if IsOpen(st, s) && !HasBytes(st.slots[s]) {
      assert Ready(st, s);
    }
  }
}
