/**
 Every socket call keeps the invariant, touches one descriptor only, and moves bytes only from
 the front of that descriptor's stream to the caller.
 */
module Invariant {
  import opened Wrappers
  import opened NetLib
  import opened DescriptorTable
  import opened SocketCalls

  function Flatten(queue: seq<Chunk>): seq<byte> {
    if queue == [] then [] else queue[0] + Flatten(queue[1..])
  }

  lemma {:induction false} FlattenAppend(queue: seq<Chunk>, chunk: Chunk)
    ensures Flatten(queue + [chunk]) == Flatten(queue) + chunk
  {
    if queue == [] {
      assert queue + [chunk] == [chunk];
    } else {
      FlattenAppend(queue[1..], chunk);
      assert (queue + [chunk])[1..] == queue[1..] + [chunk];
    }
  }

  /** The bytes that have reached descriptor s and were not yet returned by recv. */
  function Pending(st: State, s: int): seq<byte>
    requires Valid(st) && IsOpen(st, s)
  {
    Remaining(st, s) + Flatten(ChannelOf(st, s).queue)
  }

  /** The options of a descriptor number; they outlive the connections that use it. */
  datatype Options = Options(ncType: NcType, keepAlive: nat, fileFlag: nat)

  function OptionsOf(st: State, s: int): Options {
    if 0 <= s < |st.slots| then Options(st.slots[s].ncType, st.slots[s].keepAlive, st.slots[s].fileFlag)
    else Options(st.lib.zeroType, 0, 0)
  }

  /** Nothing about descriptor t has changed: its record, its connection, its stream, its options. */
  ghost predicate SameAt(st: State, st': State, t: int)
    requires Valid(st) && Valid(st')
  {
    && (IsOpen(st', t) <==> IsOpen(st, t))
    && OptionsOf(st', t) == OptionsOf(st, t)
    && (IsOpen(st, t) ==> st'.slots[t] == st.slots[t] && ChannelOf(st', t) == ChannelOf(st, t)
                          && Pending(st', t) == Pending(st, t))
  }

  lemma SameElsewhere(st: State, st': State, s: int, c: Conn, t: int)
    requires Valid(st) && Valid(st') && TouchesOnly(st, st', s, c)
    requires t != s && (IsOpen(st, t) ==> ConnOf(st, t) != c)
    ensures SameAt(st, st', t)
  {
  }

  /** A step that can have changed descriptor s only. */
  ghost predicate Elsewhere(st: State, st': State, s: int)
    requires Valid(st)
  {
    && Valid(st')
    && st'.lib.zeroType == st.lib.zeroType && st'.lib.newTimeout == st.lib.newTimeout
    && forall t :: t != s ==> SameAt(st, st', t)
  }

  lemma ElsewhereFrom(st: State, st': State, s: int, c: Conn)
    requires Valid(st) && Valid(st') && TouchesOnly(st, st', s, c)
    requires forall t :: t != s && IsOpen(st, t) ==> ConnOf(st, t) != c
    ensures Elsewhere(st, st', s)
  {
    forall t | t != s ensures SameAt(st, st', t) {
      SameElsewhere(st, st', s, c, t);
    }
  }

  lemma OthersElsewhere(st: State, s: int)
    requires Valid(st) && IsOpen(st, s)
    ensures forall t :: t != s && IsOpen(st, t) ==> ConnOf(st, t) != ConnOf(st, s)
  {
    assert HasConn(st.slots, s, ConnOf(st, s));
    forall t | t != s && IsOpen(st, t) ensures ConnOf(st, t) != ConnOf(st, s) {
      assert HasConn(st.slots, t, ConnOf(st, t));
    }
  }

  // ---------- Ownership ----------

  /** What a call may do with the pbuf of the one slot it touches. */
  datatype Move = Keep | Pull | Overwrite | Free

  function PbufAt(st: State, s: int): Option<Pbuf> {
    if 0 <= s < |st.slots| then st.slots[s].pbuf else None
  }

  /** An old pbuf may only be overwritten when there is no data in it. */
  predicate Moves(st: State, st': State, s: int, move: Move) {
    var was, now := PbufAt(st, s), PbufAt(st', s);
    match move
    case Keep => now == was && st'.lib.pbufs == st.lib.pbufs && st'.lib.freed == st.lib.freed
    case Pull => now == Some(|st.lib.pbufs|) && |st'.lib.pbufs| == |st.lib.pbufs| + 1 && st'.lib.freed == st.lib.freed
                 && Expendable(st, was)
    case Overwrite => now == None && st'.lib.pbufs == st.lib.pbufs && st'.lib.freed == st.lib.freed
                      && Expendable(st, was)
    case Free => now == None && st'.lib.pbufs == st.lib.pbufs && was.Some? && st'.lib.freed == st.lib.freed + [was.value]
  }

  predicate Expendable(st: State, p: Option<Pbuf>) {
    p.Some? && p.value < |st.lib.pbufs| ==> st.lib.pbufs[p.value] == []
  }

  /** The one argument by which every call keeps the invariant. */
  lemma ValidAfter(st: State, st': State, s: int, c: Conn, move: Move)
    requires Valid(st) && TouchesOnly(st, st', s, c)
    requires |st'.slots| % GROWTH == 0 && 0 <= s < |st'.slots|
    requires SlotOk(st'.slots[s], st'.lib) && st'.slots[s].conn in {None, Some(c)}
    requires forall t :: t != s && IsOpen(st, t) ==> ConnOf(st, t) != c
    requires Moves(st, st', s, move)
    ensures Valid(st')
  {
    forall i, j, d | HasConn(st'.slots, i, d) && HasConn(st'.slots, j, d) ensures i == j {
      assert i != s ==> HasConn(st.slots, i, d) && IsOpen(st, i);
      assert j != s ==> HasConn(st.slots, j, d) && IsOpen(st, j);
    }
    SlotsAfter(st, st', s, c, move);
    OwnershipAfter(st, st', s, c, move);
  }

  lemma SlotsAfter(st: State, st': State, s: int, c: Conn, move: Move)
    requires Valid(st) && TouchesOnly(st, st', s, c) && 0 <= s < |st'.slots|
    requires SlotOk(st'.slots[s], st'.lib)
    requires forall t :: t != s && IsOpen(st, t) ==> ConnOf(st, t) != c
    requires Moves(st, st', s, move)
    ensures SlotsOk(st'.slots, st'.lib)
  {
    forall i | 0 <= i < |st'.slots| ensures SlotOk(st'.slots[i], st'.lib) {
      if i != s && i < |st.slots| {
        var slot := st.slots[i];
        assert SlotOk(slot, st.lib) && (slot.conn.Some? ==> IsOpen(st, i));
        if move.Free? && slot.pbuf.Some? {
          assert HasPbuf(st.slots, i, slot.pbuf.value);
          assert HasPbuf(st.slots, s, PbufAt(st, s).value);
        }
      }
    }
  }

  lemma OwnershipAfter(st: State, st': State, s: int, c: Conn, move: Move)
    requires Valid(st) && TouchesOnly(st, st', s, c) && 0 <= s < |st'.slots|
    requires Moves(st, st', s, move)
    ensures HeldOnce(st'.slots) && FreedOnce(st'.lib.freed, |st'.lib.pbufs|) && Accounted(st'.slots, st'.lib)
  {
    forall i | 0 <= i < |st.slots| ensures st.slots[i].pbuf.Some? ==> PbufLive(st.lib, st.slots[i].pbuf.value) {
      assert SlotOk(st.slots[i], st.lib);
    }
    forall i, j, p | HasPbuf(st'.slots, i, p) && HasPbuf(st'.slots, j, p) ensures i == j {
      assert i != s ==> HasPbuf(st.slots, i, p);
      assert j != s ==> HasPbuf(st.slots, j, p);
      assert move.Keep? ==> HasPbuf(st.slots, i, p) && HasPbuf(st.slots, j, p);
    }
    forall p | 0 <= p < |st'.lib.pbufs| ensures p in st'.lib.freed || Held(st'.slots, p) || st'.lib.pbufs[p] == [] {
      if p == |st.lib.pbufs| {
        assert HasPbuf(st'.slots, s, p);
      } else if Held(st.slots, p) {
        var i :| HasPbuf(st.slots, i, p);
        assert HasPbuf(st'.slots, i, p) || i == s;
      }
    }
    FreedAfter(st, st', s, move);
  }

  lemma FreedAfter(st: State, st': State, s: int, move: Move)
    requires Valid(st) && Moves(st, st', s, move) && |st.lib.pbufs| <= |st'.lib.pbufs|
    ensures FreedOnce(st'.lib.freed, |st'.lib.pbufs|)
  {
    if move.Free? {
      var p := PbufAt(st, s).value;
      assert SlotOk(st.slots[s], st.lib);
      forall j, k, q | FreedAt(st'.lib.freed, j, q) && FreedAt(st'.lib.freed, k, q) ensures j == k {
        assert j < |st.lib.freed| ==> FreedAt(st.lib.freed, j, q) && q in st.lib.freed;
        assert k < |st.lib.freed| ==> FreedAt(st.lib.freed, k, q) && q in st.lib.freed;
      }
    } else {
      forall j, k, q | FreedAt(st'.lib.freed, j, q) && FreedAt(st'.lib.freed, k, q) ensures j == k {
        assert FreedAt(st.lib.freed, j, q) && FreedAt(st.lib.freed, k, q);
      }
    }
  }

  // ---------- The two halves of a receive ----------

  /** Slot s after a receive that waited `wait` and got the first chunk. */
  function Pulled(st: State, s: int, wait: nat): State
    requires IsOpen(st, s) && Ready(st, s) && ChannelOf(st, s).queue != []
  {
    var ch := ChannelOf(st, s);
    st.(slots := st.slots[s := st.slots[s].(pbuf := Some(|st.lib.pbufs|), bytesLeft := |ch.queue[0]|)],
        lib := st.lib.(open := st.lib.open[ConnOf(st, s) := ch.(queue := ch.queue[1..], lastWait := wait)],
                       pbufs := st.lib.pbufs + [ch.queue[0]]))
  }

  /** And after one that got nothing. */
  function Missed(st: State, s: int, wait: nat): State
    requires IsOpen(st, s) && Ready(st, s)
  {
    st.(slots := st.slots[s := st.slots[s].(pbuf := None)],
        lib := st.lib.(open := st.lib.open[ConnOf(st, s) := ChannelOf(st, s).(lastWait := wait)]))
  }

  lemma RefillIs(st: State, s: int, poll: bool, reply: Reply)
    requires IsOpen(st, s) && Ready(st, s) && !HasBytes(st.slots[s])
    ensures var (st1, status) := Refill(st, s, poll, reply);
            var wait := if poll then POLL else ChannelOf(st, s).timeout;
            && (status.Ok? <==> reply.Deliver? && ChannelOf(st, s).queue != [])
            && Measure(st1, s) == (if status.Ok? then Pulled(st, s, wait) else Missed(st, s, wait))
            && (!status.Ok? ==> st1 == Missed(st, s, wait))
  {
  }

  lemma PulledTouches(st: State, s: int, wait: nat)
    requires Valid(st) && IsOpen(st, s) && !HasBytes(st.slots[s]) && ChannelOf(st, s).queue != []
    ensures Valid(Pulled(st, s, wait)) && TouchesOnly(st, Pulled(st, s, wait), s, ConnOf(st, s))
  {
    OthersElsewhere(st, s);
    ValidAfter(st, Pulled(st, s, wait), s, ConnOf(st, s), Pull);
  }

  lemma MissedTouches(st: State, s: int, wait: nat)
    requires Valid(st) && IsOpen(st, s) && !HasBytes(st.slots[s])
    ensures Valid(Missed(st, s, wait)) && TouchesOnly(st, Missed(st, s, wait), s, ConnOf(st, s))
  {
    OthersElsewhere(st, s);
    ValidAfter(st, Missed(st, s, wait), s, ConnOf(st, s), Overwrite);
  }

  /** A failed receive clears the slot's pbuf, and so leaves it as `Measure` would. */
  lemma RefillValid(st: State, s: int, poll: bool, reply: Reply)
    requires Valid(st) && IsOpen(st, s) && !HasBytes(st.slots[s])
    ensures var (st1, status) := Refill(st, s, poll, reply);
            var st2 := Measure(st1, s);
            Valid(st2) && TouchesOnly(st, st2, s, ConnOf(st, s)) && (!status.Ok? ==> st2 == st1)
  {
    var wait := if poll then POLL else ChannelOf(st, s).timeout;
    RefillIs(st, s, poll, reply);
    if Refill(st, s, poll, reply).1.Ok? {
      PulledTouches(st, s, wait);
    } else {
      MissedTouches(st, s, wait);
    }
  }

  /**
   A receiving call on descriptor s: it keeps the invariant, touches only s, leaves the options and
   the receive timeout of s, and `data` leaves the front of the stream.
   */
  ghost predicate Delivers(st: State, st': State, s: int, data: seq<byte>)
    requires Valid(st) && IsOpen(st, s)
  {
    && Valid(st') && TouchesOnly(st, st', s, ConnOf(st, s)) && |st'.slots| == |st.slots|
    && st'.slots[s] == st.slots[s].(pbuf := st'.slots[s].pbuf, bytesLeft := st'.slots[s].bytesLeft)
    && ChannelOf(st', s).timeout == ChannelOf(st, s).timeout
    && ChannelOf(st', s).active == ChannelOf(st, s).active
    && data + Pending(st', s) == Pending(st, s)
  }

  lemma DeliversThen(st: State, st1: State, st2: State, s: int, data: seq<byte>)
    requires Valid(st) && IsOpen(st, s) && Delivers(st, st1, s, [])
    requires Delivers(st1, st2, s, data)
    ensures Delivers(st, st2, s, data)
  {
  }

  /** What Pulled and Missed keep of descriptor s. */
  lemma RefillShape(st: State, st2: State, s: int, wait: nat)
    requires IsOpen(st, s) && Ready(st, s) && !HasBytes(st.slots[s])
    requires st2 == Missed(st, s, wait) || (ChannelOf(st, s).queue != [] && st2 == Pulled(st, s, wait))
    ensures IsOpen(st2, s) && ConnOf(st2, s) == ConnOf(st, s) && |st2.slots| == |st.slots|
    ensures st2.slots[s] == st.slots[s].(pbuf := st2.slots[s].pbuf, bytesLeft := st2.slots[s].bytesLeft)
    ensures st.slots[s].bytesLeft == 0 && ConnOf(st, s) in st2.lib.open
    ensures var ch, ch2 := ChannelOf(st, s), st2.lib.open[ConnOf(st, s)];
            && ch2.timeout == ch.timeout && ch2.active == ch.active
            && if st2 == Missed(st, s, wait) then st2.slots[s].bytesLeft == 0 && ch2.queue == ch.queue
               else PulledFirst(st2, s, ch.queue) && ch2.queue == ch.queue[1..]
  {
  }

  /** Slot s holds the whole first chunk. */
  predicate PulledFirst(st: State, s: int, queue: seq<Chunk>) {
    && queue != [] && 0 <= s < |st.slots| && st.slots[s].bytesLeft == |queue[0]|
    && st.slots[s].pbuf.Some? && st.slots[s].pbuf.value < |st.lib.pbufs|
    && st.lib.pbufs[st.slots[s].pbuf.value] == queue[0]
  }

  lemma PulledDelivers(st: State, s: int, wait: nat)
    requires Valid(st) && IsOpen(st, s) && !HasBytes(st.slots[s]) && ChannelOf(st, s).queue != []
    ensures Delivers(st, Pulled(st, s, wait), s, [])
  {
    PulledTouches(st, s, wait);
    RefillShape(st, Pulled(st, s, wait), s, wait);
    PullMoves(st, Pulled(st, s, wait), s);
  }

  lemma PullMoves(st: State, st2: State, s: int)
    requires Valid(st) && Valid(st2) && IsOpen(st, s) && IsOpen(st2, s) && TouchesOnly(st, st2, s, ConnOf(st, s))
    requires |st2.slots| == |st.slots| && ConnOf(st2, s) == ConnOf(st, s) && st.slots[s].bytesLeft == 0
    requires st2.slots[s] == st.slots[s].(pbuf := st2.slots[s].pbuf, bytesLeft := st2.slots[s].bytesLeft)
    requires var ch, ch2 := ChannelOf(st, s), ChannelOf(st2, s);
             && ch2.timeout == ch.timeout && ch2.active == ch.active
             && PulledFirst(st2, s, ch.queue) && ch2.queue == ch.queue[1..]
    ensures Delivers(st, st2, s, [])
  {
    assert Remaining(st, s) == [] && Remaining(st2, s) == ChannelOf(st, s).queue[0];
    assert [] + Pending(st2, s) == Pending(st, s);
  }

  lemma MissedDelivers(st: State, s: int, wait: nat)
    requires Valid(st) && IsOpen(st, s) && !HasBytes(st.slots[s])
    ensures Delivers(st, Missed(st, s, wait), s, [])
  {
    MissedTouches(st, s, wait);
    RefillShape(st, Missed(st, s, wait), s, wait);
    NothingMoves(st, Missed(st, s, wait), s);
  }

  lemma NothingMoves(st: State, st2: State, s: int)
    requires Valid(st) && Valid(st2) && IsOpen(st, s) && IsOpen(st2, s) && TouchesOnly(st, st2, s, ConnOf(st, s))
    requires |st2.slots| == |st.slots| && ConnOf(st2, s) == ConnOf(st, s)
    requires st.slots[s].bytesLeft == 0 && st2.slots[s].bytesLeft == 0
    requires st2.slots[s] == st.slots[s].(pbuf := st2.slots[s].pbuf, bytesLeft := st2.slots[s].bytesLeft)
    requires var ch, ch2 := ChannelOf(st, s), ChannelOf(st2, s);
             ch2.timeout == ch.timeout && ch2.active == ch.active && ch2.queue == ch.queue
    ensures Delivers(st, st2, s, [])
  {
    assert Remaining(st, s) == [] && Remaining(st2, s) == [];
    assert [] + Pending(st2, s) == Pending(st, s);
  }

  lemma RefillDelivers(st: State, s: int, poll: bool, reply: Reply)
    requires Valid(st) && IsOpen(st, s) && !HasBytes(st.slots[s])
    ensures var (st1, status) := Refill(st, s, poll, reply);
            Delivers(st, Measure(st1, s), s, []) && (!status.Ok? ==> Measure(st1, s) == st1)
  {
    var wait := if poll then POLL else ChannelOf(st, s).timeout;
    RefillIs(st, s, poll, reply);
    if Refill(st, s, poll, reply).1.Ok? {
      PulledDelivers(st, s, wait);
    } else {
      MissedDelivers(st, s, wait);
    }
  }

  lemma ErrnoDelivers(st: State, s: int, e: Errno)
    requires Valid(st) && IsOpen(st, s)
    ensures Delivers(st, st.(errno := e), s, [])
  {
  }

  lemma TakeValid(st: State, s: int, len: nat)
    requires Valid(st) && IsOpen(st, s) && st.slots[s].pbuf.Some?
    ensures Valid(Take(st, s, len).st) && TouchesOnly(st, Take(st, s, len).st, s, ConnOf(st, s))
  {
    var st' := Take(st, s, len).st;
    OthersElsewhere(st, s);
    ValidAfter(st, st', s, ConnOf(st, s), if st'.slots[s].pbuf.Some? then Keep else Free);
  }

  lemma TakeDelivers(st: State, s: int, len: nat)
    requires Valid(st) && IsOpen(st, s) && st.slots[s].pbuf.Some?
    ensures var r := Take(st, s, len);
            Delivers(st, r.st, s, r.data) && r.ret == |r.data| == Min(st.slots[s].bytesLeft, len)
  {
    var r := Take(st, s, len);
    TakeValid(st, s, len);
    assert r.data + Remaining(r.st, s) == Remaining(st, s);
  }

  // ---------- The calls ----------

  lemma FreshDelivers(st: State, s: int, poll: bool, len: nat, reply: Reply)
    requires Valid(st) && IsOpen(st, s) && !HasBytes(st.slots[s])
    requires Refill(st, s, poll, reply).1.Ok?
    ensures var st2 := Measure(Refill(st, s, poll, reply).0, s);
            && Valid(st2) && IsOpen(st2, s) && st2.slots[s].pbuf.Some?
            && Delivers(st, Take(st2, s, len).st, s, Take(st2, s, len).data)
            && Take(st2, s, len).ret == |Take(st2, s, len).data| == Min(st2.slots[s].bytesLeft, len)
  {
    var st2 := Measure(Refill(st, s, poll, reply).0, s);
    RefillDelivers(st, s, poll, reply);
    TakeDelivers(st2, s, len);
    DeliversThen(st, st2, Take(st2, s, len).st, s, Take(st2, s, len).data);
  }

  lemma RecvFreshDelivers(st: State, s: int, len: nat, flags: int, reply: Reply)
    requires Valid(st) && IsOpen(st, s) && !HasBytes(st.slots[s])
    requires Refill(st, s, NoWait(st.slots[s], len, flags), reply).1.Ok?
    ensures var r := Recv(st, s, len, flags, reply);
            Delivers(st, r.st, s, r.data) && |r.data| <= len && r.ret == |r.data|
  {
    FreshDelivers(st, s, NoWait(st.slots[s], len, flags), len, reply);
  }

  lemma NothingDelivers(st: State, s: int, poll: bool, reply: Reply, e: Errno)
    requires Valid(st) && IsOpen(st, s) && !HasBytes(st.slots[s])
    requires !Refill(st, s, poll, reply).1.Ok?
    ensures Delivers(st, Refill(st, s, poll, reply).0.(errno := e), s, [])
  {
    var st1 := Refill(st, s, poll, reply).0;
    RefillDelivers(st, s, poll, reply);
    ErrnoDelivers(st1, s, e);
    DeliversThen(st, st1, st1.(errno := e), s, []);
  }

  lemma RecvNothingDelivers(st: State, s: int, len: nat, flags: int, reply: Reply)
    requires Valid(st) && IsOpen(st, s) && !HasBytes(st.slots[s])
    requires !Refill(st, s, NoWait(st.slots[s], len, flags), reply).1.Ok?
    ensures var r := Recv(st, s, len, flags, reply);
            Delivers(st, r.st, s, []) && r.data == [] && r.ret in {0, -1}
  {
    NothingDelivers(st, s, NoWait(st.slots[s], len, flags), reply, Recv(st, s, len, flags, reply).st.errno);
  }

  /** No byte is lost, duplicated or reordered by a recv, and no more than `len` are stored. */
  lemma RecvDelivers(st: State, s: int, len: nat, flags: int, reply: Reply)
    requires Valid(st) && IsOpen(st, s)
    ensures var r := Recv(st, s, len, flags, reply);
            && Delivers(st, r.st, s, r.data)
            && |r.data| <= len && (r.ret == |r.data| || (r.ret == -1 && r.data == []))
  {
    if HasBytes(st.slots[s]) {
      TakeDelivers(st, s, len);
    } else if Refill(st, s, NoWait(st.slots[s], len, flags), reply).1.Ok? {
      RecvFreshDelivers(st, s, len, flags, reply);
    } else {
      RecvNothingDelivers(st, s, len, flags, reply);
    }
  }

  /** The state FIONREAD leaves: the refilled slot, or errno set as well. */
  lemma FionreadIs(st: State, s: int, reply: Reply)
    requires IsOpen(st, s) && Ready(st, s) && !HasBytes(st.slots[s])
    ensures var (st1, status) := Refill(st, s, true, reply);
            var st2 := Ioctl(st, s, FIONREAD, reply).st;
            && (status.Ok? ==> st2 == Measure(st1, s))
            && (!status.Ok? ==> st2 == st1.(errno := st2.errno))
  {
    RefillIs(st, s, true, reply);
  }

  lemma FionreadDelivers(st: State, s: int, reply: Reply)
    requires Valid(st) && IsOpen(st, s) && !HasBytes(st.slots[s])
    ensures Delivers(st, Ioctl(st, s, FIONREAD, reply).st, s, [])
  {
    FionreadIs(st, s, reply);
    if Refill(st, s, true, reply).1.Ok? {
      RefillDelivers(st, s, true, reply);
    } else {
      NothingDelivers(st, s, true, reply, Ioctl(st, s, FIONREAD, reply).st.errno);
    }
  }

  lemma FionreadCounts(st: State, s: int, cmd: int, reply: Reply)
    requires IsOpen(st, s) && Ready(st, s)
    ensures var r := Ioctl(st, s, cmd, reply);
            r.avail.Some? ==> r.avail.value == r.st.slots[s].bytesLeft
  {
  }

  /** FIONREAD is invisible to the stream. */
  lemma IoctlDelivers(st: State, s: int, cmd: int, reply: Reply)
    requires Valid(st) && IsOpen(st, s)
    ensures var r := Ioctl(st, s, cmd, reply);
            && Delivers(st, r.st, s, [])
            && (r.avail.Some? ==> r.avail.value == |Remaining(r.st, s)| <= INT_MAX)
  {
    if cmd == FIONREAD && !HasBytes(st.slots[s]) {
      FionreadDelivers(st, s, reply);
    } else {
      ErrnoDelivers(st, s, st.errno);
    }
    FionreadCounts(st, s, cmd, reply);
    var r := Ioctl(st, s, cmd, reply);
    assert SlotOk(r.st.slots[s], r.st.lib);
  }

  lemma CloseKeeps(st: State, s: int)
    requires Valid(st) && IsOpen(st, s)
    ensures var (st', ret) := Close(st, s);
            && Valid(st') && ret == 0 && TouchesOnly(st, st', s, ConnOf(st, s))
            && st'.slots[s] == st.slots[s].(conn := None, pbuf := None, bytesLeft := 0)
            && ConnOf(st, s) !in st'.lib.open
  {
    var (st', ret) := Close(st, s);
    assert SlotOk(st.slots[s], st.lib);
    OthersElsewhere(st, s);
    ValidAfter(st, st', s, ConnOf(st, s), if st.slots[s].pbuf.Some? then Free else Keep);
  }

  /** Growth multiplies nothing: a copied slot keeps its pbuf, and the old array is gone. */
  lemma InTableKeeps(st: State, c: Conn, memory: bool)
    requires Valid(st) && c in st.lib.open
    ensures var (st', fd) := InTable(st, c, memory);
            && Valid(st') && st'.lib == st.lib && TouchesOnly(st, st', fd, c)
            && (fd >= 0 ==> IsOpen(st', fd) && ConnOf(st', fd) == c)
            && (fd >= 0 ==>
                  var was := if fd < |st.slots| then st.slots[fd] else ZeroSlot(st.lib.zeroType);
                  st'.slots[fd] == was.(conn := Some(c)))
            && (fd == -1 ==> st' == st)
            && fd >= -1
  {
    var (st', fd) := InTable(st, c, memory);
    Conn2FdFrame(st.slots, c, memory, st.lib.zeroType);
    Conn2FdRefinesMap(st.slots, c, memory, st.lib.zeroType);
    if fd >= 0 {
      assert fd < |st.slots| ==> SlotOk(st.slots[fd], st.lib);
      forall t | t != fd && IsOpen(st, t) ensures ConnOf(st, t) != c {
        assert HasConn(st'.slots, t, ConnOf(st, t)) && HasConn(st'.slots, fd, c);
      }
      ValidAfter(st, st', fd, c, Keep);
    }
  }

  lemma NewConnKeeps(st: State, client: Option<Client>)
    requires Valid(st)
    ensures var (lib, nc) := NewConn(st.lib, client);
            && Valid(st.(lib := lib))
            && (nc.Some? ==> TouchesOnly(st, st.(lib := lib), -1, nc.value))
            && (nc.None? ==> lib == st.lib)
  {
  }

  /** Storing options, or errno, changes no stream. */
  lemma OptionsKeep(st: State, s: int, o: Options, e: Errno)
    requires Valid(st) && IsOpen(st, s)
    ensures var slot := st.slots[s].(ncType := o.ncType, keepAlive := o.keepAlive, fileFlag := o.fileFlag);
            var st' := st.(slots := st.slots[s := slot], errno := e);
            && Elsewhere(st, st', s) && IsOpen(st', s) && OptionsOf(st', s) == o
            && ConnOf(st', s) == ConnOf(st, s) && ChannelOf(st', s) == ChannelOf(st, s)
            && Pending(st', s) == Pending(st, s)
  {
    var slot := st.slots[s].(ncType := o.ncType, keepAlive := o.keepAlive, fileFlag := o.fileFlag);
    var st' := st.(slots := st.slots[s := slot], errno := e);
    OthersElsewhere(st, s);
    assert SlotOk(st.slots[s], st.lib);
    ValidAfter(st, st', s, ConnOf(st, s), Keep);
    ElsewhereFrom(st, st', s, ConnOf(st, s));
    assert Remaining(st', s) == Remaining(st, s);
  }

  /** The library changes the channel of c, which is the connection of descriptor s or of none. */
  lemma ChannelKeeps(st: State, s: int, c: Conn, ch: Channel)
    requires Valid(st) && c in st.lib.open
    requires s == IndexOf(st.slots, Some(c))
    ensures var st' := st.(lib := st.lib.(open := st.lib.open[c := ch]));
            && Elsewhere(st, st', s) && IsOpen(st', s) == IsOpen(st, s) && OptionsOf(st', s) == OptionsOf(st, s)
            && (IsOpen(st, s) ==> ConnOf(st, s) == c && ConnOf(st', s) == c && ChannelOf(st', s) == ch
                                  && Remaining(st', s) == Remaining(st, s))
  {
    var st' := st.(lib := st.lib.(open := st.lib.open[c := ch]));
    forall i | 0 <= i < |st.slots| ensures SlotOk(st'.slots[i], st'.lib) {
      assert SlotOk(st.slots[i], st.lib);
    }
    forall t | t != s && IsOpen(st, t) ensures ConnOf(st, t) != c {
      assert ConnOf(st, t) == c ==> HasConn(st.slots, t, c) && HasConn(st.slots, s, c);
    }
    ElsewhereFrom(st, st', s, c);
  }
}
