/**
 Who owns a pbuf.  A dequeued pbuf has been given back once, or is held by one slot, or has been
 overwritten; only an empty pbuf can be overwritten, and exactly one guard in the code does it.
 */
module Ownership {
  import opened Wrappers
  import opened NetLib
  import opened DescriptorTable
  import opened SocketCalls
  import opened Invariant
  import opened Steps
  import opened Runs
  import opened Theorems

  ghost function HeldSet(st: State): set<int> {
    set p | 0 <= p < |st.lib.pbufs| && Held(st.slots, p)
  }

  ghost function FreedSet(st: State): set<int> {
    set k | 0 <= k < |st.lib.freed| :: st.lib.freed[k]
  }

  /** Dequeued, not given back, and in no slot: nothing can free these any more. */
  ghost function Leaked(st: State): set<int> {
    set p | 0 <= p < |st.lib.pbufs| && p !in st.lib.freed && !Held(st.slots, p)
  }

  lemma {:induction false} DistinctCount(s: seq<Pbuf>)
    requires forall j, k :: 0 <= j < k < |s| ==> s[j] != s[k]
    ensures |set k | 0 <= k < |s| :: s[k]| == |s|
  {
    var all := set k | 0 <= k < |s| :: s[k];
    if s == [] {
      assert all == {};
    } else {
      var n := |s| - 1;
      var init := s[..n];
      DistinctCount(init);
      var some := set k | 0 <= k < |init| :: init[k];
      assert forall k :: 0 <= k < n ==> init[k] == s[k];
      assert all == some + {s[n]} by {
        forall x | x in all ensures x in some + {s[n]} {
          var k :| 0 <= k < |s| && s[k] == x;
          assert k == n || init[k] == x;
        }
        forall x | x in some + {s[n]} ensures x in all {
          if x != s[n] {
            var k :| 0 <= k < |init| && init[k] == x;
            assert s[k] == x;
          } else {
            assert s[n] == x;
          }
        }
      }
    }
  }

  /**
   Conservation.  After any run the pbufs dequeued are the disjoint union of those given back,
   each once, those held, each by one open slot, and those overwritten, which hold no data.
   */
  lemma PbufConservation(cfg: Config)
    requires Reachable(cfg) && cfg.Running?
    ensures var st := cfg.st;
            && FreedSet(st) !! HeldSet(st) !! Leaked(st)
            && FreedSet(st) + HeldSet(st) + Leaked(st) == UpTo(|st.lib.pbufs|)
            && |st.lib.pbufs| == |st.lib.freed| + |HeldSet(st)| + |Leaked(st)|
    ensures forall i, j, p :: HasPbuf(cfg.st.slots, i, p) && HasPbuf(cfg.st.slots, j, p) ==> i == j && IsOpen(cfg.st, i)
    ensures forall p :: p in Leaked(cfg.st) ==> cfg.st.lib.pbufs[p] == []
  {
    ReachableAgrees(cfg);
    Conservation(cfg.st);
  }

  lemma HeldIsLive(st: State, i: int, p: Pbuf)
    requires Valid(st) && HasPbuf(st.slots, i, p)
    ensures PbufLive(st.lib, p) && IsOpen(st, i)
  {
  }

  lemma FreedIsSet(st: State)
    requires Valid(st)
    ensures forall p :: p in FreedSet(st) <==> p in st.lib.freed
    ensures FreedSet(st) <= UpTo(|st.lib.pbufs|) && |FreedSet(st)| == |st.lib.freed|
  {
    var freed := st.lib.freed;
    forall p ensures p in FreedSet(st) <==> p in freed {}
    forall k | 0 <= k < |freed| ensures freed[k] < |st.lib.pbufs| {
      assert freed[k] in freed;
    }
    forall j, k | 0 <= j < k < |freed| ensures freed[j] != freed[k] {
      assert FreedAt(freed, j, freed[j]) && FreedAt(freed, k, freed[k]);
    }
    DistinctCount(freed);
  }

  lemma Conservation(st: State)
    requires Valid(st)
    ensures FreedSet(st) !! HeldSet(st) !! Leaked(st)
    ensures FreedSet(st) + HeldSet(st) + Leaked(st) == UpTo(|st.lib.pbufs|)
    ensures |st.lib.pbufs| == |st.lib.freed| + |HeldSet(st)| + |Leaked(st)|
    ensures forall i, j, p :: HasPbuf(st.slots, i, p) && HasPbuf(st.slots, j, p) ==> i == j && IsOpen(st, i)
    ensures forall p :: p in Leaked(st) ==> st.lib.pbufs[p] == []
  {
    forall i, p | HasPbuf(st.slots, i, p) ensures PbufLive(st.lib, p) && IsOpen(st, i) {
      HeldIsLive(st, i, p);
    }
    FreedIsSet(st);
    UnionCount(FreedSet(st), HeldSet(st), Leaked(st), UpTo(|st.lib.pbufs|));
  }

  lemma UnionCount<T>(a: set<T>, b: set<T>, c: set<T>, all: set<T>)
    requires a !! b && (a + b) !! c && forall x :: x in all <==> x in a || x in b || x in c
    ensures a + b + c == all && |all| == |a| + |b| + |c|
  {
  }

  // ---------- Exactly when a pbuf is leaked ----------

  /** The pbuf a step overwrites: a receive into a slot that holds an empty pbuf. */
  function Overwritten(st: State, op: Op): set<int> {
    if (op.RecvOp? || (op.IoctlOp? && op.cmd == FIONREAD)) && IsOpen(st, op.s)
       && st.slots[op.s].pbuf.Some? && st.slots[op.s].bytesLeft == 0
    then {st.slots[op.s].pbuf.value} else {}
  }

  lemma MoveLeaks(st: State, st': State, s: int, c: Conn, move: Move)
    requires Valid(st) && Valid(st') && TouchesOnly(st, st', s, c) && 0 <= s < |st'.slots|
    requires Moves(st, st', s, move)
    ensures Leaked(st') == Leaked(st) + if (move.Pull? || move.Overwrite?) && PbufAt(st, s).Some?
                                        then {PbufAt(st, s).value} else {}
  {
    var was := PbufAt(st, s);
    forall i, p | HasPbuf(st.slots, i, p) ensures PbufLive(st.lib, p) {
      assert SlotOk(st.slots[i], st.lib);
    }
    forall p: Pbuf | p < |st'.lib.pbufs|
      ensures Held(st'.slots, p) <==> if move.Keep? then Held(st.slots, p)
                                      else (Held(st.slots, p) && was != Some(p)) || (move.Pull? && p == |st.lib.pbufs|)
    {
      if Held(st'.slots, p) {
        var i :| HasPbuf(st'.slots, i, p);
        assert i != s || move.Keep? ==> HasPbuf(st.slots, i, p);
        assert was.Some? ==> HasPbuf(st.slots, s, was.value);
      }
      if Held(st.slots, p) {
        var i :| HasPbuf(st.slots, i, p);
        assert i != s || move.Keep? ==> HasPbuf(st'.slots, i, p);
      }
      if move.Pull? && p == |st.lib.pbufs| {
        assert HasPbuf(st'.slots, s, p);
      }
    }
    assert was.Some? ==> HasPbuf(st.slots, s, was.value);
  }

  /** A step that moves no pbuf. */
  lemma SameLeaks(st: State, st': State)
    requires st'.lib.pbufs == st.lib.pbufs && st'.lib.freed == st.lib.freed
    requires forall i :: PbufAt(st', i) == PbufAt(st, i)
    ensures Leaked(st') == Leaked(st)
  {
    forall p: Pbuf ensures Held(st'.slots, p) <==> Held(st.slots, p) {
      if Held(st'.slots, p) {
        var i :| HasPbuf(st'.slots, i, p);
        assert PbufAt(st', i) == PbufAt(st, i) && HasPbuf(st.slots, i, p);
      }
      if Held(st.slots, p) {
        var i :| HasPbuf(st.slots, i, p);
        assert PbufAt(st', i) == PbufAt(st, i) && HasPbuf(st'.slots, i, p);
      }
    }
  }

  lemma RefillLeaks(st: State, s: int, poll: bool, reply: Reply)
    requires Valid(st) && IsOpen(st, s) && !HasBytes(st.slots[s])
    ensures Leaked(Measure(Refill(st, s, poll, reply).0, s))
            == Leaked(st) + if st.slots[s].pbuf.Some? then {st.slots[s].pbuf.value} else {}
  {
    var (st1, status) := Refill(st, s, poll, reply);
    RefillValid(st, s, poll, reply);
    MoveLeaks(st, Measure(st1, s), s, ConnOf(st, s), if status.Ok? then Pull else Overwrite);
  }

  lemma TakeLeaks(st: State, s: int, len: nat)
    requires Valid(st) && IsOpen(st, s) && st.slots[s].pbuf.Some?
    ensures Leaked(Take(st, s, len).st) == Leaked(st)
  {
    var st' := Take(st, s, len).st;
    TakeValid(st, s, len);
    MoveLeaks(st, st', s, ConnOf(st, s), if st'.slots[s].pbuf.Some? then Keep else Free);
  }

  lemma RecvLeaks(st: State, s: int, len: nat, flags: int, reply: Reply)
    requires Valid(st)
    ensures Leaked(Recv(st, s, len, flags, reply).st) == Leaked(st) + Overwritten(st, RecvOp(s, len, flags, reply))
  {
    if IsOpen(st, s) {
      if HasBytes(st.slots[s]) {
        TakeLeaks(st, s, len);
      } else {
        var poll := NoWait(st.slots[s], len, flags);
        var (st1, status) := Refill(st, s, poll, reply);
        RefillLeaks(st, s, poll, reply);
        RefillValid(st, s, poll, reply);
        if status.Ok? {
          TakeLeaks(Measure(st1, s), s, len);
        } else {
          SameLeaks(st1, Recv(st, s, len, flags, reply).st);
        }
      }
    }
  }

  lemma IoctlLeaks(st: State, s: int, cmd: int, reply: Reply)
    requires Valid(st)
    ensures Leaked(Ioctl(st, s, cmd, reply).st) == Leaked(st) + Overwritten(st, IoctlOp(s, cmd, reply))
  {
    if IsOpen(st, s) && cmd == FIONREAD && !HasBytes(st.slots[s]) {
      var st1 := Refill(st, s, true, reply).0;
      RefillLeaks(st, s, true, reply);
      RefillValid(st, s, true, reply);
      SameLeaks(Measure(st1, s), Ioctl(st, s, cmd, reply).st);
    }
  }

  lemma CloseLeaks(st: State, s: int)
    requires Valid(st)
    ensures Leaked(Close(st, s).0) == Leaked(st)
  {
    if IsOpen(st, s) {
      CloseKeeps(st, s);
      MoveLeaks(st, Close(st, s).0, s, ConnOf(st, s), if st.slots[s].pbuf.Some? then Free else Keep);
    }
  }

  lemma OpenLeaks(st: State, op: Op)
    requires Valid(st) && Step(st, op).Done? && (op.SocketOp? || op.AcceptOp?)
    ensures Leaked(Step(st, op).st) == Leaked(st)
  {
    var (lib, nc) := NewConn(st.lib, ClientOf(op));
    if nc.Some? {
      Conn2FdFrame(st.slots, nc.value, op.memory, st.lib.zeroType);
    }
    var st' := Step(st, op).st;
    forall i ensures PbufAt(st', i) == PbufAt(st, i) {}
    SameLeaks(st, st');
  }

  /** A step leaks a pbuf exactly when it receives into a slot that holds an empty one. */
  lemma StepLeaks(st: State, op: Op)
    requires Valid(st) && Step(st, op).Done?
    ensures Leaked(Step(st, op).st) == Leaked(st) + Overwritten(st, op)
  {
    match op {
      case SocketOp(_, _, _) => OpenLeaks(st, op);
      case AcceptOp(_, _, _) => OpenLeaks(st, op);
      case CloseOp(s) => CloseLeaks(st, s);
      case RecvOp(s, len, flags, reply) => RecvLeaks(st, s, len, flags, reply);
      case IoctlOp(s, cmd, reply) => IoctlLeaks(st, s, cmd, reply);
      case FcntlOp(s, cmd, val) => SameLeaks(st, Step(st, op).st);
      case SetSockOptOp(s, level, optname, optval) => SameLeaks(st, Step(st, op).st);
      case ArriveOp(_, _) => SameLeaks(st, Step(st, op).st);
      case PeerOp(_, _) => SameLeaks(st, Step(st, op).st);
    }
  }

  /** What is overwritten was held until then, so each leak is a new one. */
  lemma LeaksAreNew(st: State, op: Op)
    requires Valid(st)
    ensures Overwritten(st, op) !! Leaked(st)
  {
    if Overwritten(st, op) != {} {
      assert HasPbuf(st.slots, op.s, st.slots[op.s].pbuf.value);
    }
  }

  // ---------- Connections that send no empty chunk ----------

  /** The data that an operation brings from the network, if any, has no empty chunk. */
  ghost predicate BringsData(op: Op) {
    match op
    case ArriveOp(_, chunk) => chunk != []
    case AcceptOp(_, client, _) => client.Some? ==> forall k :: 0 <= k < |client.value.queue| ==> client.value.queue[k] != []
    case _ => true
  }

  ghost predicate NonEmptyArrivals(ops: seq<Op>) {
    forall k :: 0 <= k < |ops| ==> BringsData(ops[k])
  }

  ghost predicate Solid(lib: Lib) {
    && (forall p :: 0 <= p < |lib.pbufs| ==> lib.pbufs[p] != [])
    && (forall c, k :: c in lib.open && 0 <= k < |lib.open[c].queue| ==> lib.open[c].queue[k] != [])
  }

  lemma RefillSolid(st: State, s: int, poll: bool, reply: Reply)
    requires Valid(st) && IsOpen(st, s) && Solid(st.lib)
    ensures Solid(Refill(st, s, poll, reply).0.lib)
  {
  }

  lemma ReceiveSolid(st: State, op: Op)
    requires Valid(st) && Solid(st.lib) && (op.RecvOp? || op.IoctlOp?)
    ensures Solid(Step(st, op).st.lib)
  {
    if IsOpen(st, op.s) && !HasBytes(st.slots[op.s]) {
      RefillSolid(st, op.s, if op.RecvOp? then NoWait(st.slots[op.s], op.len, op.flags) else true, op.reply);
    }
  }

  lemma StepSolid(st: State, op: Op)
    requires Valid(st) && Solid(st.lib) && Step(st, op).Done?
    requires BringsData(op)
    ensures Solid(Step(st, op).st.lib)
  {
    if op.RecvOp? || op.IoctlOp? {
      ReceiveSolid(st, op);
    }
  }

  lemma {:induction false} RunSolid(zeroType: NcType, newTimeout: nat, ops: seq<Op>)
    requires NonEmptyArrivals(ops)
    ensures var cfg := Run(Start(zeroType, newTimeout), ops); cfg.Running? ==> Solid(cfg.st.lib)
  {
    if ops != [] {
      var before := Run(Start(zeroType, newTimeout), ops[..|ops| - 1]);
      var op := ops[|ops| - 1];
      RunSolid(zeroType, newTimeout, ops[..|ops| - 1]);
      if before.Running? && Step(before.st, op).Done? {
        StepSolid(before.st, op);
      }
    }
  }

  /**
   Without empty chunks nothing ever leaks, a slot holds a pbuf exactly while it has unread bytes,
   and once every descriptor is closed every pbuf dequeued has been freed, once.
   */
  lemma NothingLeaks(zeroType: NcType, newTimeout: nat, ops: seq<Op>)
    requires NonEmptyArrivals(ops)
    ensures var cfg := Run(Start(zeroType, newTimeout), ops);
            cfg.Running? ==>
              && Leaked(cfg.st) == {}
              && (forall i :: 0 <= i < |cfg.st.slots| ==> (cfg.st.slots[i].pbuf.Some? <==> cfg.st.slots[i].bytesLeft > 0))
              && (cfg.mon.socks == map[] ==> FreedSet(cfg.st) == UpTo(|cfg.st.lib.pbufs|)
                                             && |cfg.st.lib.freed| == |cfg.st.lib.pbufs|)
  {
    var cfg := Run(Start(zeroType, newTimeout), ops);
    if cfg.Running? {
      RunSolid(zeroType, newTimeout, ops);
      RunAgrees(zeroType, newTimeout, ops);
      Conservation(cfg.st);
      forall i | 0 <= i < |cfg.st.slots| ensures cfg.st.slots[i].pbuf.Some? <==> cfg.st.slots[i].bytesLeft > 0 {
        assert SlotOk(cfg.st.slots[i], cfg.st.lib);
      }
      if cfg.mon.socks == map[] {
        NoneOpenNoneHeld(cfg.st, cfg.mon);
      }
    }
  }

  lemma NoneOpenNoneHeld(st: State, mon: Monitor)
    requires Agrees(st, mon) && mon.socks == map[]
    ensures HeldSet(st) == {}
  {
    forall i ensures PbufAt(st, i).None? {
      assert AgreesAt(st, mon, i);
      assert 0 <= i < |st.slots| ==> SlotOk(st.slots[i], st.lib);
    }
    assert forall i, p: Pbuf :: HasPbuf(st.slots, i, p) ==> PbufAt(st, i) == Some(p);
  }
}
