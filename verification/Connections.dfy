/**
 Who can close a connection.  Every connection the library has open is named by one descriptor, or
 was given to an accept that was refused memory and is out of reach.
 */
module Connections {
  import opened Wrappers
  import opened NetLib
  import opened DescriptorTable
  import opened SocketCalls
  import opened Invariant
  import opened Steps
  import opened Runs
  import opened Theorems

  ghost predicate NamedBy(slots: seq<Slot>, c: Conn) {
    exists i :: HasConn(slots, i, c)
  }

  ghost function Named(st: State): set<Conn> {
    set c | c in st.lib.open && NamedBy(st.slots, c)
  }

  /** Open in the library and in no slot: no call can close these any more. */
  ghost function Lost(st: State): set<Conn> {
    set c | c in st.lib.open && !NamedBy(st.slots, c)
  }

  /** accept has been given a connection, the table is full and memory is refused. */
  predicate Refused(mon: Monitor, open: map<Conn, Channel>, op: Op) {
    && op.AcceptOp? && op.s in mon.socks && op.client.Some? && op.client.value.conn !in open
    && !op.memory && !HasRoom(mon)
  }

  lemma NamedIsView(st: State)
    requires Valid(st)
    ensures Named(st) == View(st.slots).Values
  {
    forall c ensures c in Named(st) <==> c in View(st.slots).Values {
      if c in View(st.slots).Values {
        var i :| i in View(st.slots) && View(st.slots)[i] == c;
        assert HasConn(st.slots, i, c) && SlotOk(st.slots[i], st.lib);
      }
      if i :| HasConn(st.slots, i, c) {
        assert i in View(st.slots) && View(st.slots)[i] == c;
      }
    }
  }

  lemma {:induction false} InjectiveValues<K, V>(m: map<K, V>)
    requires forall i, j :: i in m && j in m && m[i] == m[j] ==> i == j
    ensures |m.Values| == |m|
    decreases |m|
  {
    if m.Keys != {} {
      var k :| k in m;
      var rest := m - {k};
      assert forall v :: v in m.Values ==> v in rest.Values || v == m[k] by {
        forall v | v in m.Values && v != m[k] ensures v in rest.Values {
          var i :| i in m && m[i] == v;
          assert i in rest && rest[i] == v;
        }
      }
      assert m.Values == rest.Values + {m[k]};
      assert m == rest[k := m[k]];
      InjectiveValues(rest);
    }
  }

  lemma NamedCount(st: State)
    requires Valid(st)
    ensures |Named(st)| == |View(st.slots)|
  {
    var view := View(st.slots);
    forall i, j | i in view && j in view && view[i] == view[j] ensures i == j {
      assert HasConn(st.slots, i, view[i]) && HasConn(st.slots, j, view[i]);
    }
    NamedIsView(st);
    InjectiveValues(view);
  }

  /**
   Conservation.  After any run the open connections are the disjoint union of those named by a
   descriptor in use - by exactly one - and those that are lost.
   */
  lemma ConnConservation(cfg: Config)
    requires Reachable(cfg) && cfg.Running?
    ensures Named(cfg.st) !! Lost(cfg.st) && Named(cfg.st) + Lost(cfg.st) == cfg.st.lib.open.Keys
    ensures forall c :: c in Named(cfg.st) <==> exists fd :: fd in cfg.mon.socks && cfg.mon.socks[fd].conn == c
    ensures |cfg.st.lib.open| == |cfg.mon.socks| + |Lost(cfg.st)|
  {
    var st, mon := cfg.st, cfg.mon;
    ReachableAgrees(cfg);
    SocksInView(st, mon);
    NamedIsView(st);
    NamedCount(st);
    assert st.lib.open.Keys == Named(st) + Lost(st);
    assert |st.lib.open| == |st.lib.open.Keys| == |Named(st)| + |Lost(st)|;
    forall fd | fd in mon.socks ensures View(st.slots)[fd] == mon.socks[fd].conn {
      assert AgreesAt(st, mon, fd) && fd in View(st.slots);
    }
    forall c ensures c in Named(st) <==> exists fd :: fd in mon.socks && mon.socks[fd].conn == c {
      if c in Named(st) {
        var fd :| fd in View(st.slots) && View(st.slots)[fd] == c;
        assert fd in mon.socks && mon.socks[fd].conn == c;
      }
    }
  }

  // ---------- Exactly when a connection is lost ----------

  /** No slot gets another connection, and no connection comes or goes. */
  ghost predicate SameConns(st: State, st': State) {
    && st'.lib.open.Keys == st.lib.open.Keys
    && forall i, c :: HasConn(st'.slots, i, c) <==> HasConn(st.slots, i, c)
  }

  lemma SameLost(st: State, st': State)
    requires SameConns(st, st')
    ensures Lost(st') == Lost(st)
  {
    forall c ensures NamedBy(st'.slots, c) <==> NamedBy(st.slots, c) {
      if i :| HasConn(st.slots, i, c) { assert HasConn(st'.slots, i, c); }
      if i :| HasConn(st'.slots, i, c) { assert HasConn(st.slots, i, c); }
    }
  }

  lemma CloseLost(st: State, s: int)
    requires Valid(st)
    ensures Lost(Close(st, s).0) == Lost(st)
  {
    if IsOpen(st, s) {
      var st', c := Close(st, s).0, ConnOf(st, s);
      assert HasConn(st.slots, s, c);
      forall i, d ensures HasConn(st'.slots, i, d) <==> HasConn(st.slots, i, d) && i != s {}
      forall d | d != c ensures NamedBy(st'.slots, d) <==> NamedBy(st.slots, d) {
        if i :| HasConn(st.slots, i, d) { assert HasConn(st'.slots, i, d); }
      }
      assert NamedBy(st.slots, c) && c !in st'.lib.open;
    }
  }

  /** A connection that is not open has no descriptor. */
  lemma NewIsUnnamed(st: State, c: Conn)
    requires Valid(st) && c !in st.lib.open
    ensures !NamedBy(st.slots, c)
  {
    if i :| HasConn(st.slots, i, c) {
      assert SlotOk(st.slots[i], st.lib);
    }
  }

  lemma InTableLost(st: State, c: Conn, memory: bool)
    requires Valid(st) && c in st.lib.open && !NamedBy(st.slots, c)
    ensures var (st', fd) := InTable(st, c, memory);
            && Lost(st') == (if fd >= 0 then Lost(st) - {c} else Lost(st))
            && (fd == -1 <==> !memory && Full(st.slots)) && fd >= -1
  {
    var (st', fd) := InTable(st, c, memory);
    Conn2FdRefinesMap(st.slots, c, memory, st.lib.zeroType);
    Conn2FdFrame(st.slots, c, memory, st.lib.zeroType);
    forall i | i in View(st.slots) ensures View(st.slots)[i] != c {
      assert !HasConn(st.slots, i, c);
    }
    if fd >= 0 {
      forall i, d ensures HasConn(st'.slots, i, d) <==> (i == fd && d == c) || HasConn(st.slots, i, d) {
        assert i == fd ==> fd !in View(st.slots);
      }
      forall d | d != c ensures NamedBy(st'.slots, d) <==> NamedBy(st.slots, d) {
        if i :| HasConn(st.slots, i, d) { assert HasConn(st'.slots, i, d); }
      }
      assert HasConn(st'.slots, fd, c);
    }
  }

  lemma OpenLost(st: State, client: Option<Client>, memory: bool)
    requires Valid(st)
    ensures var (lib, nc) := NewConn(st.lib, client);
            nc.Some? ==>
              var (st', fd) := InTable(st.(lib := lib), nc.value, memory);
              && Lost(st') == (if fd >= 0 then Lost(st) else Lost(st) + {nc.value})
              && (fd == -1 <==> !memory && Full(st.slots)) && fd >= -1 && nc.value !in Lost(st)
  {
    var (lib, nc) := NewConn(st.lib, client);
    if nc.Some? {
      NewConnKeeps(st, client);
      NewIsUnnamed(st, nc.value);
      assert Lost(st.(lib := lib)) == Lost(st) + {nc.value};
      InTableLost(st.(lib := lib), nc.value, memory);
    }
  }

  lemma RefillSameConns(st: State, s: int, poll: bool, reply: Reply)
    requires IsOpen(st, s) && Ready(st, s) && !HasBytes(st.slots[s])
    ensures var st1 := Refill(st, s, poll, reply).0; SameConns(st, st1) && SameConns(st, Measure(st1, s))
  {
    RefillIs(st, s, poll, reply);
  }

  lemma TakeSameConns(st: State, s: int, len: nat)
    requires 0 <= s < |st.slots| && st.slots[s].pbuf.Some? && SlotOk(st.slots[s], st.lib)
    ensures SameConns(st, Take(st, s, len).st)
  {
  }

  lemma RecvSameConns(st: State, s: int, len: nat, flags: int, reply: Reply)
    requires Valid(st)
    ensures SameConns(st, Recv(st, s, len, flags, reply).st)
  {
    if IsOpen(st, s) {
      if HasBytes(st.slots[s]) {
        TakeSameConns(st, s, len);
      } else {
        var poll := NoWait(st.slots[s], len, flags);
        RefillSameConns(st, s, poll, reply);
        var (st1, status) := Refill(st, s, poll, reply);
        if status.Ok? {
          RefillValid(st, s, poll, reply);
          TakeSameConns(Measure(st1, s), s, len);
        }
      }
    }
  }

  lemma IoctlSameConns(st: State, s: int, cmd: int, reply: Reply)
    requires Valid(st)
    ensures SameConns(st, Ioctl(st, s, cmd, reply).st)
  {
    if IsOpen(st, s) && !HasBytes(st.slots[s]) {
      RefillSameConns(st, s, true, reply);
    }
  }

  lemma OtherSameConns(st: State, op: Op)
    requires Valid(st) && !op.SocketOp? && !op.AcceptOp? && !op.CloseOp?
    ensures SameConns(st, Step(st, op).st)
  {
    match op {
      case RecvOp(s, len, flags, reply) => RecvSameConns(st, s, len, flags, reply);
      case IoctlOp(s, cmd, reply) => IoctlSameConns(st, s, cmd, reply);
      case FcntlOp(_, _, _) =>
      case SetSockOptOp(_, _, _, _) =>
      case ArriveOp(_, _) =>
      case PeerOp(_, _) =>
    }
  }

  lemma AcceptLost(st: State, s: int, client: Option<Client>, memory: bool)
    requires Valid(st)
    ensures var refused := IsOpen(st, s) && client.Some? && client.value.conn !in st.lib.open && !memory && Full(st.slots);
            && Lost(Accept(st, s, client, memory).0) == Lost(st) + (if refused then {client.value.conn} else {})
            && (refused ==> client.value.conn !in Lost(st))
  {
    OpenLost(st, client, memory);
  }

  lemma RefusedIff(st: State, mon: Monitor, op: Op)
    requires Agrees(st, mon) && op.AcceptOp?
    ensures Refused(mon, st.lib.open, op)
            <==> IsOpen(st, op.s) && op.client.Some? && op.client.value.conn !in st.lib.open
                 && !op.memory && Full(st.slots)
  {
    assert AgreesAt(st, mon, op.s);
    SocksInView(st, mon);
  }

  /** A step loses a connection exactly when an accept is refused memory for it. */
  lemma StepLoses(cfg: Config, op: Op)
    requires Reachable(cfg) && cfg.Running?
    ensures Valid(cfg.st)
    ensures Step(cfg.st, op).Done? ==>
              Lost(Step(cfg.st, op).st)
              == Lost(cfg.st) + if Refused(cfg.mon, cfg.st.lib.open, op) then {op.client.value.conn} else {}
    ensures Refused(cfg.mon, cfg.st.lib.open, op) ==> op.client.value.conn !in Lost(cfg.st)
  {
    var st := cfg.st;
    ReachableAgrees(cfg);
    if op.AcceptOp? {
      RefusedIff(st, cfg.mon, op);
      AcceptLost(st, op.s, op.client, op.memory);
    } else if op.SocketOp? {
      SocketLost(st, op);
    } else if op.CloseOp? {
      CloseLost(st, op.s);
    } else {
      OtherSameConns(st, op);
      SameLost(st, Step(st, op).st);
    }
  }

  lemma SocketLost(st: State, op: Op)
    requires Valid(st) && op.SocketOp?
    ensures Step(st, op).Done? ==> Lost(Step(st, op).st) == Lost(st)
  {
    var (lib, nc) := NewConn(st.lib, Unused(op.handle));
    if Step(st, op).Done? && TypeOf(op.sockType).Some? && nc.Some? {
      var (st1, fd) := InTable(st.(lib := lib), nc.value, op.memory);
      OpenLost(st, Unused(op.handle), op.memory);
      SameLost(st1, Step(st, op).st);
    }
  }

  /** How often accept has been refused memory for a connection in a run. */
  function Refusals(cfg: Config, ops: seq<Op>): nat
    requires Sound(cfg)
  {
    if ops == [] then 0
    else
      var n := |ops| - 1;
      var before := Run(cfg, ops[..n]);
      Refusals(cfg, ops[..n])
      + if before.Running? && Refused(before.mon, before.st.lib.open, ops[n]) then 1 else 0
  }

  /** The library has as many connections open as descriptors are in use, and one for each refusal. */
  lemma {:induction false} OpenConnections(zeroType: NcType, newTimeout: nat, ops: seq<Op>)
    ensures var cfg := Run(Start(zeroType, newTimeout), ops);
            cfg.Running? ==>
              && |Lost(cfg.st)| == Refusals(Start(zeroType, newTimeout), ops)
              && |cfg.st.lib.open| == |cfg.mon.socks| + Refusals(Start(zeroType, newTimeout), ops)
  {
    var start := Start(zeroType, newTimeout);
    var cfg := Run(start, ops);
    if cfg.Running? {
      assert Reachable(cfg);
      ConnConservation(cfg);
      if ops != [] {
        var before := Run(start, ops[..|ops| - 1]);
        OpenConnections(zeroType, newTimeout, ops[..|ops| - 1]);
        assert Reachable(before);
        StepLoses(before, ops[|ops| - 1]);
      }
    }
  }
}
