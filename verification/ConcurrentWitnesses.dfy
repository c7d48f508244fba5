/**
 Runs of several threads in which a call does not do what its caller may expect.  The exact conditions
 are in modules Exclusive and StaleStores.
 */
module ConcurrentWitnesses {
  import opened Wrappers
  import opened NetLib
  import opened Concurrent
  import opened Solo
  import opened Exclusive
  import opened StaleStores
  import opened Leftovers
  import DescriptorTable

  // ---------- One call, undisturbed ----------

  /** A descriptor table with these cells. */
  function SlotsOf(a: Table): (r: seq<DescriptorTable.Slot>)
    ensures |r| == |a| && forall i :: 0 <= i < |r| ==> CellOf(r[i]) == a[i]
  {
    seq(|a|, i requires 0 <= i < |a| =>
      DescriptorTable.ZeroSlot(Tcp).(conn := a[i].conn, pbuf := a[i].pbuf, bytesLeft := a[i].bytesLeft))
  }

  lemma CellsOfSlots(a: Table)
    ensures Cells(SlotsOf(a)) == a
  {
  }

  /** Connection c is new; where it goes in a table that does not hold it. */
  ghost predicate FirstFree(a: Table, c: Conn, f: nat) {
    && f <= |a| && (f < |a| ==> a[f].conn == None)
    && (forall j :: 0 <= j < f ==> a[j].conn != None)
    && (forall j :: 0 <= j < |a| ==> a[j].conn != Some(c))
  }

  function Inserted(a: Table, c: Conn, f: nat): Table
    requires f <= |a|
  {
    if f < |a| then a[f := a[f].(conn := Some(c))]
    else a + [EMPTY.(conn := Some(c))] + Empty(DescriptorTable.GROWTH - 1)
  }

  lemma InsertedBy(a: Table, c: Conn, f: nat)
    requires FirstFree(a, c, f)
    ensures var r := DescriptorTable.Conn2Fd(SlotsOf(a), c, true, Tcp);
            r.fd == f && Cells(r.slots) == Inserted(a, c, f)
  {
    var slots := SlotsOf(a);
    assert forall j :: 0 <= j < |slots| ==> slots[j].conn == CellOf(slots[j]).conn;
    DescriptorTable.IndexOfIsFirst(slots, Some(c), |slots|);
    DescriptorTable.IndexOfIsFirst(slots, None, f);
  }

  lemma FoundBy(a: Table, c: Conn, f: nat)
    requires f < |a| && a[f].conn == Some(c) && forall j :: 0 <= j < f ==> a[j].conn != Some(c)
    ensures var r := DescriptorTable.Conn2Fd(SlotsOf(a), c, true, Tcp);
            r.fd == f && Cells(r.slots) == a
  {
    var slots := SlotsOf(a);
    assert forall j :: 0 <= j < |slots| ==> slots[j].conn == CellOf(slots[j]).conn;
    DescriptorTable.IndexOfIsFirst(slots, Some(c), f);
    CellsOfSlots(a);
  }

  /** Thread t can begin a call for a new connection with handle c. */
  ghost predicate CanCall(m: Machine, t: nat, c: Conn) {
    Reachable(m) && t < |m.threads| && m.threads[t].Idle? && m.lock.None? && c !in m.open
  }

  /** m' is m after that call, undisturbed, has returned fd. */
  ghost predicate CallDone(m: Machine, t: nat, c: Conn, m': Machine, fd: int, a: Table) {
    && Reachable(m') && t < |m.threads| && m'.threads == m.threads[t := Returned(Issue(c, m.count), fd)]
    && m'.lock.None? && m'.open == m.open[c := m.count] && m'.count == m.count + 1
    && InUse(m') == a && Grows(m, m')
  }

  lemma CallBegins(m: Machine, t: nat, c: Conn)
    requires CanCall(m, t, c)
    ensures var m1 := Next(m, New(t, c));
            && Reachable(m1) && Inv(m1) && Running(m1, t) && m1.threads == m.threads[t := AtLock(Issue(c, m.count))]
            && m1.open == m.open[c := m.count] && m1.count == m.count + 1 && m1.lock.None?
            && m1.cur == m.cur && InUse(m1) == InUse(m)
  {
    ReachableNext(m, New(t, c));
    ReachableInv(Next(m, New(t, c)));
  }

  /** The call as actions of thread t: it begins, and then only thread t steps. */
  lemma Call(m: Machine, t: nat, c: Conn) returns (acts: seq<Action>, m': Machine)
    requires CanCall(m, t, c)
    ensures |acts| > 0 && acts[0] == New(t, c) && OnlyTicks(acts[1..]) && m' == Run(m, acts)
    ensures var r := DescriptorTable.Conn2Fd(SlotsOf(InUse(m)), c, true, Tcp);
            CallDone(m, t, c, m', r.fd, Cells(r.slots))
  {
    var m1 := Next(m, New(t, c));
    CallBegins(m, t, c);
    CallEnds(m, m1, t, c);
    m' := Finish(m1, t, true);
    var ticks := FinishIsRun(m1, t, true);
    ReachableRun(m1, ticks);
    acts := [New(t, c)] + ticks;
    assert acts[1..] == ticks;
  }

  /** m1 is m with thread t at the lock. */
  lemma CallEnds(m: Machine, m1: Machine, t: nat, c: Conn)
    requires Inv(m1) && Running(m1, t) && t < |m.threads| && m1.threads == m.threads[t := AtLock(Issue(c, m.count))]
    requires m1.cur == m.cur && InUse(m1) == InUse(m)
    ensures var r := DescriptorTable.Conn2Fd(SlotsOf(InUse(m)), c, true, Tcp);
            var m' := Finish(m1, t, true);
            && m'.threads == m.threads[t := Returned(Issue(c, m.count), r.fd)]
            && InUse(m') == Cells(r.slots) && Grows(m, m')
            && m'.open == m1.open && m'.count == m1.count && m'.lock.None?
  {
    var slots := SlotsOf(InUse(m));
    CellsOfSlots(InUse(m));
    SoloCallIsConn2Fd(m1, t, slots, c, true, Tcp);
    FinishFrame(m1, t, true);
    FinishIsFor(m1, t, true, Issue(c, m.count));
  }

  lemma CallInserts(m: Machine, t: nat, c: Conn, f: nat) returns (acts: seq<Action>, m': Machine)
    requires CanCall(m, t, c) && FirstFree(InUse(m), c, f)
    ensures |acts| > 0 && acts[0] == New(t, c) && OnlyTicks(acts[1..]) && m' == Run(m, acts)
    ensures CallDone(m, t, c, m', f, Inserted(InUse(m), c, f))
  {
    InsertedBy(InUse(m), c, f);
    acts, m' := Call(m, t, c);
  }

  lemma CallHits(m: Machine, t: nat, c: Conn, f: nat) returns (acts: seq<Action>, m': Machine)
    requires CanCall(m, t, c) && Holds(InUse(m), f, c)
    ensures |acts| > 0 && acts[0] == New(t, c) && OnlyTicks(acts[1..]) && m' == Run(m, acts)
    ensures CallDone(m, t, c, m', f, InUse(m)) && m'.cur == m.cur
  {
    ReachableInv(m);
    forall j | 0 <= j < f ensures InUse(m)[j].conn != Some(c) {
      assert Holds(InUse(m), j, c) ==> j == f;
    }
    FoundBy(InUse(m), c, f);
    acts, m' := Call(m, t, c);
  }

  // ---------- The steps of a close ----------

  /** What the steps of a close on descriptor 0 leave as it was. */
  ghost predicate CloseFrame(m: Machine, m': Machine, t: nat, pc: Pc) {
    && Reachable(m') && t < |m.threads| && m'.threads == m.threads[t := pc] && m'.lock == m.lock
    && m'.count == m.count && m'.cur == m.cur
  }

  lemma CloseBegins(m: Machine, t: nat, c: Conn) returns (m': Machine)
    requires Reachable(m) && t < |m.threads| && m.threads[t].Idle? && m.lock.None? && Holds(InUse(m), 0, c)
    ensures CloseFrame(m, m', t, Closing(m.cur, 0)) && m'.open == m.open && InUse(m') == InUse(m)
  {
    ReachableInv(m);
    ReachableNext(m, CloseCall(t, 0));
    m' := Next(m, CloseCall(t, 0));
  }

  lemma CloseDeletes(m: Machine, t: nat, c: Conn)
    requires Reachable(m) && t < |m.threads| && m.threads[t] == Closing(m.cur, 0) && Holds(InUse(m), 0, c)
    ensures var m' := Next(m, Tick(t, true));
            CloseFrame(m, m', t, Deleted(m.cur, 0)) && m'.open == m.open - {c} && InUse(m') == InUse(m)
  {
    ReachableNext(m, Tick(t, true));
  }

  lemma CloseErases(m: Machine, t: nat)
    requires Reachable(m) && t < |m.threads| && m.threads[t] == Deleted(m.cur, 0) && |InUse(m)| > 0
    ensures var m' := Next(m, Tick(t, true));
            && CloseFrame(m, m', t, ClearPbuf(m.cur, 0)) && m'.open == m.open
            && InUse(m') == InUse(m)[0 := InUse(m)[0].(conn := None)]
  {
    ReachableNext(m, Tick(t, true));
  }

  // ---------- The runs ----------

  function OneCell(c: Conn): Table {
    [EMPTY.(conn := Some(c))] + Empty(DescriptorTable.GROWTH - 1)
  }

  /** Only descriptor 0 has been issued, to thread 0, for connection c. */
  ghost predicate OneOpen(m: Machine, threads: nat, c: Conn) {
    && Reachable(m) && m.lock.None? && m.threads == seq(threads, _ => Idle)
    && m.open == map[c := 0] && m.count == 1
    && InUse(m) == OneCell(c)
  }

  lemma StartReachable(threads: nat)
    ensures Reachable(Start(threads))
  {
    assert Run(Start(threads), []) == Start(threads);
  }

  /** Thread t returns to its caller. */
  lemma Back(m: Machine, t: nat) returns (m': Machine)
    requires Reachable(m) && t < |m.threads| && (m.threads[t].Returned? || m.threads[t].Using?)
    ensures Reachable(m') && m' == m.(threads := m.threads[t := Idle])
  {
    m' := Next(m, Tick(t, true));
    ReachableNext(m, Tick(t, true));
  }

  lemma Opens(m: Machine, t: nat, c: Conn, f: nat, was: Table, now: Table) returns (m': Machine)
    requires CanCall(m, t, c) && InUse(m) == was && FirstFree(was, c, f) && Inserted(was, c, f) == now
    ensures Reachable(m') && m'.lock.None? && m'.threads == m.threads
    ensures m'.open == m.open[c := m.count] && m'.count == m.count + 1 && InUse(m') == now
  {
    var acts, m1 := CallInserts(m, t, c, f);
    m' := Back(m1, t);
    assert m'.threads == m.threads;
  }

  lemma FirstCall(threads: nat, c: Conn) returns (m: Machine)
    requires threads > 0
    ensures OneOpen(m, threads, c)
  {
    StartReachable(threads);
    assert InUse(Start(threads)) == [];
    m := Opens(Start(threads), 0, c, 0, [], OneCell(c));
  }

  /** Thread 0 has deleted the handle of descriptor 0 and not erased the slot. */
  lemma HalfClosed(threads: nat, c: Conn) returns (m: Machine)
    requires threads > 0
    ensures Reachable(m) && m.lock.None? && m.threads == seq(threads, _ => Idle)[0 := Deleted(m.cur, 0)]
    ensures m.open == map[] && m.count == 1 && InUse(m) == OneCell(c)
  {
    var m1 := FirstCall(threads, c);
    assert Holds(InUse(m1), 0, c);
    var m2 := CloseBegins(m1, 0, c);
    CloseDeletes(m2, 0, c);
    m := Next(m2, Tick(0, true));
  }

  /**
   One descriptor for two connections.  Thread 0 closes 0 and has deleted the handle; thread 1 gets the
   same handle and so descriptor 0; thread 0 erases the slot; thread 2 gets descriptor 0 as well.  Both
   connections are open, and no close of 0 began after it was issued to thread 1.
   */
  lemma DescriptorIssuedTwice(c: Conn, d: Conn) returns (m: Machine, acts: seq<Action>)
    requires c != d
    ensures Reachable(m) && |m.threads| == 3 && m.threads[1] == Returned(Issue(c, 1), 0)
    ensures NotClosed(acts, 0)
    ensures var r := Run(m, acts);
            && r.threads == [ClearPbuf(m.cur, 0), Returned(Issue(c, 1), 0), Returned(Issue(d, 2), 0)]
            && Live(r, Issue(c, 1)) && Live(r, Issue(d, 2))
  {
    var m1 := HalfClosed(3, c);
    assert Holds(InUse(m1), 0, c);
    var before;
    before, m := CallHits(m1, 1, c, 0);
    acts := EraseAndCall(m, 2, d, c);
  }

  /** Thread 0 erases slot 0, and thread t gets descriptor 0 for a new connection. */
  lemma EraseAndCall(m: Machine, t: nat, d: Conn, c: Conn) returns (acts: seq<Action>)
    requires CanCall(m, t, d) && t != 0 && m.threads[0] == Deleted(m.cur, 0) && c != d
    requires InUse(m) == OneCell(c)
    ensures NotClosed(acts, 0)
    ensures var r := Run(m, acts);
            && r.threads == m.threads[0 := ClearPbuf(m.cur, 0)][t := Returned(Issue(d, m.count), 0)]
            && r.open == m.open[d := m.count]
  {
    var m1 := Next(m, Tick(0, true));
    CloseErases(m, 0);
    var after, r := CallInserts(m1, t, d, 0);
    acts := [Tick(0, true)] + after;
    assert acts[1..] == after;
    forall k | 0 <= k < |acts| ensures !(acts[k].CloseCall? && acts[k].s == 0) {
      assert k >= 2 ==> acts[k] == after[1..][k - 2];
    }
  }

  /**
   A connection nobody can close.  The table is full; thread 1 closes descriptor 0 and fetches its
   pointer; thread 0's next call replaces the table; thread 1 erases the slot of the old array.
   */
  lemma CloseThroughStalePointer() returns (m: Machine)
    ensures Reachable(m) && Holds(InUse(m), 0, 0) && 0 !in m.open
    ensures forall t :: 0 <= t < |m.threads| ==> m.threads[t].Idle?
  {
    var m1 := Filled(DescriptorTable.GROWTH);
    assert Holds(InUse(m1), 0, 0);
    var m2 := CloseBegins(m1, 1, 0);
    CloseDeletes(m2, 1, 0);
    m := GrowAndErase(Next(m2, Tick(1, true)));
  }

  lemma GrowAndErase(m: Machine) returns (m': Machine)
    requires CanCall(m, 0, DescriptorTable.GROWTH) && m.threads == [Idle, Deleted(m.cur, 0)]
    requires InUse(m) == Numbered(DescriptorTable.GROWTH) && 0 !in m.open
    ensures Reachable(m') && Holds(InUse(m'), 0, 0) && 0 !in m'.open
    ensures m'.threads == [Idle, Idle]
  {
    var n := DescriptorTable.GROWTH;
    var acts, m1 := CallInserts(m, 0, n, n);
    assert Holds(InUse(m1), 0, 0);
    m' := EraseStale(m1, m.cur);
  }

  lemma EraseStale(m: Machine, arr: nat) returns (m': Machine)
    requires Reachable(m) && |m.threads| == 2 && m.threads[0].Returned? && m.threads[1] == Deleted(arr, 0)
    requires arr < m.cur && Holds(InUse(m), 0, 0) && 0 !in m.open
    ensures Reachable(m') && Holds(InUse(m'), 0, 0) && 0 !in m'.open && m'.threads == [Idle, Idle]
  {
    var m1 := Back(m, 0);
    var m2 := StaleStep(m1, 1, arr, Deleted(arr, 0), ClearPbuf(arr, 0));
    var m3 := StaleStep(m2, 1, arr, ClearPbuf(arr, 0), ClearLeft(arr, 0));
    m' := StaleStep(m3, 1, arr, ClearLeft(arr, 0), Idle);
  }

  /** The stores of a close into an array that is no longer in use. */
  lemma StaleStep(m: Machine, t: nat, arr: nat, was: Pc, now: Pc) returns (m': Machine)
    requires Reachable(m) && t < |m.threads| && m.threads[t] == was && arr < m.cur
    requires || (was == Deleted(arr, 0) && now == ClearPbuf(arr, 0))
             || (was == ClearPbuf(arr, 0) && now == ClearLeft(arr, 0))
             || (was == ClearLeft(arr, 0) && now == Idle)
    ensures Reachable(m') && InUse(m') == InUse(m) && m'.cur == m.cur && m'.open == m.open
    ensures m'.threads == m.threads[t := now]
  {
    m' := Next(m, Tick(t, true));
    ReachableNext(m, Tick(t, true));
    AdvanceMemory(m, t, true);
    AdvanceControl(m, t, true);
    OldArrayMemory(m, m', was, arr);
  }

  lemma OldArrayMemory(m: Machine, m': Machine, pc: Pc, arr: nat)
    requires MemoryMoves(m, pc, true, m') && pc in {Deleted(arr, 0), ClearPbuf(arr, 0), ClearLeft(arr, 0)} && arr < m.cur
    ensures InUse(m') == InUse(m) && m'.cur == m.cur
  {
  }

  function Numbered(n: nat): Table {
    seq(n, i requires i >= 0 => EMPTY.(conn := Some(i)))
  }

  /** The table after connections 0 to n - 1 were opened, in this order. */
  function Filling(n: nat): Table
    requires n <= DescriptorTable.GROWTH
  {
    if n == 0 then [] else Numbered(n) + Empty(DescriptorTable.GROWTH - n)
  }

  lemma FillingNext(n: nat)
    requires n < DescriptorTable.GROWTH
    ensures FirstFree(Filling(n), n, n) && Inserted(Filling(n), n, n) == Filling(n + 1)
  {
  }

  lemma FilledNext(m: Machine, n: nat) returns (m': Machine)
    requires n < DescriptorTable.GROWTH
    requires CanCall(m, 0, n) && m.threads == [Idle, Idle] && InUse(m) == Filling(n)
    ensures Reachable(m') && m'.lock.None? && m'.threads == [Idle, Idle]
    ensures InUse(m') == Filling(n + 1) && m'.open.Keys == m.open.Keys + {n}
  {
    FillingNext(n);
    m' := Opens(m, 0, n, n, Filling(n), Filling(n + 1));
  }

  /** Thread 0 has opened n connections. */
  lemma {:induction false} Filled(n: nat) returns (m: Machine)
    requires n <= DescriptorTable.GROWTH
    ensures Reachable(m) && m.lock.None? && m.threads == [Idle, Idle]
    ensures InUse(m) == Filling(n) && forall c :: c in m.open ==> c < n
  {
    if n == 0 {
      StartReachable(2);
      m := Start(2);
    } else {
      var m1 := Filled(n - 1);
      m := FilledNext(m1, n - 1);
    }
  }

  /**
   A close can also be fatal to an issue that reuses an empty slot.  Threads 0 and 1 both close 0; after
   thread 0 has erased the slot, thread 2 gets 0 for d, which is nowhere in the table; then thread 1
   deletes d's handle and erases the slot again.
   */
  lemma FreeSlotIssueIsLost(c: Conn, d: Conn) returns (m: Machine, call: seq<Action>)
    requires c != d
    ensures Reachable(m) && (forall i :: !Holds(InUse(m), i, d)) && d !in m.open
    ensures |call| > 0 && call[0] == New(2, d) && OnlyTicks(call[1..])
    ensures Run(m, call).threads == [ClearPbuf(m.cur, 0), Closing(m.cur, 0), Returned(Issue(d, 1), 0)]
    ensures var r := Next(Next(Run(m, call), Tick(1, true)), Tick(1, true));
            d !in r.open && forall i :: !Holds(InUse(r), i, d)
  {
    m := ClosedTwice(c);
    var m1;
    call, m1 := CallInserts(m, 2, d, 0);
    assert Holds(InUse(m1), 0, d);
    CloseDeletes(m1, 1, d);
    CloseErases(Next(m1, Tick(1, true)), 1);
    var r := Next(Next(m1, Tick(1, true)), Tick(1, true));
    forall i ensures !Holds(InUse(r), i, d) {
      assert 0 <= i < |InUse(r)| ==> InUse(r)[i] == EMPTY;
    }
  }

  lemma DeletedAndErased(m: Machine, t: nat, c: Conn) returns (m': Machine)
    requires Reachable(m) && t < |m.threads| && m.threads[t] == Closing(m.cur, 0) && Holds(InUse(m), 0, c)
    ensures CloseFrame(m, m', t, ClearPbuf(m.cur, 0)) && m'.open == m.open - {c}
    ensures InUse(m') == InUse(m)[0 := InUse(m)[0].(conn := None)]
  {
    CloseDeletes(m, t, c);
    CloseErases(Next(m, Tick(t, true)), t);
    m' := Next(Next(m, Tick(t, true)), Tick(t, true));
  }

  /** Of two closes of descriptor 0 that began together, thread 0's has erased the slot. */
  lemma ClosedTwice(c: Conn) returns (m: Machine)
    ensures Reachable(m) && m.lock.None? && m.threads == [ClearPbuf(m.cur, 0), Closing(m.cur, 0), Idle]
    ensures m.open == map[] && m.count == 1 && InUse(m) == Empty(DescriptorTable.GROWTH)
    ensures forall i, d :: !Holds(InUse(m), i, d)
  {
    var m1 := FirstCall(3, c);
    assert Holds(InUse(m1), 0, c);
    var m2 := CloseBegins(m1, 0, c);
    var m3 := CloseBegins(m2, 1, c);
    m := DeletedAndErased(m3, 0, c);
    forall i, d ensures !Holds(InUse(m), i, d) {
      assert 0 <= i < |InUse(m)| ==> InUse(m)[i] == EMPTY;
    }
  }

  lemma UseBegins(m: Machine, t: nat, c: Conn) returns (m': Machine)
    requires Reachable(m) && t < |m.threads| && m.threads[t].Idle? && m.lock.None? && Holds(InUse(m), 0, c)
    ensures CloseFrame(m, m', t, Using(m.cur, 0)) && m'.open == m.open && InUse(m') == InUse(m)
  {
    ReachableInv(m);
    ReachableNext(m, UseCall(t, 0));
    m' := Next(m, UseCall(t, 0));
  }

  /**
   Thread 1 is in a recv on descriptor 0 while thread 0 closes it and thread 2 gets it for d.  Then the
   recv stores a pbuf of the old connection for the new one.
   */
  lemma LeftoverForNewConnection(c: Conn, d: Conn, p: Pbuf) returns (m: Machine)
    requires c != d
    ensures Reachable(m) && Clean(m, 0) && Live(m, Issue(d, 1))
    ensures m.threads == [ClearPbuf(m.cur, 0), Using(m.cur, 0), Returned(Issue(d, 1), 0)]
    ensures var r := Next(m, Write(1, PbufWord(Some(p)))); Holds(InUse(r), 0, d) && InUse(r)[0].pbuf == Some(p)
  {
    var m1 := UsedAndClosed(c);
    var acts;
    acts, m := CallInserts(m1, 2, d, 0);
    WriteLands(m, 1, d, p);
  }

  lemma UsedAndClosed(c: Conn) returns (m: Machine)
    ensures Reachable(m) && m.lock.None? && m.threads == [ClearPbuf(m.cur, 0), Using(m.cur, 0), Idle]
    ensures m.open == map[] && m.count == 1 && InUse(m) == Empty(DescriptorTable.GROWTH)
  {
    var m1 := FirstCall(3, c);
    assert Holds(InUse(m1), 0, c);
    var m2 := UseBegins(m1, 1, c);
    var m3 := CloseBegins(m2, 0, c);
    m := DeletedAndErased(m3, 0, c);
  }

  lemma WriteLands(m: Machine, u: nat, d: Conn, p: Pbuf)
    requires u < |m.threads| && m.threads[u] == Using(m.cur, 0) && Holds(InUse(m), 0, d)
    ensures var r := Next(m, Write(u, PbufWord(Some(p)))); Holds(InUse(r), 0, d) && InUse(r)[0].pbuf == Some(p)
  {
  }

  // ---------- A growth in progress ----------

  /** Thread t is in a call for connection c, which is new, in a full table; it has not replaced the table yet. */
  ghost predicate Growing(m: Machine, t: nat, c: Conn) {
    && t < |m.threads| && FullUpTo(InUse(m), |InUse(m)|) && (forall j :: !Holds(InUse(m), j, c))
    && var pc := m.threads[t];
       (pc.AtLock? || pc.ScanFor? || pc.ScanFree? || pc.Allocate? || HasNext(pc)) && pc.who.conn == c
  }

  /** Growing, m' is what m becomes by steps of thread t. */
  ghost predicate GrowthFrame(m: Machine, m': Machine, t: nat) {
    && Reachable(m') && Inv(m') && InUse(m') == InUse(m) && m'.cur == m.cur && m'.open == m.open
    && t < |m.threads| == |m'.threads| && m'.threads == m.threads[t := m'.threads[t]]
  }

  lemma GrowthStep(m: Machine, t: nat, c: Conn) returns (m': Machine)
    requires Reachable(m) && Inv(m) && Running(m, t) && Growing(m, t, c) && !m.threads[t].Swap?
    ensures GrowthFrame(m, m', t) && Growing(m', t, c) && Running(m', t)
    ensures StepsLeft(m'.size, m'.threads[t]) < StepsLeft(m.size, m.threads[t])
  {
    m' := RunStep(m, t);
    ReachableNext(m, Tick(t, true));
    GrowthMemory(m, t, m', c);
  }

  lemma RunStep(m: Machine, t: nat) returns (m': Machine)
    requires Inv(m) && Running(m, t)
    ensures m' == Next(m, Tick(t, true)) == Advance(m, t, true) && Inv(m') && m'.open == m.open
    ensures t < |m'.threads| == |m.threads| && m'.threads == m.threads[t := m'.threads[t]]
    ensures (Running(m', t) || m'.threads[t].Returned?) && StepsLeft(m'.size, m'.threads[t]) < StepsLeft(m.size, m.threads[t])
  {
    m' := Advance(m, t, true);
    StepRuns(m, t, true);
    StepFrame(m, t, true);
    AdvanceControl(m, t, true);
  }

  lemma GrowthMemory(m: Machine, t: nat, m': Machine, c: Conn)
    requires Inv(m) && Running(m, t) && Growing(m, t, c) && !m.threads[t].Swap? && m' == Advance(m, t, true)
    ensures InUse(m') == InUse(m) && m'.cur == m.cur && Growing(m', t, c)
  {
    AdvanceMemory(m, t, true);
    AdvanceControl(m, t, true);
    assert InSection(m.threads[t]) ==> HolderPc(m) == m.threads[t];
  }

  /** It gets to the point between raising the size and replacing the table. */
  lemma {:induction false} ToSwap(m: Machine, t: nat, c: Conn) returns (m': Machine)
    requires Reachable(m) && Inv(m) && Running(m, t) && Growing(m, t, c)
    ensures GrowthFrame(m, m', t) && m'.threads[t].Swap?
    decreases StepsLeft(m.size, if t < |m.threads| then m.threads[t] else Idle)
  {
    m' := m;
    if !m.threads[t].Swap? {
      var m1 := GrowthStep(m, t, c);
      m' := ToSwap(m1, t, c);
    }
  }

  /** Thread 0 is about to replace a full table; thread 1 is where it was, at `pc`. */
  lemma SwapPending(m: Machine, pc: Pc) returns (m': Machine)
    requires Reachable(m) && m.lock.None? && m.threads == [Idle, pc] && InUse(m) == Filling(DescriptorTable.GROWTH)
    requires DescriptorTable.GROWTH !in m.open
    ensures Reachable(m') && Inv(m') && |m'.threads| == 2 && m'.threads[0].Swap? && m'.threads[1] == pc
    ensures m'.cur == m.cur && m'.open.Keys == m.open.Keys + {DescriptorTable.GROWTH} && Holds(InUse(m'), 0, 0)
    ensures HolderPc(m') == m'.threads[0]
  {
    var n := DescriptorTable.GROWTH;
    CallBegins(m, 0, n);
    var m1 := Next(m, New(0, n));
    m' := ToSwap(m1, 0, n);
  }

  /**
   The range check fails, a lost close and a lost receive store, all from one growth.  First: thread 0
   has raised the size and not replaced the table.
   */
  lemma RangeCheckFails() returns (m: Machine, s: nat)
    ensures Reachable(m) && s < m.size && !(s < |InUse(m)|)
  {
    var m1 := Filled(DescriptorTable.GROWTH);
    m := SwapPending(m1, Idle);
    s := |InUse(m)|;
  }

  /** Thread 1's close clears the slot after it was copied; the steps of thread 0 bring the connection back. */
  lemma CloseAfterCopy() returns (m: Machine, acts: seq<Action>)
    ensures Reachable(m) && |m.threads| == 2 && m.threads[1] == Deleted(m.cur, 0) && 0 !in m.open
    ensures Copied(HolderPc(m), 0, ConnField) && Holds(InUse(m), 0, 0)
    ensures var m' := Advance(m, 1, true);
            Read(m', m'.cur, 0).conn.None? && OnlyTicks(acts) && Holds(InUse(Run(m', acts)), 0, 0)
  {
    var m1 := Filled(DescriptorTable.GROWTH);
    assert Holds(InUse(m1), 0, 0);
    var m2 := CloseBegins(m1, 1, 0);
    CloseDeletes(m2, 1, 0);
    m := SwapPending(Next(m2, Tick(1, true)), Deleted(m1.cur, 0));
    acts := LateCloseIsLost(m, 1, true, 0, 0);
  }

  /** Thread 1's recv stores a count after the old one was copied; a later call finds the old one. */
  lemma CountAfterCopy() returns (m: Machine, n: nat, acts: seq<Action>)
    ensures Reachable(m) && |m.threads| == 2 && m.threads[1] == Using(m.cur, 0)
    ensures var m' := Next(m, Write(1, LeftWord(n)));
            && Read(m', m'.cur, 0).bytesLeft == n && Unchanged(m', acts, 0, LeftWord(n))
            && Read(Run(m', acts), Run(m', acts).cur, 0).bytesLeft != n
  {
    var m1 := Filled(DescriptorTable.GROWTH);
    assert Holds(InUse(m1), 0, 0);
    var m2 := UseBegins(m1, 1, 0);
    m := SwapPending(m2, Using(m1.cur, 0));
    n, acts := StoreMissesCopy(m, 1);
  }

  lemma StoreMissesCopy(m: Machine, u: nat) returns (n: nat, acts: seq<Action>)
    requires Inv(m) && HolderPc(m).Swap? && u < |m.threads| && m.threads[u] == Using(m.cur, 0)
    ensures var m' := Next(m, Write(u, LeftWord(n)));
            && Read(m', m'.cur, 0).bytesLeft == n && Unchanged(m', acts, 0, LeftWord(n))
            && Read(Run(m', acts), Run(m', acts).cur, 0).bytesLeft != n
  {
    n := Read(m, m.cur + 1, 0).bytesLeft + 1;
    var m' := WriteCount(m, u, n);
    acts := HolderSwaps(m', 0, LeftWord(n));
  }

  lemma WriteCount(m: Machine, u: nat, n: nat) returns (m': Machine)
    requires Inv(m) && u < |m.threads| && m.threads[u] == Using(m.cur, 0)
    ensures m' == Next(m, Write(u, LeftWord(n))) && Inv(m') && HolderPc(m') == HolderPc(m) && m'.cur == m.cur
    ensures 0 < |InUse(m')| && Read(m', m.cur, 0).bytesLeft == n && Read(m', m.cur + 1, 0) == Read(m, m.cur + 1, 0)
  {
    m' := Next(m, Write(u, LeftWord(n)));
    NextKeeps(m, Write(u, LeftWord(n)));
    CallMemory(m, Write(u, LeftWord(n)));
  }
}
