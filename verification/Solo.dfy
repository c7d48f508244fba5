/**
 The small steps, taken by one thread without interference, are the table operation of module
 DescriptorTable: both modules model the same code.
 */
module Solo {
  import opened Wrappers
  import opened NetLib
  import opened Concurrent
  import DescriptorTable
  import SocketCalls

  /** What module Concurrent follows of a slot. */
  function CellOf(slot: DescriptorTable.Slot): Cell {
    Cell(slot.conn, slot.pbuf, slot.bytesLeft)
  }

  function Cells(slots: seq<DescriptorTable.Slot>): (r: Table)
    ensures |r| == |slots| && forall i :: 0 <= i < |r| ==> r[i] == CellOf(slots[i])
  {
    seq(|slots|, i requires 0 <= i < |slots| => CellOf(slots[i]))
  }

  /** A bound on the steps a thread inside the call has left. */
  function StepsLeft(size: nat, pc: Pc): nat {
    match pc
    case AtLock(_) => 5 * size + 18
    case ScanFor(_, i) => (if i <= size then size - i else 0) + 4 * size + 16
    case ScanFree(_, i) => (if i <= size then size - i else 0) + 3 * size + 14
    case Allocate(_) => 3 * size + 12
    case Copy(_, _, i, f) => (if i < size then 3 * (size - i) - Rank(f) else 0) + 10
    case Bump(_, _) => 8
    case Swap(_, _) => 6
    case StoreFree(_, _) => 4
    case StoreNew(_, _) => 4
    case Unlock(_, _) => 2
    case _ => 0
  }

  /** The call runs: it has the lock, or finds it free. */
  predicate Running(m: Machine, t: nat) {
    t < |m.threads| && (InSection(m.threads[t]) || (m.threads[t].AtLock? && m.lock.None?))
  }

  lemma ScanShrinks(m: Machine, t: nat, memory: bool)
    requires Running(m, t) && (m.threads[t].AtLock? || m.threads[t].ScanFor? || m.threads[t].ScanFree?)
    ensures var m' := Advance(m, t, memory);
            t < |m'.threads| && StepsLeft(m'.size, m'.threads[t]) < StepsLeft(m.size, m.threads[t])
  {
    assert Advance(m, t, memory).size == m.size;
  }

  lemma GrowthShrinks(m: Machine, t: nat, memory: bool)
    requires Running(m, t) && (m.threads[t].Allocate? || HasNext(m.threads[t]))
    ensures var m' := Advance(m, t, memory);
            t < |m'.threads| && StepsLeft(m'.size, m'.threads[t]) < StepsLeft(m.size, m.threads[t])
  {
    assert !m.threads[t].Bump? ==> Advance(m, t, memory).size == m.size;
  }

  lemma StepsShrink(m: Machine, t: nat, memory: bool)
    requires Running(m, t)
    ensures var m' := Advance(m, t, memory);
            t < |m'.threads| && StepsLeft(m'.size, m'.threads[t]) < StepsLeft(m.size, m.threads[t])
  {
    var pc := m.threads[t];
    if pc.AtLock? || pc.ScanFor? || pc.ScanFree? {
      ScanShrinks(m, t, memory);
    } else if pc.Allocate? || HasNext(pc) {
      GrowthShrinks(m, t, memory);
    }
  }

  // The empty branches below, here and in module Exclusive, split the steps of a call into groups so that
  // each query stays small.
  lemma StepStays(m: Machine, t: nat, memory: bool)
    requires Running(m, t)
    ensures var m' := Advance(m, t, memory);
            && |m'.threads| == |m.threads|
            && (Running(m', t) || (m'.threads[t].Returned? && m'.lock.None?))
  {
    var pc := m.threads[t];
    if pc.ScanFor? || pc.ScanFree? || pc.AtLock? {
    } else if pc.StoreFree? || pc.StoreNew? || pc.Unlock? {
    } else {
    }
  }

  lemma StepRuns(m: Machine, t: nat, memory: bool)
    requires Inv(m) && Running(m, t)
    ensures var m' := Advance(m, t, memory);
            && Inv(m') && |m'.threads| == |m.threads|
            && (Running(m', t) || (m'.threads[t].Returned? && m'.lock.None?))
            && StepsLeft(m'.size, m'.threads[t]) < StepsLeft(m.size, m.threads[t])
  {
    AdvanceKeeps(m, t, memory);
    StepStays(m, t, memory);
    StepsShrink(m, t, memory);
  }

  /** The table is replaced by a larger one or not at all. */
  predicate Grows(m: Machine, m': Machine) {
    m.cur <= m'.cur && |InUse(m)| <= |InUse(m')| && (m'.cur == m.cur <==> |InUse(m')| == |InUse(m)|)
  }

  lemma StepGrows(m: Machine, t: nat, memory: bool)
    requires Inv(m) && Running(m, t)
    ensures Grows(m, Advance(m, t, memory))
  {
    assert InSection(m.threads[t]) ==> HolderPc(m) == m.threads[t];
    if m.threads[t].Swap? {
    } else {
      assert Advance(m, t, memory).cur == m.cur;
    }
  }

  /** What a step of a call leaves alone: the other threads and the library. */
  lemma StepFrame(m: Machine, t: nat, memory: bool)
    requires Running(m, t)
    ensures var m' := Advance(m, t, memory);
            && m'.open == m.open && m'.count == m.count && |m'.threads| == |m.threads|
            && (forall v :: 0 <= v < |m.threads| && v != t ==> m'.threads[v] == m.threads[v])
  {
    var pc := m.threads[t];
    if pc.ScanFor? || pc.ScanFree? || pc.AtLock? {
    } else if pc.StoreFree? || pc.StoreNew? || pc.Unlock? {
    } else {
    }
  }

  predicate Done(m: Machine, t: nat) {
    t < |m.threads| && m.threads[t].Returned? && m.lock.None?
  }

  /** Thread t alone, until its call has returned. */
  function Finish(m: Machine, t: nat, memory: bool): (r: Machine)
    requires Inv(m) && (Running(m, t) || Done(m, t))
    ensures Inv(r) && Done(r, t)
    decreases StepsLeft(m.size, if t < |m.threads| then m.threads[t] else Idle)
  {
    if m.threads[t].Returned? then m
    else
      StepRuns(m, t, memory);
      Finish(Advance(m, t, memory), t, memory)
  }

  lemma {:induction false} FinishFrame(m: Machine, t: nat, memory: bool)
    requires Inv(m) && (Running(m, t) || Done(m, t))
    ensures var m' := Finish(m, t, memory);
            && m'.open == m.open && m'.count == m.count && |m'.threads| == |m.threads|
            && (forall v :: 0 <= v < |m.threads| && v != t ==> m'.threads[v] == m.threads[v])
            && Grows(m, m')
    decreases StepsLeft(m.size, if t < |m.threads| then m.threads[t] else Idle)
  {
    if !m.threads[t].Returned? {
      StepRuns(m, t, memory);
      StepFrame(m, t, memory);
      StepGrows(m, t, memory);
      FinishFrame(Advance(m, t, memory), t, memory);
    }
  }

  /** The thread is inside a call for `who`, or has just returned from it. */
  predicate IsFor(pc: Pc, who: Issue) {
    (InSection(pc) || pc.AtLock? || pc.Returned?) && pc.who == who
  }

  lemma StepIsFor(m: Machine, t: nat, memory: bool, who: Issue)
    requires Running(m, t) && IsFor(m.threads[t], who)
    ensures t < |Advance(m, t, memory).threads| && IsFor(Advance(m, t, memory).threads[t], who)
  {
    var pc := m.threads[t];
    if pc.ScanFor? || pc.ScanFree? || pc.AtLock? {
    } else if pc.StoreFree? || pc.StoreNew? || pc.Unlock? {
    } else {
    }
  }

  lemma {:induction false} FinishIsFor(m: Machine, t: nat, memory: bool, who: Issue)
    requires Inv(m) && (Running(m, t) || Done(m, t)) && IsFor(m.threads[t], who)
    ensures IsFor(Finish(m, t, memory).threads[t], who)
    decreases StepsLeft(m.size, if t < |m.threads| then m.threads[t] else Idle)
  {
    if !m.threads[t].Returned? {
      StepRuns(m, t, memory);
      StepIsFor(m, t, memory, who);
      FinishIsFor(Advance(m, t, memory), t, memory, who);
    }
  }

  lemma {:induction false} FinishIsRun(m: Machine, t: nat, memory: bool) returns (acts: seq<Action>)
    requires Inv(m) && (Running(m, t) || Done(m, t))
    ensures OnlyTicks(acts) && Run(m, acts) == Finish(m, t, memory)
    decreases StepsLeft(m.size, if t < |m.threads| then m.threads[t] else Idle)
  {
    if m.threads[t].Returned? {
      acts := [];
    } else {
      StepRuns(m, t, memory);
      var rest := FinishIsRun(Advance(m, t, memory), t, memory);
      acts := [Tick(t, memory)] + rest;
      assert acts[1..] == rest;
    }
  }

  // ---------- The table operation ----------

  function Empty(n: nat): Table {
    seq(n, _ => EMPTY)
  }

  ghost predicate FullUpTo(a: Table, n: nat) {
    n <= |a| && forall j :: 0 <= j < n ==> a[j].conn.Some?
  }

  /** A zeroed slot into which the fields before f were copied. */
  function Partial(cell: Cell, f: Field): Cell {
    match f
    case ConnField => EMPTY
    case PbufField => EMPTY.(conn := cell.conn)
    case LeftField => EMPTY.(conn := cell.conn, pbuf := cell.pbuf)
  }

  /** The first k slots are copied, and slot k up to field f; the others are still empty. */
  ghost predicate CopyOf(b: Table, was: Table, k: nat, f: Field) {
    && k <= |was| && |b| == |was| + DescriptorTable.GROWTH && (f.ConnField? || k < |was|)
    && forall j :: 0 <= j < |b| ==> b[j] == if j < k then was[j] else if j == k < |was| then Partial(was[j], f) else EMPTY
  }

  /** The array a growth copies into. */
  function Newest(m: Machine): Table {
    if m.heap != [] then m.heap[|m.heap| - 1] else []
  }

  /** How far thread t has got with looking its connection up in `slots`. */
  ghost predicate Fits(m: Machine, t: nat, slots: seq<DescriptorTable.Slot>, c: Conn, memory: bool, zero: NcType)
  {
    var a, was := InUse(m), Cells(slots);
    var r := DescriptorTable.Conn2Fd(slots, c, memory, zero);
    t < |m.threads| &&
    match m.threads[t]
    case AtLock(who) => who.conn == c && a == was
    case ScanFor(who, _) => who.conn == c && a == was
    case ScanFree(who, i) => who.conn == c && a == was && FullUpTo(a, i)
    case StoreFree(who, i) => who.conn == c && a == was && FullUpTo(a, i)
    case Allocate(who) => who.conn == c && a == was && FullUpTo(a, |a|)
    case Copy(who, _, i, f) =>
      who.conn == c && a == was && FullUpTo(a, |a|) && memory && CopyOf(Newest(m), was, i, f)
    case Bump(who, _) =>
      who.conn == c && a == was && FullUpTo(a, |a|) && memory && CopyOf(Newest(m), was, |was|, ConnField)
    case Swap(who, _) =>
      who.conn == c && a == was && FullUpTo(a, |a|) && memory && CopyOf(Newest(m), was, |was|, ConnField)
    case StoreNew(who, i) => who.conn == c && i == |was| && CopyOf(a, was, |was|, ConnField) && FullUpTo(a, i) && memory
    case Unlock(who, fd) => who.conn == c && a == Cells(r.slots) && fd == r.fd
    case Returned(who, fd) => who.conn == c && a == Cells(r.slots) && fd == r.fd
    case _ => false
  }

  lemma FirstIs(slots: seq<DescriptorTable.Slot>, a: Table, x: Option<Conn>, i: nat)
    requires a == Cells(slots) && i <= |a|
    requires (i < |a| ==> a[i].conn == x) && forall j :: 0 <= j < i ==> a[j].conn != x
    ensures DescriptorTable.IndexOf(slots, x) == i
  {
    assert forall j :: 0 <= j < |slots| ==> slots[j].conn == a[j].conn;
    DescriptorTable.IndexOfIsFirst(slots, x, i);
  }

  lemma AbsentIs(slots: seq<DescriptorTable.Slot>, a: Table, c: Conn)
    requires a == Cells(slots) && Absent(a, c)
    ensures DescriptorTable.IndexOf(slots, Some(c)) == |slots|
  {
    forall j | 0 <= j < |a| ensures a[j].conn != Some(c) {
      assert !Holds(a, j, c);
    }
    FirstIs(slots, a, Some(c), |a|);
  }

  lemma InsertedCells(slots: seq<DescriptorTable.Slot>, a: Table, i: nat, c: Conn)
    requires i < |slots| && a == Cells(slots)
    ensures a[i := a[i].(conn := Some(c))] == Cells(slots[i := slots[i].(conn := Some(c))])
  {
  }

  lemma StoreFreeFits(m: Machine, t: nat, slots: seq<DescriptorTable.Slot>, c: Conn, memory: bool, zero: NcType)
    requires Inv(m) && t < |m.threads| && m.threads[t].StoreFree? && Fits(m, t, slots, c, memory, zero)
    ensures Fits(Advance(m, t, memory), t, slots, c, memory, zero)
  {
    var a, i := InUse(m), m.threads[t].i;
    assert HolderPc(m) == m.threads[t];
    AbsentIs(slots, a, c);
    FirstIs(slots, a, None, i);
    InsertedCells(slots, a, i, c);
  }

  /** Into the first slot of the new part: the table was full, and the connection was not in it. */
  lemma StoreNewFits(m: Machine, t: nat, slots: seq<DescriptorTable.Slot>, c: Conn, memory: bool, zero: NcType)
    requires Inv(m) && t < |m.threads| && m.threads[t].StoreNew? && Fits(m, t, slots, c, memory, zero)
    ensures Fits(Advance(m, t, memory), t, slots, c, memory, zero)
  {
    var a, n := InUse(m), |slots|;
    var grown := DescriptorTable.Grown(slots, zero);
    assert HolderPc(m) == m.threads[t];
    assert a == Cells(grown);
    forall j | 0 <= j < n ensures slots[j].conn == a[j].conn && slots[j].conn != Some(c) && slots[j].conn != None {
      assert a[j] == CellOf(slots[j]) && !Holds(a, j, c);
    }
    DescriptorTable.IndexOfIsFirst(slots, Some(c), n);
    DescriptorTable.IndexOfIsFirst(slots, None, n);
    InsertedCells(grown, a, n, c);
  }

  lemma ScanForFits(m: Machine, t: nat, slots: seq<DescriptorTable.Slot>, c: Conn, memory: bool, zero: NcType)
    requires Inv(m) && t < |m.threads| && m.threads[t].ScanFor? && Fits(m, t, slots, c, memory, zero)
    ensures Fits(Advance(m, t, memory), t, slots, c, memory, zero)
  {
    var a, i := InUse(m), m.threads[t].i;
    assert HolderPc(m) == m.threads[t];
    if i < m.size && a[i].conn == Some(c) {
      forall j | 0 <= j < i ensures a[j].conn != Some(c) { assert !Holds(a, j, c); }
      FirstIs(slots, a, Some(c), i);
    }
  }

  lemma ScanFreeFits(m: Machine, t: nat, slots: seq<DescriptorTable.Slot>, c: Conn, memory: bool, zero: NcType)
    requires Inv(m) && t < |m.threads| && m.threads[t].ScanFree? && Fits(m, t, slots, c, memory, zero)
    ensures Fits(Advance(m, t, memory), t, slots, c, memory, zero)
  {
    assert HolderPc(m) == m.threads[t];
  }

  lemma AllocateFits(m: Machine, t: nat, slots: seq<DescriptorTable.Slot>, c: Conn, memory: bool, zero: NcType)
    requires Inv(m) && t < |m.threads| && m.threads[t].Allocate? && Fits(m, t, slots, c, memory, zero)
    ensures Fits(Advance(m, t, memory), t, slots, c, memory, zero)
  {
    var a := InUse(m);
    assert HolderPc(m) == m.threads[t];
    AbsentIs(slots, a, c);
    FirstIs(slots, a, None, |a|);
  }

  /** One more word copied. */
  lemma CopyOfNext(b: Table, was: Table, k: nat, f: Field)
    requires CopyOf(b, was, k, f) && k < |was|
    ensures var b' := b[k := With(b[k], Get(was[k], f))];
            if f.LeftField? then CopyOf(b', was, k + 1, ConnField)
            else CopyOf(b', was, k, if f.ConnField? then PbufField else LeftField)
  {
  }

  lemma CopyFits(m: Machine, t: nat, slots: seq<DescriptorTable.Slot>, c: Conn, memory: bool, zero: NcType)
    requires Inv(m) && t < |m.threads| && m.threads[t].Copy? && Fits(m, t, slots, c, memory, zero)
    ensures Fits(Advance(m, t, memory), t, slots, c, memory, zero)
  {
    var pc := m.threads[t];
    assert HolderPc(m) == pc;
    if pc.i < m.size {
      CopyOfNext(Newest(m), Cells(slots), pc.i, pc.f);
    }
  }

  lemma SwapFits(m: Machine, t: nat, slots: seq<DescriptorTable.Slot>, c: Conn, memory: bool, zero: NcType)
    requires Inv(m) && t < |m.threads| && m.threads[t].Swap? && Fits(m, t, slots, c, memory, zero)
    ensures Fits(Advance(m, t, memory), t, slots, c, memory, zero)
  {
    assert HolderPc(m) == m.threads[t];
  }

  lemma OtherFits(m: Machine, t: nat, slots: seq<DescriptorTable.Slot>, c: Conn, memory: bool, zero: NcType)
    requires Inv(m) && t < |m.threads| && Fits(m, t, slots, c, memory, zero)
    requires m.threads[t].AtLock? || m.threads[t].Bump? || m.threads[t].Unlock?
    ensures Fits(Advance(m, t, memory), t, slots, c, memory, zero)
  {
  }

  lemma FitsStep(m: Machine, t: nat, slots: seq<DescriptorTable.Slot>, c: Conn, memory: bool, zero: NcType)
    requires Inv(m) && Running(m, t) && Fits(m, t, slots, c, memory, zero)
    ensures Fits(Advance(m, t, memory), t, slots, c, memory, zero)
  {
    var pc := m.threads[t];
    if pc.ScanFor? {
      ScanForFits(m, t, slots, c, memory, zero);
    } else if pc.ScanFree? {
      ScanFreeFits(m, t, slots, c, memory, zero);
    } else if pc.StoreFree? {
      StoreFreeFits(m, t, slots, c, memory, zero);
    } else if pc.StoreNew? {
      StoreNewFits(m, t, slots, c, memory, zero);
    } else if pc.Allocate? {
      AllocateFits(m, t, slots, c, memory, zero);
    } else if pc.Copy? {
      CopyFits(m, t, slots, c, memory, zero);
    } else if pc.Swap? {
      SwapFits(m, t, slots, c, memory, zero);
    } else {
      OtherFits(m, t, slots, c, memory, zero);
    }
  }

  lemma {:induction false} FinishFits(m: Machine, t: nat, slots: seq<DescriptorTable.Slot>, c: Conn,
                                      memory: bool, zero: NcType)
    requires Inv(m) && (Running(m, t) || Done(m, t))
    requires Fits(m, t, slots, c, memory, zero)
    ensures Fits(Finish(m, t, memory), t, slots, c, memory, zero)
    decreases StepsLeft(m.size, if t < |m.threads| then m.threads[t] else Idle)
  {
    if !m.threads[t].Returned? {
      StepRuns(m, t, memory);
      FitsStep(m, t, slots, c, memory, zero);
      FinishFits(Advance(m, t, memory), t, slots, c, memory, zero);
    }
  }

  /**
   With the lock free and nobody else stepping, the call terminates with the table and the descriptor
   of DescriptorTable.Conn2Fd.
   */
  lemma SoloCallIsConn2Fd(m: Machine, t: nat, slots: seq<DescriptorTable.Slot>, c: Conn, memory: bool, zero: NcType)
    requires Inv(m) && t < |m.threads| && m.threads[t].AtLock? && m.threads[t].who.conn == c && m.lock.None?
    requires InUse(m) == Cells(slots)
    ensures var r := DescriptorTable.Conn2Fd(slots, c, memory, zero);
            var m' := Finish(m, t, memory);
            InUse(m') == Cells(r.slots) && m'.threads[t].who.conn == c && m'.threads[t].fd == r.fd
  {
    FinishFits(m, t, slots, c, memory, zero);
  }

  // ---------- A close ----------

  /** Thread t is in a close of slot s of the table in use. */
  predicate InClose(m: Machine, t: nat, s: nat, pc: Pc) {
    t < |m.threads| && m.cur < |m.heap| && s < |InUse(m)| && m.threads[t] == pc
  }

  lemma DeleteStep(m: Machine, t: nat, s: nat) returns (m': Machine)
    requires InClose(m, t, s, Closing(m.cur, s)) && InUse(m)[s].conn.Some?
    ensures m' == Next(m, Tick(t, true)) && InClose(m', t, s, Deleted(m'.cur, s)) && InUse(m') == InUse(m)
    ensures m'.threads == m.threads[t := Deleted(m.cur, s)] && m'.open == m.open - {InUse(m)[s].conn.value}
  {
    m' := Next(m, Tick(t, true));
  }

  lemma EraseStep(m: Machine, t: nat, s: nat) returns (m': Machine)
    requires InClose(m, t, s, Deleted(m.cur, s))
    ensures m' == Next(m, Tick(t, true)) && InClose(m', t, s, ClearPbuf(m'.cur, s)) && m'.open == m.open
    ensures m'.threads == m.threads[t := ClearPbuf(m.cur, s)]
    ensures InUse(m') == InUse(m)[s := InUse(m)[s].(conn := None)]
  {
    m' := Next(m, Tick(t, true));
  }

  /** Both stores that clear the receive fields. */
  lemma ClearSteps(m: Machine, t: nat, s: nat) returns (m1: Machine, m': Machine)
    requires InClose(m, t, s, ClearPbuf(m.cur, s))
    ensures m1 == Next(m, Tick(t, true)) && m' == Next(m1, Tick(t, true)) && m'.open == m.open
    ensures m'.threads == m.threads[t := Idle]
    ensures InUse(m') == InUse(m)[s := Cell(InUse(m)[s].conn, None, 0)]
  {
    m1 := Next(m, Tick(t, true));
    assert m1.threads == m.threads[t := ClearLeft(m.cur, s)];
    m' := Next(m1, Tick(t, true));
  }

  /** The call and its four steps, with nobody in between. */
  function CloseActions(t: nat, s: nat): seq<Action> {
    [CloseCall(t, s)] + ([Tick(t, true)] + ([Tick(t, true)] + ([Tick(t, true)] + [Tick(t, true)])))
  }

  /**
   A close that nobody interrupts does to the table in use, and to the library's connections, what
   SocketCalls.Close does; at any moment, also while another thread holds the lock.
   */
  lemma SoloCloseIsClose(m: Machine, t: nat, s: nat, st: SocketCalls.State)
    requires Inv(m) && t < |m.threads| && m.threads[t].Idle?
    requires InUse(m) == Cells(st.slots) && m.open.Keys == st.lib.open.Keys && m.size == |InUse(m)|
    ensures var m', st' := Run(m, CloseActions(t, s)), SocketCalls.Close(st, s).0;
            && InUse(m') == Cells(st'.slots) && m'.open.Keys == st'.lib.open.Keys && m'.threads == m.threads
  {
    var m1 := Next(m, CloseCall(t, s));
    RunCons(m, CloseCall(t, s), CloseActions(t, s)[1..]);
    assert CloseActions(t, s)[1..] == [Tick(t, true)] + ([Tick(t, true)] + ([Tick(t, true)] + [Tick(t, true)]));
    if SocketCalls.IsOpen(st, s) {
      assert InUse(m)[s] == CellOf(st.slots[s]);
      ClosingRun(m1, t, s);
      assert m1.threads[t := Idle] == m.threads;
    } else {
      assert m1 == m;
      IdleRun(m, t);
    }
  }

  lemma ClosingRun(m: Machine, t: nat, s: nat)
    requires t < |m.threads| && m.cur < |m.heap| && m.threads[t] == Closing(m.cur, s) && s < |InUse(m)|
    requires InUse(m)[s].conn.Some?
    ensures var r := Run(m, [Tick(t, true)] + ([Tick(t, true)] + ([Tick(t, true)] + [Tick(t, true)])));
            && InUse(r) == InUse(m)[s := EMPTY] && r.open == m.open - {InUse(m)[s].conn.value}
            && r.threads == m.threads[t := Idle]
  {
    var m1 := DeleteStep(m, t, s);
    var m2 := EraseStep(m1, t, s);
    var m3, m4 := ClearSteps(m2, t, s);
    FourTicks(m, t, m1, m2, m3, m4);
  }

  lemma FourTicks(m: Machine, t: nat, m1: Machine, m2: Machine, m3: Machine, m4: Machine)
    requires var act := Tick(t, true);
             m1 == Next(m, act) && m2 == Next(m1, act) && m3 == Next(m2, act) && m4 == Next(m3, act)
    ensures Run(m, [Tick(t, true)] + ([Tick(t, true)] + ([Tick(t, true)] + [Tick(t, true)]))) == m4
  {
    var act := Tick(t, true);
    RunCons(m, act, [act] + ([act] + [act]));
    RunCons(m1, act, [act] + [act]);
    RunCons(m2, act, [act]);
    RunOne(m3, act);
  }

  lemma IdleRun(m: Machine, t: nat)
    requires t < |m.threads| && m.threads[t].Idle?
    ensures Run(m, [Tick(t, true)] + ([Tick(t, true)] + ([Tick(t, true)] + [Tick(t, true)]))) == m
  {
    assert m.threads[t := Idle] == m.threads && Next(m, Tick(t, true)) == m;
    FourTicks(m, t, m, m, m, m);
  }
}
