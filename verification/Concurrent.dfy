/**
 atu_conn2fd, atu_close_r and the field stores of the other calls in small steps, by any number of
 threads.

 Memory is a list of arrays, the newest last; `cur` is the array `netconn_maps` points to.  Only the
 holder of `maps_lock` inserts connections.  Every other call takes no lock: it fetches a pointer
 into the array of the moment and later stores through it, whatever has happened in between.  The
 library may give a handle out again as soon as it was deleted, so a connection is a handle
 together with a number that counts how often handles were given out.

 A slot is three words here, and every load, store and copied word is a step of its own.
 */
module Concurrent {
  import opened Wrappers
  import opened NetLib
  import DescriptorTable

  datatype Cell = Cell(conn: Option<Conn>, pbuf: Option<Pbuf>, bytesLeft: nat)

  type Table = seq<Cell>

  const EMPTY: Cell := Cell(None, None, 0)

  datatype Field = ConnField | PbufField | LeftField

  /** A value with the field it is for. */
  datatype Word = ConnWord(conn: Option<Conn>) | PbufWord(pbuf: Option<Pbuf>) | LeftWord(bytesLeft: nat)

  function FieldOf(w: Word): Field {
    match w
    case ConnWord(_) => ConnField
    case PbufWord(_) => PbufField
    case LeftWord(_) => LeftField
  }

  function Get(cell: Cell, f: Field): (w: Word)
    ensures FieldOf(w) == f
  {
    match f
    case ConnField => ConnWord(cell.conn)
    case PbufField => PbufWord(cell.pbuf)
    case LeftField => LeftWord(cell.bytesLeft)
  }

  function With(cell: Cell, w: Word): (r: Cell)
    ensures Get(r, FieldOf(w)) == w && forall f :: f != FieldOf(w) ==> Get(r, f) == Get(cell, f)
  {
    match w
    case ConnWord(conn) => cell.(conn := conn)
    case PbufWord(pbuf) => cell.(pbuf := pbuf)
    case LeftWord(n) => cell.(bytesLeft := n)
  }

  /** One connection: the handle, and which of the connections that had this handle it is. */
  datatype Issue = Issue(conn: Conn, id: nat)

  /** Where a thread is.  `arr` and `s` stand for a pointer to slot s of array arr. */
  datatype Pc =
    | Idle
    | AtLock(who: Issue)
    | ScanFor(who: Issue, i: nat)
    | ScanFree(who: Issue, i: nat)
    | StoreFree(who: Issue, i: nat)
    | Allocate(who: Issue)
    | Copy(who: Issue, next: nat, i: nat, f: Field)
    | Bump(who: Issue, next: nat)
    | Swap(who: Issue, next: nat)
    | StoreNew(who: Issue, i: nat)
    | Unlock(who: Issue, fd: int)
    | Returned(who: Issue, fd: int)
    | Using(arr: nat, s: nat)
    | Closing(arr: nat, s: nat)
    | Deleted(arr: nat, s: nat)
    | ClearPbuf(arr: nat, s: nat)
    | ClearLeft(arr: nat, s: nat)

  /**
   `open` are the live handles of the library.  `grants` is the callers' view: the descriptors
   issued, each for a connection, and not given to close since.  `late` holds the slots of the old
   array whose connection was erased after it was copied, in the growth in progress.
   */
  datatype Machine = Machine(heap: seq<Table>, cur: nat, size: nat, lock: Option<nat>, threads: seq<Pc>,
                             open: map<Conn, nat>, count: nat, grants: map<nat, Issue>, late: set<nat>)

  datatype Action =
    | New(t: nat, c: Conn)
    | Lookup(t: nat, c: Conn)
    | CloseCall(t: nat, s: nat)
    | UseCall(t: nat, s: nat)
    | Write(t: nat, w: Word)
    | Tick(t: nat, memory: bool)

  /** The array `netconn_maps` points to. */
  function InUse(m: Machine): Table {
    if m.cur < |m.heap| then m.heap[m.cur] else []
  }

  // ---------- The invariant ----------

  predicate Holds(a: Table, i: int, c: Conn) {
    0 <= i < |a| && a[i].conn == Some(c)
  }

  ghost predicate Distinct(a: Table) {
    forall i, j, c :: Holds(a, i, c) && Holds(a, j, c) ==> i == j
  }

  ghost predicate Absent(a: Table, c: Conn) {
    forall i :: !Holds(a, i, c)
  }

  /** A slot whose descriptor is in use holds the connection it was issued for, or nothing. */
  ghost predicate Fitting(a: Table, grants: map<nat, Issue>) {
    forall s, d :: Holds(a, s, d) && s in grants ==> d == grants[s].conn
  }

  /** b has the first k slots of a as they were copied; they differ at the late erasures. */
  ghost predicate Mirrors(a: Table, b: Table, k: nat, late: set<nat>) {
    && |b| == |a| + DescriptorTable.GROWTH && k <= |a|
    && (forall i, d :: Holds(b, i, d) ==> i < k && (a[i].conn == None <==> i in late))
    && (forall i, d :: Holds(a, i, d) && i < k ==> Holds(b, i, d))
    && (forall i :: i in late ==> i < k && b[i].conn.Some?)
    && (forall i, j, d :: Holds(a, i, d) && Holds(b, j, d) ==> i == j)
  }

  predicate InSection(pc: Pc) {
    pc.ScanFor? || pc.ScanFree? || pc.StoreFree? || pc.Allocate? || pc.Copy? || pc.Bump? || pc.Swap?
    || pc.StoreNew? || pc.Unlock?
  }

  predicate HasPointer(pc: Pc) {
    pc.Using? || pc.Closing? || pc.Deleted? || pc.ClearPbuf? || pc.ClearLeft?
  }

  predicate HasNext(pc: Pc) {
    pc.Copy? || pc.Bump? || pc.Swap?
  }

  /** How many slots the growth in progress has copied, as far as their connections go. */
  function CopiedUpTo(m: Machine, pc: Pc): nat {
    if pc.Copy? then (if pc.f.ConnField? then pc.i else pc.i + 1) else |InUse(m)|
  }

  /** The order of the fields in memory, in which they are copied. */
  function Rank(f: Field): nat {
    match f
    case ConnField => 0
    case PbufField => 1
    case LeftField => 2
  }

  /** Field f of slot s is copied, and the copy is not yet in use. */
  predicate Copied(pc: Pc, s: nat, f: Field) {
    (pc.Copy? && (s < pc.i || (s == pc.i && Rank(f) < Rank(pc.f)))) || pc.Bump? || pc.Swap?
  }

  function HolderPc(m: Machine): Pc {
    if m.lock.Some? && m.lock.value < |m.threads| then m.threads[m.lock.value] else Idle
  }

  ghost predicate Locking(m: Machine) {
    && (forall t :: 0 <= t < |m.threads| && InSection(m.threads[t]) ==> m.lock == Some(t))
    && (m.lock.Some? ==> m.lock.value < |m.threads| && InSection(m.threads[m.lock.value]))
  }

  ghost predicate Arrays(m: Machine) {
    && |m.heap| == m.cur + 1 + (if HasNext(HolderPc(m)) then 1 else 0)
    && (HasNext(HolderPc(m)) ==> HolderPc(m).next == m.cur + 1)
    && (forall k :: 0 <= k <= m.cur ==> |m.heap[k]| <= |InUse(m)|)
    && m.size == |InUse(m)| + (if HolderPc(m).Swap? then DescriptorTable.GROWTH else 0)
    && (forall t :: 0 <= t < |m.threads| && HasPointer(m.threads[t]) ==>
          m.threads[t].arr <= m.cur && m.threads[t].s < |m.heap[m.threads[t].arr]|)
  }

  ghost predicate HolderOk(m: Machine)
    requires Arrays(m)
  {
    var a := InUse(m);
    var pc := HolderPc(m);
    match pc
    case ScanFor(who, i) => i <= |a| && forall j :: 0 <= j < i ==> !Holds(a, j, who.conn)
    case ScanFree(who, i) => i <= |a| && Absent(a, who.conn)
    case StoreFree(who, i) => i < |a| && a[i].conn == None && Absent(a, who.conn)
    case Allocate(who) => Absent(a, who.conn)
    case Copy(who, next, i, f) =>
      (f.ConnField? || i < |a|) && GrowthOk(m, who.conn, m.heap[next], CopiedUpTo(m, pc))
    case Bump(who, next) => GrowthOk(m, who.conn, m.heap[next], |a|)
    case Swap(who, next) => GrowthOk(m, who.conn, m.heap[next], |a|)
    case StoreNew(who, i) => i < |a| && a[i].conn == None && Absent(a, who.conn)
    case _ => true
  }

  ghost predicate GrowthOk(m: Machine, c: Conn, b: Table, k: nat)
    requires Arrays(m)
  {
    && Mirrors(InUse(m), b, k, m.late)
    && Distinct(b) && Absent(b, c) && Absent(InUse(m), c) && Fitting(b, m.grants)
  }

  ghost predicate Inv(m: Machine) {
    && Locking(m)
    && Arrays(m)
    && Distinct(InUse(m))
    && Fitting(InUse(m), m.grants)
    && (forall s :: s in m.grants ==> s < |InUse(m)|)
    && HolderOk(m)
  }

  // ---------- The steps ----------

  function At(m: Machine, t: nat, pc: Pc): Machine
    requires t < |m.threads|
  {
    m.(threads := m.threads[t := pc])
  }

  /** The pointer is into an array; predicate `Arrays` says that every pointer is. */
  predicate InHeap(m: Machine, arr: nat, s: nat) {
    arr < |m.heap| && s < |m.heap[arr]|
  }

  function Put(m: Machine, arr: nat, s: nat, cell: Cell): Machine {
    if InHeap(m, arr, s) then m.(heap := m.heap[arr := m.heap[arr][s := cell]]) else m
  }

  function Read(m: Machine, arr: nat, s: nat): Cell {
    if InHeap(m, arr, s) then m.heap[arr][s] else EMPTY
  }

  function Store(m: Machine, arr: nat, s: nat, w: Word): Machine {
    Put(m, arr, s, With(Read(m, arr, s), w))
  }

  function Grant(m: Machine, who: Issue, s: nat): Machine {
    m.(grants := m.grants[s := who])
  }

  /** The null store of atu_close_r, through a pointer that may be stale. */
  function Erase(m: Machine, arr: nat, s: nat): Machine {
    var isLate := Copied(HolderPc(m), s, ConnField) && arr == m.cur && Read(m, arr, s).conn.Some?;
    Store(m, arr, s, ConnWord(None)).(late := if isLate then m.late + {s} else m.late)
  }

  /** The deletion of the handle found in the slot; the library deletes nothing if there is none any more. */
  function DeleteHandle(m: Machine, arr: nat, s: nat): Machine {
    var conn := Read(m, arr, s).conn;
    m.(open := if conn.Some? then m.open - {conn.value} else m.open)
  }

  function Insert(m: Machine, who: Issue, s: nat): Machine {
    Grant(Store(m, m.cur, s, ConnWord(Some(who.conn))), who, s)
  }

  function Zeros(size: nat): Table {
    seq(size + DescriptorTable.GROWTH, _ => EMPTY)
  }

  /** What is copied after field f of slot i. */
  function AfterCopy(who: Issue, next: nat, i: nat, f: Field): Pc {
    match f
    case ConnField => Copy(who, next, i, PbufField)
    case PbufField => Copy(who, next, i, LeftField)
    case LeftField => Copy(who, next, i + 1, ConnField)
  }

  /** Where a thread at `pc` goes in one step; `memory` is whether an allocation succeeds. */
  function Goes(m: Machine, pc: Pc, memory: bool): Pc {
    match pc
    case AtLock(who) => if m.lock.None? then ScanFor(who, 0) else pc
    case ScanFor(who, i) =>
      if i >= m.size then ScanFree(who, 0)
      else if Holds(InUse(m), i, who.conn) then Unlock(who, i)
      else ScanFor(who, i + 1)
    case ScanFree(who, i) =>
      if i >= m.size then Allocate(who)
      else if Read(m, m.cur, i).conn.None? then StoreFree(who, i)
      else ScanFree(who, i + 1)
    case StoreFree(who, i) => Unlock(who, i)
    case Allocate(who) => if memory then Copy(who, |m.heap|, 0, ConnField) else Unlock(who, -1)
    case Copy(who, next, i, f) => if i >= m.size then Bump(who, next) else AfterCopy(who, next, i, f)
    case Bump(who, next) => Swap(who, next)
    case Swap(who, next) => StoreNew(who, |InUse(m)|)
    case StoreNew(who, i) => Unlock(who, i)
    case Unlock(who, fd) => Returned(who, fd)
    case Closing(arr, s) => Deleted(arr, s)
    case Deleted(arr, s) => ClearPbuf(arr, s)
    case ClearPbuf(arr, s) => ClearLeft(arr, s)
    case _ => Idle
  }

  /** What else that step does; m already has thread t at its next place. */
  function Effect(m: Machine, t: nat, pc: Pc, memory: bool): Machine {
    match pc
    case AtLock(_) => if m.lock.None? then m.(lock := Some(t)) else m
    case ScanFor(who, i) => if i < m.size && Holds(InUse(m), i, who.conn) then Grant(m, who, i) else m
    case StoreFree(who, i) => Insert(m, who, i)
    case Allocate(_) => if memory then m.(heap := m.heap + [Zeros(m.size)], late := {}) else m
    case Copy(_, next, i, f) => if i < m.size then Store(m, next, i, Get(Read(m, m.cur, i), f)) else m
    case Bump(_, _) => m.(size := m.size + DescriptorTable.GROWTH)
    case Swap(_, next) => m.(cur := next)
    case StoreNew(who, i) => Insert(m, who, i)
    case Unlock(_, _) => m.(lock := None)
    case Closing(arr, s) => DeleteHandle(m, arr, s)
    case Deleted(arr, s) => Erase(m, arr, s)
    case ClearPbuf(arr, s) => Store(m, arr, s, PbufWord(None))
    case ClearLeft(arr, s) => Store(m, arr, s, LeftWord(0))
    case _ => m
  }

  /** One step of thread t. */
  function Advance(m: Machine, t: nat, memory: bool): Machine
    requires t < |m.threads|
  {
    Effect(At(m, t, Goes(m, m.threads[t], memory)), t, m.threads[t], memory)
  }

  /** The library gives out handle c. */
  function NewIssue(m: Machine, c: Conn): Machine {
    m.(open := m.open[c := m.count], count := m.count + 1)
  }

  /** The test `!nf || !nf->conn`, where the pointer is into the array. */
  predicate Usable(m: Machine, s: nat) {
    s < m.size && Read(m, m.cur, s).conn.Some?
  }

  /**
   `New` is esp_netconn_new or a successful accept, followed by the call; `Lookup` is the call for a
   connection that is open already.  `CloseCall` and `UseCall` fetch the pointer; from then on the
   caller of close has given the descriptor up.  A recv or ioctl can `Write` any pbuf and count.
   */
  function Next(m: Machine, act: Action): Machine {
    if act.t >= |m.threads| then m
    else
      match act
      case New(t, c) =>
        if m.threads[t].Idle? && c !in m.open
        then NewIssue(At(m, t, AtLock(Issue(c, m.count))), c) else m
      case Lookup(t, c) => if m.threads[t].Idle? && c in m.open then At(m, t, AtLock(Issue(c, m.open[c]))) else m
      case CloseCall(t, s) =>
        if m.threads[t].Idle? && Usable(m, s) then At(m, t, Closing(m.cur, s)).(grants := m.grants - {s}) else m
      case UseCall(t, s) => if m.threads[t].Idle? && Usable(m, s) then At(m, t, Using(m.cur, s)) else m
      case Write(t, w) =>
        if m.threads[t].Using? && !w.ConnWord? then Store(m, m.threads[t].arr, m.threads[t].s, w) else m
      case Tick(t, memory) => Advance(m, t, memory)
  }

  // ---------- Tables ----------

  lemma EraseHolds(a: Table, s: nat)
    requires s < |a|
    ensures forall i, d :: Holds(a[s := a[s].(conn := None)], i, d) <==> Holds(a, i, d) && i != s
  {
  }

  lemma InsertHolds(a: Table, i: nat, c: Conn, j: int, d: Conn)
    requires i < |a|
    ensures Holds(a[i := a[i].(conn := Some(c))], j, d) <==> (j == i && d == c) || (j != i && Holds(a, j, d))
  {
  }

  lemma EraseDistinct(a: Table, s: nat, grants: map<nat, Issue>)
    requires s < |a| && Distinct(a) && Fitting(a, grants)
    ensures var a' := a[s := a[s].(conn := None)]; Distinct(a') && Fitting(a', grants)
  {
    EraseHolds(a, s);
    var a' := a[s := a[s].(conn := None)];
    forall i, j, d | Holds(a', i, d) && Holds(a', j, d) ensures i == j {
      assert Holds(a, i, d) && Holds(a, j, d);
    }
    forall i, d | Holds(a', i, d) && i in grants ensures d == grants[i].conn {
      assert Holds(a, i, d);
    }
  }

  lemma InsertDistinct(a: Table, i: nat, who: Issue, grants: map<nat, Issue>)
    requires i < |a| && Distinct(a) && Absent(a, who.conn) && Fitting(a, grants)
    ensures var a' := a[i := a[i].(conn := Some(who.conn))]; Distinct(a') && Fitting(a', grants[i := who])
  {
    var a' := a[i := a[i].(conn := Some(who.conn))];
    forall j, k, d | Holds(a', j, d) && Holds(a', k, d) ensures j == k {
      InsertHolds(a, i, who.conn, j, d);
      InsertHolds(a, i, who.conn, k, d);
    }
    forall j, d | Holds(a', j, d) && j in grants[i := who] ensures d == grants[i := who][j].conn {
      InsertHolds(a, i, who.conn, j, d);
    }
  }

  /** An erasure in the table in use, seen from the copy. */
  lemma EraseMirrors(a: Table, b: Table, k: nat, late: set<nat>, s: nat)
    requires Mirrors(a, b, k, late) && s < |a|
    ensures Mirrors(a[s := a[s].(conn := None)], b, k, if s < k && a[s].conn.Some? then late + {s} else late)
  {
    EraseHolds(a, s);
    var a' := a[s := a[s].(conn := None)];
    var late' := if s < k && a[s].conn.Some? then late + {s} else late;
    assert a[s].conn.Some? ==> Holds(a, s, a[s].conn.value);
    forall i, d | Holds(b, i, d) ensures i < k && (a'[i].conn == None <==> i in late') {
      assert i < k && (a[i].conn == None <==> i in late);
      assert i == s && a[s].conn == None ==> i in late;
    }
    forall i, d | Holds(a', i, d) ensures Holds(a, i, d) {}
    forall i | i in late' ensures i < k && b[i].conn.Some? {
      assert i == s && i !in late ==> Holds(b, s, a[s].conn.value);
    }
  }

  /** The connection of the next slot is copied. */
  lemma CopyMirrors(a: Table, b: Table, k: nat, late: set<nat>)
    requires Mirrors(a, b, k, late) && k < |a| && Distinct(a) && Distinct(b)
    ensures var b' := b[k := b[k].(conn := a[k].conn)];
            && Mirrors(a, b', k + 1, late) && Distinct(b')
            && forall i, d :: Holds(b', i, d) <==> (Holds(b, i, d) && i != k) || (i == k && Holds(a, k, d))
  {
    var b' := b[k := b[k].(conn := a[k].conn)];
    forall i, d ensures Holds(b', i, d) <==> (Holds(b, i, d) && i != k) || (i == k && Holds(a, k, d)) {}
    forall i, j, d | Holds(b', i, d) && Holds(b', j, d) ensures i == j {}
    assert k !in late;
    forall i | i in late ensures i < k + 1 && b'[i].conn.Some? {
      assert i < k && b[i].conn.Some?;
    }
    forall i, d | Holds(b', i, d) ensures i < k + 1 && (a[i].conn == None <==> i in late) {
      assert i != k ==> Holds(b, i, d);
    }
  }

  /** Tables with the same connections. */
  ghost predicate SameHolds(a: Table, a': Table) {
    && |a'| == |a| && (forall i :: 0 <= i < |a| ==> a'[i].conn == a[i].conn)
    && (forall i, d :: Holds(a', i, d) <==> Holds(a, i, d))
  }

  lemma SameMirrors(a: Table, a': Table, b: Table, b': Table, k: nat, late: set<nat>)
    requires Mirrors(a, b, k, late) && SameHolds(a, a') && SameHolds(b, b')
    ensures Mirrors(a', b', k, late)
  {
  }

  // ---------- Every step keeps the invariant ----------

  lemma ThreadMoves(m: Machine, t: nat, pc: Pc)
    requires Inv(m) && t < |m.threads| && !InSection(m.threads[t]) && !InSection(pc)
    requires HasPointer(pc) ==> pc.arr <= m.cur && pc.s < |m.heap[pc.arr]|
    ensures Inv(At(m, t, pc)) && HolderPc(At(m, t, pc)) == HolderPc(m)
  {
  }

  lemma AcquireKeeps(m: Machine, t: nat, memory: bool)
    requires Inv(m) && t < |m.threads| && m.threads[t].AtLock?
    ensures Inv(Advance(m, t, memory))
  {
  }

  lemma EraseKeeps(m: Machine, arr: nat, s: nat)
    requires Inv(m) && arr <= m.cur && InHeap(m, arr, s)
    ensures Inv(Erase(m, arr, s))
  {
    var m' := Erase(m, arr, s);
    var a, a' := InUse(m), InUse(m');
    var pc := HolderPc(m);
    assert HolderPc(m') == pc;
    assert forall k :: 0 <= k < |m.heap| ==> |m'.heap[k]| == |m.heap[k]|;
    if arr == m.cur {
      EraseHolds(a, s);
      assert a' == a[s := a[s].(conn := None)];
      assert forall i, d :: Holds(a', i, d) ==> Holds(a, i, d);
      assert forall i :: 0 <= i < |a| && a[i].conn == None ==> a'[i].conn == None;
      EraseDistinct(a, s, m.grants);
      if HasNext(pc) {
        EraseMirrors(a, m.heap[pc.next], CopiedUpTo(m, pc), m.late, s);
      }
    } else {
      assert a' == a;
    }
  }

  /** A store into pbuf or count, of any array. */
  lemma WriteKeeps(m: Machine, arr: nat, s: nat, w: Word)
    requires Inv(m) && InHeap(m, arr, s) && !w.ConnWord?
    ensures Inv(Store(m, arr, s, w)) && HolderPc(Store(m, arr, s, w)) == HolderPc(m)
  {
    var m' := Store(m, arr, s, w);
    var pc := HolderPc(m);
    assert HolderPc(m') == pc;
    assert forall k :: 0 <= k < |m.heap| ==> |m'.heap[k]| == |m.heap[k]|;
    forall k | 0 <= k < |m.heap| ensures SameHolds(m.heap[k], m'.heap[k]) {}
    assert SameHolds(InUse(m), InUse(m'));
    if HasNext(pc) {
      SameMirrors(InUse(m), InUse(m'), m.heap[pc.next], m'.heap[pc.next], CopiedUpTo(m, pc), m.late);
    }
  }

  /** The holder of the lock goes on without a store. */
  lemma HolderMoves(m: Machine, t: nat, pc: Pc)
    requires Inv(m) && t < |m.threads| && InSection(m.threads[t]) && !HasNext(m.threads[t])
    requires InSection(pc) && !HasNext(pc)
    ensures HolderPc(At(m, t, pc)) == pc && Arrays(At(m, t, pc))
    ensures HolderOk(At(m, t, pc)) ==> Inv(At(m, t, pc))
  {
    assert HolderPc(m) == m.threads[t];
  }

  lemma ScanForHits(m: Machine, t: nat, memory: bool)
    requires Inv(m) && t < |m.threads| && m.threads[t].ScanFor?
    requires m.threads[t].i < m.size && Holds(InUse(m), m.threads[t].i, m.threads[t].who.conn)
    ensures Inv(Advance(m, t, memory))
  {
    var ScanFor(who, i) := m.threads[t];
    HolderMoves(m, t, Unlock(who, i));
    assert HolderPc(m) == m.threads[t];
    GrantKeeps(At(m, t, Unlock(who, i)), who, i);
  }

  lemma ScanForKeeps(m: Machine, t: nat, memory: bool)
    requires Inv(m) && t < |m.threads| && m.threads[t].ScanFor?
    ensures Inv(Advance(m, t, memory))
  {
    var ScanFor(who, i) := m.threads[t];
    assert HolderPc(m) == m.threads[t];
    if i < m.size && Holds(InUse(m), i, who.conn) {
      ScanForHits(m, t, memory);
    } else {
      HolderMoves(m, t, if i >= m.size then ScanFree(who, 0) else ScanFor(who, i + 1));
    }
  }

  lemma GrantKeeps(m: Machine, who: Issue, s: nat)
    requires Inv(m) && Holds(InUse(m), s, who.conn) && !HasNext(HolderPc(m))
    ensures Inv(Grant(m, who, s))
  {
    assert HolderPc(Grant(m, who, s)) == HolderPc(m);
  }

  lemma ScanFreeKeeps(m: Machine, t: nat, memory: bool)
    requires Inv(m) && t < |m.threads| && m.threads[t].ScanFree?
    ensures Inv(Advance(m, t, memory))
  {
    var ScanFree(who, i) := m.threads[t];
    assert HolderPc(m) == m.threads[t];
    var taken := i < m.size && InUse(m)[i].conn.Some?;
    HolderMoves(m, t, if i >= m.size then Allocate(who) else if taken then ScanFree(who, i + 1) else StoreFree(who, i));
  }

  /** The store of a new connection: into an empty slot, when the connection is nowhere else. */
  lemma InsertKeeps(m: Machine, t: nat, memory: bool)
    requires Inv(m) && t < |m.threads| && (m.threads[t].StoreFree? || m.threads[t].StoreNew?)
    ensures Inv(Advance(m, t, memory))
  {
    var m' := Advance(m, t, memory);
    assert HolderPc(m) == m.threads[t] && HolderPc(m') == m'.threads[t];
    InsertDistinct(InUse(m), m.threads[t].i, m.threads[t].who, m.grants);
  }

  lemma AllocateKeeps(m: Machine, t: nat, memory: bool)
    requires Inv(m) && t < |m.threads| && m.threads[t].Allocate?
    ensures Inv(Advance(m, t, memory))
  {
    var m' := Advance(m, t, memory);
    assert HolderPc(m) == m.threads[t] && HolderPc(m') == m'.threads[t];
  }

  lemma CopyConnKeeps(m: Machine, t: nat, memory: bool)
    requires Inv(m) && t < |m.threads| && m.threads[t].Copy? && (m.threads[t].f.ConnField? || m.threads[t].i >= m.size)
    ensures Inv(Advance(m, t, memory))
  {
    var m' := Advance(m, t, memory);
    var pc := m.threads[t];
    assert HolderPc(m) == pc && HolderPc(m') == m'.threads[t];
    if pc.i < m.size {
      CopyMirrors(InUse(m), m.heap[pc.next], pc.i, m.late);
    }
  }

  /** The place in a slot may move while the connections copied stay the same. */
  lemma CopyMoves(m: Machine, t: nat, pc: Pc)
    requires Inv(m) && t < |m.threads| && m.threads[t].Copy? && pc.Copy? && pc.who == m.threads[t].who
    requires pc.next == m.threads[t].next && CopiedUpTo(m, pc) == CopiedUpTo(m, m.threads[t])
    requires pc.f.ConnField? || pc.i < |InUse(m)|
    ensures Inv(At(m, t, pc))
  {
    assert HolderPc(m) == m.threads[t] && HolderPc(At(m, t, pc)) == pc;
  }

  lemma CopyRestKeeps(m: Machine, t: nat, memory: bool)
    requires Inv(m) && t < |m.threads| && m.threads[t].Copy? && !m.threads[t].f.ConnField? && m.threads[t].i < m.size
    ensures Inv(Advance(m, t, memory))
  {
    var pc := m.threads[t];
    var pc' := AfterCopy(pc.who, pc.next, pc.i, pc.f);
    assert HolderPc(m) == pc;
    CopyMoves(m, t, pc');
    WriteKeeps(At(m, t, pc'), pc.next, pc.i, Get(Read(m, m.cur, pc.i), pc.f));
  }

  lemma CopyKeeps(m: Machine, t: nat, memory: bool)
    requires Inv(m) && t < |m.threads| && m.threads[t].Copy?
    ensures Inv(Advance(m, t, memory))
  {
    if m.threads[t].f.ConnField? || m.threads[t].i >= m.size {
      CopyConnKeeps(m, t, memory);
    } else {
      CopyRestKeeps(m, t, memory);
    }
  }

  lemma SwapKeeps(m: Machine, t: nat, memory: bool)
    requires Inv(m) && t < |m.threads| && (m.threads[t].Bump? || m.threads[t].Swap?)
    ensures Inv(Advance(m, t, memory))
  {
    var m' := Advance(m, t, memory);
    var a, b := InUse(m), m.heap[m.threads[t].next];
    assert HolderPc(m) == m.threads[t] && HolderPc(m') == m'.threads[t];
    assert b[|a|].conn.Some? ==> Holds(b, |a|, b[|a|].conn.value);
  }

  lemma UnlockKeeps(m: Machine, t: nat, memory: bool)
    requires Inv(m) && t < |m.threads| && m.threads[t].Unlock?
    ensures Inv(Advance(m, t, memory))
  {
  }

  /** The library's own state is not part of the invariant. */
  lemma LibraryMoves(m: Machine, open: map<Conn, nat>, count: nat)
    requires Inv(m)
    ensures Inv(m.(open := open, count := count))
  {
    assert HolderPc(m.(open := open, count := count)) == HolderPc(m);
  }

  lemma GiveUpKeeps(m: Machine, s: nat)
    requires Inv(m)
    ensures Inv(m.(grants := m.grants - {s}))
  {
    assert HolderPc(m.(grants := m.grants - {s})) == HolderPc(m);
  }

  lemma DeleteKeeps(m: Machine, t: nat, memory: bool)
    requires Inv(m) && t < |m.threads| && m.threads[t].Closing?
    ensures Inv(Advance(m, t, memory))
  {
    var Closing(arr, s) := m.threads[t];
    var m1 := At(m, t, Deleted(arr, s));
    ThreadMoves(m, t, Deleted(arr, s));
    LibraryMoves(m1, DeleteHandle(m1, arr, s).open, m1.count);
  }

  /** The steps of a thread between taking and giving back the lock. */
  lemma SectionKeeps(m: Machine, t: nat, memory: bool)
    requires Inv(m) && t < |m.threads| && InSection(m.threads[t])
    ensures Inv(Advance(m, t, memory))
  {
    var pc := m.threads[t];
    if pc.ScanFor? {
      ScanForKeeps(m, t, memory);
    } else if pc.ScanFree? {
      ScanFreeKeeps(m, t, memory);
    } else if pc.StoreFree? || pc.StoreNew? {
      InsertKeeps(m, t, memory);
    } else if pc.Allocate? {
      AllocateKeeps(m, t, memory);
    } else if pc.Copy? {
      CopyKeeps(m, t, memory);
    } else if pc.Bump? || pc.Swap? {
      SwapKeeps(m, t, memory);
    } else {
      UnlockKeeps(m, t, memory);
    }
  }

  lemma ErasingKeeps(m: Machine, t: nat, memory: bool)
    requires Inv(m) && t < |m.threads| && m.threads[t].Deleted?
    ensures Inv(Advance(m, t, memory))
  {
    var Deleted(arr, s) := m.threads[t];
    ThreadMoves(m, t, ClearPbuf(arr, s));
    EraseKeeps(At(m, t, ClearPbuf(arr, s)), arr, s);
  }

  lemma ClearingKeeps(m: Machine, t: nat, memory: bool)
    requires Inv(m) && t < |m.threads| && (m.threads[t].ClearPbuf? || m.threads[t].ClearLeft?)
    ensures Inv(Advance(m, t, memory))
  {
    var pc := m.threads[t];
    var pc' := if pc.ClearPbuf? then ClearLeft(pc.arr, pc.s) else Idle;
    ThreadMoves(m, t, pc');
    WriteKeeps(At(m, t, pc'), pc.arr, pc.s, if pc.ClearPbuf? then PbufWord(None) else LeftWord(0));
  }

  lemma AdvanceKeeps(m: Machine, t: nat, memory: bool)
    requires Inv(m) && t < |m.threads|
    ensures Inv(Advance(m, t, memory))
  {
    var pc := m.threads[t];
    if InSection(pc) {
      SectionKeeps(m, t, memory);
    } else if pc.AtLock? {
      AcquireKeeps(m, t, memory);
    } else if pc.Closing? {
      DeleteKeeps(m, t, memory);
    } else if pc.Deleted? {
      ErasingKeeps(m, t, memory);
    } else if pc.ClearPbuf? || pc.ClearLeft? {
      ClearingKeeps(m, t, memory);
    } else if !pc.Idle? {
      ThreadMoves(m, t, Idle);
    }
  }

  lemma NewIssueKeeps(m: Machine, c: Conn)
    requires Inv(m)
    ensures Inv(NewIssue(m, c))
  {
    LibraryMoves(m, m.open[c := m.count], m.count + 1);
  }

  lemma NewKeeps(m: Machine, t: nat, c: Conn)
    requires Inv(m) && t < |m.threads|
    ensures Inv(Next(m, New(t, c)))
  {
    if m.threads[t].Idle? && c !in m.open {
      ThreadMoves(m, t, AtLock(Issue(c, m.count)));
      NewIssueKeeps(At(m, t, AtLock(Issue(c, m.count))), c);
    }
  }

  lemma LookupKeeps(m: Machine, t: nat, c: Conn)
    requires Inv(m) && t < |m.threads|
    ensures Inv(Next(m, Lookup(t, c)))
  {
    if m.threads[t].Idle? && c in m.open {
      ThreadMoves(m, t, AtLock(Issue(c, m.open[c])));
    }
  }

  lemma FetchKeeps(m: Machine, act: Action)
    requires Inv(m) && act.t < |m.threads| && (act.CloseCall? || act.UseCall?)
    ensures Inv(Next(m, act))
  {
    var t := act.t;
    if m.threads[t].Idle? && Usable(m, act.s) {
      if act.CloseCall? {
        ThreadMoves(m, t, Closing(m.cur, act.s));
        GiveUpKeeps(At(m, t, Closing(m.cur, act.s)), act.s);
      } else {
        ThreadMoves(m, t, Using(m.cur, act.s));
      }
    }
  }

  lemma NextKeeps(m: Machine, act: Action)
    requires Inv(m)
    ensures Inv(Next(m, act))
  {
    if act.t < |m.threads| {
      match act {
        case New(t, c) => NewKeeps(m, t, c);
        case Lookup(t, c) => LookupKeeps(m, t, c);
        case CloseCall(_, _) => FetchKeeps(m, act);
        case UseCall(_, _) => FetchKeeps(m, act);
        case Write(t, w) =>
          if m.threads[t].Using? && !w.ConnWord? {
            WriteKeeps(m, m.threads[t].arr, m.threads[t].s, w);
          }
        case Tick(t, memory) => AdvanceKeeps(m, t, memory);
      }
    }
  }

  // ---------- Runs ----------

  /** An empty table, the lock free, `threads` idle threads. */
  function Start(threads: nat): (m: Machine)
    ensures Inv(m)
  {
    Machine([[]], 0, 0, None, seq(threads, _ => Idle), map[], 0, map[], {})
  }

  function Run(m: Machine, acts: seq<Action>): Machine
    decreases |acts|
  {
    if acts == [] then m else Run(Next(m, acts[0]), acts[1..])
  }

  lemma RunOne(m: Machine, act: Action)
    ensures Run(m, [act]) == Next(m, act)
  {
    assert Run(m, [act]) == Run(Next(m, act), []);
  }

  lemma RunCons(m: Machine, act: Action, rest: seq<Action>)
    ensures Run(m, [act] + rest) == Run(Next(m, act), rest)
  {
    assert ([act] + rest)[1..] == rest;
  }

  lemma {:induction false} RunKeeps(m: Machine, acts: seq<Action>)
    requires Inv(m)
    ensures Inv(Run(m, acts))
    decreases |acts|
  {
    if acts != [] {
      NextKeeps(m, acts[0]);
      RunKeeps(Next(m, acts[0]), acts[1..]);
    }
  }

  ghost predicate Reachable(m: Machine) {
    exists threads, acts :: m == Run(Start(threads), acts)
  }

  lemma ReachableInv(m: Machine)
    requires Reachable(m)
    ensures Inv(m)
  {
    var threads, acts :| m == Run(Start(threads), acts);
    RunKeeps(Start(threads), acts);
  }

  lemma {:induction false} RunAppend(m: Machine, acts: seq<Action>, more: seq<Action>)
    ensures Run(m, acts + more) == Run(Run(m, acts), more)
    decreases |acts|
  {
    if acts == [] {
      assert acts + more == more;
    } else {
      assert (acts + more)[1..] == acts[1..] + more;
      RunAppend(Next(m, acts[0]), acts[1..], more);
    }
  }

  lemma ReachableRun(m: Machine, acts: seq<Action>)
    requires Reachable(m)
    ensures Reachable(Run(m, acts))
  {
    var threads, before :| m == Run(Start(threads), before);
    RunAppend(Start(threads), before, acts);
  }

  lemma ReachableNext(m: Machine, act: Action)
    requires Reachable(m)
    ensures Reachable(Next(m, act))
  {
    ReachableRun(m, [act]);
    RunOne(m, act);
  }

  /** No call begins. */
  predicate OnlyTicks(acts: seq<Action>) {
    forall k :: 0 <= k < |acts| ==> acts[k].Tick?
  }

  // ---------- Insertion ----------

  /** A step that erases slot s of the table in use: the null store of a close. */
  predicate Erases(m: Machine, act: Action, s: nat) {
    act.Tick? && act.t < |m.threads| && m.threads[act.t] == Deleted(m.cur, s)
  }

  /** A step moves one thread, along its control flow, and leaves the count of connections. */
  lemma AdvanceControl(m: Machine, t: nat, memory: bool)
    requires t < |m.threads|
    ensures Advance(m, t, memory).threads == m.threads[t := Goes(m, m.threads[t], memory)]
    ensures Advance(m, t, memory).count == m.count
  {
  }

  /** Where the holder of the lock is after a step. */
  lemma AdvanceHolder(m: Machine, t: nat, memory: bool)
    requires Inv(m) && t < |m.threads|
    ensures var pc := m.threads[t];
            HolderPc(Advance(m, t, memory))
            == if pc.Unlock? then Idle
               else if InSection(pc) || (pc.AtLock? && m.lock.None?) then Goes(m, pc, memory)
               else HolderPc(m)
  {
    assert InSection(m.threads[t]) ==> HolderPc(m) == m.threads[t];
    if m.threads[t].Unlock? {
    } else if m.threads[t].AtLock? {
    } else {
      AdvanceControl(m, t, memory);
      assert Advance(m, t, memory).lock == m.lock;
    }
  }

  /** A word stored through a pointer. */
  datatype Access = Access(arr: nat, s: nat, w: Word)

  /** What a step of a thread at `pc` stores. */
  function StoreAt(m: Machine, pc: Pc): Option<Access> {
    match pc
    case StoreFree(who, i) => Some(Access(m.cur, i, ConnWord(Some(who.conn))))
    case StoreNew(who, i) => Some(Access(m.cur, i, ConnWord(Some(who.conn))))
    case Copy(_, next, i, f) => if i < m.size then Some(Access(next, i, Get(Read(m, m.cur, i), f))) else None
    case Deleted(arr, s) => Some(Access(arr, s, ConnWord(None)))
    case ClearPbuf(arr, s) => Some(Access(arr, s, PbufWord(None)))
    case ClearLeft(arr, s) => Some(Access(arr, s, LeftWord(0)))
    case _ => None
  }

  /** The effect of a step on memory, and nothing else of it. */
  predicate MemoryMoves(m: Machine, pc: Pc, memory: bool, m': Machine) {
    && m'.cur == (if pc.Swap? then pc.next else m.cur)
    && m'.heap == match StoreAt(m, pc) {
         case Some(a) => Store(m, a.arr, a.s, a.w).heap
         case None => if pc.Allocate? && memory then m.heap + [Zeros(m.size)] else m.heap
       }
  }

  lemma InsertMemory(m: Machine, t: nat, memory: bool)
    requires t < |m.threads| && (m.threads[t].StoreFree? || m.threads[t].StoreNew?)
    ensures MemoryMoves(m, m.threads[t], memory, Advance(m, t, memory))
  {
  }

  lemma ClosingMemory(m: Machine, t: nat, memory: bool)
    requires t < |m.threads| && (m.threads[t].Deleted? || m.threads[t].ClearPbuf? || m.threads[t].ClearLeft?)
    ensures MemoryMoves(m, m.threads[t], memory, Advance(m, t, memory))
  {
  }

  lemma GrowthMemory(m: Machine, t: nat, memory: bool)
    requires t < |m.threads| && (HasNext(m.threads[t]) || m.threads[t].Allocate?)
    ensures MemoryMoves(m, m.threads[t], memory, Advance(m, t, memory))
  {
  }

  lemma AdvanceMemory(m: Machine, t: nat, memory: bool)
    requires t < |m.threads|
    ensures MemoryMoves(m, m.threads[t], memory, Advance(m, t, memory))
  {
    var pc := m.threads[t];
    if pc.StoreFree? || pc.StoreNew? {
      InsertMemory(m, t, memory);
    } else if pc.Deleted? || pc.ClearPbuf? || pc.ClearLeft? {
      ClosingMemory(m, t, memory);
    } else if HasNext(pc) || pc.Allocate? {
      GrowthMemory(m, t, memory);
    } else {
      assert Advance(m, t, memory).heap == m.heap;
    }
  }

  /** The table in use is never an older one than before. */
  lemma AdvanceCur(m: Machine, t: nat, memory: bool)
    requires Inv(m) && t < |m.threads|
    ensures m.cur <= Advance(m, t, memory).cur <= m.cur + 1
    ensures Advance(m, t, memory).cur == m.cur + 1 <==> m.threads[t].Swap?
  {
    AdvanceMemory(m, t, memory);
    assert InSection(m.threads[t]) ==> HolderPc(m) == m.threads[t];
  }

  lemma MemoryKeepsOccupied(m: Machine, t: nat, memory: bool, m': Machine, s: nat, c: Conn)
    requires Inv(m) && t < |m.threads| && MemoryMoves(m, m.threads[t], memory, m')
    requires Holds(InUse(m), s, c) && m.threads[t] != Deleted(m.cur, s)
    ensures Holds(InUse(m'), s, c)
  {
    var pc := m.threads[t];
    assert InSection(pc) ==> HolderPc(m) == pc;
    if pc.Swap? {
      assert Holds(m.heap[pc.next], s, c);
    }
  }

  lemma AdvanceKeepsOccupied(m: Machine, t: nat, memory: bool, s: nat, c: Conn)
    requires Inv(m) && t < |m.threads| && Holds(InUse(m), s, c)
    requires m.threads[t] != Deleted(m.cur, s)
    ensures Holds(InUse(Advance(m, t, memory)), s, c)
  {
    AdvanceMemory(m, t, memory);
    MemoryKeepsOccupied(m, t, memory, Advance(m, t, memory), s, c);
  }

  /**
   Whatever the interleaving, with any number of threads and calls at any moment: an occupied slot
   keeps its connection until a close erases it, through insertions, copies and swaps.
   */
  lemma NoOverwrite(m: Machine, act: Action, s: nat, c: Conn)
    requires Reachable(m)
    ensures Inv(m) && Inv(Next(m, act))
    ensures Holds(InUse(m), s, c) && !Erases(m, act, s)
            ==> Holds(InUse(Next(m, act)), s, c)
  {
    ReachableInv(m);
    NextKeepsOccupied(m, act, s, c);
  }

  lemma NextKeepsOccupied(m: Machine, act: Action, s: nat, c: Conn)
    requires Inv(m)
    ensures Inv(Next(m, act))
    ensures Holds(InUse(m), s, c) && !Erases(m, act, s)
            ==> Holds(InUse(Next(m, act)), s, c)
  {
    NextKeeps(m, act);
    if act.Tick? && act.t < |m.threads| && Holds(InUse(m), s, c) && !Erases(m, act, s) {
      AdvanceKeepsOccupied(m, act.t, act.memory, s, c);
    }
  }

  /** Thread t's next step gives descriptor s to its connection. */
  predicate Issuing(m: Machine, t: nat, s: nat) {
    t < |m.threads| && m.cur < |m.heap|
    && var pc := m.threads[t];
       (pc.StoreFree? || pc.StoreNew? || (pc.ScanFor? && s < m.size && Holds(InUse(m), s, pc.who.conn)))
       && pc.i == s
  }

  predicate Issues(m: Machine, act: Action, s: nat) {
    act.Tick? && Issuing(m, act.t, s)
  }

  lemma OnlyIssuesGrant(m: Machine, act: Action, s: nat)
    requires Inv(m) && !Issues(m, act, s)
    ensures s in Next(m, act).grants ==> s in m.grants && Next(m, act).grants[s] == m.grants[s]
    ensures s in m.grants && act != CloseCall(act.t, s) ==> s in Next(m, act).grants
  {
    if act.Tick? && act.t < |m.threads| && InSection(m.threads[act.t]) {
      assert HolderPc(m) == m.threads[act.t];
    }
  }

  /**
   A step that issues descriptor s finds it not in use; or finds its slot erased, by a close that is
   older than the issue; or finds a connection of the same handle in it.  And any other descriptor in
   use for that handle has had its slot erased.  All other steps issue nothing.
   */
  lemma IssueIsExclusive(m: Machine, act: Action, s: nat)
    requires Reachable(m)
    ensures Inv(m)
    ensures Issues(m, act, s) ==>
              var who := m.threads[act.t].who;
              && Next(m, act).grants == m.grants[s := who]
              && (s in m.grants && m.grants[s].conn != who.conn ==> InUse(m)[s].conn == None)
              && (forall k :: k in m.grants && k != s && m.grants[k].conn == who.conn ==>
                    k < |InUse(m)| && InUse(m)[k].conn == None)
    ensures !Issues(m, act, s) && s in Next(m, act).grants ==> s in m.grants && Next(m, act).grants[s] == m.grants[s]
  {
    ReachableInv(m);
    if Issues(m, act, s) {
      IssuingIsExclusive(m, act.t, act.memory, s);
    } else {
      OnlyIssuesGrant(m, act, s);
    }
  }

  lemma IssuingIsExclusive(m: Machine, t: nat, memory: bool, s: nat)
    requires Inv(m) && Issuing(m, t, s)
    ensures var who := m.threads[t].who;
            && Advance(m, t, memory).grants == m.grants[s := who]
            && (s in m.grants && m.grants[s].conn != who.conn ==> InUse(m)[s].conn == None)
            && (forall k :: k in m.grants && k != s && m.grants[k].conn == who.conn ==>
                  k < |InUse(m)| && InUse(m)[k].conn == None)
  {
    var a := InUse(m);
    var who := m.threads[t].who;
    assert HolderPc(m) == m.threads[t];
    forall k | k in m.grants && m.grants[k].conn == who.conn && k != s
      ensures k < |a| && a[k].conn == None
    {
      assert a[k].conn.Some? ==> Holds(a, k, a[k].conn.value);
    }
    if s in m.grants {
      assert a[s].conn.Some? ==> Holds(a, s, a[s].conn.value);
    }
  }

  /** Two descriptors in use whose slots are not erased name two connections, the ones they were issued for. */
  lemma DescriptorsAreDistinct(m: Machine, s: nat, t: nat)
    requires Reachable(m) && s in m.grants && t in m.grants && s != t
    ensures Inv(m)
    ensures InUse(m)[s].conn.Some? ==> InUse(m)[s].conn == Some(m.grants[s].conn)
    ensures InUse(m)[s].conn.Some? && InUse(m)[t].conn.Some? ==> m.grants[s].conn != m.grants[t].conn
  {
    ReachableInv(m);
    var a := InUse(m);
    assert a[s].conn.Some? ==> Holds(a, s, a[s].conn.value);
    assert a[t].conn.Some? ==> Holds(a, t, a[t].conn.value);
  }

  /**
   maps_size is raised before the array is replaced.  So the range check of atu_fd2conn, which takes
   no lock, is right except between those two stores, for the 16 descriptors that do not exist yet.
   */
  lemma RangeCheckExact(m: Machine, s: nat)
    requires Reachable(m)
    ensures Inv(m)
    ensures (s < m.size ==> s < |InUse(m)|)
            <==> !(HolderPc(m).Swap? && |InUse(m)| <= s < |InUse(m)| + DescriptorTable.GROWTH)
  {
    ReachableInv(m);
  }
}
