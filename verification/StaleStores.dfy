/**
 Stores that take no lock: those of a close, and those of pbuf and count by recv and ioctl.  Each goes
 through a pointer fetched earlier, and a growth may replace the array before it or after it.
 */
module StaleStores {
  import opened Wrappers
  import opened NetLib
  import opened Concurrent
  import opened Solo

  /** Slot s of array arr has value w in w's field. */
  predicate WordAt(m: Machine, arr: nat, s: nat, w: Word) {
    Get(Read(m, arr, s), FieldOf(w)) == w
  }

  /** What a step stores, in the array of the pointer that the thread has. */
  function StoreOf(m: Machine, act: Action): Option<Access> {
    if act.t >= |m.threads| then None
    else
      var pc := m.threads[act.t];
      if act.Tick? then StoreAt(m, pc)
      else if act.Write? && pc.Using? && !act.w.ConnWord? then Some(Access(pc.arr, pc.s, act.w))
      else None
  }

  /** The step stores another value than w in this field of slot s of the table in use. */
  predicate Changes(m: Machine, act: Action, s: nat, w: Word) {
    var a := StoreOf(m, act);
    a.Some? && a.value.arr == m.cur && a.value.s == s && FieldOf(a.value.w) == FieldOf(w) && a.value.w != w
  }

  /** No step of the run does. */
  predicate Unchanged(m: Machine, acts: seq<Action>, s: nat, w: Word)
    decreases |acts|
  {
    acts == [] || (!Changes(m, acts[0], s, w) && Unchanged(Next(m, acts[0]), acts[1..], s, w))
  }

  /** No step of the run issues s. */
  predicate Quiet(m: Machine, acts: seq<Action>, s: nat)
    decreases |acts|
  {
    acts == [] || (!Issues(m, acts[0], s) && Quiet(Next(m, acts[0]), acts[1..], s))
  }

  // ---------- To the end of the growth in progress ----------

  lemma CopiedStep(m: Machine, t: nat, s: nat, f: Field)
    requires Inv(m) && m.lock == Some(t) && Copied(HolderPc(m), s, f) && s < |InUse(m)|
    ensures var m' := Advance(m, t, true);
            && !Issues(m, Tick(t, true), s) && s < |InUse(m')|
            && (StoreOf(m, Tick(t, true)).Some? ==> StoreOf(m, Tick(t, true)).value.arr != m.cur)
            && (if HolderPc(m).Swap?
                then m'.cur == m.cur + 1 && Get(Read(m', m'.cur, s), f) == Get(Read(m, m.cur + 1, s), f)
                else m'.lock == m.lock && Copied(HolderPc(m'), s, f) && m'.cur == m.cur
                     && Get(Read(m', m'.cur + 1, s), f) == Get(Read(m, m.cur + 1, s), f))
  {
    assert HolderPc(m) == m.threads[t];
    AdvanceHolder(m, t, true);
    AdvanceMemory(m, t, true);
  }

  lemma CopiedStepShrinks(m: Machine, t: nat, s: nat, f: Field)
    requires Inv(m) && m.lock == Some(t) && Copied(HolderPc(m), s, f) && !HolderPc(m).Swap?
    ensures var m' := Advance(m, t, true);
            Inv(m') && StepsLeft(m'.size, HolderPc(m')) < StepsLeft(m.size, HolderPc(m))
  {
    assert HolderPc(m) == m.threads[t];
    StepRuns(m, t, true);
    AdvanceHolder(m, t, true);
    AdvanceControl(m, t, true);
  }

  /** The run of no steps. */
  lemma NoSteps(m: Machine, s: nat, w: Word) returns (acts: seq<Action>)
    ensures OnlyTicks(acts) && Run(m, acts) == m && Quiet(m, acts, s) && Unchanged(m, acts, s, w)
  {
    acts := [];
  }

  /** One more step before a run. */
  lemma StepBefore(m: Machine, act: Action, m': Machine, rest: seq<Action>, s: nat, w: Word)
    requires act.Tick? && !Issues(m, act, s) && !Changes(m, act, s, w) && m' == Next(m, act)
    requires OnlyTicks(rest) && Quiet(m', rest, s) && Unchanged(m', rest, s, w)
    ensures var acts := [act] + rest;
            OnlyTicks(acts) && Quiet(m, acts, s) && Unchanged(m, acts, s, w) && Run(m, acts) == Run(m', rest)
  {
    assert ([act] + rest)[1..] == rest;
  }

  lemma HolderStep(m: Machine, s: nat, w: Word) returns (act: Action, m': Machine)
    requires Inv(m) && Copied(HolderPc(m), s, FieldOf(w)) && s < |InUse(m)|
    ensures act.Tick? && m' == Next(m, act) && !Issues(m, act, s) && !Changes(m, act, s, w)
    ensures if HolderPc(m).Swap?
            then m'.cur == m.cur + 1 && Get(Read(m', m'.cur, s), FieldOf(w)) == Get(Read(m, m.cur + 1, s), FieldOf(w))
            else
              && Inv(m') && Copied(HolderPc(m'), s, FieldOf(w)) && s < |InUse(m')| && m'.cur == m.cur
              && Get(Read(m', m'.cur + 1, s), FieldOf(w)) == Get(Read(m, m.cur + 1, s), FieldOf(w))
              && StepsLeft(m'.size, HolderPc(m')) < StepsLeft(m.size, HolderPc(m))
  {
    var t := m.lock.value;
    act, m' := Tick(t, true), Advance(m, t, true);
    CopiedStep(m, t, s, FieldOf(w));
    if !HolderPc(m).Swap? {
      CopiedStepShrinks(m, t, s, FieldOf(w));
    }
  }

  /** The holder of the lock takes the copy into use, with the field as it is in the copy. */
  lemma {:induction false} HolderSwaps(m: Machine, s: nat, w: Word) returns (acts: seq<Action>)
    requires Inv(m) && Copied(HolderPc(m), s, FieldOf(w)) && s < |InUse(m)|
    ensures OnlyTicks(acts) && Quiet(m, acts, s) && Unchanged(m, acts, s, w)
    ensures var r := Run(m, acts);
            r.cur == m.cur + 1 && Get(Read(r, r.cur, s), FieldOf(w)) == Get(Read(m, m.cur + 1, s), FieldOf(w))
    decreases StepsLeft(m.size, HolderPc(m))
  {
    var act, m' := HolderStep(m, s, w);
    var rest;
    if HolderPc(m).Swap? {
      rest := NoSteps(m', s, w);
    } else {
      rest := HolderSwaps(m', s, w);
    }
    acts := [act] + rest;
    StepBefore(m, act, m', rest, s, w);
  }

  // ---------- A value that lasts ----------

  /** Slot s has the value, also in a copy that is not yet in use. */
  predicate Settled(m: Machine, s: nat, w: Word) {
    s < |InUse(m)| && WordAt(m, m.cur, s, w) && (Copied(HolderPc(m), s, FieldOf(w)) ==> WordAt(m, m.cur + 1, s, w))
  }

  /** A step that does not touch the copy. */
  lemma StoreKeepsSettled(m: Machine, t: nat, memory: bool, m': Machine, s: nat, w: Word)
    requires Inv(m) && t < |m.threads| && Settled(m, s, w) && !Changes(m, Tick(t, memory), s, w)
    requires MemoryMoves(m, m.threads[t], memory, m') && !HasNext(m.threads[t])
    requires Copied(HolderPc(m'), s, FieldOf(w)) ==> Copied(HolderPc(m), s, FieldOf(w))
    ensures Settled(m', s, w)
  {
    var pc := m.threads[t];
    assert InSection(pc) ==> HolderPc(m) == pc;
    assert HasPointer(pc) ==> pc.arr <= m.cur;
  }

  lemma CopyKeepsSettled(m: Machine, t: nat, memory: bool, m': Machine, s: nat, w: Word)
    requires Inv(m) && Settled(m, s, w) && t < |m.threads| && m.threads[t].Copy?
    requires MemoryMoves(m, m.threads[t], memory, m') && HolderPc(m') == Goes(m, m.threads[t], memory)
    ensures Settled(m', s, w)
  {
    assert HolderPc(m) == m.threads[t];
  }

  lemma SwapKeepsSettled(m: Machine, t: nat, memory: bool, m': Machine, s: nat, w: Word)
    requires Inv(m) && Settled(m, s, w) && t < |m.threads| && (m.threads[t].Bump? || m.threads[t].Swap?)
    requires MemoryMoves(m, m.threads[t], memory, m') && HolderPc(m') == Goes(m, m.threads[t], memory)
    ensures Settled(m', s, w)
  {
    assert HolderPc(m) == m.threads[t];
  }

  lemma TickKeepsSettled(m: Machine, t: nat, memory: bool, s: nat, w: Word)
    requires Inv(m) && t < |m.threads| && Settled(m, s, w) && !Changes(m, Tick(t, memory), s, w)
    ensures Settled(Advance(m, t, memory), s, w)
  {
    AdvanceMemory(m, t, memory);
    AdvanceHolder(m, t, memory);
    if m.threads[t].Copy? {
      CopyKeepsSettled(m, t, memory, Advance(m, t, memory), s, w);
    } else if HasNext(m.threads[t]) {
      SwapKeepsSettled(m, t, memory, Advance(m, t, memory), s, w);
    } else {
      StoreKeepsSettled(m, t, memory, Advance(m, t, memory), s, w);
    }
  }

  /** A step that is not a thread's own progress through a call stores at most one word. */
  lemma CallMemory(m: Machine, act: Action)
    requires Inv(m) && !act.Tick?
    ensures var m', a := Next(m, act), StoreOf(m, act);
            && m'.cur == m.cur && HolderPc(m') == HolderPc(m)
            && m'.heap == (if a.Some? then Store(m, a.value.arr, a.value.s, a.value.w).heap else m.heap)
            && (a.Some? ==> a.value.arr <= m.cur)
  {
  }

  lemma CallKeepsSettled(m: Machine, act: Action, m': Machine, s: nat, w: Word)
    requires Settled(m, s, w) && !Changes(m, act, s, w) && m'.cur == m.cur && HolderPc(m') == HolderPc(m)
    requires var a := StoreOf(m, act);
             && m'.heap == (if a.Some? then Store(m, a.value.arr, a.value.s, a.value.w).heap else m.heap)
             && (a.Some? ==> a.value.arr <= m.cur)
    ensures Settled(m', s, w)
  {
  }

  lemma {:induction false} SettledRun(m: Machine, acts: seq<Action>, s: nat, w: Word)
    requires Inv(m) && Settled(m, s, w) && Unchanged(m, acts, s, w)
    ensures Settled(Run(m, acts), s, w)
    decreases |acts|
  {
    if acts != [] {
      SettledStep(m, acts[0], s, w);
      NextKeeps(m, acts[0]);
      SettledRun(Next(m, acts[0]), acts[1..], s, w);
    }
  }

  lemma SettledStep(m: Machine, act: Action, s: nat, w: Word)
    requires Inv(m) && Settled(m, s, w) && !Changes(m, act, s, w)
    ensures Settled(Next(m, act), s, w)
  {
    if !act.Tick? {
      CallMemory(m, act);
      CallKeepsSettled(m, act, Next(m, act), s, w);
    } else if act.t < |m.threads| {
      TickKeepsSettled(m, act.t, act.memory, s, w);
    }
  }

  /** A value lasts until another is stored exactly if it is settled. */
  lemma LastsExactly(m: Machine, s: nat, w: Word)
    requires Inv(m) && s < |InUse(m)|
    ensures (forall acts :: Unchanged(m, acts, s, w) ==> WordAt(Run(m, acts), Run(m, acts).cur, s, w))
            <==> Settled(m, s, w)
  {
    if Settled(m, s, w) {
      forall acts | Unchanged(m, acts, s, w) ensures WordAt(Run(m, acts), Run(m, acts).cur, s, w) {
        SettledRun(m, acts, s, w);
      }
    } else if !WordAt(m, m.cur, s, w) {
      var none := NoSteps(m, s, w);
      assert Unchanged(m, none, s, w);
    } else {
      var acts := HolderSwaps(m, s, w);
      assert Unchanged(m, acts, s, w);
    }
  }

  /**
   The pointer is not stale and the field is not copied.  (Unless what it would miss has the value already.)
   */
  predicate Lands(m: Machine, arr: nat, s: nat, w: Word) {
    && (arr == m.cur || WordAt(m, m.cur, s, w))
    && (Copied(HolderPc(m), s, FieldOf(w)) ==> WordAt(m, m.cur + 1, s, w))
  }

  /** A store of a thread that does not hold the lock. */
  predicate Unlocked(m: Machine, act: Action) {
    StoreOf(m, act).Some? && !InSection(m.threads[act.t])
  }

  lemma AfterStore(m: Machine, act: Action) returns (m': Machine)
    requires Inv(m) && Unlocked(m, act)
    ensures m' == Next(m, act) && Inv(m')
    ensures var a := StoreOf(m, act).value;
            a.s < |InUse(m')| && (Settled(m', a.s, a.w) <==> Lands(m, a.arr, a.s, a.w))
  {
    NextKeeps(m, act);
    m' := Next(m, act);
    if act.Tick? {
      AdvanceMemory(m, act.t, act.memory);
      AdvanceHolder(m, act.t, act.memory);
    } else {
      CallMemory(m, act);
    }
    StoreSettles(m, m', act);
  }

  lemma StoreSettles(m: Machine, m': Machine, act: Action)
    requires Inv(m) && Unlocked(m, act) && HolderPc(m') == HolderPc(m) && m'.cur == m.cur
    requires var a := StoreOf(m, act).value; m'.heap == Store(m, a.arr, a.s, a.w).heap
    ensures var a := StoreOf(m, act).value;
            a.s < |InUse(m')| && (Settled(m', a.s, a.w) <==> Lands(m, a.arr, a.s, a.w))
  {
    assert HasPointer(m.threads[act.t]);
  }

  /**
   What is stored without the lock - by a close, or as pbuf or count by recv or ioctl - is what the
   table in use holds until something else is stored there, if and only if the pointer is not stale
   and no growth has copied the field already (or the older value is the same).  Otherwise a later
   call works with the older value again.
   */
  lemma StoreLastsExactly(m: Machine, act: Action)
    requires Reachable(m) && Unlocked(m, act)
    ensures var a, m' := StoreOf(m, act).value, Next(m, act);
            (forall acts :: Unchanged(m', acts, a.s, a.w) ==> WordAt(Run(m', acts), Run(m', acts).cur, a.s, a.w))
            <==> Lands(m, a.arr, a.s, a.w)
  {
    ReachableInv(m);
    var m' := AfterStore(m, act);
    LastsExactly(m', StoreOf(m, act).value.s, StoreOf(m, act).value.w);
  }

  // ---------- The null store of a close ----------

  /** Only issues store a connection. */
  lemma {:induction false} QuietUnchanged(m: Machine, acts: seq<Action>, s: nat)
    requires Inv(m) && Quiet(m, acts, s)
    ensures Unchanged(m, acts, s, ConnWord(None))
    decreases |acts|
  {
    if acts != [] {
      NextKeeps(m, acts[0]);
      QuietUnchanged(Next(m, acts[0]), acts[1..], s);
    }
  }

  /** A copied slot holds what the slot in use holds, unless that was erased since. */
  lemma CopyHolds(m: Machine, s: nat)
    requires Inv(m) && Copied(HolderPc(m), s, ConnField) && s < |InUse(m)| && Read(m, m.cur, s).conn.Some?
    ensures Read(m, m.cur + 1, s).conn == Read(m, m.cur, s).conn
  {
    assert Holds(InUse(m), s, Read(m, m.cur, s).conn.value);
    assert Holds(m.heap[m.cur + 1], s, Read(m, m.cur, s).conn.value);
  }

  lemma EmptyForGood(m: Machine, s: nat)
    requires Inv(m) && s < |InUse(m)|
    ensures (forall acts :: Quiet(m, acts, s) ==> Read(Run(m, acts), Run(m, acts).cur, s).conn.None?)
            <==> Settled(m, s, ConnWord(None))
  {
    if Settled(m, s, ConnWord(None)) {
      forall acts | Quiet(m, acts, s) ensures Read(Run(m, acts), Run(m, acts).cur, s).conn.None? {
        QuietUnchanged(m, acts, s);
        SettledRun(m, acts, s, ConnWord(None));
      }
    } else if Read(m, m.cur, s).conn.Some? {
      var none := NoSteps(m, s, ConnWord(None));
    } else {
      var acts := HolderSwaps(m, s, ConnWord(None));
      assert Quiet(m, acts, s);
    }
  }

  /**
   The null store of a close takes effect - the slot is empty from then on, until the descriptor is
   issued again - if and only if its pointer is not stale and no growth has copied the slot already.
   (For a slot that was empty before the store, the copy alone decides.)
   */
  lemma CloseTakesExactly(m: Machine, u: nat, memory: bool)
    requires Reachable(m) && u < |m.threads| && m.threads[u].Deleted?
    ensures var arr, s, m' := m.threads[u].arr, m.threads[u].s, Advance(m, u, memory);
            && ((forall acts :: Quiet(m', acts, s) ==> Read(Run(m', acts), Run(m', acts).cur, s).conn.None?)
                <==> Lands(m, arr, s, ConnWord(None)))
            && (Read(m, m.cur, s).conn.Some? ==>
                  (Lands(m, arr, s, ConnWord(None)) <==> arr == m.cur && !Copied(HolderPc(m), s, ConnField)))
  {
    ReachableInv(m);
    AdvanceKeeps(m, u, memory);
    EraseLands(m, u, memory);
    EmptyForGood(Advance(m, u, memory), m.threads[u].s);
  }

  lemma EraseLands(m: Machine, u: nat, memory: bool)
    requires Inv(m) && u < |m.threads| && m.threads[u].Deleted?
    ensures var arr, s := m.threads[u].arr, m.threads[u].s;
            && s < |InUse(Advance(m, u, memory))|
            && (Settled(Advance(m, u, memory), s, ConnWord(None)) <==> Lands(m, arr, s, ConnWord(None)))
            && (Read(m, m.cur, s).conn.Some? ==>
                  (Lands(m, arr, s, ConnWord(None)) <==> arr == m.cur && !Copied(HolderPc(m), s, ConnField)))
  {
    var m' := AfterStore(m, Tick(u, memory));
    if Read(m, m.cur, m.threads[u].s).conn.Some? {
      LandsOnOccupied(m, m.threads[u].arr, m.threads[u].s);
    }
  }

  lemma LandsOnOccupied(m: Machine, arr: nat, s: nat)
    requires Inv(m) && s < |InUse(m)| && Read(m, m.cur, s).conn.Some?
    ensures Lands(m, arr, s, ConnWord(None)) <==> arr == m.cur && !Copied(HolderPc(m), s, ConnField)
  {
    if Copied(HolderPc(m), s, ConnField) {
      CopyHolds(m, s);
    }
  }

  // ---------- How a close is lost ----------

  /** Taking the copy into use changes the connection of a slot exactly where one was erased too late. */
  lemma SwapRevivesLateCloses(m: Machine, t: nat, memory: bool, s: nat)
    requires Reachable(m) && t < |m.threads| && m.threads[t].Swap? && s < |InUse(m)|
    ensures Read(Advance(m, t, memory), m.cur + 1, s).conn != Read(m, m.cur, s).conn <==> s in m.late
    ensures Advance(m, t, memory).cur == m.cur + 1
  {
    ReachableInv(m);
    var a, b := InUse(m), m.heap[m.cur + 1];
    assert HolderPc(m) == m.threads[t];
    assert a[s].conn.Some? ==> Holds(a, s, a[s].conn.value);
    assert b[s].conn.Some? ==> Holds(b, s, b[s].conn.value);
  }

  /**
   A close whose null store comes after its slot was copied: the slot is empty, and some steps of the
   lock holder later it holds the deleted connection again.
   */
  lemma LateCloseIsLost(m: Machine, u: nat, memory: bool, s: nat, c: Conn) returns (acts: seq<Action>)
    requires Reachable(m) && u < |m.threads| && m.threads[u] == Deleted(m.cur, s)
    requires Copied(HolderPc(m), s, ConnField) && Holds(InUse(m), s, c)
    ensures var m' := Advance(m, u, memory);
            && Read(m', m'.cur, s).conn.None?
            && OnlyTicks(acts) && Quiet(m', acts, s) && Holds(InUse(Run(m', acts)), s, c)
  {
    var m' := Advance(m, u, memory);
    ReachableInv(m);
    AdvanceKeeps(m, u, memory);
    LateErase(m, u, memory, s, c);
    acts := HolderSwaps(m', s, ConnWord(None));
  }

  lemma LateErase(m: Machine, u: nat, memory: bool, s: nat, c: Conn)
    requires Inv(m) && u < |m.threads| && m.threads[u] == Deleted(m.cur, s)
    requires Copied(HolderPc(m), s, ConnField) && Holds(InUse(m), s, c)
    ensures var m' := Advance(m, u, memory);
            && m'.cur == m.cur && s < |InUse(m')| && Read(m', m.cur, s).conn.None?
            && Copied(HolderPc(m'), s, ConnField) && Read(m', m.cur + 1, s).conn == Some(c)
  {
    CopyHolds(m, s);
    AdvanceHolder(m, u, memory);
    AdvanceMemory(m, u, memory);
  }
}
