/**
 How long an issued descriptor belongs to its connection, with any number of threads.  A close
 deletes the handle before it erases the slot, and the library may give the handle out again in
 between, so an issue can be lost to a close that is older than the issue.
 */
module Exclusive {
  import opened Wrappers
  import opened NetLib
  import opened Concurrent
  import opened Solo

  /** The connection is open: its handle was not deleted since the library gave it out. */
  predicate Live(m: Machine, who: Issue) {
    who.conn in m.open && m.open[who.conn] == who.id
  }

  /** The caller who was given s for `who` can go on using it. */
  predicate Intact(m: Machine, s: nat, who: Issue) {
    s in m.grants && m.grants[s] == who && Holds(InUse(m), s, who.conn) && Live(m, who)
  }

  /** Thread u is in a call for an earlier connection with the same handle, and has not looked it up yet. */
  predicate Impostor(m: Machine, u: nat, who: Issue) {
    u < |m.threads| && (m.threads[u].AtLock? || m.threads[u].ScanFor?)
    && m.threads[u].who.conn == who.conn && m.threads[u].who != who
  }

  /** Thread u is about to erase slot s, to delete the handle, or to be given s for an earlier connection. */
  predicate Threat(m: Machine, u: nat, s: nat, who: Issue) {
    u < |m.threads| &&
    var pc := m.threads[u];
    || pc == Deleted(m.cur, s)
    || (pc.Closing? && Read(m, pc.arr, pc.s).conn == Some(who.conn))
    || Impostor(m, u, who)
  }

  ghost predicate Safe(m: Machine, s: nat, who: Issue) {
    Intact(m, s, who) && forall u :: !Threat(m, u, s, who)
  }

  /** No close of s begins. */
  predicate NotClosed(acts: seq<Action>, s: nat) {
    forall k :: 0 <= k < |acts| ==> !(acts[k].CloseCall? && acts[k].s == s)
  }

  // ---------- A safe issue stays safe ----------

  /** A handle that is in the table turns up nowhere else. */
  lemma MemoryReads(m: Machine, t: nat, memory: bool, m': Machine, s: nat, c: Conn, arr: nat, i: nat)
    requires Inv(m) && t < |m.threads| && MemoryMoves(m, m.threads[t], memory, m')
    requires Holds(InUse(m), s, c) && arr <= m.cur && InHeap(m, arr, i) && Read(m', arr, i).conn == Some(c)
    ensures Read(m, arr, i).conn == Some(c)
  {
    var pc := m.threads[t];
    assert InSection(pc) ==> HolderPc(m) == pc;
    assert pc.StoreFree? || pc.StoreNew? ==> pc.who.conn != c;
  }

  lemma NextReads(m: Machine, act: Action, s: nat, c: Conn, arr: nat, i: nat)
    requires Inv(m) && Holds(InUse(m), s, c) && arr <= m.cur && InHeap(m, arr, i)
    requires Read(Next(m, act), arr, i).conn == Some(c)
    ensures Read(m, arr, i).conn == Some(c)
  {
    if act.Tick? && act.t < |m.threads| {
      AdvanceMemory(m, act.t, act.memory);
      MemoryReads(m, act.t, act.memory, Next(m, act), s, c, arr, i);
    }
  }

  lemma NextCur(m: Machine, act: Action)
    requires Inv(m)
    ensures m.cur <= Next(m, act).cur && |Next(m, act).threads| == |m.threads|
    ensures forall v :: 0 <= v < |m.threads| && v != act.t ==> Next(m, act).threads[v] == m.threads[v]
  {
    if act.Tick? && act.t < |m.threads| {
      AdvanceCur(m, act.t, act.memory);
      AdvanceControl(m, act.t, act.memory);
    }
  }

  /** A thread that did not step is no new threat. */
  lemma OtherNoThreat(m: Machine, act: Action, u: nat, s: nat, who: Issue)
    requires Inv(m) && Holds(InUse(m), s, who.conn) && u != act.t && Threat(Next(m, act), u, s, who)
    ensures Threat(m, u, s, who)
  {
    NextCur(m, act);
    var pc := m.threads[u];
    assert HasPointer(pc) ==> pc.arr <= m.cur && InHeap(m, pc.arr, pc.s);
    if pc.Closing? {
      NextReads(m, act, s, who.conn, pc.arr, pc.s);
    }
  }

  /** Nor is a thread that did, unless it began a close of s. */
  lemma OwnNoThreat(m: Machine, act: Action, s: nat, who: Issue)
    requires Inv(m) && Intact(m, s, who) && Threat(Next(m, act), act.t, s, who)
    requires act != CloseCall(act.t, s)
    ensures Threat(m, act.t, s, who)
  {
    NextCur(m, act);
    if act.CloseCall? {
      assert !Holds(InUse(m), act.s, who.conn);
    } else if act.Tick? {
      OwnStepNoThreat(m, act.t, act.memory, s, who);
    }
  }

  lemma OwnStepNoThreat(m: Machine, t: nat, memory: bool, s: nat, who: Issue)
    requires Inv(m) && t < |m.threads| && Holds(InUse(m), s, who.conn) && Threat(Advance(m, t, memory), t, s, who)
    ensures Threat(m, t, s, who)
  {
    AdvanceControl(m, t, memory);
    AdvanceCur(m, t, memory);
    assert Read(m, m.cur, s) == InUse(m)[s];
  }

  lemma GrantKept(m: Machine, act: Action, s: nat, who: Issue)
    requires Inv(m) && Intact(m, s, who) && act != CloseCall(act.t, s) && !Threat(m, act.t, s, who)
    ensures s in Next(m, act).grants && Next(m, act).grants[s] == who
  {
    if Issues(m, act, s) {
      IssuingIsExclusive(m, act.t, act.memory, s);
    } else {
      OnlyIssuesGrant(m, act, s);
    }
  }

  lemma LiveKept(m: Machine, act: Action, s: nat, who: Issue)
    requires Live(m, who) && !Threat(m, act.t, s, who)
    ensures Live(Next(m, act), who)
  {
    if act.Tick? && act.t < |m.threads| {
      if m.threads[act.t].Closing? {
      } else if InSection(m.threads[act.t]) {
      } else {
      }
    }
  }

  lemma SafeStep(m: Machine, act: Action, s: nat, who: Issue)
    requires Inv(m) && Safe(m, s, who) && act != CloseCall(act.t, s)
    ensures Inv(Next(m, act)) && Safe(Next(m, act), s, who)
  {
    NextKeepsOccupied(m, act, s, who.conn);
    GrantKept(m, act, s, who);
    LiveKept(m, act, s, who);
    forall u ensures !Threat(Next(m, act), u, s, who) {
      if Threat(Next(m, act), u, s, who) {
        if u == act.t {
          OwnNoThreat(m, act, s, who);
        } else {
          OtherNoThreat(m, act, u, s, who);
        }
      }
    }
  }

  lemma {:induction false} SafeRun(m: Machine, acts: seq<Action>, s: nat, who: Issue)
    requires Inv(m) && Safe(m, s, who) && NotClosed(acts, s)
    ensures Safe(Run(m, acts), s, who)
    decreases |acts|
  {
    if acts != [] {
      assert acts[0] != CloseCall(acts[0].t, s);
      SafeStep(m, acts[0], s, who);
      SafeRun(Next(m, acts[0]), acts[1..], s, who);
    }
  }

  // ---------- A threat comes true ----------

  /** The impostor gets the lock once its holder has finished, scans up to s and is given s. */
  lemma {:induction false} ImpostorIsGiven(m: Machine, u: nat, s: nat, who: Issue) returns (acts: seq<Action>)
    requires Inv(m) && Impostor(m, u, who)
    ensures OnlyTicks(acts) && !Intact(Run(m, acts), s, who)
    decreases if m.threads[u].ScanFor? then 0 else if m.lock.None? then 1 else 2,
              if m.threads[u].ScanFor? then (if m.threads[u].i <= s then s - m.threads[u].i else 0)
              else StepsLeft(m.size, HolderPc(m))
  {
    if !Intact(m, s, who) {
      return [];
    }
    var t := if m.threads[u].AtLock? && m.lock.Some? then m.lock.value else u;
    if m.threads[u].ScanFor? && m.threads[u].i == s {
      ImpostorHits(m, u, s, who);
      acts := [Tick(u, true)];
      RunOne(m, acts[0]);
    } else {
      if t == u {
        ImpostorScans(m, u, s, who);
      } else {
        StepRuns(m, t, true);
        StepFrame(m, t, true);
      }
      var rest := ImpostorIsGiven(Advance(m, t, true), u, s, who);
      acts := [Tick(t, true)] + rest;
      RunCons(m, Tick(t, true), rest);
    }
  }

  lemma ImpostorHits(m: Machine, u: nat, s: nat, who: Issue)
    requires Inv(m) && Impostor(m, u, who) && m.threads[u].ScanFor? && m.threads[u].i == s && Intact(m, s, who)
    ensures !Intact(Advance(m, u, true), s, who)
  {
    assert HolderPc(m) == m.threads[u];
  }

  lemma ImpostorScans(m: Machine, u: nat, s: nat, who: Issue)
    requires Inv(m) && Impostor(m, u, who) && Intact(m, s, who)
    requires if m.threads[u].ScanFor? then m.threads[u].i != s else m.lock.None?
    ensures var m' := Advance(m, u, true);
            && Inv(m') && Impostor(m', u, who) && m'.threads[u].ScanFor?
            && (m.threads[u].ScanFor? ==> m.threads[u].i < m'.threads[u].i <= s)
  {
    AdvanceKeeps(m, u, true);
    if m.threads[u].ScanFor? {
      assert HolderPc(m) == m.threads[u];
      assert m.threads[u].i > s ==> !Holds(InUse(m), s, who.conn);
      assert !Holds(InUse(m), m.threads[u].i, who.conn);
    }
  }

  lemma ThreatComesTrue(m: Machine, u: nat, s: nat, who: Issue) returns (acts: seq<Action>)
    requires Inv(m) && Threat(m, u, s, who)
    ensures OnlyTicks(acts) && !Intact(Run(m, acts), s, who)
  {
    if Impostor(m, u, who) {
      acts := ImpostorIsGiven(m, u, s, who);
    } else {
      acts := [Tick(u, true)];
      RunOne(m, acts[0]);
    }
  }

  /**
   A descriptor just issued stays with its connection, whatever all threads do, until a close of it
   begins: if and only if the connection is still open at the issue, and no thread is about to erase
   the slot, to delete the handle, or to look the handle up for an earlier connection.
   */
  lemma IssueKeptExactly(m: Machine, act: Action, s: nat)
    requires Reachable(m) && Issues(m, act, s)
    ensures var m', who := Next(m, act), m.threads[act.t].who;
            (forall acts :: NotClosed(acts, s) ==> Intact(Run(m', acts), s, who))
            <==> Live(m', who) && forall u :: !Threat(m', u, s, who)
  {
    ReachableInv(m);
    var m', who := Issued(m, act, s);
    GrantKeptExactly(m', s, who);
  }

  lemma GrantKeptExactly(m: Machine, s: nat, who: Issue)
    requires Inv(m) && s in m.grants && m.grants[s] == who && Holds(InUse(m), s, who.conn)
    ensures (forall acts :: NotClosed(acts, s) ==> Intact(Run(m, acts), s, who))
            <==> Live(m, who) && forall u :: !Threat(m, u, s, who)
  {
    if Live(m, who) && forall u :: !Threat(m, u, s, who) {
      forall acts | NotClosed(acts, s) ensures Intact(Run(m, acts), s, who) {
        SafeRun(m, acts, s, who);
      }
    } else if Live(m, who) {
      var u :| Threat(m, u, s, who);
      var acts := ThreatComesTrue(m, u, s, who);
      assert NotClosed(acts, s);
    } else {
      assert NotClosed([], s) && !Intact(Run(m, []), s, who);
    }
  }

  lemma Issued(m: Machine, act: Action, s: nat) returns (m': Machine, who: Issue)
    requires Inv(m) && Issues(m, act, s)
    ensures m' == Next(m, act) && Inv(m') && who == m.threads[act.t].who
    ensures s in m'.grants && m'.grants[s] == who && Holds(InUse(m'), s, who.conn)
  {
    NextKeeps(m, act);
    IssueHolds(m, act.t, act.memory, s);
    m', who := Next(m, act), m.threads[act.t].who;
  }

  lemma IssueHolds(m: Machine, t: nat, memory: bool, s: nat)
    requires Inv(m) && Issuing(m, t, s)
    ensures var m', who := Advance(m, t, memory), m.threads[t].who;
            s in m'.grants && m'.grants[s] == who && Holds(InUse(m'), s, who.conn)
  {
    assert HolderPc(m) == m.threads[t];
  }

  /** In particular, until then s is issued to nobody else. */
  lemma KeptIssueIsAlone(m: Machine, act: Action, s: nat, acts: seq<Action>, again: Action)
    requires Reachable(m) && Issues(m, act, s) && Live(Next(m, act), m.threads[act.t].who)
    requires forall u :: !Threat(Next(m, act), u, s, m.threads[act.t].who)
    requires NotClosed(acts, s) && Issues(Run(Next(m, act), acts), again, s)
    ensures Run(Next(m, act), acts).threads[again.t].who == m.threads[act.t].who
  {
    ReachableInv(m);
    var m', who := Issued(m, act, s);
    SafeIsAlone(m', s, who, acts, again);
  }

  lemma SafeIsAlone(m: Machine, s: nat, who: Issue, acts: seq<Action>, again: Action)
    requires Inv(m) && Safe(m, s, who) && NotClosed(acts, s) && Issues(Run(m, acts), again, s)
    ensures Run(m, acts).threads[again.t].who == who
  {
    SafeRun(m, acts, s, who);
    RunKeeps(m, acts);
    var m', who' := Issued(Run(m, acts), again, s);
    SafeStep(Run(m, acts), again, s, who);
  }

  // ---------- The slot alone ----------

  /** Thread u is in a close that will erase slot s of the table in use. */
  predicate Pending(m: Machine, u: nat, s: nat) {
    u < |m.threads| && (m.threads[u] == Closing(m.cur, s) || m.threads[u] == Deleted(m.cur, s))
  }

  lemma NoNewPendingTick(m: Machine, t: nat, memory: bool, m': Machine, s: nat)
    requires Inv(m) && t < |m.threads| && m.cur <= m'.cur && m'.threads == m.threads[t := Goes(m, m.threads[t], memory)]
    requires Pending(m', t, s) && (m'.cur == m.cur + 1 <==> m.threads[t].Swap?) && m'.cur <= m.cur + 1
    ensures Pending(m, t, s)
  {
  }

  lemma NoNewPending(m: Machine, act: Action, u: nat, s: nat)
    requires Inv(m) && Pending(Next(m, act), u, s) && act != CloseCall(act.t, s)
    ensures Pending(m, u, s)
  {
    NextCur(m, act);
    assert HasPointer(m.threads[u]) ==> m.threads[u].arr <= m.cur;
    if act.Tick? && u == act.t {
      AdvanceControl(m, u, act.memory);
      AdvanceCur(m, u, act.memory);
      NoNewPendingTick(m, u, act.memory, Next(m, act), s);
    }
  }

  lemma {:induction false} UnerasedRun(m: Machine, acts: seq<Action>, s: nat, c: Conn)
    requires Inv(m) && Holds(InUse(m), s, c) && (forall u :: !Pending(m, u, s)) && NotClosed(acts, s)
    ensures Holds(InUse(Run(m, acts)), s, c)
    decreases |acts|
  {
    if acts != [] {
      assert acts[0] != CloseCall(acts[0].t, s);
      assert !Pending(m, acts[0].t, s);
      NextKeepsOccupied(m, acts[0], s, c);
      NonePending(m, acts[0], s);
      UnerasedRun(Next(m, acts[0]), acts[1..], s, c);
    }
  }

  lemma PendingThroughIssue(m: Machine, t: nat, memory: bool, u: nat, s: nat)
    requires Inv(m) && Issuing(m, t, s) && Pending(m, u, s)
    ensures Pending(Advance(m, t, memory), u, s)
  {
    AdvanceCur(m, t, memory);
    AdvanceControl(m, t, memory);
  }

  /**
   A close that began before the issue erases it later, in some run, if and only if at the issue some
   thread holds a close's pointer to this slot of the table in use.
   */
  lemma IssueErasedExactly(m: Machine, act: Action, s: nat)
    requires Reachable(m) && Issues(m, act, s)
    ensures var m', who := Next(m, act), m.threads[act.t].who;
            (exists acts :: NotClosed(acts, s) && !Holds(InUse(Run(m', acts)), s, who.conn))
            <==> exists u :: Pending(m, u, s)
  {
    ReachableInv(m);
    var m', who := Issued(m, act, s);
    SlotErasedExactly(m', s, who.conn);
    PendingAsBefore(m, act, s);
  }

  lemma PendingAsBefore(m: Machine, act: Action, s: nat)
    requires Inv(m) && Issues(m, act, s)
    ensures (exists u :: Pending(Next(m, act), u, s)) <==> exists u :: Pending(m, u, s)
  {
    if u :| Pending(m, u, s) {
      PendingThroughIssue(m, act.t, act.memory, u, s);
      assert Pending(Next(m, act), u, s);
    } else {
      NonePending(m, act, s);
    }
  }

  lemma SlotErasedExactly(m: Machine, s: nat, c: Conn)
    requires Inv(m) && Holds(InUse(m), s, c)
    ensures (exists acts :: NotClosed(acts, s) && !Holds(InUse(Run(m, acts)), s, c)) <==> exists u :: Pending(m, u, s)
  {
    if u :| Pending(m, u, s) {
      PendingErases(m, u, s, c);
    } else {
      forall acts | NotClosed(acts, s) ensures Holds(InUse(Run(m, acts)), s, c) {
        UnerasedRun(m, acts, s, c);
      }
    }
  }

  lemma NonePending(m: Machine, act: Action, s: nat)
    requires Inv(m) && act != CloseCall(act.t, s) && forall u :: !Pending(m, u, s)
    ensures forall u :: !Pending(Next(m, act), u, s)
  {
    forall u ensures !Pending(Next(m, act), u, s) {
      if Pending(Next(m, act), u, s) { NoNewPending(m, act, u, s); }
    }
  }

  lemma PendingErases(m: Machine, u: nat, s: nat, c: Conn)
    requires Inv(m) && Pending(m, u, s)
    ensures exists acts :: NotClosed(acts, s) && !Holds(InUse(Run(m, acts)), s, c)
  {
    if m.threads[u].Closing? {
      var m1 := Advance(m, u, true);
      AdvanceControl(m, u, true);
      AdvanceCur(m, u, true);
      var rest := DeletedErases(m1, u, s, c);
      RunCons(m, Tick(u, true), rest);
      assert NotClosed([Tick(u, true)] + rest, s);
    } else {
      var acts := DeletedErases(m, u, s, c);
    }
  }

  lemma DeletedErases(m: Machine, u: nat, s: nat, c: Conn) returns (acts: seq<Action>)
    requires u < |m.threads| && m.threads[u] == Deleted(m.cur, s)
    ensures NotClosed(acts, s) && !Holds(InUse(Run(m, acts)), s, c)
  {
    acts := [Tick(u, true)];
    AdvanceMemory(m, u, true);
    RunOne(m, acts[0]);
  }
}
