/**
 What callers can rely on: if closes do not overlap with what would make them unsafe, every descriptor
 is the connection it was issued for, and the table holds nothing else.
 */
module Orderly {
  import opened Wrappers
  import opened NetLib
  import opened Concurrent
  import opened Exclusive

  /** A close that gets past its tests. */
  predicate Begins(m: Machine, act: Action) {
    act.CloseCall? && act.t < |m.threads| && m.threads[act.t].Idle? && Usable(m, act.s)
  }

  /** A thread in a call that has not given its connection a descriptor yet. */
  predicate Calling(pc: Pc) {
    pc.AtLock? || (InSection(pc) && !pc.Unlock?)
  }

  /** No growth has copied the slot, and no call for its connection is under way. */
  ghost predicate MayClose(m: Machine, s: nat) {
    && !Copied(HolderPc(m), s, ConnField)
    && forall u :: 0 <= u < |m.threads| && Calling(m.threads[u]) ==> Some(m.threads[u].who.conn) != Read(m, m.cur, s).conn
  }

  /**
   Any calls of any threads in any interleaving, except that a close begins only when it may and that
   its steps up to the null store follow at once.
   */
  ghost predicate InOrder(m: Machine, acts: seq<Action>)
    decreases |acts|
  {
    acts == [] ||
    if Begins(m, acts[0]) then
      && MayClose(m, acts[0].s) && |acts| >= 3
      && acts[1].Tick? && acts[2].Tick? && acts[1].t == acts[2].t == acts[0].t
      && InOrder(Run(m, acts[..3]), acts[3..])
    else InOrder(Next(m, acts[0]), acts[1..])
  }

  ghost predicate NoneClosing(m: Machine) {
    forall u :: 0 <= u < |m.threads| ==> !m.threads[u].Closing? && !m.threads[u].Deleted?
  }

  ghost predicate AllIntact(m: Machine) {
    forall s :: s in m.grants ==> Intact(m, s, m.grants[s])
  }

  ghost predicate CallsLive(m: Machine) {
    forall u :: 0 <= u < |m.threads| && Calling(m.threads[u]) ==> Live(m, m.threads[u].who)
  }

  /** Slot s is occupied only while its descriptor is in use. */
  ghost predicate OnlyGranted(m: Machine) {
    forall s :: 0 <= s < |InUse(m)| && InUse(m)[s].conn.Some? ==> s in m.grants
  }

  ghost predicate Tidy(m: Machine) {
    && Inv(m) && NoneClosing(m) && AllIntact(m) && CallsLive(m) && OnlyGranted(m)
    && (HasNext(HolderPc(m)) ==> m.late == {})
  }

  // ---------- Steps other than a close ----------

  lemma StillNoneClosing(m: Machine, act: Action)
    requires Inv(m) && NoneClosing(m) && !Begins(m, act)
    ensures NoneClosing(Next(m, act))
  {
    NextCur(m, act);
    if act.Tick? && act.t < |m.threads| {
      AdvanceControl(m, act.t, act.memory);
    }
  }

  /** No handle is deleted. */
  lemma OpenGrows(m: Machine, act: Action, who: Issue)
    requires NoneClosing(m) && Live(m, who)
    ensures Live(Next(m, act), who)
  {
    if act.Tick? && act.t < |m.threads| {
      assert Advance(m, act.t, act.memory).open == m.open;
    }
  }

  lemma StillIntact(m: Machine, act: Action, s: nat)
    requires Inv(m) && NoneClosing(m) && AllIntact(m) && CallsLive(m) && !Begins(m, act) && s in Next(m, act).grants
    ensures Intact(Next(m, act), s, Next(m, act).grants[s])
  {
    if Issues(m, act, s) {
      IssueHolds(m, act.t, act.memory, s);
      OpenGrows(m, act, m.threads[act.t].who);
    } else {
      OnlyIssuesGrant(m, act, s);
      NextKeepsOccupied(m, act, s, m.grants[s].conn);
      OpenGrows(m, act, m.grants[s]);
    }
  }

  lemma StillLive(m: Machine, act: Action, u: nat)
    requires Inv(m) && NoneClosing(m) && CallsLive(m) && u < |Next(m, act).threads| && Calling(Next(m, act).threads[u])
    ensures Live(Next(m, act), Next(m, act).threads[u].who)
  {
    NextCur(m, act);
    if u != act.t {
      OpenGrows(m, act, m.threads[u].who);
    } else if act.Tick? {
      AdvanceControl(m, u, act.memory);
      GoesOnCalling(m, m.threads[u], act.memory);
      OpenGrows(m, act, m.threads[u].who);
    } else if Calling(m.threads[u]) {
      OpenGrows(m, act, m.threads[u].who);
    }
  }

  lemma GoesOnCalling(m: Machine, pc: Pc, memory: bool)
    requires Calling(Goes(m, pc, memory))
    ensures Calling(pc) && Goes(m, pc, memory).who == pc.who
  {
  }

  /** What a step can put into a slot of the table in use. */
  lemma OccupiedFrom(m: Machine, t: nat, memory: bool, m': Machine, s: nat)
    requires Inv(m) && NoneClosing(m) && t < |m.threads| && MemoryMoves(m, m.threads[t], memory, m')
    requires HasNext(HolderPc(m)) ==> m.late == {}
    requires s < |InUse(m')| && InUse(m')[s].conn.Some? && !Issuing(m, t, s)
    ensures s < |InUse(m)| && InUse(m)[s].conn.Some?
  {
    var pc := m.threads[t];
    assert InSection(pc) ==> HolderPc(m) == pc;
    if pc.Swap? {
      assert Holds(m.heap[pc.next], s, InUse(m')[s].conn.value);
    }
  }

  lemma StillGranted(m: Machine, act: Action, s: nat)
    requires Tidy(m) && !Begins(m, act) && s < |InUse(Next(m, act))| && InUse(Next(m, act))[s].conn.Some?
    ensures s in Next(m, act).grants
  {
    if Issues(m, act, s) {
      IssueHolds(m, act.t, act.memory, s);
    } else {
      if act.Tick? && act.t < |m.threads| {
        AdvanceMemory(m, act.t, act.memory);
        OccupiedFrom(m, act.t, act.memory, Next(m, act), s);
      }
      OnlyIssuesGrant(m, act, s);
    }
  }

  lemma StillNoneLate(m: Machine, act: Action)
    requires Inv(m) && NoneClosing(m) && (HasNext(HolderPc(m)) ==> m.late == {})
    ensures HasNext(HolderPc(Next(m, act))) ==> Next(m, act).late == {}
  {
    if act.Tick? && act.t < |m.threads| {
      AdvanceHolder(m, act.t, act.memory);
    }
  }

  lemma TidyStep(m: Machine, act: Action)
    requires Tidy(m) && !Begins(m, act)
    ensures Tidy(Next(m, act))
  {
    NextKeeps(m, act);
    StillNoneClosing(m, act);
    StillNoneLate(m, act);
    forall s | s in Next(m, act).grants ensures Intact(Next(m, act), s, Next(m, act).grants[s]) {
      StillIntact(m, act, s);
    }
    forall u | 0 <= u < |Next(m, act).threads| && Calling(Next(m, act).threads[u])
      ensures Live(Next(m, act), Next(m, act).threads[u].who)
    {
      StillLive(m, act, u);
    }
    forall s | 0 <= s < |InUse(Next(m, act))| && InUse(Next(m, act))[s].conn.Some? ensures s in Next(m, act).grants {
      StillGranted(m, act, s);
    }
  }

  // ---------- A close ----------

  /** A close up to its null store. */
  function Closed(m: Machine, t: nat, s: nat, c: Conn): Machine
    requires t < |m.threads|
  {
    Store(At(m, t, ClearPbuf(m.cur, s)), m.cur, s, ConnWord(None)).(open := m.open - {c}, grants := m.grants - {s})
  }

  lemma BeginIs(m: Machine, act: Action) returns (m': Machine, c: Conn)
    requires Inv(m) && Begins(m, act)
    ensures m' == Next(m, act) && Inv(m') && Holds(InUse(m), act.s, c) && HolderPc(m') == HolderPc(m)
    ensures m' == At(m, act.t, Closing(m.cur, act.s)).(grants := m.grants - {act.s})
  {
    NextKeeps(m, act);
    c := Read(m, m.cur, act.s).conn.value;
    m' := Next(m, act);
  }

  lemma DeleteIs(m: Machine, act: Action, s: nat, c: Conn) returns (m': Machine)
    requires Inv(m) && act.Tick? && act.t < |m.threads|
    requires m.threads[act.t] == Closing(m.cur, s) && Holds(InUse(m), s, c)
    ensures m' == Next(m, act) && Inv(m') && HolderPc(m') == HolderPc(m)
    ensures m' == At(m, act.t, Deleted(m.cur, s)).(open := m.open - {c})
  {
    NextKeeps(m, act);
    m' := Next(m, act);
  }

  lemma EraseIs(m: Machine, act: Action, s: nat) returns (m': Machine)
    requires Inv(m) && act.Tick? && act.t < |m.threads|
    requires m.threads[act.t] == Deleted(m.cur, s) && !Copied(HolderPc(m), s, ConnField)
    ensures m' == Next(m, act) && Inv(m')
    ensures m' == Store(At(m, act.t, ClearPbuf(m.cur, s)), m.cur, s, ConnWord(None))
  {
    NextKeeps(m, act);
    assert HolderPc(At(m, act.t, ClearPbuf(m.cur, s))) == HolderPc(m);
    m' := Next(m, act);
  }

  lemma RunThree(m: Machine, acts: seq<Action>, m1: Machine, m2: Machine, m3: Machine)
    requires |acts| == 3 && m1 == Next(m, acts[0]) && m2 == Next(m1, acts[1]) && m3 == Next(m2, acts[2])
    ensures Run(m, acts) == m3
  {
    assert acts == [acts[0]] + ([acts[1]] + [acts[2]]);
    RunCons(m, acts[0], [acts[1]] + [acts[2]]);
    RunCons(m1, acts[1], [acts[2]]);
    RunOne(m2, acts[2]);
  }

  lemma CloseIs(m: Machine, acts: seq<Action>) returns (c: Conn)
    requires Inv(m) && |acts| == 3 && Begins(m, acts[0]) && MayClose(m, acts[0].s)
    requires acts[1].Tick? && acts[2].Tick? && acts[1].t == acts[2].t == acts[0].t
    ensures Holds(InUse(m), acts[0].s, c)
    ensures Run(m, acts) == Closed(m, acts[0].t, acts[0].s, c) && Inv(Run(m, acts))
  {
    var m1, d := BeginIs(m, acts[0]);
    var m2 := DeleteIs(m1, acts[1], acts[0].s, d);
    var m3 := EraseIs(m2, acts[2], acts[0].s);
    RunThree(m, acts, m1, m2, m3);
    c := d;
  }

  lemma ClosedTidy(m: Machine, t: nat, s: nat, c: Conn)
    requires Tidy(m) && t < |m.threads| && m.threads[t].Idle? && Holds(InUse(m), s, c) && MayClose(m, s)
    requires Inv(Closed(m, t, s, c))
    ensures Tidy(Closed(m, t, s, c))
  {
    var m' := Closed(m, t, s, c);
    assert HolderPc(m') == HolderPc(m);
    forall k | k in m'.grants ensures Intact(m', k, m'.grants[k]) {
      assert Intact(m, k, m.grants[k]);
      assert m.grants[k].conn == c ==> Holds(InUse(m), k, c);
    }
    forall u | 0 <= u < |m'.threads| && Calling(m'.threads[u]) ensures Live(m', m'.threads[u].who) {
      assert u != t && Live(m, m.threads[u].who);
    }
  }

  lemma {:induction false} TidyRun(m: Machine, acts: seq<Action>)
    requires Tidy(m) && InOrder(m, acts)
    ensures Tidy(Run(m, acts))
    decreases |acts|
  {
    if acts != [] {
      if Begins(m, acts[0]) {
        var c := CloseIs(m, acts[..3]);
        ClosedTidy(m, acts[0].t, acts[0].s, c);
        TidyRun(Run(m, acts[..3]), acts[3..]);
        RunAppend(m, acts[..3], acts[3..]);
        assert acts[..3] + acts[3..] == acts;
      } else {
        TidyStep(m, acts[0]);
        TidyRun(Next(m, acts[0]), acts[1..]);
      }
    }
  }

  /**
   After every such run of any number of threads: each descriptor in use holds the open connection it
   was issued for, no two hold the same, and the table in use holds no other connection.
   */
  lemma OrderlyRuns(threads: nat, acts: seq<Action>)
    requires InOrder(Start(threads), acts)
    ensures var m := Run(Start(threads), acts);
            && (forall s :: s in m.grants ==> Intact(m, s, m.grants[s]))
            && (forall s, t :: s in m.grants && t in m.grants && m.grants[s].conn == m.grants[t].conn ==> s == t)
            && (forall s: nat :: s in m.grants <==> s < |InUse(m)| && InUse(m)[s].conn.Some?)
  {
    TidyRun(Start(threads), acts);
    var m := Run(Start(threads), acts);
    forall s, t | s in m.grants && t in m.grants && m.grants[s].conn == m.grants[t].conn ensures s == t {
      assert Intact(m, s, m.grants[s]) && Intact(m, t, m.grants[t]);
    }
    forall s | s in m.grants ensures s < |InUse(m)| && InUse(m)[s].conn.Some? {
      assert Intact(m, s, m.grants[s]);
    }
  }
}
