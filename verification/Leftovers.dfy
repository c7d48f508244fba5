/**
 What a new connection finds in its slot.  An insertion stores the connection only; a recv or ioctl
 that began on the descriptor's last connection may still store a pbuf and a count afterwards.
 */
module Leftovers {
  import opened Wrappers
  import opened Concurrent
  import opened Exclusive
  import opened StaleStores

  /** No call on s begins. */
  predicate NotCalled(acts: seq<Action>, s: nat) {
    forall k :: 0 <= k < |acts| ==> !((acts[k].CloseCall? || acts[k].UseCall?) && acts[k].s == s)
  }

  /** Slot s has no pbuf and no bytes left. */
  predicate Clean(m: Machine, s: nat) {
    WordAt(m, m.cur, s, PbufWord(None)) && WordAt(m, m.cur, s, LeftWord(0))
  }

  /** Thread u is in a recv or ioctl on slot s of the table in use. */
  predicate Uses(m: Machine, u: nat, s: nat) {
    u < |m.threads| && m.threads[u] == Using(m.cur, s)
  }

  /** Clean, in the copy as well, and nobody to change that. */
  ghost predicate Undisturbed(m: Machine, s: nat) {
    Settled(m, s, PbufWord(None)) && Settled(m, s, LeftWord(0)) && forall u :: !Uses(m, u, s)
  }

  lemma NoNewUse(m: Machine, act: Action, u: nat, s: nat)
    requires Inv(m) && Uses(Next(m, act), u, s) && act != UseCall(act.t, s)
    ensures Uses(m, u, s)
  {
    NextCur(m, act);
    assert HasPointer(m.threads[u]) ==> m.threads[u].arr <= m.cur;
    if act.Tick? && u == act.t {
      AdvanceControl(m, u, act.memory);
    }
  }

  /** Only a recv or ioctl stores anything else into pbuf and count. */
  lemma OnlyUsesDisturb(m: Machine, act: Action, s: nat, w: Word)
    requires Inv(m) && (w == PbufWord(None) || w == LeftWord(0)) && Changes(m, act, s, w)
    ensures Uses(m, act.t, s)
  {
    var pc := m.threads[act.t];
    assert InSection(pc) ==> HolderPc(m) == pc;
  }

  lemma UndisturbedStep(m: Machine, act: Action, s: nat)
    requires Inv(m) && Undisturbed(m, s) && act != UseCall(act.t, s)
    ensures Undisturbed(Next(m, act), s)
  {
    if Changes(m, act, s, PbufWord(None)) {
      OnlyUsesDisturb(m, act, s, PbufWord(None));
    }
    if Changes(m, act, s, LeftWord(0)) {
      OnlyUsesDisturb(m, act, s, LeftWord(0));
    }
    SettledStep(m, act, s, PbufWord(None));
    SettledStep(m, act, s, LeftWord(0));
    forall u ensures !Uses(Next(m, act), u, s) {
      if Uses(Next(m, act), u, s) { NoNewUse(m, act, u, s); }
    }
  }

  lemma {:induction false} UndisturbedRun(m: Machine, acts: seq<Action>, s: nat)
    requires Inv(m) && Undisturbed(m, s) && NotCalled(acts, s)
    ensures Clean(Run(m, acts), s)
    decreases |acts|
  {
    if acts != [] {
      assert acts[0] != UseCall(acts[0].t, s);
      UndisturbedStep(m, acts[0], s);
      NextKeeps(m, acts[0]);
      UndisturbedRun(Next(m, acts[0]), acts[1..], s);
    }
  }

  /** A recv in progress may store a count. */
  lemma UseDisturbs(m: Machine, u: nat, s: nat) returns (acts: seq<Action>)
    requires Inv(m) && Uses(m, u, s)
    ensures NotCalled(acts, s) && !Clean(Run(m, acts), s)
  {
    acts := [Write(u, LeftWord(1))];
    RunOne(m, acts[0]);
    assert InHeap(m, m.cur, s);
  }

  lemma CopyDisturbs(m: Machine, s: nat, w: Word) returns (acts: seq<Action>)
    requires Inv(m) && s < |InUse(m)| && (w == PbufWord(None) || w == LeftWord(0)) && !Settled(m, s, w)
    ensures NotCalled(acts, s) && !Clean(Run(m, acts), s)
  {
    if WordAt(m, m.cur, s, w) {
      acts := HolderSwaps(m, s, w);
    } else {
      acts := NoSteps(m, s, w);
    }
  }

  /** At any moment: the slot is and stays clean exactly if it is undisturbed. */
  lemma StaysCleanExactly(m: Machine, s: nat)
    requires Inv(m) && s < |InUse(m)|
    ensures (forall acts :: NotCalled(acts, s) ==> Clean(Run(m, acts), s)) <==> Undisturbed(m, s)
  {
    if Undisturbed(m, s) {
      forall acts | NotCalled(acts, s) ensures Clean(Run(m, acts), s) {
        UndisturbedRun(m, acts, s);
      }
    } else {
      var acts;
      if u :| Uses(m, u, s) {
        acts := UseDisturbs(m, u, s);
      } else if !Settled(m, s, PbufWord(None)) {
        acts := CopyDisturbs(m, s, PbufWord(None));
      } else {
        acts := CopyDisturbs(m, s, LeftWord(0));
      }
      assert NotCalled(acts, s);
    }
  }

  /** The issue of an empty slot touches neither pbuf nor count, and no growth is in progress then. */
  lemma IssueMemory(m: Machine, t: nat, memory: bool, m': Machine, s: nat)
    requires Inv(m) && Issuing(m, t, s) && InUse(m)[s].conn.None? && MemoryMoves(m, m.threads[t], memory, m')
    requires HolderPc(m') == Goes(m, m.threads[t], memory)
    ensures s < |InUse(m')| && m'.cur == m.cur
    ensures Settled(m', s, PbufWord(None)) && Settled(m', s, LeftWord(0)) <==> Clean(m, s)
  {
    assert HolderPc(m) == m.threads[t];
  }

  lemma IssueDisturbs(m: Machine, act: Action, m': Machine, s: nat)
    requires Inv(m) && Issues(m, act, s) && InUse(m)[s].conn.None? && m' == Next(m, act)
    ensures s < |InUse(m')|
    ensures Undisturbed(m', s) <==> Clean(m, s) && forall u :: !Uses(m, u, s)
  {
    AdvanceMemory(m, act.t, act.memory);
    AdvanceControl(m, act.t, act.memory);
    AdvanceHolder(m, act.t, act.memory);
    IssueMemory(m, act.t, act.memory, m', s);
    assert forall u :: Uses(m', u, s) <==> Uses(m, u, s);
  }

  /**
   A connection that is given an empty slot finds it without pbuf and bytes, and keeps finding it so
   until a call on the descriptor begins, if and only if the slot is clean at the issue and no recv or
   ioctl on the descriptor's last connection is still under way.  Otherwise the bytes left over from
   that connection can be returned on the new one.
   */
  lemma NewConnectionIsClean(m: Machine, act: Action, s: nat)
    requires Reachable(m) && Issues(m, act, s) && s < |InUse(m)| && InUse(m)[s].conn.None?
    ensures (forall acts :: NotCalled(acts, s) ==> Clean(Run(Next(m, act), acts), s))
            <==> Clean(m, s) && forall u :: !Uses(m, u, s)
  {
    ReachableInv(m);
    var m', who := Issued(m, act, s);
    IssueDisturbs(m, act, m', s);
    StaysCleanExactly(m', s);
  }
}
