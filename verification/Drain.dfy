/**
 Reading a connection dry: how many recv calls of size k it takes, and what they return.
 */
module Drain {
  import opened NetLib
  import opened SocketCalls
  import opened Invariant

  function Ceil(n: nat, k: nat): nat
    requires k > 0
  {
    (n + k - 1) / k
  }

  lemma CeilStep(n: nat, k: nat)
    requires k > 0
    ensures Ceil(0, k) == 0
    ensures n > 0 ==> Ceil(n, k) == 1 + Ceil(n - Min(n, k), k)
  {
    if n >= k {
      var q, r := (n - 1) / k, (n - 1) % k;
      DivUnique(n + k - 1, k, q + 1, r);
      if n > k {
        DivUnique(n - k + k - 1, k, q, r);
      }
    } else if n > 0 {
      DivUnique(n + k - 1, k, 1, n - 1);
    }
    DivUnique(k - 1, k, 0, k - 1);
  }

  lemma DivUnique(a: int, k: nat, q: int, r: nat)
    requires k > 0 && r < k && a == q * k + r
    ensures a / k == q
  {
    assert (a / k - q) * k == r - a % k;
    AtLeastOne(a / k - q, k);
  }

  lemma AtLeastOne(d: int, k: nat)
    requires k > 0
    ensures d >= 1 ==> d * k >= k
    ensures d <= -1 ==> d * k + k <= 0
  {
  }

  function SumCeil(queue: seq<Chunk>, k: nat): nat
    requires k > 0
  {
    if queue == [] then 0 else Ceil(|queue[0]|, k) + SumCeil(queue[1..], k)
  }

  function Empties(queue: seq<Chunk>): nat {
    if queue == [] then 0 else (if queue[0] == [] then 1 else 0) + Empties(queue[1..])
  }

  function CountPositive(rets: seq<int>): nat {
    if rets == [] then 0 else (if rets[0] > 0 then 1 else 0) + CountPositive(rets[1..])
  }

  function CountZero(rets: seq<int>): nat {
    if rets == [] then 0 else (if rets[0] == 0 then 1 else 0) + CountZero(rets[1..])
  }

  predicate Dry(st: State, s: int)
    requires Valid(st) && IsOpen(st, s)
  {
    !HasBytes(st.slots[s]) && ChannelOf(st, s).queue == []
  }

  lemma RefillTakesFront(st: State, s: int, poll: bool)
    requires Valid(st) && IsOpen(st, s) && !HasBytes(st.slots[s]) && ChannelOf(st, s).queue != []
    ensures var (st1, status) := Refill(st, s, poll, Deliver);
            var st2 := Measure(st1, s);
            && status.Ok? && Valid(st2) && IsOpen(st2, s)
            && st2.slots[s].bytesLeft == |ChannelOf(st, s).queue[0]|
            && ChannelOf(st2, s).queue == ChannelOf(st, s).queue[1..]
  {
    RefillValid(st, s, poll, Deliver);
  }

  lemma TakeLeaves(st: State, s: int, k: nat)
    requires Valid(st) && IsOpen(st, s) && st.slots[s].pbuf.Some?
    ensures var st' := Take(st, s, k).st;
            && Valid(st') && IsOpen(st', s)
            && st'.slots[s].bytesLeft == st.slots[s].bytesLeft - Min(st.slots[s].bytesLeft, k)
            && ChannelOf(st', s).queue == ChannelOf(st, s).queue
  {
    TakeValid(st, s, k);
  }

  /** One recv of size k on a connection that is not dry takes from the pbuf, or from the queue. */
  lemma RecvTakes(st: State, s: int, k: nat)
    requires Valid(st) && IsOpen(st, s) && k > 0 && !Dry(st, s)
    ensures var r := Recv(st, s, k, 0, Deliver);
            && Valid(r.st) && IsOpen(r.st, s) && r.data + Pending(r.st, s) == Pending(st, s)
            && var queue := ChannelOf(st, s).queue;
               var isNew := !HasBytes(st.slots[s]);
               var n := if isNew then |queue[0]| else st.slots[s].bytesLeft;
               && r.ret == |r.data| == Min(n, k)
               && r.st.slots[s].bytesLeft == n - Min(n, k)
               && ChannelOf(r.st, s).queue == if isNew then queue[1..] else queue
  {
    if HasBytes(st.slots[s]) {
      TakeDelivers(st, s, k);
      TakeLeaves(st, s, k);
    } else {
      var poll := NoWait(st.slots[s], k, 0);
      RefillTakesFront(st, s, poll);
      FreshDelivers(st, s, poll, k, Deliver);
      TakeLeaves(Measure(Refill(st, s, poll, Deliver).0, s), s, k);
    }
  }

  lemma BytesMeansHeld(st: State, s: int)
    requires Valid(st) && IsOpen(st, s)
    ensures HasBytes(st.slots[s]) <==> st.slots[s].bytesLeft > 0
  {
    assert SlotOk(st.slots[s], st.lib);
  }

  datatype Drained = Drained(st: State, rets: seq<int>, data: seq<byte>)

  /** recv of size k, again and again while there is something to read; unread data is the measure. */
  function DrainAll(st: State, s: int, k: nat): Drained
    requires Valid(st) && IsOpen(st, s) && k > 0
    decreases |Pending(st, s)| + |ChannelOf(st, s).queue|
  {
    if Dry(st, s) then Drained(st, [], [])
    else
      RecvTakes(st, s, k);
      var r := Recv(st, s, k, 0, Deliver);
      var rest := DrainAll(r.st, s, k);
      Drained(rest.st, [r.ret] + rest.rets, r.data + rest.data)
  }

  /** The counts for b held bytes and a queue, and how one call changes them. */
  lemma CountsStep(b: nat, queue: seq<Chunk>, k: nat)
    requires k > 0
    ensures b > 0 ==> Ceil(b, k) + SumCeil(queue, k) == 1 + Ceil(b - Min(b, k), k) + SumCeil(queue, k)
    ensures b == 0 && queue != [] ==>
              && Ceil(b, k) + SumCeil(queue, k)
                 == (if queue[0] == [] then 0 else 1) + Ceil(|queue[0]| - Min(|queue[0]|, k), k) + SumCeil(queue[1..], k)
              && Empties(queue) == (if queue[0] == [] then 1 else 0) + Empties(queue[1..])
    ensures b == 0 && queue == [] ==> Ceil(b, k) + SumCeil(queue, k) == 0
  {
    CeilStep(b, k);
    if queue != [] {
      CeilStep(|queue[0]|, k);
    }
  }

  /** The return values of draining b held bytes and a queue. */
  ghost predicate Counted(rets: seq<int>, b: nat, queue: seq<Chunk>, k: nat)
    requires k > 0
  {
    && CountPositive(rets) == Ceil(b, k) + SumCeil(queue, k)
    && CountZero(rets) == Empties(queue)
    && |rets| == CountPositive(rets) + CountZero(rets)
  }

  lemma CountedStep(ret: int, rets: seq<int>, b: nat, queue: seq<Chunk>, k: nat)
    requires k > 0 && (b > 0 || queue != [])
    requires var n := if b > 0 then b else |queue[0]|;
             ret == Min(n, k) && Counted(rets, n - ret, if b > 0 then queue else queue[1..], k)
    ensures Counted([ret] + rets, b, queue, k)
  {
    CountsStep(b, queue, k);
    assert ([ret] + rets)[1..] == rets;
  }

  /**
   Draining b held bytes and chunks of n1, ..., nm bytes takes ceil(b/k) + ceil(n1/k) + ... +
   ceil(nm/k) calls with a positive count, and one call returning 0 for each empty chunk, and
   returns exactly the pending bytes.
   */
  lemma {:induction false} DrainCount(st: State, s: int, k: nat)
    requires Valid(st) && IsOpen(st, s) && k > 0
    ensures var d := DrainAll(st, s, k);
            && Valid(d.st) && IsOpen(d.st, s) && Dry(d.st, s)
            && d.data == Pending(st, s)
            && CountPositive(d.rets) == Ceil(st.slots[s].bytesLeft, k) + SumCeil(ChannelOf(st, s).queue, k)
            && CountZero(d.rets) == Empties(ChannelOf(st, s).queue)
            && |d.rets| == CountPositive(d.rets) + CountZero(d.rets)
  {
    DrainAllData(st, s, k);
    DrainAllCounted(st, s, k);
  }

  lemma {:induction false} DrainAllData(st: State, s: int, k: nat)
    requires Valid(st) && IsOpen(st, s) && k > 0
    ensures var d := DrainAll(st, s, k);
            Valid(d.st) && IsOpen(d.st, s) && Dry(d.st, s) && d.data == Pending(st, s)
    decreases |Pending(st, s)| + |ChannelOf(st, s).queue|
  {
    if Dry(st, s) {
      BytesMeansHeld(st, s);
      assert Pending(st, s) == [];
    } else {
      RecvTakes(st, s, k);
      DrainAllData(Recv(st, s, k, 0, Deliver).st, s, k);
    }
  }

  lemma {:induction false} DrainAllCounted(st: State, s: int, k: nat)
    requires Valid(st) && IsOpen(st, s) && k > 0
    ensures Counted(DrainAll(st, s, k).rets, st.slots[s].bytesLeft, ChannelOf(st, s).queue, k)
    decreases |Pending(st, s)| + |ChannelOf(st, s).queue|
  {
    BytesMeansHeld(st, s);
    if Dry(st, s) {
      CountsStep(0, [], k);
    } else {
      RecvTakes(st, s, k);
      var r := Recv(st, s, k, 0, Deliver);
      DrainAllCounted(r.st, s, k);
      CountedStep(r.ret, DrainAll(r.st, s, k).rets, st.slots[s].bytesLeft, ChannelOf(st, s).queue, k);
    }
  }
}
