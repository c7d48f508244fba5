/**
 The descriptor table: an array of slots that is searched from the front and grows by 16.
 The functions here are the values the array goes through; module Sockets holds the array.
 */
module DescriptorTable {
  import opened Wrappers
  import opened NetLib

  const GROWTH: nat := 16

  datatype Slot = Slot(conn: Option<Conn>, pbuf: Option<Pbuf>, bytesLeft: nat,
                       ncType: NcType, keepAlive: nat, fileFlag: nat)

  function ZeroSlot(zero: NcType): Slot {
    Slot(None, None, 0, zero, 0, 0)
  }

  /** The first slot whose `conn` field is x, or |slots|. */
  function IndexOf(slots: seq<Slot>, x: Option<Conn>): (i: nat)
    ensures i <= |slots|
    ensures i < |slots| ==> slots[i].conn == x
    ensures forall j :: 0 <= j < i ==> slots[j].conn != x
  {
    if slots == [] || slots[0].conn == x then 0 else 1 + IndexOf(slots[1..], x)
  }

  lemma IndexOfIsFirst(slots: seq<Slot>, x: Option<Conn>, i: nat)
    requires i < |slots| ==> slots[i].conn == x
    requires i <= |slots| && forall j :: 0 <= j < i ==> slots[j].conn != x
    ensures IndexOf(slots, x) == i
  {
  }

  function Grown(slots: seq<Slot>, zero: NcType): (r: seq<Slot>)
    ensures |r| == |slots| + GROWTH && r[..|slots|] == slots
    ensures forall i :: |slots| <= i < |r| ==> r[i] == ZeroSlot(zero)
  {
    slots + seq(GROWTH, _ => ZeroSlot(zero))
  }

  datatype Lookup = Lookup(slots: seq<Slot>, fd: int)

  /** Find or insert `c`; -1 when the table is full and there is no memory for a larger one. */
  function Conn2Fd(slots: seq<Slot>, c: Conn, memory: bool, zero: NcType): Lookup
  {
    var found := IndexOf(slots, Some(c));
    var free := IndexOf(slots, None);
    if found < |slots| then Lookup(slots, found)
    else if free < |slots| then Lookup(slots[free := slots[free].(conn := Some(c))], free)
    else if !memory then Lookup(slots, -1)
    else Lookup(Grown(slots, zero)[free := ZeroSlot(zero).(conn := Some(c))], free)
  }

  // ---------- The unbounded map the table stands for ----------

  /** Descriptor to connection, without capacity, slots or array. */
  function View(slots: seq<Slot>): map<int, Conn> {
    map i | 0 <= i < |slots| && slots[i].conn.Some? :: slots[i].conn.value
  }

  ghost predicate IsLeastFree(m: map<int, Conn>, fd: int) {
    0 <= fd && fd !in m && forall k :: 0 <= k < fd ==> k in m
  }

  /** Section 2.14 of POSIX.1-2017 System Interfaces: the lowest descriptor not in use. */
  ghost predicate Allocates(m: map<int, Conn>, c: Conn, m': map<int, Conn>, fd: int) {
    if c in m.Values then m' == m && fd in m && m[fd] == c
    else IsLeastFree(m, fd) && m' == m[fd := c]
  }

  ghost predicate Full(slots: seq<Slot>) {
    forall i :: 0 <= i < |slots| ==> slots[i].conn.Some?
  }

  predicate HasConn(slots: seq<Slot>, i: int, c: Conn) {
    0 <= i < |slots| && slots[i].conn == Some(c)
  }

  ghost predicate Injective(slots: seq<Slot>) {
    forall i, j, c :: HasConn(slots, i, c) && HasConn(slots, j, c) ==> i == j
  }

  lemma InView(slots: seq<Slot>, c: Conn)
    ensures c in View(slots).Values <==> IndexOf(slots, Some(c)) < |slots|
  {
    var i := IndexOf(slots, Some(c));
    if i < |slots| {
      assert i in View(slots) && View(slots)[i] == c;
    }
  }

  /** Growth, copying and the two scans are invisible: only the unbounded map shows. */
  lemma Conn2FdRefinesMap(slots: seq<Slot>, c: Conn, memory: bool, zero: NcType)
    ensures var Lookup(slots', fd) := Conn2Fd(slots, c, memory, zero);
            if fd >= 0 then fd < |slots'| && Allocates(View(slots), c, View(slots'), fd) else slots' == slots
    ensures Conn2Fd(slots, c, memory, zero).fd >= -1
    ensures Conn2Fd(slots, c, memory, zero).fd == -1 <==> !memory && Full(slots) && c !in View(slots).Values
  {
  }

  /** The table stays injective and every other slot keeps its whole record, also through the copy. */
  lemma Conn2FdFrame(slots: seq<Slot>, c: Conn, memory: bool, zero: NcType)
    requires Injective(slots)
    ensures var Lookup(slots', fd) := Conn2Fd(slots, c, memory, zero);
            && Injective(slots')
            && |slots| <= |slots'|
            && (forall t :: 0 <= t < |slots| && t != fd ==> slots'[t] == slots[t])
            && (forall t :: |slots| <= t < |slots'| && t != fd ==> slots'[t] == ZeroSlot(zero))
            && (fd >= 0 ==> slots'[fd] == (if fd < |slots| then slots[fd] else ZeroSlot(zero)).(conn := Some(c)))
  {
    Conn2FdRefinesMap(slots, c, memory, zero);
    var Lookup(slots', fd) := Conn2Fd(slots, c, memory, zero);
    forall i, j, d | HasConn(slots', i, d) && HasConn(slots', j, d) ensures i == j {
      assert HasConn(slots, i, d) || i == fd;
      assert HasConn(slots, j, d) || j == fd;
    }
  }

  /** Looking up a connection that has a descriptor returns that descriptor and changes nothing. */
  lemma Conn2FdIdempotent(slots: seq<Slot>, fd: nat, c: Conn, memory: bool, zero: NcType)
    requires Injective(slots) && fd < |slots| && slots[fd].conn == Some(c)
    ensures Conn2Fd(slots, c, memory, zero) == Lookup(slots, fd)
  {
    assert HasConn(slots, fd, c);
    forall j | 0 <= j < fd ensures slots[j].conn != Some(c) {
      assert HasConn(slots, j, c) <==> slots[j].conn == Some(c);
    }
    IndexOfIsFirst(slots, Some(c), fd);
  }

  // ---------- Counting ----------

  function UpTo(n: nat): (s: set<int>)
    ensures |s| == n && forall k :: k in s <==> 0 <= k < n
  {
    if n == 0 then {} else UpTo(n - 1) + {n - 1}
  }

  lemma SubsetCard<T>(a: set<T>, b: set<T>)
    requires a <= b
    ensures |a| <= |b|
    ensures |a| == |b| ==> a == b
  {
    assert b == a + (b - a);
  }

  /** A full table has as many connections as slots, and conversely. */
  lemma FullByCount(slots: seq<Slot>)
    ensures |View(slots)| <= |slots|
    ensures Full(slots) <==> |View(slots)| == |slots|
  {
    var keys := View(slots).Keys;
    assert |keys| == |View(slots)|;
    SubsetCard(keys, UpTo(|slots|));
    if Full(slots) {
      assert keys == UpTo(|slots|);
    }
    if |View(slots)| == |slots| {
      forall i | 0 <= i < |slots| ensures slots[i].conn.Some? {
        assert i in keys;
      }
    }
  }
}
