/**
 The socket layer in the form it is written in: an array of slots that is searched, updated in
 place and replaced by a larger one.  Each call is proved to compute its function of module
 SocketCalls, on every path, with the mutex released and no access outside live memory.
 */
module Sockets {
  import opened Wrappers
  import opened NetLib
  import opened DescriptorTable
  import opened SocketCalls

  class SocketLayer {
    var netconnMaps: array?<Slot>
    var mapsSize: int
    var mapsLocked: bool
    var lib: Lib
    var errno: Errno

    function Slots(): seq<Slot>
      reads this, netconnMaps
    {
      if netconnMaps == null then [] else netconnMaps[..]
    }

    function Value(): State
      reads this, netconnMaps
    {
      State(Slots(), lib, errno)
    }

    ghost predicate WellFormed()
      reads this, netconnMaps
    {
      mapsSize == (if netconnMaps == null then 0 else netconnMaps.Length) && !mapsLocked
    }

    ghost predicate Valid()
      reads this, netconnMaps
    {
      WellFormed() && SocketCalls.Valid(Value())
    }

    constructor (zeroType: NcType, newTimeout: nat)
      ensures Valid()
      ensures netconnMaps == null && Value() == State([], Lib(map[], [], [], zeroType, newTimeout), Unset)
    {
      netconnMaps, mapsSize, mapsLocked, errno := null, 0, false, Unset;
      lib := Lib(map[], [], [], zeroType, newTimeout);
    }

    // ---------- The library's entry points ----------

    method EspNetconnReceive(c: Conn, reply: Reply) returns (r: Status, p: Option<Pbuf>)
      requires c in lib.open
      modifies this`lib
      ensures (lib, r, p) == NetLib.Receive(old(lib), c, reply)
    {
      var (lib', r', p') := NetLib.Receive(lib, c, reply);
      lib, r, p := lib', r', p';
    }

    method EspNetconnSetReceiveTimeout(c: Conn, timeout: nat)
      requires c in lib.open
      modifies this`lib
      ensures lib == SetTimeout(old(lib), c, timeout)
    {
      lib := SetTimeout(lib, c, timeout);
    }

    /** No length is asked of memory that was given back. */
    method EspPbufLength(p: Pbuf) returns (n: nat)
      requires PbufLive(lib, p)
      ensures n == |lib.pbufs[p]| <= INT_MAX
    {
      n := |lib.pbufs[p]|;
    }

    /** memcpy out of a pbuf: the source range is inside the pbuf, the target range inside `mem`. */
    method CopyOut(p: Pbuf, from: int, sz: nat, mem: array<byte>)
      requires PbufLive(lib, p) && 0 <= from && from + sz <= |lib.pbufs[p]| && sz <= mem.Length
      modifies mem
      ensures mem[..] == lib.pbufs[p][from..from + sz] + old(mem[..])[sz..]
    {
      forall k | 0 <= k < sz {
        mem[k] := lib.pbufs[p][from + k];
      }
    }

    /** Nothing is freed twice. */
    method EspPbufFree(p: Pbuf)
      requires PbufLive(lib, p)
      modifies this`lib
      ensures lib == FreePbuf(old(lib), p)
    {
      lib := FreePbuf(lib, p);
    }

    /** One store into a descriptor record, through the pointer to it. */
    method Store(i: nat, slot: Slot)
      requires WellFormed() && i < |Slots()|
      modifies netconnMaps
      ensures WellFormed() && Value() == old(Value()).(slots := old(Slots())[i := slot])
    {
      netconnMaps[i] := slot;
    }

    // ---------- Descriptors ----------

    /** The descriptor record, given by its index, or null. */
    method Fd2Conn(s: int) returns (nf: Option<nat>)
      requires WellFormed()
      ensures nf == if 0 <= s < |Slots()| then Some(s) else None
    {
      if s < 0 {
        return None;
      }
      if s >= mapsSize {
        return None;
      }
      return Some(s);
    }

    /** The guard of every call: the index of an open descriptor's record, or null. */
    method OpenRecord(s: int) returns (nf: Option<nat>)
      requires WellFormed()
      ensures nf == if IsOpen(Value(), s) then Some(s) else None
    {
      nf := Fd2Conn(s);
      if nf.Some? && netconnMaps[nf.value].conn.None? {
        nf := None;
      }
    }

    /** One scan of the table for a field value, from the front. */
    method Scan(x: Option<Conn>) returns (i: nat)
      requires mapsSize == if netconnMaps == null then 0 else netconnMaps.Length
      ensures i == IndexOf(Slots(), x)
    {
      i := 0;
      while i < mapsSize
        invariant 0 <= i <= mapsSize
        invariant forall j :: 0 <= j < i ==> Slots()[j].conn != x
      {
        if netconnMaps[i].conn == x {
          break;
        }
        i := i + 1;
      }
      IndexOfIsFirst(Slots(), x, i);
    }

    method Conn2Fd(netconn: Conn, memory: bool) returns (fd: int)
      requires WellFormed()
      modifies this`netconnMaps, this`mapsSize, this`mapsLocked, netconnMaps
      ensures WellFormed() && lib == old(lib) && errno == old(errno)
      ensures Lookup(Slots(), fd) == DescriptorTable.Conn2Fd(old(Slots()), netconn, memory, lib.zeroType)
      ensures netconnMaps == old(netconnMaps) || fresh(netconnMaps)
    {
      mapsLocked := true;
      var i := Scan(Some(netconn));
      if i >= mapsSize {
        i := Scan(None);
        if i < mapsSize {
          netconnMaps[i] := netconnMaps[i].(conn := Some(netconn));
        }
      }
      if i >= mapsSize {
        if !memory {
          mapsLocked := false;
          return -1;
        }
        var zero := ZeroSlot(lib.zeroType);
        var newMaps := new Slot[mapsSize + GROWTH](_ => zero);
        if netconnMaps != null {
          forall k | 0 <= k < mapsSize {
            newMaps[k] := netconnMaps[k];
          }
        }
        ghost var was := Slots();
        mapsSize := mapsSize + GROWTH;
        netconnMaps := newMaps;
        assert Slots() == Grown(was, lib.zeroType);
        netconnMaps[i] := netconnMaps[i].(conn := Some(netconn));
      }
      mapsLocked := false;
      return i;
    }

    /** `fault` is set where the C code would use a null record; nothing is defined after that. */
    method Socket(sockType: int, handle: Option<Conn>, memory: bool) returns (fd: int, fault: bool)
      requires WellFormed()
      modifies this, netconnMaps
      ensures fault <==> SocketCalls.Socket(old(Value()), sockType, handle, memory).Fault?
      ensures !fault ==> SocketCalls.Socket(old(Value()), sockType, handle, memory) == Opened(Value(), fd)
      ensures !fault ==> WellFormed()
      ensures netconnMaps == old(netconnMaps) || fresh(netconnMaps)
    {
      fault := false;
      var ncType;
      if sockType == SOCK_STREAM {
        ncType := Tcp;
      } else if sockType == SOCK_DGRAM {
        ncType := Udp;
      } else {
        return -1, false;
      }
      var (lib', nc) := NewConn(lib, Unused(handle));
      lib := lib';
      if nc.None? {
        return -2, false;
      }
      fd := Conn2Fd(nc.value, memory);
      var nf := Fd2Conn(fd);
      if nf.None? {
        return fd, true;
      }
      Store(nf.value, netconnMaps[nf.value].(ncType := ncType));
    }

    method Accept(s: int, client: Option<Client>, memory: bool) returns (r: int)
      requires WellFormed()
      modifies this, netconnMaps
      ensures WellFormed() && (Value(), r) == SocketCalls.Accept(old(Value()), s, client, memory)
      ensures netconnMaps == old(netconnMaps) || fresh(netconnMaps)
    {
      var nf := OpenRecord(s);
      if nf.None? {
        return -1;
      }
      var (lib', nc) := NewConn(lib, client);
      lib := lib';
      if nc.None? {
        return -1;
      }
      r := Conn2Fd(nc.value, memory);
    }

    method Close(s: int) returns (r: int)
      requires WellFormed() && Ready(Value(), s)
      modifies this`lib, netconnMaps
      ensures WellFormed() && (Value(), r) == SocketCalls.Close(old(Value()), s)
    {
      var nf := OpenRecord(s);
      if nf.None? {
        return -1;
      }
      var i := nf.value;
      lib := CloseConn(lib, netconnMaps[i].conn.value);
      Store(i, netconnMaps[i].(conn := None));
      if netconnMaps[i].pbuf.Some? {
        EspPbufFree(netconnMaps[i].pbuf.value);
        Store(i, netconnMaps[i].(pbuf := None));
      }
      Store(i, netconnMaps[i].(bytesLeft := 0));
      assert Slots() == old(Slots())[s := old(Slots()[s]).(conn := None, pbuf := None, bytesLeft := 0)];
      return 0;
    }

    // ---------- recv ----------

    /** Dequeue into record i; the timeout is saved, set to poll and put back around it. */
    method ReceiveInto(i: nat, poll: bool, reply: Reply) returns (r: Status)
      requires WellFormed() && IsOpen(Value(), i) && Ready(Value(), i)
      modifies this`lib, netconnMaps
      ensures WellFormed() && (Value(), r) == Refill(old(Value()), i, poll, reply)
    {
      var c := netconnMaps[i].conn.value;
      var lastTo := lib.open[c].timeout;
      if poll {
        EspNetconnSetReceiveTimeout(c, POLL);
      }
      var p;
      r, p := EspNetconnReceive(c, reply);
      Store(i, netconnMaps[i].(pbuf := p));
      if poll {
        EspNetconnSetReceiveTimeout(c, lastTo);
      }
      SameTimeout(old(lib), c, if poll then POLL else lastTo, reply);
    }

    /** The common end of recv: copy, advance, and free the pbuf with its last byte. */
    method TakeFrom(i: nat, from: int, len: nat, mem: array<byte>) returns (sz: nat)
      requires WellFormed() && i < |Slots()| && Slots()[i].pbuf.Some? && SlotOk(Slots()[i], lib)
      requires from == |lib.pbufs[Slots()[i].pbuf.value]| - Slots()[i].bytesLeft && len <= mem.Length
      modifies this`lib, netconnMaps, mem
      ensures WellFormed()
      ensures var r := Take(old(Value()), i, len);
              Value() == r.st && sz == r.ret && mem[..] == r.data + old(mem[..])[|r.data|..]
    {
      sz := Min(netconnMaps[i].bytesLeft, len);
      CopyOut(netconnMaps[i].pbuf.value, from, sz, mem);
      Store(i, netconnMaps[i].(bytesLeft := netconnMaps[i].bytesLeft - sz));
      if netconnMaps[i].bytesLeft == 0 {
        EspPbufFree(netconnMaps[i].pbuf.value);
        Store(i, netconnMaps[i].(pbuf := None));
      }
    }

    /** The branch of recv that gets a new pbuf; `got` is false where recv returns `ret` at once. */
    method Fetch(i: nat, noWait: bool, reply: Reply) returns (got: bool, ret: int)
      requires WellFormed() && IsOpen(Value(), i) && Ready(Value(), i)
      modifies this`lib, this`errno, netconnMaps
      ensures WellFormed()
      ensures var (st, status) := Refill(old(Value()), i, noWait, reply);
              if status.Ok? then got && Value() == Measure(st, i)
              else !got && (Value(), ret) == RecvNothing(st, i, status)
    {
      var r := ReceiveInto(i, noWait, reply);
      if r != Ok {
        if netconnMaps[i].ncType == Tcp && !lib.open[netconnMaps[i].conn.value].active {
          return false, 0;
        }
        if r != TimedOut {
          errno := ENOENT;
          return false, -1;
        }
      }
      if netconnMaps[i].pbuf.None? {
        errno := EWOULDBLOCK;
        return false, -1;
      }
      var plen := EspPbufLength(netconnMaps[i].pbuf.value);
      Store(i, netconnMaps[i].(bytesLeft := plen));
      return true, 0;
    }

    method Recv(s: int, mem: array<byte>, len: nat, flags: int, reply: Reply) returns (ret: int)
      requires WellFormed() && Ready(Value(), s) && len <= mem.Length
      modifies this`lib, this`errno, netconnMaps, mem
      ensures WellFormed()
      ensures var r := SocketCalls.Recv(old(Value()), s, len, flags, reply);
              Value() == r.st && ret == r.ret && mem[..] == r.data + old(mem[..])[|r.data|..]
    {
      var nf := OpenRecord(s);
      if nf.None? {
        return -1;
      }
      var i := nf.value;
      var from := 0;
      if netconnMaps[i].pbuf.None? || netconnMaps[i].bytesLeft == 0 {
        var noWait := HasBit(flags, MSG_DONTWAIT_BIT) || len == 0 || HasBit(netconnMaps[i].fileFlag, O_NONBLOCK_BIT);
        var got, end := Fetch(i, noWait, reply);
        if !got {
          return end;
        }
      } else {
        var plen := EspPbufLength(netconnMaps[i].pbuf.value);
        from := plen - netconnMaps[i].bytesLeft;
      }
      ret := TakeFrom(i, from, len, mem);
    }

    // ---------- ioctl, fcntl, setsockopt ----------

    /** `avail` is what is stored through the argument pointer; `wanted` says that it is not null. */
    method Ioctl(s: int, cmd: int, wanted: bool, reply: Reply) returns (ret: int, avail: Option<int>)
      requires WellFormed() && Ready(Value(), s)
      modifies this`lib, this`errno, netconnMaps
      ensures WellFormed()
      ensures var r := SocketCalls.Ioctl(old(Value()), s, cmd, reply);
              Value() == r.st && ret == r.ret && avail == if wanted then r.avail else None
    {
      avail := None;
      var nf := OpenRecord(s);
      if nf.None? {
        return -1, None;
      }
      var i := nf.value;
      if cmd == FIONREAD {
        if netconnMaps[i].pbuf.None? || netconnMaps[i].bytesLeft == 0 {
          var r := ReceiveInto(i, true, reply);
          if r != Ok {
            if !lib.open[netconnMaps[i].conn.value].active {
              errno := EBADF;
              return -1, None;
            }
            if r != TimedOut {
              errno := ENOENT;
              return -1, None;
            }
          }
          if netconnMaps[i].pbuf.Some? {
            var n := EspPbufLength(netconnMaps[i].pbuf.value);
            Store(i, netconnMaps[i].(bytesLeft := n));
          } else {
            Store(i, netconnMaps[i].(bytesLeft := 0));
          }
        }
        if wanted {
          avail := Some(netconnMaps[i].bytesLeft);
        }
      }
      return 0, avail;
    }

    method Fcntl(s: int, cmd: int, val: int) returns (r: int)
      requires WellFormed()
      modifies this`errno, netconnMaps
      ensures WellFormed() && (Value(), r) == SocketCalls.Fcntl(old(Value()), s, cmd, val)
    {
      var nf := OpenRecord(s);
      if nf.None? {
        return -1;
      }
      var i := nf.value;
      if cmd == F_GETFL {
        return ToInt32(netconnMaps[i].fileFlag);
      } else if cmd == F_SETFL {
        Store(i, netconnMaps[i].(fileFlag := ToUnsigned(val, 0x1_0000_0000)));
      } else {
        errno := EINVAL;
        return -1;
      }
      return 0;
    }

    method SetSockOpt(s: int, level: int, optname: int, val: OptVal) returns (r: int)
      requires WellFormed() && Ready(Value(), s)
      modifies this`lib, this`errno, netconnMaps
      ensures WellFormed() && (Value(), r) == SocketCalls.SetSockOpt(old(Value()), s, level, optname, val)
    {
      var nf := OpenRecord(s);
      if nf.None? {
        return -1;
      }
      var i := nf.value;
      var used := false;
      if level == SOL_SOCKET {
        if optname == SO_RCVTIMEO {
          if !val.OtherSize? {
            EspNetconnSetReceiveTimeout(netconnMaps[i].conn.value, TimeoutOf(val));
            used := true;
          }
        } else if optname == SO_KEEPALIVE {
          if val.Int? {
            Store(i, netconnMaps[i].(keepAlive := ToUnsigned(val.v, 0x1_0000)));
            used := true;
          }
        } else if optname == SO_SNDTIMEO || optname == SO_DEBUG || optname == SO_REUSEADDR {
          used := true;
        }
      } else if level == IPPROTO_TCP {
        used := optname == TCP_NODELAY;
      } else if level == IPPROTO_IP {
        used := optname == IP_ADD_MEMBERSHIP || optname == IP_DROP_MEMBERSHIP;
      }
      if !used {
        errno := EINVAL;
        return -1;
      }
      return 0;
    }
  }

  /** Setting a timeout around a receive and putting the old one back changes no timeout. */
  lemma SameTimeout(lib: Lib, c: Conn, timeout: nat, reply: Reply)
    requires c in lib.open
    ensures timeout == lib.open[c].timeout ==> SetTimeout(lib, c, timeout) == lib
    ensures var lib' := NetLib.Receive(SetTimeout(lib, c, timeout), c, reply).0;
            timeout == lib.open[c].timeout ==> SetTimeout(lib', c, timeout) == lib'
  {
  }
}
