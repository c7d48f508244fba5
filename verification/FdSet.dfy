/**
 The fd_set bitmap refines a finite set of descriptors, for any FD_SETSIZE and socket offset.
 */
module FdSet {
  const BITS: nat := 8

  /** `size` is MEMP_NUM_NETCONN, `offset` LWIP_SOCKET_OFFSET. */
  datatype Shape = Shape(size: nat, offset: int)

  /** The guard of all the macros. */
  predicate InWindow(sh: Shape, n: int) {
    n - sh.offset < sh.size && n - sh.offset >= 0
  }

  predicate Fits(sh: Shape, bits: seq<bv8>) {
    |bits| == (sh.size + 7) / 8
  }

  function Mask(k: nat): bv8
    requires k < BITS
  {
    1 << k
  }

  function ByteOf(sh: Shape, n: int): nat
    requires InWindow(sh, n)
  {
    (n - sh.offset) / BITS
  }

  function MaskOf(sh: Shape, n: int): bv8
    requires InWindow(sh, n)
  {
    Mask((n - sh.offset) % BITS)
  }

  function SetBit(sh: Shape, bits: seq<bv8>, n: int): (r: seq<bv8>)
    requires Fits(sh, bits)
    ensures Fits(sh, r)
  {
    if InWindow(sh, n) then bits[ByteOf(sh, n) := bits[ByteOf(sh, n)] | MaskOf(sh, n)] else bits
  }

  function ClearBit(sh: Shape, bits: seq<bv8>, n: int): (r: seq<bv8>)
    requires Fits(sh, bits)
    ensures Fits(sh, r)
  {
    if InWindow(sh, n) then bits[ByteOf(sh, n) := bits[ByteOf(sh, n)] & !MaskOf(sh, n)] else bits
  }

  function Zeros(sh: Shape): (r: seq<bv8>)
    ensures Fits(sh, r) && forall i :: 0 <= i < |r| ==> r[i] == 0
  {
    seq((sh.size + 7) / 8, _ => 0)
  }

  /** The int value of FD_ISSET. */
  function IsSet(sh: Shape, bits: seq<bv8>, n: int): int
    requires Fits(sh, bits)
  {
    if InWindow(sh, n) then (bits[ByteOf(sh, n)] & MaskOf(sh, n)) as int else 0
  }

  /** The set of descriptors the bitmap stands for. */
  ghost function Members(sh: Shape, bits: seq<bv8>): set<int>
    requires Fits(sh, bits)
  {
    set n | sh.offset <= n < sh.offset + sh.size && bits[ByteOf(sh, n)] & MaskOf(sh, n) != 0
  }

  datatype BitOp = Zero | Set(n: int) | Clear(n: int)

  function Apply(sh: Shape, bits: seq<bv8>, op: BitOp): (r: seq<bv8>)
    requires Fits(sh, bits)
    ensures Fits(sh, r)
  {
    match op
    case Zero => Zeros(sh)
    case Set(n) => SetBit(sh, bits, n)
    case Clear(n) => ClearBit(sh, bits, n)
  }

  /** The same operations on a plain set; numbers outside the window are ignored. */
  function ApplySet(sh: Shape, s: set<int>, op: BitOp): set<int> {
    match op
    case Zero => {}
    case Set(n) => if InWindow(sh, n) then s + {n} else s
    case Clear(n) => s - {n}
  }

  lemma ApplyRefines(sh: Shape, bits: seq<bv8>, op: BitOp)
    requires Fits(sh, bits)
    ensures Members(sh, Apply(sh, bits, op)) == ApplySet(sh, Members(sh, bits), op)
  {
  }

  function Play(sh: Shape, bits: seq<bv8>, ops: seq<BitOp>): (r: seq<bv8>)
    requires Fits(sh, bits)
    ensures Fits(sh, r)
    decreases |ops|
  {
    if ops == [] then bits else Play(sh, Apply(sh, bits, ops[0]), ops[1..])
  }

  function PlaySet(sh: Shape, s: set<int>, ops: seq<BitOp>): set<int>
    decreases |ops|
  {
    if ops == [] then s else PlaySet(sh, ApplySet(sh, s, ops[0]), ops[1..])
  }

  /** After any sequence of operations FD_ISSET(n) is non-zero exactly when n is in the set. */
  lemma {:induction false} BitmapRefinesSet(sh: Shape, bits: seq<bv8>, ops: seq<BitOp>, n: int)
    requires Fits(sh, bits)
    ensures Members(sh, Play(sh, bits, ops)) == PlaySet(sh, Members(sh, bits), ops)
    ensures IsSet(sh, Play(sh, bits, ops), n) != 0 <==> n in PlaySet(sh, Members(sh, bits), ops)
    decreases |ops|
  {
    if ops != [] {
      ApplyRefines(sh, bits, ops[0]);
      BitmapRefinesSet(sh, Apply(sh, bits, ops[0]), ops[1..], n);
    }
    IsSetIsMember(sh, Play(sh, bits, ops), n);
  }

  lemma IsSetIsMember(sh: Shape, bits: seq<bv8>, n: int)
    requires Fits(sh, bits)
    ensures IsSet(sh, bits, n) != 0 <==> n in Members(sh, bits)
  {
  }

  /** Where FD_SET puts its bit: number d of the window is bit d % 8 of byte d / 8, the low bit first. */
  lemma BitPlace(sh: Shape, n: int)
    requires InWindow(sh, n)
    ensures var d, bits := n - sh.offset, SetBit(sh, Zeros(sh), n);
            && d / 8 < |bits| && (forall i :: 0 <= i < |bits| && i != d / 8 ==> bits[i] == 0)
            && bits[d / 8] as int == [1, 2, 4, 8, 16, 32, 64, 128][d % 8] == IsSet(sh, bits, n)
  {
    MaskValue((n - sh.offset) % BITS);
  }

  lemma MaskValue(k: nat)
    requires k < 8
    ensures Mask(k) as int == [1, 2, 4, 8, 16, 32, 64, 128][k]
  {
  }

  /** The macros on the struct itself. */
  class FdBits {
    const shape: Shape
    const bits: array<bv8>

    ghost predicate Valid()
      reads this, bits
    {
      bits.Length == (shape.size + 7) / 8
    }

    constructor (shape: Shape)
      ensures Valid() && this.shape == shape && fresh(bits)
    {
      this.shape := shape;
      this.bits := new bv8[(shape.size + 7) / 8];
    }

    method FdSet(n: int)
      requires Valid()
      modifies bits
      ensures Valid() && bits[..] == SetBit(shape, old(bits[..]), n)
      ensures Members(shape, bits[..]) == ApplySet(shape, Members(shape, old(bits[..])), Set(n))
    {
      ghost var was := bits[..];
      ApplyRefines(shape, was, Set(n));
      if n - shape.offset < shape.size && n - shape.offset >= 0 {
        var i := (n - shape.offset) / 8;
        bits[i] := bits[i] | Mask((n - shape.offset) % 8);
        assert bits[..] == SetBit(shape, was, n);
      }
    }

    method FdClr(n: int)
      requires Valid()
      modifies bits
      ensures Valid() && bits[..] == ClearBit(shape, old(bits[..]), n)
      ensures Members(shape, bits[..]) == ApplySet(shape, Members(shape, old(bits[..])), Clear(n))
    {
      ghost var was := bits[..];
      ApplyRefines(shape, was, Clear(n));
      if n - shape.offset < shape.size && n - shape.offset >= 0 {
        var i := (n - shape.offset) / 8;
        bits[i] := bits[i] & !Mask((n - shape.offset) % 8);
        assert bits[..] == ClearBit(shape, was, n);
      }
    }

    method FdZero()
      requires Valid()
      modifies bits
      ensures Valid() && Members(shape, bits[..]) == {}
    {
      forall i | 0 <= i < bits.Length {
        bits[i] := 0;
      }
    }

    method FdIsSet(n: int) returns (r: int)
      requires Valid()
      ensures r != 0 <==> n in Members(shape, bits[..])
    {
      IsSetIsMember(shape, bits[..], n);
      r := IsSet(shape, bits[..], n);
    }
  }

  /** A number below nfds is in the set. */
  ghost predicate Ready(fds: FdBits, nfds: int)
    requires fds.Valid()
    reads fds, fds.bits
  {
    exists n :: 0 <= n < nfds && n in Members(fds.shape, fds.bits[..])
  }

  /** 1 exactly when a number below nfds is in the first set that is given; the others do not count. */
  method Select(nfds: int, readfds: FdBits?, writefds: FdBits?, errorfds: FdBits?) returns (r: int)
    requires (readfds != null ==> readfds.Valid()) && (writefds != null ==> writefds.Valid())
    requires errorfds != null ==> errorfds.Valid()
    ensures r == 0 || r == 1
    ensures readfds != null ==> (r == 1 <==> Ready(readfds, nfds))
    ensures readfds == null && writefds != null ==> (r == 1 <==> Ready(writefds, nfds))
    ensures readfds == null && writefds == null && errorfds != null ==> (r == 1 <==> Ready(errorfds, nfds))
    ensures readfds == null && writefds == null && errorfds == null ==> r == 0
  {
    var fds: FdBits;
    if readfds != null {
      fds := readfds;
    } else if writefds != null {
      fds := writefds;
    } else if errorfds != null {
      fds := errorfds;
    } else {
      return 0;
    }
    var i := 0;
    while i < nfds
      invariant 0 <= i
      invariant forall n :: 0 <= n < i ==> n !in Members(fds.shape, fds.bits[..])
    {
      var found := fds.FdIsSet(i);
      if found != 0 {
        return 1;
      }
      i := i + 1;
    }
    return 0;
  }

  /**
   Asking select about one descriptor works exactly for the descriptors of the window; the
   descriptor table also hands out others.
   */
  lemma OneDescriptorSelects(sh: Shape, fd: int, nfds: int)
    requires 0 <= fd < nfds
    ensures (exists n :: 0 <= n < nfds && n in Members(sh, Play(sh, Zeros(sh), [Set(fd)])))
            <==> sh.offset <= fd < sh.offset + sh.size
  {
    BitmapRefinesSet(sh, Zeros(sh), [Set(fd)], fd);
    assert Members(sh, Zeros(sh)) == {};
    assert PlaySet(sh, {}, [Set(fd)]) == PlaySet(sh, ApplySet(sh, {}, Set(fd)), []);
  }
}
