/**
 The AT-command network library as the socket layer sees it.

 The library's own code is not part of this model.  What the socket layer relies on is:
 a handle returned for a new connection is not the handle of a connection that is still open;
 a receive takes the next chunk of the connection's queue, wraps it in a new pbuf, and leaves
 a null out-pointer unless it succeeds.  Everything the library decides by itself (whether a
 receive is answered, which handle it picks) is a parameter.
 */
module NetLib {
  import opened Wrappers

  newtype byte = x: int | 0 <= x < 256

  const INT_MAX: nat := 0x7FFF_FFFF

  /** The data of one pbuf.  Its length fits the C `int` that the socket calls return. */
  type Chunk = s: seq<byte> | |s| <= INT_MAX witness []

  type Conn = nat
  type Pbuf = nat

  /** The timeout -1UL, stored as a 32-bit value: do not wait at all. */
  const POLL: nat := 0xFFFF_FFFF

  datatype NcType = Tcp | Udp | OtherType

  datatype Status = Ok | TimedOut | Failed

  /** What the library would answer to a receive; `Deliver` has an effect only if data is queued. */
  datatype Reply = Deliver | Expire | Break

  /** `lastWait` is the timeout that was in force when the latest receive was made. */
  datatype Channel = Channel(queue: seq<Chunk>, timeout: nat, active: bool, lastWait: nat)

  /**
   `pbufs[p]` is the data of the p-th pbuf that was ever dequeued, `freed` lists the pbufs given
   back, in order.  `zeroType` is the connection type that zeroed memory reads as and
   `newTimeout` the receive timeout of a new connection.
   */
  datatype Lib = Lib(open: map<Conn, Channel>, pbufs: seq<Chunk>, freed: seq<Pbuf>,
                     zeroType: NcType, newTimeout: nat)

  /** Live memory: dequeued and not yet given back. */
  predicate PbufLive(lib: Lib, p: Pbuf) {
    p < |lib.pbufs| && p !in lib.freed
  }

  /** A connection to hand out, with the data that reached it and the state of its peer until then. */
  datatype Client = Client(conn: Conn, queue: seq<Chunk>, active: bool)

  /** A connection that the library makes at this moment. */
  function Unused(handle: Option<Conn>): Option<Client> {
    if handle.None? then None else Some(Client(handle.value, [], true))
  }

  /** A new connection, or null when the library has none to give. */
  function NewConn(lib: Lib, client: Option<Client>): (r: (Lib, Option<Conn>))
    ensures r.1.Some? ==> client.Some? && r.1.value == client.value.conn && r.1.value !in lib.open
  {
    if client.None? || client.value.conn in lib.open then (lib, None)
    else
      var Client(c, queue, active) := client.value;
      (lib.(open := lib.open[c := Channel(queue, lib.newTimeout, active, 0)]), Some(c))
  }

  function SetTimeout(lib: Lib, c: Conn, timeout: nat): Lib
    requires c in lib.open
  {
    lib.(open := lib.open[c := lib.open[c].(timeout := timeout)])
  }

  function Receive(lib: Lib, c: Conn, reply: Reply): (r: (Lib, Status, Option<Pbuf>))
    requires c in lib.open
    ensures r.1.Ok? <==> r.2.Some?
  {
    var ch := lib.open[c].(lastWait := lib.open[c].timeout);
    if reply.Deliver? && ch.queue != [] then
      (lib.(open := lib.open[c := ch.(queue := ch.queue[1..])], pbufs := lib.pbufs + [ch.queue[0]]),
       Ok, Some(|lib.pbufs|))
    else
      (lib.(open := lib.open[c := ch]), if reply.Break? then Failed else TimedOut, None)
  }

  function FreePbuf(lib: Lib, p: Pbuf): Lib {
    lib.(freed := lib.freed + [p])
  }

  function CloseConn(lib: Lib, c: Conn): Lib {
    lib.(open := lib.open - {c})
  }

  /** Data reaches the library from the network. */
  function Arrive(lib: Lib, c: Conn, chunk: Chunk): Lib {
    if c !in lib.open then lib
    else lib.(open := lib.open[c := lib.open[c].(queue := lib.open[c].queue + [chunk])])
  }

  /** The peer comes or goes. */
  function SetActive(lib: Lib, c: Conn, active: bool): Lib {
    if c !in lib.open then lib
    else lib.(open := lib.open[c := lib.open[c].(active := active)])
  }
}
