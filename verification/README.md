# The atUnified socket layer, modelled and proved in Dafny

The socket layer gives BSD-style descriptors to connections of an AT-command network library. It
keeps a table of slots that grows by 16, buffers at most one received pbuf in each slot, and sits
beside a few exact helpers: the `fd_set` bitmap, byte-order conversion, dotted-decimal text and the
two DNS server entries. This project models that code and proves what it keeps over every sequence
of calls.

## How it is built

- `Wrappers`, `NetLib`: the library the layer calls, as far as the layer relies on it. A handle
  returned for a new connection is not one that is still open; a receive takes the front chunk of the
  connection's queue and wraps it in a new pbuf, or leaves a null out-pointer; a pbuf is one unchained
  buffer whose length fits an `int`. What the library decides (which handle, whether a receive is
  answered, whether memory is given, when data arrives, what an accepted connection has received
  already) is a parameter of each step, so every statement holds for all its choices. Chunks may be
  empty.
- `DescriptorTable`, `SocketCalls`: each call as a function on values (slots, library, errno).
- `Sockets`: the class `SocketLayer` with the array, its size, the mutex flag and errno. Each method
  works in place as the C function does and is proved to compute its function of `SocketCalls`, with
  the mutex released on every path. The library's entry points demand live memory, so the methods
  also show that no pbuf is read after it was freed or freed twice, and that memcpy stays in bounds.
- `Invariant`, `Steps`: what every call keeps. A call moves bytes only from the front of its own
  stream to the caller, and changes no other descriptor.
- `Runs`, `Theorems`: all sequences of calls, with a monitor beside them that sees only arguments,
  return values, delivered bytes and arriving bytes. The monitor is an unbounded map of sockets; the
  layer is proved to agree with it after every run, peers coming and going included.
- `Ownership`, `Connections`, `Receive`, `Drain`: who owns each pbuf, who can close each connection,
  how FIONREAD and recv agree, and how many recv calls empty a connection.
- `Results`: what each call returns and stores, in numbers and values, without the functions that the
  calls are computed with. The monitor of `Runs` is written in the same way.
- `Driver`: the class played on any sequence of calls leads to exactly the state and the answers of
  `Runs`.
- `Concurrent`, `Solo`: `atu_conn2fd`, `atu_close_r` and the field stores of the other calls in small
  steps for any number of threads, with every array the table ever was and every word of the copy, and
  the proof that one undisturbed thread does what `DescriptorTable` says.
- `Exclusive`, `StaleStores`, `Leftovers`: exactly when a descriptor stays with the connection it was
  issued for, when a store made without the lock lasts, and when a new connection finds its slot clean.
  `Orderly`: what all callers can rely on if closes keep to themselves.
- `FdSet`, `ByteOrder`, `Address`, `Dns`: the helpers.
- `Witnesses`, `ConcurrentWitnesses`: short runs for the properties that fail.

## Where the code does not do what one may expect

Each of these has an exact condition and, where a run is short, a run that shows it.

- `atu_socket` uses a null record when the table is full and memory is refused
  (src/atu_sockets.c:123-127). It happens exactly then (`Theorems.CrashExactly`); `atu_accept_r` returns
  -1 in the same case. A run stops there as `Crashed`.
- Closing resets no option and accept stores no type, so a reused descriptor starts with the options
  last stored through its number (`Theorems.OpenInherits`, `Witnesses.StaleNonBlocking`). At the end of
  the stream recv returns 0 only if that leftover type is TCP (`Witnesses.EndOfStreamNeedsType`).
- An empty chunk pulled by FIONREAD is overwritten by the next receive and never freed. A step leaks a
  pbuf exactly when it receives into a slot holding an empty one (`Ownership.StepLeaks`), and FIONREAD
  is invisible to recv exactly when it does not pull an empty chunk (`Receive.FionreadInvisible`).
- An accept that is refused memory loses its connection: it stays open in the library and no descriptor
  names it (`Connections.StepLoses`, `Connections.OpenConnections`, `Witnesses.AcceptLosesConnection`).
- `atu_close_r` takes no lock, and it deletes the handle before it clears the slot
  (src/atu_sockets.c:307-308). The library may give the handle out again in between; the new connection
  then gets the same descriptor, the clearing erases it, and a third connection gets the descriptor too
  (`ConcurrentWitnesses.DescriptorIssuedTwice`). An issue can be lost to an older close exactly when some
  thread is between the entry and the clearing of a close of that slot (`Exclusive.IssueErasedExactly`);
  a slot found empty does not rule that out (`ConcurrentWitnesses.FreeSlotIssueIsLost`). The descriptor
  stays with its connection exactly when, besides, no thread is about to delete or look up the same
  handle (`Exclusive.IssueKeptExactly`).
- A close is lost exactly when it clears the slot in an old array, or after a growth has copied the slot
  (`StaleStores.CloseTakesExactly`, `ConcurrentWitnesses.CloseThroughStalePointer`,
  `ConcurrentWitnesses.CloseAfterCopy`); the swap restores exactly the slots cleared too late
  (`StaleStores.SwapRevivesLateCloses`). The same condition, for each word by itself, decides whether a
  pbuf or a count stored by recv or ioctl lasts (`StaleStores.StoreLastsExactly`,
  `ConcurrentWitnesses.CountAfterCopy`); where it does not, the next call works with the old value again.
- Insertion stores the connection only. A new connection finds the pbuf and the count of the last one
  exactly when they are not cleared yet, or when a recv or ioctl on the last one is still under way and
  stores them later (`Leftovers.NewConnectionIsClean`, `ConcurrentWitnesses.LeftoverForNewConnection`).
- `maps_size` is raised before the array is replaced, so the range check is wrong exactly between these
  two stores (`Concurrent.RangeCheckExact`, `ConcurrentWitnesses.RangeCheckFails`).
- All this needs closes that overlap other calls. If every close runs from its tests to the clearing of the
  slot at once, while no growth has copied the slot and no call for its connection is under way, then
  every descriptor keeps its connection and the table holds nothing else (`Orderly.OrderlyRuns`).
- `dns_setserver` writes zero to the other entry when the read-back fails (`Dns.OtherEntryKept`).
- The table hands out descriptors outside the `fd_set` window; select never reports those
  (`FdSet.OneDescriptorSelects`).

## Model

| member | source | states |
|---|---|---|
| DescriptorTable.Conn2FdRefinesMap | src/atu_sockets.c:45-84 | The growing array refines an unbounded map from descriptor to connection: find or insert returns the connection's descriptor or else the least free one (section 2.14 of POSIX.1-2017 System Interfaces), with or without growth; -1 exactly when full, new and without memory, and then nothing changes |
| DescriptorTable.Conn2FdFrame | src/atu_sockets.c:56-80 | Every other slot keeps its whole record through insertion and the growth copy, new slots are zeroed, and no connection gets two slots |
| DescriptorTable.Conn2FdIdempotent | src/atu_sockets.c:50-54 | Looking up a connection that has a descriptor returns it and changes nothing |
| DescriptorTable.FullByCount | src/atu_sockets.c:55-63 | The table is full exactly when it has as many connections as slots |
| Sockets.SocketLayer.constructor | src/atu_sockets.c:30-32 | The zeroed statics satisfy the invariant |
| Sockets.SocketLayer.Fd2Conn | src/atu_sockets.c:34-43 | A record is returned exactly for descriptors inside the table |
| Sockets.SocketLayer.Scan | src/atu_sockets.c:50-60 | The index loop finds the first slot with a given connection, or the size |
| Sockets.SocketLayer.Conn2Fd | src/atu_sockets.c:45-84 | The two scans, the in-place store, the copy and the swap compute the table function; the mutex is released on every path |
| Sockets.SocketLayer.Socket | src/atu_sockets.c:93-135 | Computes the socket function; the null record use is reported as a fault, and only then |
| Sockets.SocketLayer.Accept | src/atu_sockets.c:137-152 | Computes the accept function |
| Sockets.SocketLayer.Close | src/atu_sockets.c:296-316 | Computes the close function; the pbuf freed is live |
| Sockets.SocketLayer.ReceiveInto | src/atu_sockets.c:383-392 | Saving, setting and restoring the timeout around the receive leaves the user's timeout as it was |
| Sockets.SocketLayer.Fetch | src/atu_sockets.c:374-411 | The branch that gets a new pbuf: its three early returns and its errno values |
| Sockets.SocketLayer.TakeFrom | src/atu_sockets.c:421-432 | The copied range is inside a live pbuf and the buffer; the cursor advances; the pbuf is freed with its last byte |
| Sockets.SocketLayer.Recv | src/atu_sockets.c:360-433 | Computes the recv function: state, return value, and a buffer whose first bytes are the data and whose rest is untouched |
| Sockets.SocketLayer.Ioctl | src/atu_sockets.c:493-545 | Computes the ioctl function, storing the count only through a non-null argument |
| Sockets.SocketLayer.Fcntl | src/atu_sockets.c:547-569 | Computes the fcntl function |
| Sockets.SocketLayer.SetSockOpt | src/atu_sockets.c:233-294 | Computes the setsockopt function for all levels, names and value sizes |
| Invariant.ValidAfter | src/atu_sockets.c:302-428 | Whatever one call does with the pbuf of its slot (keep, pull, overwrite an empty one, free), slot invariant, single holding, single freeing and accounting survive |
| Invariant.RecvDelivers | src/atu_sockets.c:360-433 | recv keeps the invariant, returns exactly the front of the stream, at most len bytes, and leaves options and timeout |
| Invariant.IoctlDelivers | src/atu_sockets.c:493-545 | ioctl keeps the invariant and removes nothing from the stream; the count is the unread length |
| Invariant.CloseKeeps | src/atu_sockets.c:296-316 | close keeps the invariant, empties the slot, and keeps its options |
| Invariant.InTableKeeps | src/atu_sockets.c:45-84 | Insertion and growth keep the invariant; no pbuf gets two holders by the copy |
| Steps.StepElsewhere | src/atu_sockets.c:34-569 | Non-interference: one call changes one descriptor at most, also when the table grows |
| Runs.RunAgrees | src/atu_sockets.c:34-569 | After every run the layer agrees with the outside monitor on open descriptors, streams, timeouts, peers, options and capacity |
| Theorems.StreamFidelity | src/atu_sockets.c:360-437 | After any run, bytes returned, then unread bytes, then queue equal all that arrived, in order; the receive timeout is the last one set |
| Theorems.TimevalIsMilliseconds | src/atu_sockets.c:249-258 | Wherever neither product nor sum overflows 32 bits, SO_RCVTIMEO stores seconds and whole milliseconds of a timeval, negative ones included, or the int itself; the result -1, and no other, is polling |
| Theorems.ExactCapacity | src/atu_sockets.c:55-80 | The table has 16 * ceil(P/16) slots for the peak P of open connections, and every descriptor is below P |
| Theorems.HighestDescriptor | src/atu_sockets.c:45-84 | Over a whole run every descriptor that socket and accept return, closed since or not, is below the peak P of open connections, and if P > 0 then P - 1 is one of them |
| Theorems.SocketOutcome | src/atu_sockets.c:93-135 | The result of socket for every input after every run: -1, -2, the lowest unused descriptor, or the fault, decided by the call history alone |
| Theorems.AcceptOutcome | src/atu_sockets.c:137-152 | The same for accept, where lack of memory gives -1 and an unchanged table |
| Theorems.CrashExactly | src/atu_sockets.c:114-127 | A run crashes if and only if socket meets a full table at the peak with memory refused |
| Theorems.StableDescriptor | src/atu_sockets.c:45-84 | Until closed, a descriptor names one connection through any other calls and growths, and lookup keeps returning it |
| Theorems.NonInterference | src/atu_sockets.c:34-569 | Over whole runs, calls on other descriptors and events of other connections leave a descriptor's record, channel and unread bytes unchanged |
| Theorems.OneDescriptorEach | src/atu_sockets.c:50-79 | After any run no connection has two descriptors |
| Theorems.OptionsAreSticky | src/atu_sockets.c:305-314 | The options of a descriptor number are those last stored through it, across closing and reuse |
| Theorems.OpenInherits | src/atu_sockets.c:123-151 | A new connection has default flags exactly when the last ones stored through its number were; accept leaves the old type |
| Theorems.FlagsRoundTrip | src/atu_sockets.c:556-561 | F_GETFL returns the int F_SETFL stored, through the unsigned field |
| Ownership.PbufConservation | src/atu_sockets.c:310-428 | Dequeued pbufs are the disjoint union of freed (once each), held (by one open slot each) and overwritten ones, which are empty; the counts add up |
| Ownership.StepLeaks | src/atu_sockets.c:374-388 | A step leaks a pbuf exactly when it receives into a slot that holds an empty one |
| Ownership.LeaksAreNew | src/atu_sockets.c:374-388 | Every such leak is a further pbuf |
| Ownership.NothingLeaks | src/atu_sockets.c:296-433 | With no empty chunks: no leak, a pbuf exactly while bytes are left, and all dequeued pbufs freed once all descriptors are closed |
| Results.RecvCount | src/atu_sockets.c:412-432 | recv returns r with r <= len, r <= b and r == len or r == b, where b bytes are left in the pbuf at hand or else are in the first one queued; they are the next of the stream, and errno stays |
| Results.RecvEmpty | src/atu_sockets.c:394-411 | With nothing to read: 0 for a record of type TCP whose peer is gone, otherwise -1 with ENOENT after a failure and EWOULDBLOCK after a timeout; on a closed descriptor -1 and errno stays |
| Results.PollsExactly | src/atu_sockets.c:378-392 | recv polls if and only if bit 3 of the flags, bit 0 of the descriptor's flags, or a length of 0 says so; negative flags included |
| Results.SocketType | src/atu_sockets.c:107-127 | After any run a successful socket call had type 1 and leaves TCP, or type 2 and leaves UDP; errno stays |
| Results.EndOfSocket | src/atu_sockets.c:107-411 | At any time until the socket is closed, recv with nothing to read returns 0 exactly if it was opened with type 1 and the peer was last reported gone; otherwise -1 and errno is set |
| Results.AcceptLeavesErrno | src/atu_sockets.c:137-152 | accept never sets errno; on a descriptor that is not open it returns -1 and changes nothing |
| Results.CloseExactly | src/atu_sockets.c:296-316 | close returns 0, clears three fields, deletes the connection and frees the pbuf, and nothing else; on a descriptor that is not open it returns -1 and changes nothing |
| Results.IoctlOther | src/atu_sockets.c:493-545 | Every command but FIONREAD returns 0 on an open descriptor, and nothing changes |
| Results.FcntlExactly | src/atu_sockets.c:547-569 | Command 3 returns the flags as an int, 4 stores them modulo 2^32, any other gives -1 and EINVAL; -1 on a descriptor that is not open |
| Results.SetSockOptExactly | src/atu_sockets.c:233-294 | setsockopt returns 0 if and only if the descriptor is open and level, name and value size are an accepted combination, written out; otherwise -1, EINVAL on an open descriptor, and nothing else changes; what the two options with an effect store |
| Results.TimeoutStored | src/atu_sockets.c:249-258 | The receive timeout stored is the number of milliseconds, or 2^32 plus it if negative |
| Receive.FionreadRepeats | src/atu_sockets.c:504-541 | A positive count is repeated without touching the queue |
| Receive.RecvAfterFionread | src/atu_sockets.c:412-541 | After a count n the next recv returns min(n, len) bytes, the next of the stream |
| Receive.FionreadInvisible | src/atu_sockets.c:504-541 | FIONREAD before recv changes neither result, bytes nor state, if and only if it does not pull an empty chunk |
| Receive.WaitsAsTold | src/atu_sockets.c:378-392 | Exactly FIONREAD, MSG_DONTWAIT, O_NONBLOCK and length 0 poll; otherwise the user's timeout is waited for; with bytes at hand the library is not asked |
| Receive.RecvEnds | src/atu_sockets.c:394-432 | Reference, read off the branches: when exactly recv returns -1 and which errno, and when exactly it returns 0 |
| Receive.FionreadEnds | src/atu_sockets.c:521-541 | Reference, read off the branches: when exactly FIONREAD fails, with which errno, and when it reports 0 |
| Drain.DrainCount | src/atu_sockets.c:374-432 | Draining with size k takes ceil(b/k) + ceil(n1/k) + ... positive calls and one zero call per empty chunk, and returns all pending bytes; unread data is the termination measure |
| Connections.ConnConservation | src/atu_sockets.c:93-316 | After any run the open connections are the disjoint union of those named by one descriptor in use each and the lost ones, and the counts add up |
| Connections.StepLoses | src/atu_sockets.c:147-151 | A step loses a connection if and only if it is an accept on an open descriptor, of a new connection, with the table full and memory refused; and then that one |
| Connections.OpenConnections | src/atu_sockets.c:93-316 | After any run the library has one open connection for each descriptor in use and one for each refused accept |
| Driver.Perform | src/atu_sockets.c:93-569 | One call on the array-based object is one step of the runs: state, return value, bytes of recv, count of FIONREAD |
| Driver.Play | src/atu_sockets.c:30-569 | Any sequence of calls on the object from the empty table is the run: its state, every answer in order, and its crash |
| Concurrent.NextKeeps | src/atu_sockets.c:45-84 | The invariant of lock, scan, check-then-store, word-by-word copy, swap and unlock is kept by every small step of any thread, closes and field stores through stale pointers included |
| Concurrent.NoOverwrite | src/atu_sockets.c:45-84 | In every interleaving an occupied slot keeps its connection until a close erases it |
| Concurrent.IssueIsExclusive | src/atu_sockets.c:50-83 | Whenever a descriptor is issued, whoever holds it holds the same handle or has lost its slot to a close, and so has the holder of any other descriptor issued for that handle |
| Concurrent.DescriptorsAreDistinct | src/atu_sockets.c:45-84 | Of the descriptors issued and not given to close, those whose slots are not erased name the connections they were issued for, all different |
| Concurrent.RangeCheckExact | src/atu_sockets.c:38-77 | The unlocked range check is right except between raising the size and replacing the array |
| Exclusive.IssueKeptExactly | src/atu_sockets.c:45-308 | A descriptor just issued stays with its connection in every continuation, until a close of it begins, if and only if the connection is still open and no thread is about to erase the slot, delete the handle or look it up for an earlier connection |
| Exclusive.GrantKeptExactly | src/atu_sockets.c:45-308 | The same at any later moment, for any descriptor whose slot holds what it was issued for |
| Exclusive.KeptIssueIsAlone | src/atu_sockets.c:45-308 | Such a descriptor is issued to no other connection before that close |
| Exclusive.IssueErasedExactly | src/atu_sockets.c:50-308 | Some continuation erases the issued slot by a close older than the issue, if and only if at the issue a thread is inside a close with a pointer to that slot of the table in use |
| StaleStores.CloseTakesExactly | src/atu_sockets.c:66-308 | The slot a close clears is empty in every continuation until it is issued again, if and only if the pointer is into the table in use and no growth in progress has copied the slot |
| StaleStores.StoreLastsExactly | src/atu_sockets.c:74-428 | Any word that a close, recv or ioctl stores without the lock is what the table in use holds until another is stored there, if and only if the pointer is into the table in use and no growth in progress has copied that word, or what would come back is the same |
| Leftovers.NewConnectionIsClean | src/atu_sockets.c:57-411 | A connection given an empty slot finds and keeps finding it without pbuf and bytes until a call on the descriptor begins, if and only if it is so at the issue and no recv or ioctl has a pointer to the slot |
| Orderly.OrderlyRuns | src/atu_sockets.c:45-308 | After every run of any number of threads in which closes take their steps to the null store at once, not after the slot was copied and not during a call for its connection: each descriptor in use holds the open connection it was issued for, no two the same, and no other slot is occupied |
| StaleStores.SwapRevivesLateCloses | src/atu_sockets.c:66-77 | The swap changes the connection of a slot if and only if it was erased after it was copied |
| StaleStores.LateCloseIsLost | src/atu_sockets.c:74-308 | At any moment of that window a close is undone by some steps of the lock holder alone |
| Solo.SoloCloseIsClose | src/atu_sockets.c:296-316 | The five steps of an undisturbed close leave the table in use and the open handles as the close function does, whoever holds the lock |
| Solo.SoloCallIsConn2Fd | src/atu_sockets.c:45-84 | One undisturbed thread terminates with the table function's table - connections, pbufs and counts - and descriptor |
| FdSet.ApplyRefines | src/atu_sockets.h:435-447 | Each macro acts on the bitmap as on a set, for every size and offset; other bits of the byte stay |
| FdSet.BitmapRefinesSet | src/atu_sockets.h:435-447 | After any sequence of operations FD_ISSET is non-zero exactly for the members |
| FdSet.BitPlace | src/atu_sockets.h:440-442 | FD_SET puts number d of the window into bit d % 8 of byte d / 8, and FD_ISSET returns that bit's value |
| FdSet.FdBits.FdSet | src/atu_sockets.h:440 | FD_SET in place adds the member, or nothing outside the window |
| FdSet.FdBits.FdClr | src/atu_sockets.h:441 | FD_CLR in place removes the member |
| FdSet.FdBits.FdZero | src/atu_sockets.h:443 | FD_ZERO empties the set |
| FdSet.FdBits.FdIsSet | src/atu_sockets.h:442 | Non-zero exactly for members |
| FdSet.Select | src/atu_sockets.c:571-594 | Returns 1 exactly when readfds has a member in [0, nfds), whatever the others are; without readfds it is writefds that counts, then errorfds; with none 0 |
| FdSet.OneDescriptorSelects | src/atu_sockets.c:588-592 | A descriptor can be selected exactly when it is in the window |
| ByteOrder.Htonl | src/atu_sockets.c:605-616 | The four byte stores equal PP_HTONL and reverse the bytes |
| ByteOrder.HtonsIsSwap | src/atu_sockets.c:600-603 | atu_htons equals PP_HTONS, swaps the bytes, and is self-inverse |
| ByteOrder.HtonlIsInvolution | src/lwip/def.h:98-101 | PP_HTONL is self-inverse |
| ByteOrder.Ip4AddrBytes | src/lwip/ip4_addr.h:120-202 | IP4_ADDR stores the octets in memory in the order written (Appendix B of RFC 791), where the accessors read them |
| Address.EspIp2Str | src/atu_netdb.c:112-115 | Writes the text and a NUL, inside 16 characters, and nothing after it |
| Address.ParseInvertsText | src/atu_netdb.c:112-115 | A parser recovers every address from its text |
| Address.TextIsInjective | src/atu_netdb.c:112-115 | Distinct addresses print distinctly |
| Address.OctetIs | src/atu_netdb.c:112-115 | Each octet prints as one, two or three digits, the ones of its decimal value, by size |
| Address.TextIs | src/atu_netdb.c:112-115 | The text is four numerals without leading zeros, with three dots, and has exactly the length that their sizes make |
| Address.TextInvertsParse | src/atu_netdb.c:112-115 | Every dotted text of four numerals that is an address is the one printed for it |
| Address.TextLength | src/atu_netdb.c:51-52 | The text has 7 to 15 characters |
| Address.OctetsArePrinted | src/lwip/ip4_addr.h:120 | Octets given to IP4_ADDR are the ones printed, in order |
| Address.PrintedWordIsInjective | src/atu_netdb.c:112-115 | Two 32-bit addresses that are printed alike are equal |
| Dns.Client.DnsGetServer | src/atu_netdb.c:68-84 | Reads one entry, zero above index 1 or on failure |
| Dns.Client.DnsSetServer | src/atu_netdb.c:48-66 | The read-modify-write through printed text leaves the update function's configuration |
| Dns.TwoSlotLaws | src/atu_netdb.c:48-84 | Set then get, other entry kept, last set wins, sets commute, indices above 1 change nothing |
| Dns.SetServerExactly | src/atu_netdb.c:48-84 | Both entries after a set, and the result of a get, for every index and whichever library call fails |
| Dns.OtherEntryKept | src/atu_netdb.c:58-64 | With failures, the other entry is kept if and only if the write fails, the read succeeds, or it is zero |
| Dns.OtherEntryLost | src/atu_netdb.c:58-64 | A concrete loss of the other entry |
| ConcurrentWitnesses.DescriptorIssuedTwice | src/atu_sockets.c:50-308 | A run of three threads in which two open connections hold descriptor 0 and no close of it began in between |
| ConcurrentWitnesses.FreeSlotIssueIsLost | src/atu_sockets.c:55-308 | A run in which an issue into an empty slot, of a handle that is nowhere in the table, is deleted and erased by an older close |
| ConcurrentWitnesses.CloseThroughStalePointer | src/atu_sockets.c:66-308 | A run after which all calls have returned and the table holds a deleted connection |
| ConcurrentWitnesses.CloseAfterCopy | src/atu_sockets.c:74-308 | A run to a null store after the copy, and the steps that bring the deleted connection back |
| ConcurrentWitnesses.CountAfterCopy | src/atu_sockets.c:74-428 | A run to a store of a count after the copy, and the steps after which the old count is back |
| ConcurrentWitnesses.LeftoverForNewConnection | src/atu_sockets.c:57-411 | A run in which a recv on a closed descriptor stores its pbuf for the next connection on it |
| ConcurrentWitnesses.RangeCheckFails | src/atu_sockets.c:38-77 | A run to a state in which a number passes the range check and is outside the table |
| Witnesses.AcceptLosesConnection | src/atu_sockets.c:147-151 | With 16 sockets open, an accept that is refused memory leaves its connection open and without descriptor |
| Witnesses.SocketCrash | src/atu_sockets.c:123-127 | The first socket call crashes without memory |
| Witnesses.EmptyChunkIsLost | src/atu_sockets.c:505-535 | An empty chunk pulled by FIONREAD leaks at the next FIONREAD |
| Witnesses.EmptyChunkIsReachable | src/atu_sockets.c:505-535 | One socket call and one empty chunk lead there |
| Witnesses.StaleNonBlocking | src/atu_sockets.c:305-314 | A new TCP socket is non-blocking because of the socket before it |
| Witnesses.EndOfStreamNeedsType | src/atu_sockets.c:394-397 | Reference, read off the branch: the end of the stream reads as 0 exactly when the record says TCP |

## Left out

- The AT-command library itself is not part of this model; only the contract above is used.
- bind, listen, connect, send, sendto, getpeername, getsockopt and recvfrom: one branch and one forwarded call each; recvfrom is recv.
- The connection argument set by `atu_socket` (src/atu_sockets.c:128-132): nothing in these files reads it back, and after a growth it points into the old array.
- The per-slot `fd_lock`, never used, the creation of `maps_lock`, and the old array, which the code does not free.
- Overflow of `maps_size`, and a table near 2^31 slots.
- Signed overflow in the SO_RCVTIMEO arithmetic, undefined in C: the model takes the wrapped 32-bit value, and `Theorems.TimevalIsMilliseconds` speaks of products and sums that fit.
- FIONREAD is the value for a 4-byte `unsigned long`; nothing depends on it but telling it from other commands.
- Concurrent.NextKeeps: a call tests its slot in the step that fetches the pointer. Behind the end of the array, between raising the size and replacing it, a call reads an empty slot.
- Between threads only the connection, pbuf and count of a slot are followed, and recv and ioctl may store any pbuf and count; what they compute is modelled for calls that do not overlap, and there they are atomic.
- Readiness in select: the code only looks at the caller's bits.
- `atu_gethostbyname`, MAC reading, Wi-Fi, event-loop, mDNS, WPS and logging files: stubs, relabelling or single foreign calls.
- IPv6, the address-class macros and the configuration headers.
