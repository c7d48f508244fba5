/**
 The array-based layer refines the runs: playing any sequence of calls on a SocketLayer object
 leads to the state, the return values and the crash that module Runs gives.
 */
module Driver {
  import opened Wrappers
  import opened NetLib
  import opened SocketCalls
  import opened Invariant
  import opened Steps
  import opened Runs
  import opened Sockets

  /** What a caller gets: the return value, the bytes of recv, the count of FIONREAD. */
  datatype Answer = Answer(ret: int, data: seq<byte>, avail: Option<int>)

  /** One call.  `mem` is a buffer of the caller, at least as long as recv is told it is. */
  method Perform(layer: SocketLayer, op: Op, mem: array<byte>) returns (answer: Answer, fault: bool)
    requires layer.Valid()
    requires op.RecvOp? ==> op.len <= mem.Length
    modifies layer, layer.netconnMaps, mem
    ensures fault <==> Step(old(layer.Value()), op).Halt?
    ensures !fault ==> layer.Valid() && var r := Step(old(layer.Value()), op);
                       && layer.Value() == r.st && answer == Answer(r.ret, r.data, r.avail)
                       && mem[..] == r.data + old(mem[..])[|r.data|..]
    ensures layer.netconnMaps == old(layer.netconnMaps) || fresh(layer.netconnMaps)
  {
    StepValid(layer.Value(), op);
    StepData(layer.Value(), op);
    var ret, avail := 0, None;
    fault := false;
    match op {
      case SocketOp(sockType, handle, memory) => ret, fault := layer.Socket(sockType, handle, memory);
      case AcceptOp(s, client, memory) => ret := layer.Accept(s, client, memory);
      case CloseOp(s) => ret := layer.Close(s);
      case RecvOp(s, len, flags, reply) => ret := layer.Recv(s, mem, len, flags, reply);
      case IoctlOp(s, cmd, reply) => ret, avail := layer.Ioctl(s, cmd, true, reply);
      case FcntlOp(s, cmd, val) => ret := layer.Fcntl(s, cmd, val);
      case SetSockOptOp(s, level, optname, optval) => ret := layer.SetSockOpt(s, level, optname, optval);
      case ArriveOp(c, chunk) => layer.lib := Arrive(layer.lib, c, chunk);
      case PeerOp(c, active) => layer.lib := SetActive(layer.lib, c, active);
    }
    answer := Answer(ret, if op.RecvOp? && ret > 0 then mem[..ret] else [], avail);
  }

  /** Only recv stores bytes, and its return value tells how many. */
  lemma StepData(st: State, op: Op)
    requires Valid(st)
    ensures var r := Step(st, op);
            r.Done? ==> |r.data| == if op.RecvOp? && r.ret > 0 then r.ret else 0
  {
    if op.RecvOp? && IsOpen(st, op.s) {
      RecvDelivers(st, op.s, op.len, op.flags, op.reply);
    }
  }

  /** The answers of a run, in order, up to a crash. */
  function Answers(cfg: Config, ops: seq<Op>): seq<Answer>
    requires Sound(cfg)
  {
    if ops == [] then []
    else
      var n := |ops| - 1;
      var before := Run(cfg, ops[..n]);
      Answers(cfg, ops[..n])
      + if before.Crashed? then [] else
          match Step(before.st, ops[n])
          case Halt => []
          case Done(_, ret, data, avail) => [Answer(ret, data, avail)]
  }

  /** A whole run from an empty table, with the monitor beside it. */
  method Play(zeroType: NcType, newTimeout: nat, ops: seq<Op>, mem: array<byte>)
    returns (layer: SocketLayer, answers: seq<Answer>, crashed: bool, ghost mon: Monitor)
    requires forall k :: 0 <= k < |ops| && ops[k].RecvOp? ==> ops[k].len <= mem.Length
    modifies mem
    ensures answers == Answers(Start(zeroType, newTimeout), ops)
    ensures var cfg := Run(Start(zeroType, newTimeout), ops);
            if crashed then cfg.Crashed? else cfg == Running(layer.Value(), mon) && layer.Valid()
  {
    layer := new SocketLayer(zeroType, newTimeout);
    answers, crashed := [], false;
    mon := Start(zeroType, newTimeout).mon;
    for k := 0 to |ops|
      invariant fresh(layer) && (layer.netconnMaps == null || fresh(layer.netconnMaps))
      invariant !crashed && layer.Valid()
      invariant Run(Start(zeroType, newTimeout), ops[..k]) == Running(layer.Value(), mon)
      invariant answers == Answers(Start(zeroType, newTimeout), ops[..k])
    {
      assert ops[..k + 1][..k] == ops[..k];
      var answer, fault := Perform(layer, ops[k], mem);
      if fault {
        crashed := true;
        CrashLasts(Start(zeroType, newTimeout), ops, k + 1);
        return;
      }
      mon := Observe(mon, ops[k], answer.ret, answer.data);
      answers := answers + [answer];
    }
    assert ops[..|ops|] == ops;
  }

  lemma {:induction false} CrashLasts(cfg: Config, ops: seq<Op>, k: nat)
    requires Sound(cfg) && k <= |ops| && Run(cfg, ops[..k]).Crashed?
    ensures Run(cfg, ops).Crashed? && Answers(cfg, ops) == Answers(cfg, ops[..k])
  {
    if k == |ops| {
      assert ops[..k] == ops;
    } else {
      assert ops[..|ops| - 1][..k] == ops[..k];
      CrashLasts(cfg, ops[..|ops| - 1], k);
    }
  }
}
