// The command registry of shared/packets.h: a fixed table of 16 handlers,
// registration in order, and scoped lookup and dispatch of a parsed command.
// A callback is represented by a number; dispatch reports the positions of
// the handlers it invoked, in the order it invoked them.

module Registry {
  import opened Text
  import Packets

  const CMD_REGISTRY_MAX: nat := 16

  /** Which packets a handler answers: broadcast only, private only, or both. */
  datatype Scope = Broadcast | Private | Any

  /** One row of the table: name, callback, scope and the two ACK flags. */
  datatype Handler = Handler(cmd: string, callback: nat, scope: Scope, earlyAck: bool, ackJitter: bool)

  /** The scope switch of cmdLookup and cmdDispatch. */
  predicate ScopeAdmits(scope: Scope, isBroadcast: bool, isForMe: bool)
  {
    match scope
    case Any => true
    case Broadcast => isBroadcast
    case Private => isForMe
  }

  /** A packet is looked at only when it is broadcast ("") or names this node. */
  predicate Addressed(target: string, self: string)
  {
    target == "" || target == self
  }

  /** Handler h answers command cmd sent to target, on the node called self. */
  predicate Answers(h: Handler, cmd: string, target: string, self: string)
  {
    h.cmd == cmd && ScopeAdmits(h.scope, target == "", target == self)
  }

  /** The positions below n whose handler answers, in ascending order. */
  function MatchingUpTo(hs: seq<Handler>, n: nat, cmd: string, target: string, self: string): seq<nat>
    requires n <= |hs|
  {
    if n == 0 then []
    else
      MatchingUpTo(hs, n - 1, cmd, target, self) +
        (if Answers(hs[n - 1], cmd, target, self) then [n - 1] else [])
  }

  /**
   * The handlers a packet reaches, in registration order: none when it is
   * addressed to another node.
   */
  function Matching(hs: seq<Handler>, cmd: string, target: string, self: string): (r: seq<nat>)
    ensures !Addressed(target, self) ==> r == []
  {
    if !Addressed(target, self) then [] else MatchingUpTo(hs, |hs|, cmd, target, self)
  }

  /**
   * MatchingUpTo lists exactly the answering positions below n, each once,
   * in strictly ascending order.
   */
  lemma {:induction false} MatchingUpToIff(hs: seq<Handler>, n: nat, cmd: string, target: string, self: string)
    requires n <= |hs|
    ensures var m := MatchingUpTo(hs, n, cmd, target, self);
      (forall i: nat :: i in m <==> i < n && Answers(hs[i], cmd, target, self)) &&
      (forall a, b :: 0 <= a < b < |m| ==> m[a] < m[b])
  {
    if n > 0 {
      MatchingUpToIff(hs, n - 1, cmd, target, self);
      var prev := MatchingUpTo(hs, n - 1, cmd, target, self);
      forall k | 0 <= k < |prev|
        ensures prev[k] < n - 1
      {
        assert prev[k] in prev;
      }
      if Answers(hs[n - 1], cmd, target, self) {
        assert MatchingUpTo(hs, n, cmd, target, self) == prev + [n - 1];
      } else {
        assert MatchingUpTo(hs, n, cmd, target, self) == prev;
      }
    }
  }

  /** Dispatch reaches handler i iff it is addressed, the name is equal and the scope admits it. */
  lemma MatchingIff(hs: seq<Handler>, cmd: string, target: string, self: string, i: nat)
    ensures i in Matching(hs, cmd, target, self) <==>
      Addressed(target, self) && i < |hs| && Answers(hs[i], cmd, target, self)
  {
    MatchingUpToIff(hs, |hs|, cmd, target, self);
  }

  /** Extending the scan only appends positions. */
  lemma {:induction false} MatchingUpToPrefix(hs: seq<Handler>, n: nat, m: nat, cmd: string, target: string, self: string)
    requires n <= m <= |hs|
    ensures var a := MatchingUpTo(hs, n, cmd, target, self);
      var b := MatchingUpTo(hs, m, cmd, target, self);
      |a| <= |b| && b[..|a|] == a
    decreases m
  {
    if n < m {
      MatchingUpToPrefix(hs, n, m - 1, cmd, target, self);
    }
  }

  /** The registry: its table, how many rows are in use, and the node's own id. */
  class CommandRegistry {
    var handlers: array<Handler>
    var count: nat
    var nodeId: string

    predicate Valid()
      reads this
    {
      handlers.Length == CMD_REGISTRY_MAX && count <= CMD_REGISTRY_MAX
    }

    /** The rows in use, in registration order. */
    function Registered(): seq<Handler>
      reads this, handlers
      requires Valid()
    {
      handlers[..count]
    }

    /** cmdRegistryInit: an empty registry for the node called nodeId. */
    constructor (nodeId: string)
      ensures Valid() && fresh(handlers)
      ensures Registered() == [] && this.nodeId == nodeId
    {
      handlers := new Handler[CMD_REGISTRY_MAX](_ => Handler("", 0, Any, false, false));
      count := 0;
      this.nodeId := nodeId;
    }

    /**
     * cmdRegister: a full registry refuses and changes nothing; otherwise
     * the row is appended after the earlier ones, which stay as they were.
     */
    method Register(cmd: string, callback: nat, scope: Scope, earlyAck: bool, ackJitter: bool)
      returns (ok: bool)
      requires Valid()
      modifies this, handlers
      ensures Valid() && handlers == old(handlers) && nodeId == old(nodeId)
      ensures ok == (old(count) < CMD_REGISTRY_MAX)
      ensures ok ==> Registered() == old(Registered()) + [Handler(cmd, callback, scope, earlyAck, ackJitter)]
      ensures !ok ==> count == old(count) && handlers[..] == old(handlers[..])
    {
      if count >= CMD_REGISTRY_MAX {
        return false;
      }
      handlers[count] := Handler(cmd, callback, scope, earlyAck, ackJitter);
      count := count + 1;
      ok := true;
    }

    /**
     * cmdLookup: the position of the first handler dispatch would invoke,
     * None when there is none.
     */
    method Lookup(pkt: Packets.CommandPacket) returns (r: Option<nat>)
      requires Valid()
      ensures var m := Matching(Registered(), pkt.cmd, pkt.nodeId, nodeId);
        (r.None? <==> m == []) && (r.Some? ==> r.value == m[0])
    {
      var isBroadcast := pkt.nodeId == "";
      var isForMe := pkt.nodeId == nodeId;
      if !isBroadcast && !isForMe {
        return None;
      }
      var hs := handlers[..count];
      var i: nat := 0;
      while i < count
        invariant i <= count
        invariant MatchingUpTo(hs, i, pkt.cmd, pkt.nodeId, nodeId) == []
      {
        var h := handlers[i];
        if h.cmd == pkt.cmd && ScopeAdmits(h.scope, isBroadcast, isForMe) {
          MatchingUpToPrefix(hs, i + 1, count, pkt.cmd, pkt.nodeId, nodeId);
          return Some(i);
        }
        i := i + 1;
      }
      return None;
    }

    /**
     * cmdDispatch: invokes, in registration order, every handler whose name
     * is equal and whose scope admits the packet, and says whether any was.
     */
    method Dispatch(pkt: Packets.CommandPacket) returns (handled: bool, calls: seq<nat>)
      requires Valid()
      ensures calls == Matching(Registered(), pkt.cmd, pkt.nodeId, nodeId)
      ensures handled <==> |calls| > 0
    {
      var isBroadcast := pkt.nodeId == "";
      var isForMe := pkt.nodeId == nodeId;
      if !isBroadcast && !isForMe {
        return false, [];
      }
      var hs := handlers[..count];
      handled, calls := false, [];
      var i: nat := 0;
      while i < count
        invariant i <= count
        invariant calls == MatchingUpTo(hs, i, pkt.cmd, pkt.nodeId, nodeId)
        invariant handled <==> |calls| > 0
      {
        var h := handlers[i];
        if h.cmd == pkt.cmd && ScopeAdmits(h.scope, isBroadcast, isForMe) {
          calls := calls + [i];
          handled := true;
        }
        i := i + 1;
      }
    }
  }
}
