/** The first draft of the fault-tolerant broadcast node (3c-fault-tolerant-broadcast/src/main.rs).
    Its handlers behave as the reworked node's do. `values` is a map to a unit type, modelled as the
    set of its keys, and a `msg_count` field, which only the unstarted `ping` uses, starts at 0. */
module FaultTolerantBroadcastDraft {
  import opened Json
  import opened Collections
  import opened Standalone

  /** The handler closures of the program. */
  datatype NodeFn = OnBroadcast | OnInit | OnTopology | OnRead

  /** `build_handlers_map`. */
  function BuildHandlersMap(): (h: map<string, NodeFn>)
    ensures h.Keys == {"broadcast", "init", "topology", "read"}
    ensures h["broadcast"] == OnBroadcast && h["init"] == OnInit
    ensures h["topology"] == OnTopology && h["read"] == OnRead
  {
    map["broadcast" := OnBroadcast, "init" := OnInit, "topology" := OnTopology, "read" := OnRead]
  }

  class Node {
    var id: string
    var values: set<U64>
    /** The known peers; `topology` marks each one `true`. */
    var topology: map<string, bool>
    var msgCount: U64
    var handlers: map<string, NodeFn>
    /** Every document written to standard output, in order. */
    var outbox: seq<JVal>

    /** `Node::new`. */
    constructor New()
      ensures id == "" && values == {} && topology == map[] && msgCount == 0
      ensures handlers == BuildHandlersMap() && outbox == []
    {
      id := "";
      values := {};
      topology := map[];
      msgCount := 0;
      handlers := BuildHandlersMap();
      outbox := [];
    }

    /** `send`: one line on standard output. Every caller discards the result. */
    method Send(m: JVal)
      modifies this`outbox
      ensures outbox == old(outbox) + [m]
    {
      outbox := outbox + [m];
    }

    /** What handler `h` unwraps on `msg`; a message without it makes the handler panic. A
        `broadcast` of a value already held returns before its reply, so it needs no `msg_id`. */
    predicate Fits(h: NodeFn, msg: JVal)
      reads this
    {
      match h
      case OnBroadcast =>
        && AsU64(BodyField(msg, "message")).Some?
        && (AsU64(BodyField(msg, "message")).value !in values ==> Replyable(msg))
      case OnInit => id == "" ==> AsStr(BodyField(msg, "node_id")).Some? && Replyable(msg)
      case OnTopology => AsObject(BodyField(msg, "topology")).Some? && Replyable(msg)
      case OnRead => Replyable(msg)
    }

    /** What `broadcast` leaves behind: a value already held changes nothing and sends nothing, not
        even a reply. A new value is added, the request's body is relayed to every peer but the
        sender and this node, and only then does `broadcast_ok` go back. `peers` is the order the
        topology was iterated in. */
    twostate predicate BroadcastDone(msg: JVal, new peers: seq<string>)
      reads this
    {
      && id == old(id) && topology == old(topology)
      && AsU64(BodyField(msg, "message")).Some?
      && var v := AsU64(BodyField(msg, "message")).value;
      && (v in old(values) ==> values == old(values) && outbox == old(outbox))
      && (v !in old(values) ==>
            && values == old(values) + {v}
            && NoDuplicates(peers) && Elements(peers) == topology.Keys
            && Replyable(msg)
            && outbox == old(outbox) + Relays(peers, Get(msg, "src"), id, Get(msg, "body"))
                                     + [ReplyTo(id, msg, map["type" := Str("broadcast_ok")])])
    }

    /** `broadcast`. */
    method Broadcast(msg: JVal) returns (ghost peers: seq<string>)
      requires Fits(OnBroadcast, msg)
      modifies this`values, this`outbox
      ensures BroadcastDone(msg, peers)
    {
      peers := [];
      var number := AsU64(BodyField(msg, "message")).value;
      if number in values {
        return;
      }
      values := values + {number};
      var keys := Enumerate(topology.Keys);
      peers := keys;
      var i := 0;
      while i < |keys|
        invariant 0 <= i <= |keys|
        invariant values == old(values) + {number}
        invariant outbox == old(outbox) + Relays(keys[..i], Get(msg, "src"), id, Get(msg, "body"))
      {
        assert keys[..i + 1][..i] == keys[..i];
        var n := keys[i];
        if !(Get(msg, "src") == Str(n) || n == id) {
          Send(Envelope(id, n, Get(msg, "body")));
        }
        i := i + 1;
      }
      assert keys[..|keys|] == keys;
      Send(ReplyTo(id, msg, map["type" := Str("broadcast_ok")]));
    }

    /** What `init` leaves behind: a node with an id ignores the message and sends nothing;
        otherwise the id becomes `node_id` and `init_ok` goes back to the sender, from the new id. */
    twostate predicate InitDone(msg: JVal)
      reads this
    {
      && values == old(values) && topology == old(topology)
      && (old(id) != "" ==> id == old(id) && outbox == old(outbox))
      && (old(id) == "" ==>
            && AsStr(BodyField(msg, "node_id")) == Some(id)
            && Replyable(msg)
            && outbox == old(outbox) + [ReplyTo(id, msg, map["type" := Str("init_ok")])])
    }

    /** `init`. */
    method Init(msg: JVal)
      requires Fits(OnInit, msg)
      modifies this`id, this`outbox
      ensures InitDone(msg)
    {
      if id != "" {
        return;
      }
      id := AsStr(BodyField(msg, "node_id")).value;
      Send(ReplyTo(id, msg, map["type" := Str("init_ok")]));
    }

    /** What `topology` leaves behind: each key of the `topology` object is marked `true`, keeping
        the other entries, and `topology_ok` goes back to the sender. */
    twostate predicate TopologyDone(msg: JVal)
      reads this
    {
      && id == old(id) && values == old(values)
      && AsObject(BodyField(msg, "topology")).Some?
      && Replyable(msg)
      && var topo := AsObject(BodyField(msg, "topology")).value;
      && topology.Keys == old(topology).Keys + topo.Keys
      && (forall k :: k in topo ==> topology[k])
      && (forall k :: k in old(topology) && k !in topo ==> topology[k] == old(topology)[k])
      && outbox == old(outbox) + [ReplyTo(id, msg, map["type" := Str("topology_ok")])]
    }

    /** `topology`. */
    method Topology(msg: JVal)
      requires Fits(OnTopology, msg)
      modifies this`topology, this`outbox
      ensures TopologyDone(msg)
    {
      var topo := AsObject(BodyField(msg, "topology")).value;
      var keys := Enumerate(topo.Keys);
      topology := InsertEach(topology, keys, true);
      Send(ReplyTo(id, msg, map["type" := Str("topology_ok")]));
    }

    /** What `read` leaves behind: `read_ok` whose `messages` lists every value held, each once, and
        nothing else changes. `listed` is the order the set was iterated in. */
    twostate predicate ReadDone(msg: JVal, new listed: seq<U64>)
      reads this
    {
      && id == old(id) && values == old(values) && topology == old(topology)
      && NoDuplicates(listed) && Elements(listed) == values
      && Replyable(msg)
      && outbox == old(outbox) + [ReplyTo(id, msg, map["type" := Str("read_ok"), "messages" := Arr(Nums(listed))])]
    }

    /** `read`. */
    method Read(msg: JVal) returns (ghost listed: seq<U64>)
      requires Fits(OnRead, msg)
      modifies this`outbox
      ensures ReadDone(msg, listed)
    {
      var allValues := Enumerate(values);
      listed := allValues;
      Send(ReplyTo(id, msg, map["type" := Str("read_ok"), "messages" := Arr(Nums(allValues))]));
    }

    /** `handle_msg`: a document that does not parse is an error; an unknown `type` is an error and
        changes nothing; otherwise the handler is taken out of the table, run, and put back, so the
        table ends as it began and the node is left as that handler leaves it. `peers` and `listed`
        are the iteration orders of the handler that ran, if it has one. */
    method HandleMsg(parsed: Option<JVal>) returns (r: Result<string>, ghost peers: seq<string>, ghost listed: seq<U64>)
      requires parsed.Some? ==> AsStr(BodyField(parsed.value, "type")).Some?
      requires parsed.Some? ==>
        var t := AsStr(BodyField(parsed.value, "type")).value;
        t in handlers ==> Fits(handlers[t], parsed.value)
      modifies this`id, this`values, this`topology, this`handlers, this`outbox
      ensures handlers == old(handlers)
      ensures old(values) <= values
      ensures parsed.None? ==> r.Err? && unchanged(this)
      ensures parsed.Some? ==>
        var t := AsStr(BodyField(parsed.value, "type")).value;
        && (t !in old(handlers) ==> r == Err(NotFound(t)) && unchanged(this))
        && (t in old(handlers) ==> r == Ok)
      ensures parsed.Some? ==>
        var t := AsStr(BodyField(parsed.value, "type")).value;
        t in old(handlers) ==>
          match old(handlers)[t]
          case OnBroadcast => BroadcastDone(parsed.value, peers)
          case OnInit => InitDone(parsed.value)
          case OnTopology => TopologyDone(parsed.value)
          case OnRead => ReadDone(parsed.value, listed)
    {
      peers, listed := [], [];
      if parsed.None? {
        r := Err("malformed message");
        return;
      }
      var msg := parsed.value;
      var t := AsStr(BodyField(msg, "type")).value;
      if t !in handlers {
        r := Err(NotFound(t));
        return;
      }
      var h := handlers[t];
      ghost var table := handlers;
      handlers := handlers - {t};
      match h {
        case OnBroadcast => peers := Broadcast(msg);
        case OnInit => Init(msg);
        case OnTopology => Topology(msg);
        case OnRead => listed := Read(msg);
      }
      handlers := handlers[t := h];
      assert handlers == table;
      r := Ok;
    }
  }
}
