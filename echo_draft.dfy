/** The first draft of the echo node (1-echo/src/main.rs). It behaves as the reworked node does,
    and it also carries a `values` list that nothing reads or writes. */
module EchoDraft {
  import opened Json
  import opened Collections
  import opened Standalone

  /** The handler closures of the program. */
  datatype NodeFn = OnInit | OnTopology | OnEcho

  /** `build_handlers_map`. */
  function BuildHandlersMap(): (h: map<string, NodeFn>)
    ensures h.Keys == {"init", "topology", "echo"}
    ensures h["init"] == OnInit && h["topology"] == OnTopology && h["echo"] == OnEcho
  {
    map["init" := OnInit, "topology" := OnTopology, "echo" := OnEcho]
  }

  class Node {
    var id: string
    var values: seq<U64>
    var topology: map<string, U64>
    var handlers: map<string, NodeFn>
    /** Every document written to standard output, in order. */
    var outbox: seq<JVal>

    /** `Node::new`. */
    constructor New()
      ensures id == "" && values == [] && topology == map[] && handlers == BuildHandlersMap() && outbox == []
    {
      id := "";
      values := [];
      topology := map[];
      handlers := BuildHandlersMap();
      outbox := [];
    }

    /** `send`: one line on standard output. Every caller discards the result. */
    method Send(m: JVal)
      modifies this`outbox
      ensures outbox == old(outbox) + [m]
    {
      outbox := outbox + [m];
    }

    /** What handler `h` unwraps on `msg`; a message without it makes the handler panic. */
    predicate Fits(h: NodeFn, msg: JVal)
      reads this
    {
      match h
      case OnInit => id == "" ==> AsStr(BodyField(msg, "node_id")).Some? && Replyable(msg)
      case OnTopology => AsObject(BodyField(msg, "topology")).Some? && Replyable(msg)
      case OnEcho => AsStr(BodyField(msg, "echo")).Some? && Replyable(msg)
    }

    /** What `init` leaves behind: a node with an id ignores the message and sends nothing;
        otherwise the id becomes `node_id` and `init_ok` goes back to the sender, from the new id. */
    twostate predicate InitDone(msg: JVal)
      reads this
    {
      && topology == old(topology)
      && (old(id) != "" ==> id == old(id) && outbox == old(outbox))
      && (old(id) == "" ==>
            && AsStr(BodyField(msg, "node_id")) == Some(id)
            && Replyable(msg)
            && outbox == old(outbox) + [ReplyTo(id, msg, map["type" := Str("init_ok")])])
    }

    /** `init`. */
    method Init(msg: JVal)
      requires Fits(OnInit, msg)
      modifies this`id, this`outbox
      ensures InitDone(msg)
    {
      if id != "" {
        return;
      }
      id := AsStr(BodyField(msg, "node_id")).value;
      Send(ReplyTo(id, msg, map["type" := Str("init_ok")]));
    }

    /** What `topology` leaves behind: each key of the `topology` object is inserted with 0,
        keeping the other entries, and `topology_ok` goes back to the sender. */
    twostate predicate TopologyDone(msg: JVal)
      reads this
    {
      && id == old(id)
      && AsObject(BodyField(msg, "topology")).Some?
      && Replyable(msg)
      && var topo := AsObject(BodyField(msg, "topology")).value;
      && topology.Keys == old(topology).Keys + topo.Keys
      && (forall k :: k in topo ==> topology[k] == 0)
      && (forall k :: k in old(topology) && k !in topo ==> topology[k] == old(topology)[k])
      && outbox == old(outbox) + [ReplyTo(id, msg, map["type" := Str("topology_ok")])]
    }

    /** `topology`. */
    method Topology(msg: JVal)
      requires Fits(OnTopology, msg)
      modifies this`topology, this`outbox
      ensures TopologyDone(msg)
    {
      var topo := AsObject(BodyField(msg, "topology")).value;
      var keys := Enumerate(topo.Keys);
      topology := InsertEach(topology, keys, 0);
      Send(ReplyTo(id, msg, map["type" := Str("topology_ok")]));
    }

    /** What `echo` leaves behind: `echo_ok` carrying the request's `echo` string goes back to the
        sender, and the node's state is untouched. */
    twostate predicate EchoDone(msg: JVal)
      reads this
    {
      && id == old(id) && topology == old(topology)
      && Replyable(msg)
      && outbox == old(outbox) + [ReplyTo(id, msg, map["type" := Str("echo_ok"), "echo" := BodyField(msg, "echo")])]
    }

    /** `echo`. The reply is addressed to the request's sender, answers its `msg_id`, and carries
        its `echo` unchanged. */
    method Echo(msg: JVal)
      requires Fits(OnEcho, msg)
      modifies this`outbox
      ensures EchoDone(msg)
      ensures var reply := outbox[|outbox| - 1];
        && Get(reply, "dest") == Get(msg, "src")
        && BodyField(reply, "type") == Str("echo_ok")
        && BodyField(reply, "echo") == BodyField(msg, "echo")
        && BodyField(reply, "in_reply_to") == BodyField(msg, "msg_id")
    {
      var echo := AsStr(BodyField(msg, "echo")).value;
      Send(ReplyTo(id, msg, map["type" := Str("echo_ok"), "echo" := Str(echo)]));
    }

    /** `handle_msg`: a document that does not parse is an error; an unknown `type` is an error and
        changes nothing; otherwise the handler is taken out of the table, run, and put back, so the
        table ends as it began and the node is left as that handler leaves it. */
    method HandleMsg(parsed: Option<JVal>) returns (r: Result<string>)
      requires parsed.Some? ==> AsStr(BodyField(parsed.value, "type")).Some?
      requires parsed.Some? ==>
        var t := AsStr(BodyField(parsed.value, "type")).value;
        t in handlers ==> Fits(handlers[t], parsed.value)
      modifies this`id, this`topology, this`handlers, this`outbox
      ensures handlers == old(handlers)
      ensures parsed.None? ==> r.Err? && unchanged(this)
      ensures parsed.Some? ==>
        var t := AsStr(BodyField(parsed.value, "type")).value;
        && (t !in old(handlers) ==> r == Err(NotFound(t)) && unchanged(this))
        && (t in old(handlers) ==> r == Ok)
      ensures parsed.Some? ==>
        var t := AsStr(BodyField(parsed.value, "type")).value;
        t in old(handlers) ==>
          match old(handlers)[t]
          case OnInit => InitDone(parsed.value)
          case OnTopology => TopologyDone(parsed.value)
          case OnEcho => EchoDone(parsed.value)
    {
      if parsed.None? {
        return Err("malformed message");
      }
      var msg := parsed.value;
      var t := AsStr(BodyField(msg, "type")).value;
      if t !in handlers {
        return Err(NotFound(t));
      }
      var h := handlers[t];
      ghost var table := handlers;
      handlers := handlers - {t};
      match h {
        case OnInit => Init(msg);
        case OnTopology => Topology(msg);
        case OnEcho => Echo(msg);
      }
      handlers := handlers[t := h];
      assert handlers == table;
      r := Ok;
    }
  }
}
