/** The flood-broadcast handlers built on the runtime (solutions/3-broadcast/src/main.rs). Each
    handler first takes the state as a `Node`; on any other state it fails and does nothing. */
module Broadcast {
  import opened Json
  import opened Types
  import opened Collections
  import opened Server
  import opened Handlers
  import opened Messaging

  /** The handler table of the program: the defaults plus `topology`, `read` and `broadcast`. */
  function BroadcastHandlers(): (h: HandlersMap)
    ensures h.Keys == DefaultHandlers().Keys + {"topology", "read", "broadcast"}
    ensures h["init"] == OnInit && h["topology"] == OnBroadcastTopology
    ensures h["read"] == OnBroadcastRead && h["broadcast"] == OnBroadcast
  {
    DefaultHandlers()["topology" := OnBroadcastTopology]["read" := OnBroadcastRead]["broadcast" := OnBroadcast]
  }

  /** `topology`: the keys of the `topology` object join the known peers (a union), then
      `topology_ok` goes back to the sender. A payload that is not an object changes nothing. */
  twostate predicate TopologyDone(srv: ServerState, msg: Message, new r: Result<()>)
    reads srv
  {
    && (srv.kind != NodeKind ==> r.Err? && unchanged(srv))
    && (srv.kind == NodeKind && AsObject(Field(msg.body, "topology")).None? ==> r.Err? && unchanged(srv))
    && (srv.kind == NodeKind && AsObject(Field(msg.body, "topology")).Some? ==>
          && srv.topology == old(srv.topology) + AsObject(Field(msg.body, "topology")).value.Keys
          && srv.id == old(srv.id) && srv.values == old(srv.values) && srv.counter == old(srv.counter)
          && srv.msgCount == old(srv.msgCount)
          && match srv.BuildReply("topology_ok", msg, map[])
             case None => r.Err? && srv.outbox == old(srv.outbox)
             case Some(reply) =>
               r.Ok? == srv.stdoutOpen && srv.outbox == old(srv.outbox) + (if srv.stdoutOpen then [reply] else []))
  }

  method Topology(srv: ServerState, msg: Message) returns (r: Result<()>)
    modifies srv`topology, srv`outbox
    ensures TopologyDone(srv, msg, r)
  {
    if srv.kind != NodeKind {
      r := Err(());
      return;
    }
    var topo := AsObject(Field(msg.body, "topology"));
    if topo.None? {
      r := Err(());
      return;
    }
    srv.topology := srv.topology + topo.value.Keys;
    var reply := srv.BuildReply("topology_ok", msg, map[]);
    if reply.None? {
      r := Err(());
      return;
    }
    r := srv.Send(reply.value);
  }

  /** `read`: `read_ok` whose `messages` lists every value held, each once; nothing changes.
      `listed` is the order in which the set was iterated. */
  twostate predicate ReadDone(srv: ServerState, msg: Message, new r: Result<()>, new listed: seq<U64>)
    reads srv
  {
    && (srv.kind != NodeKind ==> r.Err? && unchanged(srv))
    && (srv.kind == NodeKind ==>
          && NoDuplicates(listed) && Elements(listed) == srv.values
          && srv.id == old(srv.id) && srv.values == old(srv.values) && srv.topology == old(srv.topology)
          && srv.counter == old(srv.counter) && srv.msgCount == old(srv.msgCount)
          && match srv.BuildReply("read_ok", msg, map["messages" := Arr(Nums(listed))])
             case None => r.Err? && srv.outbox == old(srv.outbox)
             case Some(reply) =>
               r.Ok? == srv.stdoutOpen && srv.outbox == old(srv.outbox) + (if srv.stdoutOpen then [reply] else []))
  }

  method Read(srv: ServerState, msg: Message) returns (r: Result<()>, ghost listed: seq<U64>)
    modifies srv`outbox
    ensures ReadDone(srv, msg, r, listed)
  {
    listed := [];
    if srv.kind != NodeKind {
      r := Err(());
      return;
    }
    var values := Enumerate(srv.values);
    listed := values;
    var reply := srv.BuildReply("read_ok", msg, map["messages" := Arr(Nums(values))]);
    if reply.None? {
      r := Err(());
      return;
    }
    r := srv.Send(reply.value);
  }

  /** Room in the 64-bit counter for one `send_synchronous` per peer, needed only when the forwards
      happen: a new u64 `message` with a `msg_id` to reply to. */
  predicate BroadcastFits(srv: ServerState, msg: Message)
    reads srv
  {
    var v := AsU64(Field(msg.body, "message"));
    v.Some? && v.value !in srv.values && AsU64(Field(msg.body, "msg_id")).Some? ==>
      srv.msgCount + |srv.topology| <= U64_MAX
  }

  /** A `broadcast` of a value already held can always be handled, whatever the message counter:
      it forwards nothing. */
  lemma HeldBroadcastFits(srv: ServerState, msg: Message)
    requires AsU64(Field(msg.body, "message")).Some? && AsU64(Field(msg.body, "message")).value in srv.values
    ensures BroadcastFits(srv, msg)
  {
  }

  /** `broadcast`: a value already held is ignored (no reply, no forwards). A new value is added,
      `broadcast_ok` is written, and then every peer but this node itself, the sender included, gets
      the original body by `send_synchronous`. Without a `msg_id` the value stays added and nothing
      is sent. `peers` is the order in which the topology was iterated. */
  twostate predicate BroadcastDone(srv: ServerState, msg: Message, new r: Result<()>, new peers: seq<string>)
    reads srv
  {
    && old(srv.values) <= srv.values
    && (srv.kind != NodeKind ==> r.Err? && unchanged(srv))
    && (srv.kind == NodeKind && AsU64(Field(msg.body, "message")).None? ==> r.Err? && unchanged(srv))
    && (srv.kind == NodeKind && AsU64(Field(msg.body, "message")).Some? ==>
          var v := AsU64(Field(msg.body, "message")).value;
          && (v in old(srv.values) ==> r == Ok && unchanged(srv))
          && (v !in old(srv.values) ==>
                && srv.values == old(srv.values) + {v}
                && srv.id == old(srv.id) && srv.topology == old(srv.topology) && srv.counter == old(srv.counter)
                && match srv.BuildReply("broadcast_ok", msg, map[])
                   case None => r.Err? && srv.outbox == old(srv.outbox) && srv.msgCount == old(srv.msgCount)
                   case Some(reply) =>
                     var f := Fanout(peers, srv.id, msg.body, old(srv.msgCount));
                     && r == Ok
                     && NoDuplicates(peers) && Elements(peers) == srv.topology
                     && srv.msgCount == old(srv.msgCount) + |f|
                     && srv.outbox == old(srv.outbox) + (if srv.stdoutOpen then [reply] + f else [])))
  }

  /** `broadcast` on the node and on the callback store: `BroadcastDone`, with one pending callback
      per forward and none when nothing was forwarded. */
  method BroadcastValue(srv: ServerState, store: CallbackStore, msg: Message)
    returns (r: Result<()>, ghost peers: seq<string>)
    requires Correlated(store, srv)
    requires BroadcastFits(srv, msg)
    modifies srv`values, srv`outbox, srv`msgCount, store`pending
    ensures Correlated(store, srv)
    ensures store.pending == old(store.pending) + Minted(old(srv.msgCount), srv.msgCount)
    ensures store.fired == old(store.fired)
    ensures srv.msgCount == old(srv.msgCount) ==> unchanged(store)
    ensures BroadcastDone(srv, msg, r, peers)
  {
    peers := [];
    if srv.kind != NodeKind {
      r := Err(());
      return;
    }
    var number := AsU64(Field(msg.body, "message"));
    if number.None? {
      r := Err(());
      return;
    }
    if number.value in srv.values {
      r := Ok;
      return;
    }
    srv.values := srv.values + {number.value};
    var reply := srv.BuildReply("broadcast_ok", msg, map[]);
    if reply.None? {
      r := Err(());
      return;
    }
    var ignored := srv.Send(reply.value);
    var nodeId := srv.GetId();
    var allNodes := srv.GetTopology();
    peers := allNodes;
    ForwardToPeers(srv, store, allNodes, nodeId, msg.body);
    assert srv.msgCount == old(srv.msgCount) ==> store.pending == old(store.pending);
    r := Ok;
  }
}
