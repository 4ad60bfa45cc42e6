/** The handler table and the default `init` handler (crates/node/src/handlers.rs). */
module Handlers {
  import opened Json
  import opened Types
  import opened Server

  /** The handler closures of the runtime and of the two protocol programs built on it. */
  datatype Handler =
    | OnInit
    | OnBroadcastTopology | OnBroadcastRead | OnBroadcast
    | OnAdd | OnCounterRead

  type HandlersMap = map<string, Handler>

  /** `build_default_handlers`: the runtime registers `init` and nothing else. */
  function DefaultHandlers(): (h: HandlersMap)
    ensures h.Keys == {"init"} && h["init"] == OnInit
  {
    map["init" := OnInit]
  }

  /** The string entries of a JSON array, skipping everything else. */
  function StringEntries(items: seq<JVal>): set<string>
  {
    if items == [] then {}
    else
      var last := items[|items| - 1];
      StringEntries(items[..|items| - 1]) + (if last.Str? then {last.s} else {})
  }

  lemma {:induction false} StringEntriesSpec(items: seq<JVal>)
    ensures forall s :: s in StringEntries(items) <==> Str(s) in items
  {
    if items != [] {
      var init := items[..|items| - 1];
      StringEntriesSpec(init);
      assert items == init + [items[|items| - 1]];
    }
  }

  /** The topology seeded from `node_ids`: its string entries. */
  method CollectPeers(items: seq<JVal>) returns (topo: set<string>)
    ensures forall s :: s in topo <==> Str(s) in items
  {
    topo := {};
    var i := 0;
    while i < |items|
      invariant 0 <= i <= |items|
      invariant topo == StringEntries(items[..i])
    {
      assert items[..i + 1][..i] == items[..i];
      if items[i].Str? {
        topo := topo + {items[i].s};
      }
      i := i + 1;
    }
    assert items[..|items|] == items;
    StringEntriesSpec(items);
  }

  /** The `init` closure. A node that already has an id ignores the message without a reply. An
      `init` without a string `node_id` is rejected and changes nothing. Otherwise the id is taken,
      the topology is replaced by the string entries of `node_ids` when that is an array, and
      `init_ok` is sent; a missing `msg_id` leaves those updates in place and sends nothing.
      `InitDone` is that effect and the result, between the state before and after. */
  twostate predicate InitDone(srv: ServerState, msg: Message, new r: Result<()>)
    reads srv
  {
    && (old(srv.id) != "" ==> r == Ok && unchanged(srv))
    && (old(srv.id) == "" && AsStr(Field(msg.body, "node_id")).None? ==> r.Err? && unchanged(srv))
    && (old(srv.id) == "" && AsStr(Field(msg.body, "node_id")).Some? ==>
          && srv.id == AsStr(Field(msg.body, "node_id")).value
          && (AsArray(Field(msg.body, "node_ids")).Some? ==>
                forall s :: s in srv.topology <==> Str(s) in AsArray(Field(msg.body, "node_ids")).value)
          && (AsArray(Field(msg.body, "node_ids")).None? ==> srv.topology == old(srv.topology))
          && srv.values == old(srv.values) && srv.counter == old(srv.counter)
          && srv.msgCount == old(srv.msgCount)
          && match srv.BuildReply("init_ok", msg, map[])
             case None => r.Err? && srv.outbox == old(srv.outbox)
             case Some(reply) =>
               && r.Ok? == srv.stdoutOpen
               && srv.outbox == old(srv.outbox) + (if srv.stdoutOpen then [reply] else []))
  }

  method Init(srv: ServerState, msg: Message) returns (r: Result<()>)
    modifies srv`id, srv`topology, srv`outbox
    ensures InitDone(srv, msg, r)
  {
    if srv.GetId() != "" {
      return Ok;
    }
    var nodeId := AsStr(Field(msg.body, "node_id"));
    if nodeId.None? {
      return Err(());
    }
    srv.SetId(nodeId.value);
    var nodeIds := AsArray(Field(msg.body, "node_ids"));
    if nodeIds.Some? {
      var topo := CollectPeers(nodeIds.value);
      srv.SetTopology(topo);
    }
    var reply := srv.BuildReply("init_ok", msg, map[]);
    if reply.None? {
      return Err(());
    }
    r := srv.Send(reply.value);
  }

  /** A second `init` keeps the first id and sends nothing, provided the first id was not itself
      empty (an empty `node_id` leaves the node uninitialised). */
  method InitTwice(srv: ServerState, first: Message, second: Message) returns (r1: Result<()>, r2: Result<()>)
    requires srv.id == ""
    requires AsStr(Field(first.body, "node_id")).Some? && AsStr(Field(first.body, "node_id")).value != ""
    modifies srv`id, srv`topology, srv`outbox
    ensures srv.id == AsStr(Field(first.body, "node_id")).value
    ensures r2 == Ok
    ensures var reply := srv.BuildReply("init_ok", first, map[]);
      srv.outbox == old(srv.outbox) + (if srv.stdoutOpen && reply.Some? then [reply.value] else [])
  {
    r1 := Init(srv, first);
    ghost var afterFirst := srv.outbox;
    r2 := Init(srv, second);
    assert srv.outbox == afterFirst;
  }
}
