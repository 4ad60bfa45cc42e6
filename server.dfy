/** The `Server` capability set and its two implementations (crates/node/src/server.rs and the
    state structs of crates/node/src/types.rs). The downcast to a concrete state becomes `kind`. */
module Server {
  import opened Json
  import opened Types
  import opened Collections

  class ServerState {
    /** `Node` or `SequentialKV`; `counter` is used by the latter only. */
    const kind: Kind
    /** Whether standard output accepts writes: the transport, taken as given. */
    const stdoutOpen: bool

    var id: string
    var values: set<U64>
    var topology: set<string>
    var msgCount: U64
    var counter: U64
    /** Every envelope written to standard output, in order. */
    var outbox: seq<Message>

    /** `Node::default` and `SequentialKV::default`; `seed` is the random starting count. */
    constructor Default(kind: Kind, seed: nat, stdoutOpen: bool)
      requires seed < 10000
      ensures this.kind == kind && this.stdoutOpen == stdoutOpen
      ensures id == "" && values == {} && topology == {} && counter == 0
      ensures 0 <= msgCount < 10000 && msgCount == seed
      ensures outbox == []
    {
      this.kind := kind;
      this.stdoutOpen := stdoutOpen;
      id := "";
      values := {};
      topology := {};
      msgCount := seed;
      counter := 0;
      outbox := [];
    }

    function GetId(): string
      reads this
    {
      id
    }

    function GetMsgCount(): U64
      reads this
    {
      msgCount
    }

    /** `get_topology`: the peers as a list, each once, in hash-set order. */
    method GetTopology() returns (peers: seq<string>)
      ensures NoDuplicates(peers) && Elements(peers) == topology && |peers| == |topology|
    {
      peers := Enumerate(topology);
    }

    method SetId(newId: string)
      modifies this`id
      ensures GetId() == newId
    {
      id := newId;
    }

    /** Replaces the whole topology; no union. */
    method SetTopology(topo: set<string>)
      modifies this`topology
      ensures topology == topo
    {
      topology := topo;
    }

    method SetMsgCount(count: U64)
      modifies this`msgCount
      ensures GetMsgCount() == count
    {
      msgCount := count;
    }

    /** `send`: one line on standard output, or an I/O error. */
    method Send(m: Message) returns (r: Result<()>)
      modifies this`outbox
      ensures r.Ok? == stdoutOpen
      ensures outbox == if stdoutOpen then old(outbox) + [m] else old(outbox)
    {
      if stdoutOpen {
        outbox := outbox + [m];
        r := Ok;
      } else {
        r := Err(());
      }
    }

    /** `build_reply`: nothing without a u64 `msg_id`; otherwise a new envelope from this node back to
        the sender, whose body is the given one with `type` and `in_reply_to` set. */
    function BuildReply(ty: string, msg: Message, body: Body): (r: Option<Message>)
      reads this
      ensures r.None? <==> AsU64(Field(msg.body, "msg_id")).None?
      ensures r.Some? ==> r.value.src == id && r.value.dest == msg.src
      ensures r.Some? ==> Field(r.value.body, "type") == Str(ty)
      ensures r.Some? ==> Field(r.value.body, "in_reply_to") == Field(msg.body, "msg_id")
      ensures r.Some? ==> r.value.body.Keys == body.Keys + {"type", "in_reply_to"}
      ensures r.Some? ==> forall k :: k in body && k != "type" && k != "in_reply_to" ==> r.value.body[k] == body[k]
    {
      match AsU64(Field(msg.body, "msg_id"))
      case None => None
      case Some(msgId) => Some(Message(id, msg.src, body["type" := Str(ty)]["in_reply_to" := Num(msgId)]))
    }
  }

  /** Writing the id, the topology or the count touches that field alone and reads back what was written. */
  method SettersAreIndependent(srv: ServerState, newId: string, topo: set<string>, count: U64)
    modifies srv
    ensures srv.GetId() == newId && srv.topology == topo && srv.GetMsgCount() == count
    ensures srv.values == old(srv.values) && srv.counter == old(srv.counter) && srv.outbox == old(srv.outbox)
  {
    srv.SetId(newId);
    srv.SetTopology(topo);
    srv.SetMsgCount(count);
  }
}
