/** `handle_msg` of the runtime (crates/node/src/messaging.rs): the callback check, then the handler
    named by `body.type`. This sits above the protocol programs because their handlers are what the
    table dispatches to. */
module Dispatch {
  import opened Json
  import opened Types
  import opened Server
  import opened Handlers
  import opened Messaging
  import Broadcast
  import GrowOnlyCounter

  /** What the handler about to run needs to avoid a u64 overflow or a panic. It depends on the
      hasher and the serialiser because `add` only updates for a fingerprint not yet seen. */
  predicate HandlerFits(h: Handler, srv: ServerState, msg: Message, hasher: string -> U64, render: Body -> string)
    reads srv
  {
    match h
    case OnBroadcast => Broadcast.BroadcastFits(srv, msg)
    case OnAdd => GrowOnlyCounter.AddFits(srv, msg, hasher, render)
    case _ => true
  }

  /** Runs handler `h` on `msg`: its effect and result are those its own contract names, between
      the state before and after the call. */
  method RunHandler(srv: ServerState, store: CallbackStore, h: Handler, msg: Message,
                    hasher: string -> U64, render: Body -> string)
    returns (handled: Result<()>, ghost order: seq<string>, ghost listed: seq<U64>)
    requires Correlated(store, srv)
    requires HandlerFits(h, srv, msg, hasher, render)
    modifies srv`id, srv`topology, srv`values, srv`counter, srv`msgCount, srv`outbox, store`pending
    ensures Correlated(store, srv)
    ensures store.pending == old(store.pending) + Minted(old(srv.msgCount), srv.msgCount)
    ensures old(srv.values) <= srv.values && old(srv.counter) <= srv.counter
    ensures match h
      case OnInit => InitDone(srv, msg, handled)
      case OnBroadcastTopology => Broadcast.TopologyDone(srv, msg, handled)
      case OnBroadcastRead => Broadcast.ReadDone(srv, msg, handled, listed)
      case OnBroadcast => Broadcast.BroadcastDone(srv, msg, handled, order)
      case OnAdd => GrowOnlyCounter.AddDone(srv, msg, handled, order, hasher, render)
      case OnCounterRead => GrowOnlyCounter.ReadDone(srv, msg, handled)
  {
    order, listed := [], [];
    match h {
    case OnInit =>
      handled := Init(srv, msg);
    case OnBroadcastTopology =>
      handled := Broadcast.Topology(srv, msg);
    case OnBroadcastRead =>
      handled, listed := Broadcast.Read(srv, msg);
    case OnBroadcast =>
      handled, order := Broadcast.BroadcastValue(srv, store, msg);
    case OnAdd =>
      handled, order := GrowOnlyCounter.Add(srv, store, msg, hasher, render);
    case OnCounterRead =>
      handled := GrowOnlyCounter.Read(srv, msg);
    }
  }

  /** The callback check: a u64 `body.id` with a pending callback retires it and runs it once.
      `in_reply_to` plays no part. It runs before, and independently of, the handler lookup, so a
      registered id is consumed even when no handler matches. An unknown type is an error and runs
      nothing; a found handler runs and its own result is dropped. `handled` is that dropped result,
      and `order` and `listed` are the iteration orders of the handler that ran, if it has one. */
  method HandleMsg(srv: ServerState, store: CallbackStore, handlers: HandlersMap, msg: Message,
                   hasher: string -> U64, render: Body -> string)
    returns (r: Result<string>, ghost handled: Result<()>, ghost order: seq<string>, ghost listed: seq<U64>)
    requires Correlated(store, srv)
    requires AsStr(Field(msg.body, "type")).Some?
    requires var t := AsStr(Field(msg.body, "type")).value;
      t in handlers ==> HandlerFits(handlers[t], srv, msg, hasher, render)
    modifies srv`id, srv`topology, srv`values, srv`counter, srv`msgCount, srv`outbox, store
    ensures Correlated(store, srv)
    ensures var k := AsU64(Field(msg.body, "id"));
      var retired := if k.Some? && k.value in old(store.pending) then {k.value} else {};
      && store.fired == old(store.fired) + (if k.Some? && k.value in old(store.pending) then [k.value] else [])
      && store.pending == (old(store.pending) - retired) + Minted(old(srv.msgCount), srv.msgCount)
    ensures var t := AsStr(Field(msg.body, "type")).value;
      && (t !in handlers ==> r == Err("handler " + t + " not found") && unchanged(srv))
      && (t in handlers ==> r == Ok)
    ensures var t := AsStr(Field(msg.body, "type")).value;
      t in handlers ==>
        match handlers[t]
        case OnInit => InitDone(srv, msg, handled)
        case OnBroadcastTopology => Broadcast.TopologyDone(srv, msg, handled)
        case OnBroadcastRead => Broadcast.ReadDone(srv, msg, handled, listed)
        case OnBroadcast => Broadcast.BroadcastDone(srv, msg, handled, order)
        case OnAdd => GrowOnlyCounter.AddDone(srv, msg, handled, order, hasher, render)
        case OnCounterRead => GrowOnlyCounter.ReadDone(srv, msg, handled)
    ensures old(srv.values) <= srv.values && old(srv.counter) <= srv.counter
  {
    handled, order, listed := Ok, [], [];
    var k := AsU64(Field(msg.body, "id"));
    if k.Some? && k.value in store.pending {
      store.pending := store.pending - {k.value};
      store.fired := store.fired + [k.value];
    }
    var t := AsStr(Field(msg.body, "type")).value;
    if t !in handlers {
      r := Err("handler " + t + " not found");
      return;
    }
    handled, order, listed := RunHandler(srv, store, handlers[t], msg, hasher, render);
    r := Ok;
  }
}
