/** The grow-only counter handlers built on the runtime (solutions/4-grow-only-counter/src/main.rs).
    Each handler first takes the state as a `SequentialKV`; on any other state it does nothing. */
module GrowOnlyCounter {
  import opened Json
  import opened Types
  import opened Collections
  import opened Server
  import opened Handlers
  import opened Messaging

  /** The handler table of the program: the defaults plus `add` and `read`. */
  function CounterHandlers(): (h: HandlersMap)
    ensures h.Keys == DefaultHandlers().Keys + {"add", "read"}
    ensures h["init"] == OnInit && h["add"] == OnAdd && h["read"] == OnCounterRead
  {
    DefaultHandlers()["add" := OnAdd]["read" := OnCounterRead]
  }

  /** The replicated part of the state: the fingerprints applied so far and the running total. */
  datatype Tally = Tally(seen: set<U64>, total: int)

  /** One increment: a fingerprint already seen changes nothing, a new one with a delta is recorded
      and its delta added, and a new one without a delta changes nothing either. */
  function Apply(t: Tally, fp: U64, delta: Option<U64>): Tally
  {
    if fp in t.seen || delta.None? then t else Tally(t.seen + {fp}, t.total + delta.value)
  }

  /** The total never goes down and the seen set only grows. */
  lemma ApplyGrows(t: Tally, fp: U64, delta: Option<U64>)
    ensures t.seen <= Apply(t, fp, delta).seen && t.total <= Apply(t, fp, delta).total
  {
  }

  /** Once an increment with a delta is applied, its fingerprint is consumed: re-delivering it, with
      any delta, changes nothing. */
  lemma ApplyIdempotent(t: Tally, fp: U64, delta: Option<U64>, again: Option<U64>)
    requires delta.Some?
    ensures Apply(Apply(t, fp, delta), fp, again) == Apply(t, fp, delta)
  {
  }

  /** Distinct increments commute, so replicas that apply them in different orders agree. */
  lemma ApplyCommutes(t: Tally, a: U64, da: Option<U64>, b: U64, db: Option<U64>)
    requires a != b
    ensures Apply(Apply(t, a, da), b, db) == Apply(Apply(t, b, db), a, da)
  {
  }

  /** Applying a run of increments in order. */
  function ApplyAll(t: Tally, incs: seq<(U64, Option<U64>)>): Tally
  {
    if incs == [] then t
    else
      var last := incs[|incs| - 1];
      Apply(ApplyAll(t, incs[..|incs| - 1]), last.0, last.1)
  }

  /** After a run, every increment of it is a no-op. */
  lemma {:induction false} ApplyAllAbsorbs(t: Tally, incs: seq<(U64, Option<U64>)>)
    ensures forall i :: 0 <= i < |incs| ==>
      Apply(ApplyAll(t, incs), incs[i].0, incs[i].1) == ApplyAll(t, incs)
  {
    if incs != [] {
      var init := incs[..|incs| - 1];
      ApplyAllAbsorbs(t, init);
      var mid := ApplyAll(t, init);
      var last := incs[|incs| - 1];
      forall i | 0 <= i < |incs| - 1
        ensures Apply(ApplyAll(t, incs), incs[i].0, incs[i].1) == ApplyAll(t, incs)
      {
        assert incs[i] == init[i];
        ApplyGrows(mid, last.0, last.1);
      }
    }
  }

  /** A run of no-ops changes nothing. */
  lemma {:induction false} ApplyAllOfNoOps(t: Tally, incs: seq<(U64, Option<U64>)>)
    requires forall i :: 0 <= i < |incs| ==> Apply(t, incs[i].0, incs[i].1) == t
    ensures ApplyAll(t, incs) == t
  {
    if incs != [] {
      ApplyAllOfNoOps(t, incs[..|incs| - 1]);
    }
  }

  /** Re-delivering a whole run of increments, as at-least-once replication does, changes nothing. */
  lemma RedeliveryChangesNothing(t: Tally, incs: seq<(U64, Option<U64>)>)
    ensures ApplyAll(ApplyAll(t, incs), incs) == ApplyAll(t, incs)
  {
    ApplyAllAbsorbs(t, incs);
    ApplyAllOfNoOps(ApplyAll(t, incs), incs);
  }

  /** The dedup fingerprint of an `add`, chosen by the first character of `src`: a node forwards the
      fingerprint in `body.hash`, a client's message is fingerprinted by its content, and anything
      else has none. */
  function Fingerprint(msg: Message, hasher: string -> U64, render: Body -> string): Option<U64>
    requires |msg.src| > 0
  {
    if msg.src[0] == 'n' then AsU64(Field(msg.body, "hash"))
    else if msg.src[0] == 'c' then Some(MessageHash(msg, hasher, render))
    else None
  }

  /** What `add` needs so that it neither panics nor overflows: a non-empty `src`, and, when the
      increment is applied (a fingerprint not yet seen, a `msg_id` to reply to and a u64 `delta`),
      room in the total for the delta and room in the message counter for one send per peer. A
      duplicate, or a message dropped before the update, needs no room. */
  predicate AddFits(srv: ServerState, msg: Message, hasher: string -> U64, render: Body -> string)
    reads srv
  {
    srv.kind == SequentialKVKind ==>
      && |msg.src| > 0
      && var fp := Fingerprint(msg, hasher, render);
      && var delta := AsU64(Field(msg.body, "delta"));
      && (fp.Some? && fp.value !in srv.values && AsU64(Field(msg.body, "msg_id")).Some? && delta.Some? ==>
            && srv.msgCount + |srv.topology| <= U64_MAX
            && srv.counter + delta.value <= U64_MAX)
  }

  /** A re-delivered `add`, whose fingerprint is already recorded, can always be handled, however
      close the counter is to 2^64: it is acknowledged and changes nothing. */
  lemma DuplicateAddFits(srv: ServerState, msg: Message, hasher: string -> U64, render: Body -> string)
    requires |msg.src| > 0
    requires Fingerprint(msg, hasher, render).Some? && Fingerprint(msg, hasher, render).value in srv.values
    ensures AddFits(srv, msg, hasher, render)
  {
  }

  /** `add`. Without a fingerprint the message is dropped. `add_ok` is written before the dedup check,
      so a duplicate is still acknowledged; without a `msg_id` nothing happens at all. The counter
      state then takes one `Apply` step, and a newly applied increment is forwarded, carrying its
      fingerprint in `hash`, to every peer but this node. `peers` is the topology's iteration order. */
  twostate predicate AddDone(srv: ServerState, msg: Message, new r: Result<()>, new peers: seq<string>,
                             hasher: string -> U64, render: Body -> string)
    requires srv.kind == SequentialKVKind ==> |msg.src| > 0
    reads srv
  {
    && old(srv.counter) <= srv.counter && old(srv.values) <= srv.values
    && (srv.kind != SequentialKVKind ==> r == Ok && unchanged(srv))
    && (srv.kind == SequentialKVKind && Fingerprint(msg, hasher, render).None? ==> r == Ok && unchanged(srv))
    && (srv.kind == SequentialKVKind && Fingerprint(msg, hasher, render).Some? ==>
          var fp := Fingerprint(msg, hasher, render).value;
          var delta := AsU64(Field(msg.body, "delta"));
          && srv.id == old(srv.id) && srv.topology == old(srv.topology)
          && match srv.BuildReply("add_ok", msg, map[])
             case None => r.Err? && unchanged(srv)
             case Some(reply) =>
               var ack := if srv.stdoutOpen then [reply] else [];
               && r == Ok
               && Tally(srv.values, srv.counter) == Apply(Tally(old(srv.values), old(srv.counter)), fp, delta)
               && (fp in old(srv.values) || delta.None? ==>
                     srv.msgCount == old(srv.msgCount) && srv.outbox == old(srv.outbox) + ack)
               && (fp !in old(srv.values) && delta.Some? ==>
                     var f := Fanout(peers, srv.id, msg.body["hash" := Num(fp)], old(srv.msgCount));
                     && NoDuplicates(peers) && Elements(peers) == srv.topology
                     && srv.msgCount == old(srv.msgCount) + |f|
                     && srv.outbox == old(srv.outbox) + ack + (if srv.stdoutOpen then f else [])))
  }

  /** `add` on the node and on the callback store: `AddDone`, with one pending callback per forward
      and none when nothing was forwarded. */
  method Add(srv: ServerState, store: CallbackStore, msg: Message, hasher: string -> U64, render: Body -> string)
    returns (r: Result<()>, ghost peers: seq<string>)
    requires Correlated(store, srv)
    requires AddFits(srv, msg, hasher, render)
    modifies srv`values, srv`counter, srv`outbox, srv`msgCount, store`pending
    ensures Correlated(store, srv)
    ensures store.pending == old(store.pending) + Minted(old(srv.msgCount), srv.msgCount)
    ensures store.fired == old(store.fired)
    ensures srv.msgCount == old(srv.msgCount) ==> unchanged(store)
    ensures AddDone(srv, msg, r, peers, hasher, render)
  {
    peers := [];
    r := Ok;
    if srv.kind != SequentialKVKind {
      return;
    }
    var fp := Fingerprint(msg, hasher, render);
    if fp.None? {
      return;
    }
    var reply := srv.BuildReply("add_ok", msg, map[]);
    if reply.None? {
      r := Err(());
      return;
    }
    var ignored := srv.Send(reply.value);
    if fp.value in srv.values {
      return;
    }
    var delta := AsU64(Field(msg.body, "delta"));
    if delta.Some? {
      srv.values := srv.values + {fp.value};
      srv.counter := srv.counter + delta.value;
      var nodeId := srv.GetId();
      var allNodes := srv.GetTopology();
      peers := allNodes;
      ForwardToPeers(srv, store, allNodes, nodeId, msg.body["hash" := Num(fp.value)]);
      assert srv.msgCount == old(srv.msgCount) ==> store.pending == old(store.pending);
    }
  }

  /** `read`: `read_ok` whose `value` is the counter; nothing changes. */
  twostate predicate ReadDone(srv: ServerState, msg: Message, new r: Result<()>)
    reads srv
  {
    && (srv.kind != SequentialKVKind ==> r == Ok && unchanged(srv))
    && (srv.kind == SequentialKVKind ==>
          && srv.id == old(srv.id) && srv.values == old(srv.values) && srv.topology == old(srv.topology)
          && srv.counter == old(srv.counter) && srv.msgCount == old(srv.msgCount)
          && match srv.BuildReply("read_ok", msg, map["value" := Num(srv.counter)])
             case None => r.Err? && srv.outbox == old(srv.outbox)
             case Some(reply) =>
               && Field(reply.body, "value") == Num(srv.counter)
               && r.Ok? == srv.stdoutOpen
               && srv.outbox == old(srv.outbox) + (if srv.stdoutOpen then [reply] else []))
  }

  method Read(srv: ServerState, msg: Message) returns (r: Result<()>)
    modifies srv`outbox
    ensures ReadDone(srv, msg, r)
  {
    if srv.kind != SequentialKVKind {
      return Ok;
    }
    var reply := srv.BuildReply("read_ok", msg, map["value" := Num(srv.counter)]);
    if reply.None? {
      return Err(());
    }
    r := srv.Send(reply.value);
  }
}
