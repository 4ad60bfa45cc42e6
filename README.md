# gossip-glomers node runtime, modelled in Dafny

The repository answers the Maelstrom distributed-systems challenges with small Rust nodes. A node reads
one JSON message per line on standard input, answers on standard output and talks to its peers through
the same channel. This project models two generations of nodes.

- **The shared runtime** (`crates/node`).
  - The envelope `Message { src, dest, body }` and its content fingerprint.
  - The two node states: `Node` (broadcast) and `SequentialKV` (grow-only counter).
  - The `Server` getters and setters, and `build_reply`.
  - The default handler table with its `init` handler.
  - `handle_msg`, which first retires a pending callback keyed by `body.id` and then dispatches on
    `body.type`.
  - The bookkeeping half of `send_synchronous`: bump the message counter, stamp the count into
    `body.id`, register a callback under it, and send once.
- **The two protocol programs built on the runtime.**
  - Flood broadcast (`solutions/3-broadcast`).
  - The grow-only counter (`solutions/4-grow-only-counter`). Its replicated state is specified by a
    pure `Tally`/`Apply` model with idempotence, commutation and redelivery lemmas.
- **The four earlier self-contained programs.**
  - `1-echo` and `solutions/1-echo`.
  - `3c-fault-tolerant-broadcast` and `solutions/3c-fault-tolerant-broadcast`.
  - Each has its own `Node` class with a handler table. `handle_msg` removes the handler for the
    message's type, runs it and reinserts it. Each program works on whole JSON documents.

How the model is built:

- **State.** Mutable state is a Dafny `class` whose methods list exactly the fields they change.
- **Standard output.** It is an `outbox` sequence that `send` appends to.
- **The callback store.** The global `CALLBACKS` map is a `CallbackStore` object. It holds the set of
  pending ids and the log of callbacks that ran. The ghost predicate `Correlated` ties it to the
  message counter.
- **Node states.**
  - The runtime's dynamic downcast becomes a `kind` tag on one `ServerState` class.
  - Whether standard output accepts writes is a constant of that object (`stdoutOpen`).
- **Foreign code.** The random starting count, the `DefaultHasher` and the serde serialiser are
  parameters.
- **Panics and overflow.** A message that would make an `unwrap` panic, and a counter increment that
  would overflow 64 bits, are excluded by preconditions (`Fits`, `HandlerFits`, `BroadcastFits`,
  `AddFits`). They exclude an overflow only where the code would reach the increment: a duplicate
  `add` or an already held `broadcast` is accepted in any state.
- **Loops.**
  - The programs' forwarding loops are `while` loops, proved against the recursive specification
    functions `Fanout` (runtime programs) and `Relays` (self-contained programs).
  - Listing a hash set is `Collections.Enumerate`: each element exactly once, in an unspecified order.

Where the intended Maelstrom protocol and the code disagree, the model follows the code:

- **The stamp key.** `send_synchronous` writes the minted number to `body.id`
  (crates/node/src/messaging.rs:99). It does not write `body.msg_id`.
- **What the callback check reads.** It reads `body.id` alone (messaging.rs:43-48), never
  `in_reply_to`. `build_reply` writes only `type` and `in_reply_to` (server.rs:46-47). So no reply
  built by a peer can retire a callback; `Messaging.RepliesNeverCarryTheStamp` proves this. A
  request forwarded by a peer, however, carries the peer's own stamp in `body.id`. It retires any local
  pending callback that has the same number, and `Dispatch.HandleMsg` models exactly that.
- **A second `init`.** Once a node has an id, a second `init` is ignored without any reply
  (handlers.rs:29-31). The Maelstrom `init`/`init_ok` protocol expects every `init` to be acknowledged.
- **Flood broadcast.**
  - It forwards to the sender too (solutions/3-broadcast/src/main.rs:83-86).
  - It sends no `broadcast_ok` for a value it already holds (main.rs:66-68).
- **An empty `node_id`.** It is accepted and leaves the id empty, so the node still counts as
  uninitialised afterwards. `Handlers.InitTwice` therefore assumes a non-empty first id.

## Model

| member | source | states |
|---|---|---|
| Types.HashDependsOnTextOnly | crates/node/src/types.rs:15-23 | two messages whose `src ++ dest ++ body` texts are equal get the same fingerprint, whatever the hasher |
| Types.HashIgnoresFieldBoundary | crates/node/src/types.rs:16-19 | moving a character from the end of `src` to the front of `dest` leaves the fingerprint unchanged: the concatenation loses the field boundary |
| Server.ServerState.Default | crates/node/src/types.rs:43-64 | a fresh state has an empty id, no values, an empty topology, counter 0, and a starting message count equal to the random seed, which is below 10000 |
| Collections.Enumerate | crates/node/src/server.rs:75-77 | collecting a hash set lists each element exactly once: no repeats, the same elements, the same size |
| Server.ServerState.GetTopology | crates/node/src/server.rs:75-77 | the peer list has no repeats and holds exactly the topology |
| Server.ServerState.SetId | crates/node/src/server.rs:83-85 | writes only the id, and `get_id` reads back the value written |
| Server.ServerState.SetTopology | crates/node/src/server.rs:87-89 | replaces the whole topology with the given set (no union) and writes nothing else |
| Server.ServerState.SetMsgCount | crates/node/src/server.rs:91-93 | writes only the counter, and `get_msg_count` reads back the value written |
| Server.SettersAreIndependent | crates/node/src/server.rs:83-93 | after the three setters each field reads back its own value, and values, counter and output are untouched |
| Server.ServerState.Send | crates/node/src/server.rs:27-33 | an open output gains exactly the message and the call succeeds; a closed one gains nothing and the call fails |
| Server.ServerState.BuildReply | crates/node/src/server.rs:35-54 | a reply exists iff `body.msg_id` is a u64; it goes from this node's id to the sender, its `type` is the given type, its `in_reply_to` is the request's `msg_id`, its keys are the given body's plus those two, and every other field is kept |
| Handlers.DefaultHandlers | crates/node/src/handlers.rs:22-61 | the default table has exactly one key, `init` |
| Handlers.StringEntriesSpec | crates/node/src/handlers.rs:45-50 | a string is collected from `node_ids` iff it occurs in the array as a JSON string |
| Handlers.CollectPeers | crates/node/src/handlers.rs:43-52 | the loop over `node_ids` yields exactly the array's string entries; other entries are skipped |
| Handlers.Init | crates/node/src/handlers.rs:26-59 | with an id already set: Ok, no change, no reply. Without a string `node_id`: Err, no change. Otherwise the id becomes `node_id`, an array `node_ids` replaces the topology with its strings (otherwise the topology is kept), and `init_ok` is written if a reply can be built, Err if not |
| Handlers.InitTwice | crates/node/src/handlers.rs:29-31 | after two `init`s the id is the first one, the second returns Ok, and the output holds at most the first `init_ok` |
| Messaging.CallbackStore.constructor | crates/node/src/lib.rs:19-21 | the callback store starts with no pending callbacks and none run |
| Messaging.StampKeepsEnvelope | crates/node/src/messaging.rs:99 | stamping sets `body.id` to the count, adds only that key, and keeps src, dest and every other field |
| Messaging.SendSynchronous | crates/node/src/messaging.rs:89-120 | the counter goes up by one; the envelope sent is the message stamped with the new count; that count becomes pending; the envelope is written once if the output is open; the result reports the write; correlation is preserved |
| Messaging.MintedSpec | crates/node/src/messaging.rs:95-97 | the ids minted while the counter goes from `lo` to `hi` are exactly those strictly above `lo` and at most `hi` |
| Messaging.FanoutShape | solutions/3-broadcast/src/main.rs:83-98 | the forwarding loop emits no more envelopes than there are peers; the i-th goes from the node to a peer other than itself, carries the body, and is stamped with the starting count plus i + 1, so the stamps are consecutive and distinct |
| Messaging.FanoutDests | solutions/3-broadcast/src/main.rs:83-98 | the forwards address exactly the topology minus the node itself, the sender included |
| Messaging.FanoutOncePerPeer | solutions/3-broadcast/src/main.rs:83-98 | over a repeat-free peer list, no peer is addressed twice |
| Messaging.ForwardToPeers | solutions/4-grow-only-counter/src/main.rs:59-74 | the loop of `send_synchronous` calls raises the counter by the number of forwards, makes exactly the minted ids pending, and writes exactly `Fanout` of the peers when the output is open |
| Messaging.RepliesNeverCarryTheStamp | crates/node/src/messaging.rs:43-48 | a reply built for a stamped request has no `id` and carries the original `msg_id` in `in_reply_to`, so the callback check cannot recognise it |
| Dispatch.HandleMsg | crates/node/src/messaging.rs:37-57 | a u64 `body.id` with a pending callback retires it and runs it once, even when no handler matches; an unknown type returns `handler <type> not found` and leaves the state untouched; a known type runs its handler and returns Ok whatever the handler returned, and the node is left exactly as that handler's own contract (`InitDone`, `TopologyDone`, `ReadDone`, `BroadcastDone`, `AddDone`) describes, after the callback retirement; correlation is preserved and values and counter never shrink |
| Dispatch.RunHandler | crates/node/src/messaging.rs:52-55 | the handler found in the table runs on the message and its effect and result are exactly what that handler's contract states; correlation is preserved, the newly pending ids are exactly those minted, and values and counter never shrink |
| Broadcast.BroadcastHandlers | solutions/3-broadcast/src/main.rs:14-102 | the table is the defaults plus `topology`, `read` and `broadcast`, each bound to its handler |
| Broadcast.Topology | solutions/3-broadcast/src/main.rs:15-35 | on a `Node` with an object `topology`, the peers become the old peers united with the object's keys and `topology_ok` is written; otherwise Err and no change |
| Broadcast.Read | solutions/3-broadcast/src/main.rs:36-55 | on a `Node`, `read_ok` lists every held value exactly once and nothing else changes; otherwise Err |
| Broadcast.HeldBroadcastFits | solutions/3-broadcast/src/main.rs:66-68 | a `broadcast` of a value already held is always accepted, whatever the message count, since it forwards nothing |
| Broadcast.BroadcastValue | solutions/3-broadcast/src/main.rs:56-102 | a held value: Ok, no change, no reply. A non-u64 `message` or another state: Err, no change. A new value is added; without a reply nothing is sent; otherwise `broadcast_ok` is written first, then the body is forwarded by `send_synchronous` to every peer but the node itself |
| GrowOnlyCounter.CounterHandlers | solutions/4-grow-only-counter/src/main.rs:14-98 | the table is the defaults plus `add` and `read`, each bound to its handler |
| GrowOnlyCounter.ApplyGrows | solutions/4-grow-only-counter/src/main.rs:46-53 | one increment never lowers the total and never forgets a fingerprint |
| GrowOnlyCounter.ApplyIdempotent | solutions/4-grow-only-counter/src/main.rs:46-53 | once an increment with a delta is applied, delivering its fingerprint again, with any delta, changes nothing |
| GrowOnlyCounter.ApplyCommutes | solutions/4-grow-only-counter/src/main.rs:46-53 | increments with distinct fingerprints commute, so replicas applying them in different orders agree |
| GrowOnlyCounter.ApplyAllAbsorbs | solutions/4-grow-only-counter/src/main.rs:46-53 | after a run of increments, each of them is a no-op |
| GrowOnlyCounter.ApplyAllOfNoOps | solutions/4-grow-only-counter/src/main.rs:46-53 | a run made only of no-ops leaves the state as it was |
| GrowOnlyCounter.RedeliveryChangesNothing | solutions/4-grow-only-counter/src/main.rs:46-53 | re-delivering a whole run of increments, as forwarding to every peer does, leaves the counter where the first delivery put it |
| GrowOnlyCounter.DuplicateAddFits | solutions/4-grow-only-counter/src/main.rs:46-48 | an `add` whose fingerprint is already recorded is always accepted, however close the counter or the message count is to 2^64, since it is acknowledged and changes nothing |
| GrowOnlyCounter.Add | solutions/4-grow-only-counter/src/main.rs:16-79 | on another state, or with no fingerprint (a node without `hash`, a sender starting with neither `n` nor `c`): Ok, no change. Without `msg_id`: Err, no change. Otherwise `add_ok` is written before the duplicate check, the (values, counter) pair takes exactly one `Apply` step, and a newly applied increment is forwarded with its fingerprint in `hash` to every peer but the node itself |
| GrowOnlyCounter.Read | solutions/4-grow-only-counter/src/main.rs:80-98 | on a `SequentialKV`, `read_ok` carries `value` equal to the counter and nothing else changes; on another state Ok with nothing written |
| Standalone.Reply | solutions/1-echo/src/main.rs:88-95 | `build_reply` wraps the given body, plus `in_reply_to` set to the request's `msg_id`, in an envelope from the node's id to the given destination; no other field is touched. The function is identical at 1-echo/src/main.rs:95-102, solutions/3c-fault-tolerant-broadcast/src/main.rs:124-131 and 3c-fault-tolerant-broadcast/src/main.rs:166-173 |
| Standalone.ReplyTo | solutions/1-echo/src/main.rs:33 | every reply site addresses the request's own `src` |
| Standalone.InsertEach | solutions/1-echo/src/main.rs:41-43 | inserting every key with one value yields the old keys united with the new ones; the new keys map to that value and every other entry is kept |
| Standalone.RelaysShape | solutions/3c-fault-tolerant-broadcast/src/main.rs:36-46 | each relay is the request's body in an envelope from the node to a peer that is neither the node nor the sender, and there are no more relays than peers |
| Standalone.RelaysAddressees | solutions/3c-fault-tolerant-broadcast/src/main.rs:36-46 | the relays address exactly the topology minus the node itself and minus the sender |
| Standalone.RelaysOncePerPeer | 3c-fault-tolerant-broadcast/src/main.rs:37-47 | over a repeat-free peer list, no peer is relayed to twice |
| Echo.BuildHandlersMap | solutions/1-echo/src/main.rs:20-67 | the table has exactly `init`, `topology` and `echo` |
| Echo.Node.New | solutions/1-echo/src/main.rs:70-77 | a new node has an empty id, an empty topology and the full handler table |
| Echo.Node.Send | solutions/1-echo/src/main.rs:79-86 | the output gains exactly the document |
| Echo.Node.Init | solutions/1-echo/src/main.rs:24-35 | a node with an id is unchanged and sends nothing; otherwise the id becomes `node_id` and one `init_ok` goes to the sender from the new id |
| Echo.Node.Topology | solutions/1-echo/src/main.rs:39-50 | every key of the `topology` object is inserted with 0, the other entries are kept, and `topology_ok` is written |
| Echo.Node.Echo | solutions/1-echo/src/main.rs:53-65 | a single `echo_ok` goes back to the sender carrying the request's `echo` and `msg_id`; no other state changes |
| Echo.Node.HandleMsg | solutions/1-echo/src/main.rs:98-109 | unparsable input is an error; an unknown type is an error naming the type and changes nothing; a known type returns Ok and leaves the node as that handler's contract (`InitDone`, `TopologyDone`, `EchoDone`) describes; the handler table ends as it began |
| EchoDraft.BuildHandlersMap | 1-echo/src/main.rs:20-52 | the table has exactly `init`, `topology` and `echo` |
| EchoDraft.Node.New | 1-echo/src/main.rs:55-63 | a new node has an empty id, no values, an empty topology and the full handler table |
| EchoDraft.Node.Send | 1-echo/src/main.rs:86-93 | the output gains exactly the document |
| EchoDraft.Node.Init | 1-echo/src/main.rs:22-31 | a node with an id is unchanged and sends nothing; otherwise the id becomes `node_id` and one `init_ok` goes to the sender |
| EchoDraft.Node.Topology | 1-echo/src/main.rs:32-41 | every key of the `topology` object is inserted with 0, the other entries are kept, and `topology_ok` is written |
| EchoDraft.Node.Echo | 1-echo/src/main.rs:43-50 | a single `echo_ok` goes back to the sender carrying the request's `echo` and `msg_id`; no other state changes |
| EchoDraft.Node.HandleMsg | 1-echo/src/main.rs:104-118 | unparsable input is an error; an unknown type is an error naming the type and changes nothing; a known type returns Ok and leaves the node as that handler's contract (`InitDone`, `TopologyDone`, `EchoDone`) describes; the handler table ends as it began |
| FaultTolerantBroadcast.BuildHandlersMap | solutions/3c-fault-tolerant-broadcast/src/main.rs:22-102 | the table has exactly `broadcast`, `init`, `topology` and `read` |
| FaultTolerantBroadcast.Node.New | solutions/3c-fault-tolerant-broadcast/src/main.rs:105-113 | a new node has an empty id, no values, an empty topology and the full handler table |
| FaultTolerantBroadcast.Node.Send | solutions/3c-fault-tolerant-broadcast/src/main.rs:115-122 | the output gains exactly the document |
| FaultTolerantBroadcast.Node.Broadcast | solutions/3c-fault-tolerant-broadcast/src/main.rs:26-53 | a held value: no change and nothing sent. A new value is added, relayed to every peer but the sender and the node itself, and only then is `broadcast_ok` written |
| FaultTolerantBroadcast.Node.Init | solutions/3c-fault-tolerant-broadcast/src/main.rs:57-68 | a node with an id is unchanged and sends nothing; otherwise the id becomes `node_id` and one `init_ok` goes out |
| FaultTolerantBroadcast.Node.Topology | solutions/3c-fault-tolerant-broadcast/src/main.rs:72-83 | every key of the `topology` object is marked `true`, the other entries are kept (a union), and `topology_ok` is written |
| FaultTolerantBroadcast.Node.Read | solutions/3c-fault-tolerant-broadcast/src/main.rs:87-99 | `read_ok` lists every held value exactly once; nothing else changes |
| FaultTolerantBroadcast.Node.HandleMsg | solutions/3c-fault-tolerant-broadcast/src/main.rs:133-144 | unparsable input is an error; an unknown type is an error naming the type and changes nothing; a known type returns Ok and leaves the node as that handler's contract (`BroadcastDone`, `InitDone`, `TopologyDone`, `ReadDone`) describes; values never shrink; the handler table ends as it began |
| FaultTolerantBroadcastDraft.BuildHandlersMap | 3c-fault-tolerant-broadcast/src/main.rs:25-85 | the table has exactly `broadcast`, `init`, `topology` and `read` |
| FaultTolerantBroadcastDraft.Node.New | 3c-fault-tolerant-broadcast/src/main.rs:88-97 | a new node has an empty id, no values, an empty topology, message count 0 and the full handler table |
| FaultTolerantBroadcastDraft.Node.Send | 3c-fault-tolerant-broadcast/src/main.rs:157-164 | the output gains exactly the document |
| FaultTolerantBroadcastDraft.Node.Broadcast | 3c-fault-tolerant-broadcast/src/main.rs:27-52 | a held value: no change and nothing sent. A new value is added, relayed to every peer but the sender and the node itself, and then `broadcast_ok` is written |
| FaultTolerantBroadcastDraft.Node.Init | 3c-fault-tolerant-broadcast/src/main.rs:53-62 | a node with an id is unchanged and sends nothing; otherwise the id becomes `node_id` and one `init_ok` goes out |
| FaultTolerantBroadcastDraft.Node.Topology | 3c-fault-tolerant-broadcast/src/main.rs:63-72 | every key of the `topology` object is marked `true`, the other entries are kept, and `topology_ok` is written |
| FaultTolerantBroadcastDraft.Node.Read | 3c-fault-tolerant-broadcast/src/main.rs:73-83 | `read_ok` lists every key of `values` exactly once; nothing else changes |
| FaultTolerantBroadcastDraft.Node.HandleMsg | 3c-fault-tolerant-broadcast/src/main.rs:175-189 | unparsable input is an error; an unknown type is an error naming the type and changes nothing; a known type returns Ok and leaves the node as that handler's contract (`BroadcastDone`, `InitDone`, `TopologyDone`, `ReadDone`) describes; values never shrink; the handler table ends as it began |

## Left out

- `listen` and `serve` (crates/node/src/messaging.rs:12-29, 61-82), and every `main`. They are the
  stdin reader, the channel and task fan-out, and the thread or tokio start-up: I/O and concurrency.
  Each handler call is modelled as one sequential step, with nothing else running in between.
- Interleaving inside `Broadcast.BroadcastValue`, `GrowOnlyCounter.Add` and `Messaging.ForwardToPeers`.
  `broadcast` and `add` release the node lock before their forwarding loops
  (solutions/3-broadcast/src/main.rs:80, solutions/4-grow-only-counter/src/main.rs:56), and each
  `send_synchronous` takes the lock again by itself. Every message is handled by its own task
  (crates/node/src/messaging.rs:73). So in the program, other handlers and callback retirements can run
  between two forwards. The stamps of one fan-out are then increasing but not necessarily consecutive,
  the counter can rise by more than the number of forwards, and other output can come between them. The
  model runs the loop without interruption: `FanoutShape`'s consecutive stamps and `ForwardToPeers`'
  exact count and exact `Fanout` output hold only for that sequential run.
- The resend loop of `send_synchronous` (messaging.rs:122-142). It is timed and runs concurrently. The
  model covers the call up to its first send, and `fired` records which callbacks ran. What a run
  callback wakes up is not modelled.
- A failed first send inside `send_synchronous` returns early, but only after the count has been bumped
  and the callback registered. The model keeps both, as the code does. The protocol programs ignore
  the error.
- Standard output is an append-only `outbox`. The runtime's writes can fail, controlled by
  `stdoutOpen`.
- Write failures of the four self-contained programs are not modelled: each of their sends appends to
  `outbox`. Their code discards every send result, so a failure would change only what was written.
- The downcast to `Node` or `SequentialKV` is the `kind` tag. `as_any` and `as_any_mut` have no other
  role.
- `ping` and `run` of the two draft programs. They depend on threads and `recv_timeout`, and `main`
  never starts them.
- Parsing and serialising JSON (serde_json):
  - A parse result is given as `Option<JVal>`. The text of serde's parse error is not modelled; the
    model only says the result is an error.
  - `body.to_string()` in `Message::hash` is a parameter `render`.
  - `DefaultHasher` is a parameter `hasher`.
  - The random starting count is a constructor parameter below 10000.
  - `uuid` is used only by solutions/2-unique-id.
- solutions/2-unique-id/src/main.rs and src/main.rs are not part of this model. The first is a
  wrapper whose only property, id uniqueness, belongs to `Uuid::now_v7`.
- JSON numbers are integers only; floating-point numbers do not occur in the messages handled.
- A runtime body that is not a JSON object makes `handle_msg` panic at the `type` unwrap, so bodies are
  modelled as objects only.
- Panics are preconditions, since a panicking handler kills the node's message task. They cover:
  `unwrap` on `type`, `node_id`, `echo`, `topology`, `message`, `src` and `msg_id`; indexing the first
  byte of an empty `src`; and 64-bit overflow of the message counter or of the grow-only counter.
- GrowOnlyCounter.Fingerprint: the first byte of `src` read as a `char` is modelled as the first
  character of the string. The two are the same for the ASCII letters `n` and `c` that the code tests.
- Standalone.NotFound: serde's `Display` of the type string is modelled as the string in double quotes,
  without JSON escaping of quotes or control characters inside it.
- Handlers.InitTwice: stated for a non-empty first `node_id` only. An empty one leaves the node
  uninitialised, so a second `init` would be taken.
- The order of hash-map and hash-set iteration is unspecified. It is a ghost out-parameter (`peers`,
  `listed`) constrained only to list every element once.
