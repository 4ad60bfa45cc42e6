/** The callback store and the bookkeeping of `send_synchronous` (crates/node/src/messaging.rs,
    with the `CALLBACKS` static of crates/node/src/lib.rs). The timed resend loop is not modelled. */
module Messaging {
  import opened Json
  import opened Types
  import opened Collections
  import opened Server

  /** `CALLBACKS`: the ids with a pending completion action, and the log of ids whose action ran. */
  class CallbackStore {
    var pending: set<U64>
    var fired: seq<U64>

    constructor ()
      ensures pending == {} && fired == []
    {
      pending := {};
      fired := [];
    }
  }

  /** What keeps correlation sound: ids are minted from the counter, so every registered or retired
      id is at most the counter; a retired id is never pending again; no callback ran twice. */
  ghost predicate Correlated(store: CallbackStore, srv: ServerState)
    reads store, srv
  {
    && (forall k :: k in store.pending ==> k <= srv.msgCount)
    && (forall i :: 0 <= i < |store.fired| ==> store.fired[i] <= srv.msgCount && store.fired[i] !in store.pending)
    && NoDuplicates(store.fired)
  }

  /** The envelope `send_synchronous` emits for count `n`: `body.id` set to `n`, all else kept. */
  function Stamp(m: Message, n: int): Message
  {
    m.(body := m.body["id" := Num(n)])
  }

  lemma StampKeepsEnvelope(m: Message, n: int)
    ensures Stamp(m, n).src == m.src && Stamp(m, n).dest == m.dest
    ensures Field(Stamp(m, n).body, "id") == Num(n)
    ensures Stamp(m, n).body.Keys == m.body.Keys + {"id"}
    ensures forall k :: k in m.body && k != "id" ==> Stamp(m, n).body[k] == m.body[k]
  {
  }

  /** `send_synchronous` up to its first send: the counter goes up by one, the new value becomes
      `body.id`, a callback is registered under it, and the envelope is written once. A failed write
      is reported, and the count and the callback stay. */
  method SendSynchronous(srv: ServerState, store: CallbackStore, msg: Message) returns (r: Result<()>, sent: Message)
    requires srv.msgCount < U64_MAX
    requires Correlated(store, srv)
    modifies srv`msgCount, srv`outbox, store`pending
    ensures Correlated(store, srv)
    ensures srv.msgCount == old(srv.msgCount) + 1
    ensures sent == Stamp(msg, srv.msgCount)
    ensures store.pending == old(store.pending) + {srv.msgCount}
    ensures srv.outbox == old(srv.outbox) + (if srv.stdoutOpen then [sent] else [])
    ensures r.Ok? == srv.stdoutOpen
  {
    var count := srv.GetMsgCount() + 1;
    srv.SetMsgCount(count);
    sent := msg.(body := msg.body["id" := Num(count)]);
    store.pending := store.pending + {count};
    r := srv.Send(sent);
  }

  /** The ids minted by the counter going from `lo` up to `hi`. */
  function Minted(lo: U64, hi: U64): set<U64>
    decreases hi - lo
  {
    if hi <= lo then {} else Minted(lo, hi - 1) + {hi}
  }

  lemma {:induction false} MintedSpec(lo: U64, hi: U64)
    ensures forall k: U64 :: k in Minted(lo, hi) <==> lo < k <= hi
    decreases hi - lo
  {
    if lo < hi {
      MintedSpec(lo, hi - 1);
    }
  }

  /** The envelopes a loop of `send_synchronous` calls emits when it forwards `body` from `self` to
      each of `peers` but itself, starting from counter value `count`. */
  function Fanout(peers: seq<string>, self: string, body: Body, count: int): seq<Message>
  {
    if peers == [] then []
    else
      var earlier := Fanout(peers[..|peers| - 1], self, body, count);
      var last := peers[|peers| - 1];
      if last == self then earlier
      else earlier + [Stamp(Message(self, last, body), count + |earlier| + 1)]
  }

  function Dests(ms: seq<Message>): set<string>
  {
    set m | m in ms :: m.dest
  }

  /** The i-th forward goes from `self` to a peer that is not `self`, carries `body`, and is stamped
      with `count + i + 1`: the ids are consecutive, hence distinct. */
  lemma {:induction false} FanoutShape(peers: seq<string>, self: string, body: Body, count: int)
    ensures |Fanout(peers, self, body, count)| <= |peers|
    ensures forall i :: 0 <= i < |Fanout(peers, self, body, count)| ==>
      var m := Fanout(peers, self, body, count)[i];
      && m == Stamp(Message(self, m.dest, body), count + i + 1)
      && m.dest != self && m.dest in peers
  {
    if peers != [] {
      var init := peers[..|peers| - 1];
      FanoutShape(init, self, body, count);
      forall p | p in init ensures p in peers { }
    }
  }

  /** Exactly the peers other than `self` are addressed. */
  lemma {:induction false} FanoutDests(peers: seq<string>, self: string, body: Body, count: int)
    ensures Dests(Fanout(peers, self, body, count)) == Elements(peers) - {self}
  {
    if peers != [] {
      var init := peers[..|peers| - 1];
      FanoutDests(init, self, body, count);
      var earlier := Fanout(init, self, body, count);
      var last := peers[|peers| - 1];
      assert peers == init + [last];
      assert Elements(peers) == Elements(init) + {last};
      if last != self {
        var m := Stamp(Message(self, last, body), count + |earlier| + 1);
        assert Dests(earlier + [m]) == Dests(earlier) + {last} by {
          assert forall x :: x in earlier + [m] <==> x in earlier || x == m;
        }
      }
    }
  }

  /** When the peer list has no repeats, each peer is addressed once. */
  lemma {:induction false} FanoutOncePerPeer(peers: seq<string>, self: string, body: Body, count: int)
    requires NoDuplicates(peers)
    ensures var f := Fanout(peers, self, body, count);
      forall i, j :: 0 <= i < j < |f| ==> f[i].dest != f[j].dest
  {
    if peers != [] {
      var init := peers[..|peers| - 1];
      var last := peers[|peers| - 1];
      FanoutOncePerPeer(init, self, body, count);
      FanoutDests(init, self, body, count);
      var earlier := Fanout(init, self, body, count);
      assert last !in init by {
        forall k | 0 <= k < |init| ensures init[k] != last {
          assert init[k] == peers[k];
        }
      }
      forall i | 0 <= i < |earlier| ensures earlier[i].dest != last {
        assert earlier[i] in earlier;
        assert earlier[i].dest in Dests(earlier);
      }
    }
  }

  /** The forwarding loop of both protocol programs: one `send_synchronous` of `body` from `self` to
      each peer in turn, skipping `self`. Failed writes are ignored, as the programs ignore them. */
  method ForwardToPeers(srv: ServerState, store: CallbackStore, peers: seq<string>, self: string, body: Body)
    requires Correlated(store, srv)
    requires srv.msgCount + |peers| <= U64_MAX
    modifies srv`msgCount, srv`outbox, store`pending
    ensures Correlated(store, srv)
    ensures srv.msgCount == old(srv.msgCount) + |Fanout(peers, self, body, old(srv.msgCount))|
    ensures store.pending == old(store.pending) + Minted(old(srv.msgCount), srv.msgCount)
    ensures srv.outbox == old(srv.outbox) + (if srv.stdoutOpen then Fanout(peers, self, body, old(srv.msgCount)) else [])
  {
    var i := 0;
    while i < |peers|
      invariant 0 <= i <= |peers|
      invariant Correlated(store, srv)
      invariant srv.msgCount == old(srv.msgCount) + |Fanout(peers[..i], self, body, old(srv.msgCount))|
      invariant store.pending == old(store.pending) + Minted(old(srv.msgCount), srv.msgCount)
      invariant srv.outbox == old(srv.outbox) + (if srv.stdoutOpen then Fanout(peers[..i], self, body, old(srv.msgCount)) else [])
    {
      FanoutShape(peers[..i], self, body, old(srv.msgCount));
      assert peers[..i + 1][..i] == peers[..i];
      if peers[i] != self {
        var sendResult, sent := SendSynchronous(srv, store, Message(self, peers[i], body));
      }
      i := i + 1;
    }
    assert peers[..|peers|] == peers;
  }

  /** A reply built by `build_reply` on a peer never carries the `id` that `send_synchronous` stamped,
      and its `in_reply_to` is the request's original `msg_id`, which stamping leaves alone. The
      callback check, which reads `body.id` only, therefore never recognises such a reply. */
  lemma RepliesNeverCarryTheStamp(peer: ServerState, m: Message, n: int, ty: string, extra: Body)
    requires "id" !in extra
    ensures var reply := peer.BuildReply(ty, Stamp(m, n), extra);
      reply.Some? ==>
        && Field(reply.value.body, "id") == Null
        && Field(reply.value.body, "in_reply_to") == Field(m.body, "msg_id")
  {
  }
}
