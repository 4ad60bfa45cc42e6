/** What the four self-contained node programs (1-echo, 3c-fault-tolerant-broadcast and their
    reworked copies under solutions/) share: messages are whole JSON documents, `build_reply` is the
    same function in each, and so are the `topology` insertion loop and the not-found error. */
module Standalone {
  import opened Json
  import opened Collections

  /** `json!({"src": .., "dest": .., "body": ..})`. */
  function Envelope(src: string, dest: string, body: JVal): JVal
  {
    Obj(map["src" := Str(src), "dest" := Str(dest), "body" := body])
  }

  /** `msg["body"][key]`. */
  function BodyField(msg: JVal, key: string): JVal
  {
    Get(Get(msg, "body"), key)
  }

  /** What every reply site unwraps: a string `src` to answer and a u64 `body.msg_id`. */
  predicate Replyable(msg: JVal)
  {
    AsStr(Get(msg, "src")).Some? && AsU64(BodyField(msg, "msg_id")).Some?
  }

  /** `build_reply(dest, msg, body)`: `body` gains `in_reply_to`, the request's `msg_id`, and is
      wrapped in an envelope from `self` to `dest`. */
  function Reply(self: string, dest: string, msg: JVal, body: Body): (r: JVal)
    requires AsU64(BodyField(msg, "msg_id")).Some?
    ensures Get(r, "src") == Str(self) && Get(r, "dest") == Str(dest)
    ensures AsObject(Get(r, "body")).Some?
    ensures var b := AsObject(Get(r, "body")).value;
      && b.Keys == body.Keys + {"in_reply_to"}
      && b["in_reply_to"] == BodyField(msg, "msg_id")
      && forall k :: k in body && k != "in_reply_to" ==> b[k] == body[k]
  {
    Envelope(self, dest, Obj(body["in_reply_to" := Num(AsU64(BodyField(msg, "msg_id")).value)]))
  }

  /** The answer to `msg` from `self`: a reply to the request's own `src`. */
  function ReplyTo(self: string, msg: JVal, body: Body): (r: JVal)
    requires Replyable(msg)
    ensures Get(r, "dest") == Get(msg, "src")
  {
    Reply(self, AsStr(Get(msg, "src")).value, msg, body)
  }

  /** `format!("handler {} not found", msg["body"]["type"])`: the type is shown as a JSON string,
      hence in quotes. */
  function NotFound(t: string): string
  {
    "handler \"" + t + "\" not found"
  }

  /** `for k in keys { map.insert(k, v) }`: every key is in the result mapped to `v`, and every entry
      already there for another key is kept. Nothing is removed, so the result is a union. */
  method InsertEach<V>(m: map<string, V>, keys: seq<string>, v: V) returns (r: map<string, V>)
    ensures r.Keys == m.Keys + Elements(keys)
    ensures forall k :: k in Elements(keys) ==> r[k] == v
    ensures forall k :: k in m && k !in Elements(keys) ==> r[k] == m[k]
  {
    r := m;
    var i := 0;
    while i < |keys|
      invariant 0 <= i <= |keys|
      invariant r.Keys == m.Keys + Elements(keys[..i])
      invariant forall k :: k in Elements(keys[..i]) ==> r[k] == v
      invariant forall k :: k in m && k !in Elements(keys[..i]) ==> r[k] == m[k]
    {
      assert Elements(keys[..i + 1]) == Elements(keys[..i]) + {keys[i]} by {
        assert keys[..i + 1] == keys[..i] + [keys[i]];
      }
      r := r[keys[i] := v];
      i := i + 1;
    }
    assert keys[..|keys|] == keys;
  }

  /** The forwarding loop of the fault-tolerant broadcast: `body` goes from `self` to each of
      `peers` in turn, except a peer equal to the request's `src` value and `self` itself. */
  function Relays(peers: seq<string>, src: JVal, self: string, body: JVal): seq<JVal>
  {
    if peers == [] then []
    else
      var earlier := Relays(peers[..|peers| - 1], src, self, body);
      var n := peers[|peers| - 1];
      if src == Str(n) || n == self then earlier else earlier + [Envelope(self, n, body)]
  }

  /** The peers a run of envelopes is addressed to. */
  function Addressees(ms: seq<JVal>): set<string>
  {
    set m | m in ms && Get(m, "dest").Str? :: Get(m, "dest").s
  }

  /** Every relay is the envelope of `body` from `self` to a peer that is neither `self` nor the
      sender. */
  lemma {:induction false} RelaysShape(peers: seq<string>, src: JVal, self: string, body: JVal)
    ensures |Relays(peers, src, self, body)| <= |peers|
    ensures forall i :: 0 <= i < |Relays(peers, src, self, body)| ==>
      var m := Relays(peers, src, self, body)[i];
      && Get(m, "dest").Str?
      && m == Envelope(self, Get(m, "dest").s, body)
      && Get(m, "dest").s in peers && Get(m, "dest").s != self && src != Get(m, "dest")
  {
    if peers != [] {
      var init := peers[..|peers| - 1];
      RelaysShape(init, src, self, body);
      forall p | p in init ensures p in peers { }
    }
  }

  /** Exactly the peers other than `self` and the sender are addressed. */
  lemma {:induction false} RelaysAddressees(peers: seq<string>, src: JVal, self: string, body: JVal)
    ensures Addressees(Relays(peers, src, self, body)) ==
      Elements(peers) - {self} - (if src.Str? then {src.s} else {})
  {
    if peers != [] {
      var init := peers[..|peers| - 1];
      RelaysAddressees(init, src, self, body);
      var earlier := Relays(init, src, self, body);
      var n := peers[|peers| - 1];
      assert peers == init + [n];
      assert Elements(peers) == Elements(init) + {n};
      if !(src == Str(n) || n == self) {
        var m := Envelope(self, n, body);
        assert Get(m, "dest") == Str(n);
        assert Addressees(earlier + [m]) == Addressees(earlier) + {n} by {
          assert forall x :: x in earlier + [m] <==> x in earlier || x == m;
        }
      }
    }
  }

  /** When the peer list has no repeats, no peer is relayed to twice. */
  lemma {:induction false} RelaysOncePerPeer(peers: seq<string>, src: JVal, self: string, body: JVal)
    requires NoDuplicates(peers)
    ensures var f := Relays(peers, src, self, body);
      forall i, j :: 0 <= i < j < |f| ==> Get(f[i], "dest") != Get(f[j], "dest")
  {
    if peers != [] {
      var init := peers[..|peers| - 1];
      var n := peers[|peers| - 1];
      RelaysOncePerPeer(init, src, self, body);
      RelaysShape(init, src, self, body);
      var earlier := Relays(init, src, self, body);
      assert n !in init by {
        forall k | 0 <= k < |init| ensures init[k] != n {
          assert init[k] == peers[k];
        }
      }
    }
  }
}
