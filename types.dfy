/** The envelope of the node runtime and its content fingerprint (crates/node/src/types.rs). */
module Types {
  import opened Json

  /** `Message { src, dest, body }`. A body that is not a JSON object makes dispatch panic when it
      reads `body.type`, so every body that reaches a handler is an object and is modelled as its fields. */
  datatype Message = Message(src: string, dest: string, body: Body)

  /** Which concrete state sits behind the `Server` capability set; replaces the runtime downcast. */
  datatype Kind = NodeKind | SequentialKVKind

  /** `Message::hash`: the hasher applied to `src ++ dest ++ body.to_string()`. The hasher and the
      serialiser are foreign code and are parameters of the model. */
  function MessageHash(m: Message, hasher: string -> U64, render: Body -> string): U64
  {
    hasher(m.src + m.dest + render(m.body))
  }

  /** The fingerprint sees only the concatenated text: messages that agree on it hash alike. */
  lemma HashDependsOnTextOnly(m1: Message, m2: Message, hasher: string -> U64, render: Body -> string)
    requires m1.src + m1.dest + render(m1.body) == m2.src + m2.dest + render(m2.body)
    ensures MessageHash(m1, hasher, render) == MessageHash(m2, hasher, render)
  {
  }

  /** In particular the boundary between `src` and `dest` is lost: moving a character across it
      leaves the fingerprint unchanged, whatever the hasher. */
  lemma HashIgnoresFieldBoundary(src: string, c: char, dest: string, body: Body,
                                 hasher: string -> U64, render: Body -> string)
    ensures MessageHash(Message(src + [c], dest, body), hasher, render)
         == MessageHash(Message(src, [c] + dest, body), hasher, render)
  {
    assert (src + [c]) + dest == src + ([c] + dest);
  }
}
