/**
 The message vocabulary shared by the store, the batcher, the per-request state
 machine and the server: message kinds, messages, errors and the notifications
 the store raises.
 */
module Messages {

  datatype Option<+T> = None | Some(value: T) {
    function GetOr(default: T): T {
      match this
      case Some(v) => v
      case None => default
    }
  }

  /** A JavaScript `Error`, identified by its message text. */
  datatype Fault = Fault(text: string)

  /** The store and the request only ever test `type === 'user'` and
      `type === 'ack'`; every other type string behaves alike, so it is `Other`. */
  datatype Kind = User | Ack | Other

  /** A message object as the store keeps it. `timestamp` and `acks` are set by
      the store when a `user` message is dispatched; on a message the store has
      not stamped they carry no meaning (the source leaves them undefined).
      String fields use "" for an absent (falsy) value. */
  datatype Message = Message(
    id: string,
    kind: Kind,
    recipient: string,
    sender: string,
    client: string,
    data: string,
    timestamp: int,
    acks: seq<Message>)

  /** An event the store emits while dispatching: `message:<recipient>` carrying
      the stored message, or `ack:<id>`. */
  datatype Notice = NewMessage(recipient: string, message: Message) | Acked(id: string)

  /** True when some ack recorded on `m` came from `client`. */
  predicate HasAck(m: Message, client: string) {
    exists a :: a in m.acks && a.client == client
  }
}
