/** What a connection worker asks of the operating system's sockets, recorded as
    values: the sends and closes it issues, and the outcomes of its receives. */
module Transport {
  import opened Native

  /** One call issued on a connection handle: `send(sd, data)` or `close(sd)`. */
  datatype Syscall = Send(sd: int, data: seq<byte>) | Close(sd: int)

  /** The outcome of one `recv`: a positive byte count with the bytes read,
      0 for an orderly disconnect by the peer, or -1 for a transport error. */
  datatype RecvOutcome = Received(data: seq<byte>) | Disconnected | RecvFailed

  /** The sends of one broadcast of `data`: one to each descriptor of `clients`,
      in registry order. */
  function FanOut(clients: seq<int>, data: seq<byte>): seq<Syscall>
  {
    seq(|clients|, j requires 0 <= j < |clients| => Send(clients[j], data))
  }
}
