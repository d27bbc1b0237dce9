/** The per-connection worker `recvThread(sd)`: register, receive chunks until the
    peer disconnects or a call fails, dispatch each chunk by the echo and
    broadcast flags, then unregister and close. */
module Worker {
  import opened Native
  import opened Transport
  import opened Registry
  import Params

  /** `BUFSIZE`, the size of the receive buffer; `recv` is asked for one byte less
      so that a terminating zero always fits. */
  const BUFSIZE: nat := 65536

  /** Why the receive loop ended. */
  datatype Exit = PeerClosed | RecvError | EchoFailed

  /** The sends a worker issues while its loop runs, and why the loop ended. */
  datatype Session = Session(sends: seq<Syscall>, exit: Exit)

  /** A `send` result that ends a direct echo: 0 or -1. */
  predicate Fatal(res: int) {
    res == 0 || res == -1
  }

  /** The receive outcomes end with a disconnect or an error; a peer that never
      stops sending would keep the worker looping forever. */
  predicate Ends(recvs: seq<RecvOutcome>) {
    |recvs| > 0 && !recvs[|recvs| - 1].Received?
  }

  /** What `recv(sd, buf, BUFSIZE - 1, 0)` promises: a positive result is at most
      the requested `BUFSIZE - 1` bytes. */
  predicate WithinCapacity(recvs: seq<RecvOutcome>) {
    forall k :: 0 <= k < |recvs| && recvs[k].Received? ==> 0 < |recvs[k].data| < BUFSIZE
  }

  /** The chunks received from the `k`-th outcome on, up to the first disconnect or error. */
  function Chunks(recvs: seq<RecvOutcome>, k: nat): seq<seq<byte>>
    decreases |recvs| - k
  {
    if k >= |recvs| then []
    else match recvs[k]
      case Received(data) => [data] + Chunks(recvs, k + 1)
      case _ => []
  }

  /** How the first outcome from the `k`-th on that is not a chunk ends the loop. */
  function TerminalExit(recvs: seq<RecvOutcome>, k: nat): Exit
    requires k < |recvs| && Ends(recvs)
    decreases |recvs| - k
  {
    match recvs[k]
    case Disconnected => PeerClosed
    case RecvFailed => RecvError
    case Received(_) => TerminalExit(recvs, k + 1)
  }

  /** Reference definition of the receive loop of a worker on `sd` whose registry
      reads `clients`, from the `k`-th receive on, after `n` sends; `sendResult(m)`
      is what the worker's `m`-th send returns. */
  function Serve(sd: int, cfg: Params.Config, clients: seq<int>, recvs: seq<RecvOutcome>, k: nat,
                 sendResult: nat -> int, n: nat): Session
    requires k < |recvs| && Ends(recvs)
    decreases |recvs| - k
  {
    match recvs[k]
    case Disconnected => Session([], PeerClosed)
    case RecvFailed => Session([], RecvError)
    case Received(data) =>
      if !cfg.echo then
        Serve(sd, cfg, clients, recvs, k + 1, sendResult, n)
      else if cfg.broadcast then
        var rest := Serve(sd, cfg, clients, recvs, k + 1, sendResult, n + |clients|);
        Session(FanOut(clients, data) + rest.sends, rest.exit)
      else if Fatal(sendResult(n)) then
        Session([Send(sd, data)], EchoFailed)
      else
        var rest := Serve(sd, cfg, clients, recvs, k + 1, sendResult, n + 1);
        Session([Send(sd, data)] + rest.sends, rest.exit)
  }

  /** With echo off, every chunk is only logged: nothing is sent, and the loop
      ends as the receives end. */
  lemma {:induction false} SilentWithoutEcho(sd: int, cfg: Params.Config, clients: seq<int>,
                                             recvs: seq<RecvOutcome>, k: nat, sendResult: nat -> int, n: nat)
    requires k < |recvs| && Ends(recvs) && !cfg.echo
    ensures Serve(sd, cfg, clients, recvs, k, sendResult, n) == Session([], TerminalExit(recvs, k))
    decreases |recvs| - k
  {
    if recvs[k].Received? {
      SilentWithoutEcho(sd, cfg, clients, recvs, k + 1, sendResult, n);
    }
  }

  /** The `m`-th send of the worker (counted from `n`) did not end a direct echo. */
  predicate Delivered(sendResult: nat -> int, n: nat, m: nat) {
    !Fatal(sendResult(n + m))
  }

  /** With echo on and broadcast off, the `j`-th send goes to the sender and carries
      the `j`-th chunk; the loop stops right after the first send that returns 0 or
      -1, and otherwise every chunk is echoed and the loop ends as the receives end. */
  lemma {:induction false} EchoRepliesToSender(sd: int, cfg: Params.Config, clients: seq<int>,
                                               recvs: seq<RecvOutcome>, k: nat, sendResult: nat -> int,
                                               n: nat, s: Session)
    requires k < |recvs| && Ends(recvs) && cfg.echo && !cfg.broadcast
    requires s == Serve(sd, cfg, clients, recvs, k, sendResult, n)
    ensures |s.sends| <= |Chunks(recvs, k)|
    ensures forall j :: 0 <= j < |s.sends| ==> s.sends[j] == Send(sd, Chunks(recvs, k)[j])
    ensures forall j :: 0 <= j < |s.sends| - 1 ==> Delivered(sendResult, n, j)
    ensures s.exit == EchoFailed <==> |s.sends| > 0 && !Delivered(sendResult, n, |s.sends| - 1)
    ensures s.exit != EchoFailed ==> |s.sends| == |Chunks(recvs, k)| && s.exit == TerminalExit(recvs, k)
    decreases |recvs| - k
  {
    if recvs[k].Received? && !Fatal(sendResult(n)) {
      var rest := Serve(sd, cfg, clients, recvs, k + 1, sendResult, n + 1);
      EchoRepliesToSender(sd, cfg, clients, recvs, k + 1, sendResult, n + 1, rest);
      forall j | 0 <= j < |s.sends|
        ensures s.sends[j] == Send(sd, Chunks(recvs, k)[j])
      {
        if j > 0 {
          assert s.sends[j] == rest.sends[j - 1];
        }
      }
      forall j | 0 <= j < |s.sends| - 1
        ensures Delivered(sendResult, n, j)
      {
        if j > 0 {
          assert Delivered(sendResult, n + 1, j - 1);
        }
      }
      if s.exit == EchoFailed {
        assert !Delivered(sendResult, n + 1, |rest.sends| - 1);
      }
    }
  }

  /** Every chunk sent to every client, chunk by chunk, each chunk in registry order. */
  function FanOutAll(clients: seq<int>, chunks: seq<seq<byte>>): (r: seq<Syscall>)
    ensures |r| == |clients| * |chunks|
  {
    if chunks == [] then []
    else
      var r := FanOut(clients, chunks[0]) + FanOutAll(clients, chunks[1..]);
      assert |clients| * |chunks| == |clients| + |clients| * (|chunks| - 1);
      r
  }

  /** Send number `i * |clients| + j` carries chunk `i` to the `j`-th client. */
  lemma {:induction false} FanOutAllAt(clients: seq<int>, chunks: seq<seq<byte>>, i: nat, j: nat)
    requires i < |chunks| && j < |clients|
    ensures i * |clients| + j < |FanOutAll(clients, chunks)|
    ensures FanOutAll(clients, chunks)[i * |clients| + j] == Send(clients[j], chunks[i])
  {
    assert (i + 1) * |clients| == i * |clients| + |clients|;
    assert i * |clients| + j < |clients| * |chunks| by {
      assert i + 1 <= |chunks|;
      assert (i + 1) * |clients| <= |chunks| * |clients|;
    }
    if i > 0 {
      FanOutAllAt(clients, chunks[1..], i - 1, j);
      assert (i - 1) * |clients| + j + |clients| == i * |clients| + j;
    }
  }

  /** With echo and broadcast on, every chunk is sent to the whole registry, in
      registry order, no send result stops the loop, and it ends as the receives end. */
  lemma {:induction false} BroadcastFansOut(sd: int, cfg: Params.Config, clients: seq<int>,
                                            recvs: seq<RecvOutcome>, k: nat, sendResult: nat -> int, n: nat)
    requires k < |recvs| && Ends(recvs) && cfg.echo && cfg.broadcast
    ensures Serve(sd, cfg, clients, recvs, k, sendResult, n)
            == Session(FanOutAll(clients, Chunks(recvs, k)), TerminalExit(recvs, k))
    decreases |recvs| - k
  {
    if recvs[k].Received? {
      BroadcastFansOut(sd, cfg, clients, recvs, k + 1, sendResult, n + |clients|);
      assert Chunks(recvs, k)[1..] == Chunks(recvs, k + 1);
    }
  }

  /** A broadcasting worker whose descriptor is registered hears its own chunks back. */
  lemma BroadcastIncludesSender(sd: int, cfg: Params.Config, clients: seq<int>,
                                recvs: seq<RecvOutcome>, sendResult: nat -> int, i: nat)
    requires Ends(recvs) && cfg.echo && cfg.broadcast && sd in clients
    requires i < |Chunks(recvs, 0)|
    ensures Send(sd, Chunks(recvs, 0)[i]) in Serve(sd, cfg, clients, recvs, 0, sendResult, 0).sends
  {
    BroadcastFansOut(sd, cfg, clients, recvs, 0, sendResult, 0);
    var j :| 0 <= j < |clients| && clients[j] == sd;
    FanOutAllAt(clients, Chunks(recvs, 0), i, j);
  }

  /** What a positive `recv` does to the buffer: the chunk's bytes land at its start. */
  method CopyChunk(buf: array<byte>, data: seq<byte>) returns (res: nat)
    requires |data| <= buf.Length
    modifies buf
    ensures res == |data| && buf[..res] == data
  {
    res := |data|;
    forall j | 0 <= j < res {
      buf[j] := data[j];
    }
  }

  /** The loop invariant of `ReceiveLoop` is kept by a chunk that is only logged. */
  lemma SilentStep(sd: int, cfg: Params.Config, clients: seq<int>, recvs: seq<RecvOutcome>, k: nat,
                   sendResult: nat -> int, prefix: seq<Syscall>, total: Session)
    requires k < |recvs| && Ends(recvs) && recvs[k].Received? && !cfg.echo
    requires total.sends == prefix + Serve(sd, cfg, clients, recvs, k, sendResult, |prefix|).sends
    requires total.exit == Serve(sd, cfg, clients, recvs, k, sendResult, |prefix|).exit
    ensures k + 1 < |recvs|
    ensures total.sends == prefix + Serve(sd, cfg, clients, recvs, k + 1, sendResult, |prefix|).sends
    ensures total.exit == Serve(sd, cfg, clients, recvs, k + 1, sendResult, |prefix|).exit
  {
  }

  /** ... and by a chunk broadcast to `clients`. */
  lemma BroadcastStep(sd: int, cfg: Params.Config, clients: seq<int>, recvs: seq<RecvOutcome>, k: nat,
                      sendResult: nat -> int, prefix: seq<Syscall>, total: Session)
    requires k < |recvs| && Ends(recvs) && recvs[k].Received? && cfg.echo && cfg.broadcast
    requires total.sends == prefix + Serve(sd, cfg, clients, recvs, k, sendResult, |prefix|).sends
    requires total.exit == Serve(sd, cfg, clients, recvs, k, sendResult, |prefix|).exit
    ensures k + 1 < |recvs|
    ensures var sends := prefix + FanOut(clients, recvs[k].data);
            total.sends == sends + Serve(sd, cfg, clients, recvs, k + 1, sendResult, |sends|).sends &&
            total.exit == Serve(sd, cfg, clients, recvs, k + 1, sendResult, |sends|).exit
  {
  }

  /** ... and by a chunk echoed to the sender, whose send either succeeds or ends the loop. */
  lemma EchoStep(sd: int, cfg: Params.Config, clients: seq<int>, recvs: seq<RecvOutcome>, k: nat,
                 sendResult: nat -> int, prefix: seq<Syscall>, total: Session)
    requires k < |recvs| && Ends(recvs) && recvs[k].Received? && cfg.echo && !cfg.broadcast
    requires total.sends == prefix + Serve(sd, cfg, clients, recvs, k, sendResult, |prefix|).sends
    requires total.exit == Serve(sd, cfg, clients, recvs, k, sendResult, |prefix|).exit
    ensures k + 1 < |recvs|
    ensures Fatal(sendResult(|prefix|)) ==>
            total.sends == prefix + [Send(sd, recvs[k].data)] && total.exit == EchoFailed
    ensures var sends := prefix + [Send(sd, recvs[k].data)];
            !Fatal(sendResult(|prefix|)) ==>
            total.sends == sends + Serve(sd, cfg, clients, recvs, k + 1, sendResult, |sends|).sends &&
            total.exit == Serve(sd, cfg, clients, recvs, k + 1, sendResult, |sends|).exit
  {
  }

  /** The `while (true)` loop of `recvThread(sd)`, run while `sd` is registered in
      `reg`, with the global `param` passed as `cfg`. The `k`-th call to `recv`
      returns `recvs[k]`; the worker's `m`-th call to `send` returns `sendResult(m)`.
      It returns the sends issued, in order, and why the loop ended. */
  method ReceiveLoop(sd: int, cfg: Params.Config, reg: ClientRegistry, recvs: seq<RecvOutcome>,
                     sendResult: nat -> int)
    returns (sends: seq<Syscall>, exit: Exit)
    requires Ends(recvs) && WithinCapacity(recvs)
    ensures Session(sends, exit) == Serve(sd, cfg, reg.clients, recvs, 0, sendResult, 0)
  {
    var buf := new byte[BUFSIZE];
    sends := [];
    var k := 0;
    ghost var total := Serve(sd, cfg, reg.clients, recvs, 0, sendResult, 0);
    while true
      invariant 0 <= k < |recvs|
      invariant total.sends == sends + Serve(sd, cfg, reg.clients, recvs, k, sendResult, |sends|).sends
      invariant total.exit == Serve(sd, cfg, reg.clients, recvs, k, sendResult, |sends|).exit
      decreases |recvs| - k
    {
      var outcome := recvs[k];
      if !outcome.Received? {
        exit := if outcome.Disconnected? then PeerClosed else RecvError;
        break;
      }
      var res := CopyChunk(buf, outcome.data);
      buf[res] := 0;
      assert buf[..res] == outcome.data;
      if cfg.echo {
        if cfg.broadcast {
          BroadcastStep(sd, cfg, reg.clients, recvs, k, sendResult, sends, total);
          var b, _ := reg.BroadcastMessage(sd, buf, res, (j: nat) => sendResult(|sends| + j));
          assert b == FanOut(reg.clients, outcome.data);
          sends := sends + b;
        } else {
          EchoStep(sd, cfg, reg.clients, recvs, k, sendResult, sends, total);
          var r := sendResult(|sends|);
          sends := sends + [Send(sd, buf[..res])];
          if Fatal(r) {
            exit := EchoFailed;
            break;
          }
        }
      } else {
        SilentStep(sd, cfg, reg.clients, recvs, k, sendResult, sends, total);
      }
      k := k + 1;
    }
  }

  /** `recvThread(sd)`: registers `sd`, runs the receive loop, then unregisters
      and closes `sd`. The result lists every send and the final close in order. */
  method RecvThread(sd: int, cfg: Params.Config, reg: ClientRegistry, recvs: seq<RecvOutcome>,
                    sendResult: nat -> int)
    returns (trace: seq<Syscall>, exit: Exit)
    requires Ends(recvs) && WithinCapacity(recvs)
    modifies reg
    ensures trace == Serve(sd, cfg, old(reg.clients) + [sd], recvs, 0, sendResult, 0).sends + [Close(sd)]
    ensures exit == Serve(sd, cfg, old(reg.clients) + [sd], recvs, 0, sendResult, 0).exit
    ensures reg.clients == Without(old(reg.clients), sd)
    ensures sd !in reg.clients
    ensures sd !in old(reg.clients) ==> reg.clients == old(reg.clients)
  {
    reg.AddClient(sd);
    var sends;
    sends, exit := ReceiveLoop(sd, cfg, reg, recvs, sendResult);
    reg.RemoveClient(sd);
    WithoutConcat(old(reg.clients), [sd], sd);
    assert Without([sd], sd) == [];
    if sd !in old(reg.clients) {
      WithoutAbsent(old(reg.clients), sd);
    }
    trace := sends + [Close(sd)];
  }
}
