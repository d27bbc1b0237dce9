# Echo server core, modelled in Dafny

A model of the three pieces of sequential logic in the TCP echo/broadcast server
`server/echo-server.cpp`:

- **`Param::parse`**: the command-line loop that reads `-e` (echo), `-b` (broadcast),
  `-si <ip>` (source address) and the port number. It is modelled as class
  `Params.Param`, with the four fields of the C++ struct. Its method `Parse` runs the
  same `while` loop and is proved equal to the reference function `Params.ParseFrom`.
  Lemmas over `ParseFrom` state what the loop promises: which tokens it examines,
  when it rejects, how flags are set, and that the last port / address wins.
- **The client registry** (`connectedClients` with `addClient`, `removeClient` and
  `broadcastMessage`): class `Registry.ClientRegistry` with a `seq<int>` field.
  Each mutex-guarded call is one atomic method. `broadcastMessage` returns the list of
  sends it issues. `Registry.Replay` replays any history of connects and disconnects
  and relates it to the set of open connections.
- **The connection worker `recvThread`**: `Worker.RecvThread` registers the
  descriptor, runs `Worker.ReceiveLoop` and then unregisters and closes it.
  `ReceiveLoop` keeps the C++ buffer of `BUFSIZE` bytes (written at `buf[res]`) and is
  proved equal to the reference function `Worker.Serve`. Lemmas over `Serve` give the
  behaviour in each of the three dispatch modes.

The operating system and the C library are inputs to the model:
- `atoi` is defined concretely (`LibC.Atoi`): leading white space, an optional sign,
  then the longest digit prefix. It yields an unbounded integer.
- The conversion to `uint16_t` is written out as reduction modulo 2^16
  (`Native.ToUint16`).
- `inet_pton` is an oracle `string -> PtonResult` (results 1, 0 and -1).
- `recv` results are a sequence of `RecvOutcome` values (bytes, 0 = peer closed,
  -1 = error).
- `send` results are an oracle `nat -> int`, indexed by how many sends the worker has
  made so far.

Files: `native.dfy` (C integer widths), `libc.dfy` (`atoi`, `inet_pton` results),
`transport.dfy` (send/close records, receive outcomes), `params.dfy`,
`registry.dfy`, `worker.dfy`.

Where the written description of the server and the code differ, the model follows the code:
- `removeClient` erases **every** occurrence of the descriptor (erase-remove idiom),
  not only the first one.
- The registry does not itself prevent duplicates. A descriptor appears at most once
  only because the operating system does not reuse an open descriptor
  (`Registry.ReplayDistinct`, under `FreshAdds`).
- The port is not range-checked: `atoi` is truncated modulo 2^16. So "65537" gives
  port 1, "-1" gives port 65535, and "65536" is rejected as port 0
  (`Params.PortTokens`).

## Model

| member | source | states |
|---|---|---|
| Native.ToUint16 | server/echo-server.cpp:66 | the `uint16_t` value stored by `port = atoi(...)` is congruent to the `int` modulo 2^16, and equals it when it is in range |
| LibC.AtoiDecimal | server/echo-server.cpp:66 | `atoi` of a decimal numeral followed by a non-digit suffix gives the numeral's value |
| LibC.AtoiNegative | server/echo-server.cpp:66 | `atoi` of `-` and a decimal numeral gives the negated value |
| LibC.AccumulateConcat | server/echo-server.cpp:66 | reading digits of `a + b` is reading `a`, then continuing with `b` |
| LibC.AccumulateDecimal | server/echo-server.cpp:66 | the digits of `Decimal(n)` read back as `n` |
| LibC.PtonResult.Code | server/echo-server.cpp:56-61 | `inet_pton` returns 1 exactly when it converted an address, and otherwise 0 or -1 |
| Params.Param.constructor | server/echo-server.cpp:31-35 | the fields start as echo off, broadcast off, port 0, source address `INADDR_ANY` |
| Params.Param.Parse | server/echo-server.cpp:37-74 | the loop's result and the final fields are those of the reference `ParseFrom` from index 1 and the old fields |
| Params.HeadsBounds | server/echo-server.cpp:38 | every position the loop examines lies in `[i, argc)` |
| Params.HeadsAdvance | server/echo-server.cpp:38-71 | the loop moves on by one token, or by two after `-si`; the address after `-si` is never examined as a token |
| Params.ParseAcceptsIff | server/echo-server.cpp:37-74 | `parse` returns true if and only if no examined token is rejected and the final port is not 0 |
| Params.MissingAddressRejected | server/echo-server.cpp:51-55 | a `-si` reached as the last argument makes `parse` return false |
| Params.RefusedAddressRejected | server/echo-server.cpp:56-61 | a `-si` whose address `inet_pton` answers with 0 or -1 makes `parse` return false |
| Params.ZeroPortRejected | server/echo-server.cpp:66-70 | a port token whose truncated value is 0 makes `parse` return false |
| Params.ParseSetsFlags | server/echo-server.cpp:39-49 | on success, `echo` is true if and only if it already was or some examined token is `-e`, in any position; likewise `broadcast` and `-b` |
| Params.ParsePortIsLast | server/echo-server.cpp:66-71 | on success, the port comes from the last examined port token, or is unchanged if there is none |
| Params.ParseSrcIpIsLast | server/echo-server.cpp:51-63 | on success, the source address is the one converted for the last examined `-si`, or is unchanged if there is none |
| Params.PortTokens | server/echo-server.cpp:66 | "9000" is port 9000, "65537" wraps to 1, "65536" wraps to 0, "-1" wraps to 65535 |
| Params.UsageSample | server/echo-server.cpp:28 | the usage sample `echo-server 1234 -e -b` is accepted with echo and broadcast on, port 1234, any address |
| Registry.Without | server/echo-server.cpp:84 | erasing `x` leaves no `x`, and every other descriptor keeps its number of occurrences |
| Registry.WithoutConcat | server/echo-server.cpp:84 | erasing distributes over concatenation, so the survivors keep their relative order |
| Registry.WithoutAbsent | server/echo-server.cpp:84 | erasing a descriptor that is not registered changes nothing |
| Registry.WithoutIdempotent | server/echo-server.cpp:84 | erasing twice is erasing once |
| Registry.AddThenRemove | server/echo-server.cpp:77-85 | registering a new descriptor and then removing it restores the registry |
| Registry.ClientRegistry.constructor | server/echo-server.cpp:24 | the registry starts empty |
| Registry.ClientRegistry.AddClient | server/echo-server.cpp:77-80 | the descriptor is appended at the end, with no de-duplication |
| Registry.ClientRegistry.RemoveClient | server/echo-server.cpp:82-85 | the new registry is the old one with every occurrence of the descriptor erased |
| Registry.ClientRegistry.BroadcastMessage | server/echo-server.cpp:87-96 | exactly one send of the same `len` bytes per registered descriptor, in registry order, the sender included; a -1 result is only flagged and does not stop the loop; the registry is not modified |
| Registry.ReplayTracksOpen | server/echo-server.cpp:77-85 | after any history of connects and disconnects, a descriptor is registered if and only if its connection is open |
| Registry.ReplayDistinct | server/echo-server.cpp:77-85 | if descriptors are only added while closed, no descriptor is registered twice |
| Worker.CopyChunk | server/echo-server.cpp:107 | a positive `recv` puts the received bytes at the start of the buffer and returns their count |
| Worker.SilentStep | server/echo-server.cpp:121 | with echo off, a chunk leaves the loop's remaining sends unchanged |
| Worker.BroadcastStep | server/echo-server.cpp:122-123 | with broadcast on, a chunk adds one fan-out to the loop's sends |
| Worker.EchoStep | server/echo-server.cpp:124-130 | with echo only, a chunk adds one send to the sender; a result of 0 or -1 ends the loop there |
| Worker.SilentWithoutEcho | server/echo-server.cpp:106-121 | with echo off, nothing is sent, and the loop ends as the receives end (peer closed on 0, error on -1) |
| Worker.EchoRepliesToSender | server/echo-server.cpp:106-132 | with echo only, the `j`-th send goes to the sender with the `j`-th chunk; the loop stops right after the first send returning 0 or -1, and otherwise every chunk is echoed |
| Worker.FanOutAll | server/echo-server.cpp:89-90 | broadcasting `m` chunks to `n` clients issues `n * m` sends |
| Worker.FanOutAllAt | server/echo-server.cpp:89-90 | send `i * n + j` carries chunk `i` to the `j`-th registered descriptor |
| Worker.BroadcastFansOut | server/echo-server.cpp:106-123 | with echo and broadcast on, every chunk goes to the whole registry in order, no send result stops the loop, and it ends as the receives end |
| Worker.BroadcastIncludesSender | server/echo-server.cpp:102-123 | a broadcasting worker whose descriptor is registered receives each of its own chunks back |
| Worker.ReceiveLoop | server/echo-server.cpp:104-133 | the loop's sends, in order, and its exit reason are those of the reference `Serve`; each write `buf[res]` is in bounds |
| Worker.RecvThread | server/echo-server.cpp:98-137 | the worker's calls are the loop's sends run against the registry with `sd` appended, then `close(sd)`; afterwards `sd` is unregistered and no other entry has changed |

## Left out

- `main` (server/echo-server.cpp:139-213): socket creation, `setsockopt`, `bind`, `listen`, the accept loop and thread start-up are operating-system plumbing.
- Threads, `detach` and `clientsMutex` (server/echo-server.cpp:25, 78, 83, 88, 209-210): each registry call is one atomic step. Other workers changing the registry while one worker's loop runs is not modelled: `Worker.RecvThread` sees the registry fixed between its own `addClient` and `removeClient`.
- `myerror`, `usage` and all `printf`/`fprintf`/`fflush` output (server/echo-server.cpp:19-29, 99-100, 110-113, 118-119, 127-128), including the log line for each chunk that relies on the zero byte written at `buf[res]`.
- The WIN32 branches (server/echo-server.cpp:10-12, 18-19, 145-148).
- `inet_pton`, `recv` and `send` are not modelled beyond their results, which are inputs: an oracle, a sequence of outcomes and an oracle. `close` is recorded as a `Close` call. A `send` that writes only part of the bytes is not retried by the source, and the model records it as a send of the whole chunk.
- LibC.Atoi: the integer is unbounded. The model does not capture that C `atoi` is undefined for values beyond `int`; those values are reduced modulo 2^16 as if they had been read exactly.
- Worker.RecvThread: requires that the receives end with 0 or -1 (`Ends`). A peer that keeps sending forever keeps the source looping forever, and that case is not modelled.
- Worker.RecvThread: requires that each positive receive holds at most `BUFSIZE - 1` bytes (`WithinCapacity`), which is what `recv` promises for the requested length.
- Registry.ClientRegistry.BroadcastMessage: `senderSd` takes no part in the sends, as in the source. A send returning 0 is not flagged, because the source only checks for -1.
