/** The process-wide list of connected descriptors (`connectedClients`) and the
    three operations on it. Each operation runs under `clientsMutex`, so each is
    modelled as one atomic step. */
module Registry {
  import opened Native
  import opened Transport

  /** `s` with every occurrence of `x` erased, the others kept in order: the
      erase-remove idiom `erase(remove(begin, end, x), end)`. */
  function Without(s: seq<int>, x: int): (r: seq<int>)
    ensures x !in r
    ensures multiset(r) == multiset(s)[x := 0]
  {
    if s == [] then []
    else
      assert s == [s[0]] + s[1..];
      (if s[0] == x then [] else [s[0]]) + Without(s[1..], x)
  }

  /** Erasing distributes over concatenation; with the one-element case this
      means the surviving descriptors keep their relative order. */
  lemma {:induction false} WithoutConcat(s: seq<int>, t: seq<int>, x: int)
    ensures Without(s + t, x) == Without(s, x) + Without(t, x)
  {
    if s == [] {
      assert s + t == t;
    } else {
      assert (s + t)[0] == s[0];
      assert (s + t)[1..] == s[1..] + t;
      WithoutConcat(s[1..], t, x);
    }
  }

  /** Removing a descriptor that is not registered changes nothing. */
  lemma {:induction false} WithoutAbsent(s: seq<int>, x: int)
    requires x !in s
    ensures Without(s, x) == s
  {
    if s != [] {
      WithoutAbsent(s[1..], x);
    }
  }

  /** Removing twice is removing once. */
  lemma WithoutIdempotent(s: seq<int>, x: int)
    ensures Without(Without(s, x), x) == Without(s, x)
  {
    WithoutAbsent(Without(s, x), x);
  }

  /** Registering a descriptor that was not registered and then unregistering
      it restores the registry exactly. */
  lemma AddThenRemove(s: seq<int>, x: int)
    requires x !in s
    ensures Without(s + [x], x) == s
  {
    WithoutConcat(s, [x], x);
    WithoutAbsent(s, x);
    assert Without([x], x) == [];
  }

  class ClientRegistry {
    /** `connectedClients`, in insertion order. */
    var clients: seq<int>

    constructor ()
      ensures clients == []
    {
      clients := [];
    }

    /** `addClient(sd)`: `push_back`, with no check for duplicates. */
    method AddClient(sd: int)
      modifies this
      ensures clients == old(clients) + [sd]
    {
      clients := clients + [sd];
    }

    /** `removeClient(sd)`: erases every occurrence of `sd`. */
    method RemoveClient(sd: int)
      modifies this
      ensures clients == Without(old(clients), sd)
    {
      clients := Without(clients, sd);
    }

    /** `broadcastMessage(senderSd, buf, len)`: one send of the same `len` bytes
        to every registered descriptor in registry order, the sender included.
        `sendResult(j)` is what the send to the `j`-th descriptor returns; a
        result of -1 is only logged (`failed[j]`) and the loop goes on. */
    method BroadcastMessage(senderSd: int, buf: array<byte>, len: nat, sendResult: nat -> int)
      returns (sends: seq<Syscall>, failed: seq<bool>)
      requires len <= buf.Length
      ensures |sends| == |clients| && |failed| == |clients|
      ensures forall j :: 0 <= j < |clients| ==> sends[j] == Send(clients[j], buf[..len])
      ensures forall j :: 0 <= j < |clients| ==> (failed[j] <==> sendResult(j) == -1)
      ensures senderSd in clients ==> Send(senderSd, buf[..len]) in sends
    {
      sends, failed := [], [];
      for j := 0 to |clients|
        invariant |sends| == j && |failed| == j
        invariant forall k :: 0 <= k < j ==> sends[k] == Send(clients[k], buf[..len])
        invariant forall k :: 0 <= k < j ==> (failed[k] <==> sendResult(k) == -1)
      {
        var res := sendResult(j);
        sends := sends + [Send(clients[j], buf[..len])];
        failed := failed + [res == -1];
      }
    }
  }

  /** One membership change, as a connection worker makes it. */
  datatype Change = Add(sd: int) | Remove(sd: int)

  /** The registry after the changes `ops`, applied in order to an empty one. */
  function Replay(ops: seq<Change>): seq<int>
  {
    if ops == [] then []
    else
      var s := Replay(ops[..|ops| - 1]);
      match ops[|ops| - 1]
      case Add(x) => s + [x]
      case Remove(x) => Without(s, x)
  }

  /** After `ops`, the connection `x` is open: its last change is an `Add`. */
  predicate Open(ops: seq<Change>, x: int)
  {
    if ops == [] then false
    else match ops[|ops| - 1]
      case Add(y) => y == x || Open(ops[..|ops| - 1], x)
      case Remove(y) => y != x && Open(ops[..|ops| - 1], x)
  }

  /** The operating system never hands out a descriptor that is still open, so
      every `Add` is of a connection that is not open at that point. */
  predicate FreshAdds(ops: seq<Change>)
  {
    forall k :: 0 <= k < |ops| && ops[k].Add? ==> !Open(ops[..k], ops[k].sd)
  }

  /** No descriptor occurs twice in `s`. */
  ghost predicate Distinct(s: seq<int>)
  {
    forall x :: multiset(s)[x] <= 1
  }

  /** After any sequence of connects and disconnects, a descriptor is registered
      exactly when its connection is open: no leaks, no phantom entries. */
  lemma {:induction false} ReplayTracksOpen(ops: seq<Change>, x: int)
    ensures x in Replay(ops) <==> Open(ops, x)
  {
    if ops != [] {
      ReplayTracksOpen(ops[..|ops| - 1], x);
      var s := Replay(ops[..|ops| - 1]);
      match ops[|ops| - 1]
      case Add(y) =>
      case Remove(y) =>
        assert x in Without(s, y) <==> multiset(Without(s, y))[x] > 0;
    }
  }

  /** With fresh descriptors, a handle appears in the registry at most once. */
  lemma {:induction false} ReplayDistinct(ops: seq<Change>)
    requires FreshAdds(ops)
    ensures Distinct(Replay(ops))
  {
    if ops != [] {
      var n := |ops| - 1;
      var prefix := ops[..n];
      assert FreshAdds(prefix) by {
        forall k | 0 <= k < |prefix| && prefix[k].Add?
          ensures !Open(prefix[..k], prefix[k].sd)
        {
          assert prefix[..k] == ops[..k];
        }
      }
      ReplayDistinct(prefix);
      var s := Replay(prefix);
      match ops[n]
      case Add(y) =>
        assert prefix == ops[..n];
        ReplayTracksOpen(prefix, y);
        assert multiset(s)[y] == 0;
        assert multiset(s + [y]) == multiset(s) + multiset{y};
      case Remove(y) =>
    }
  }
}
