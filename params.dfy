/** The command line of the echo server: `echo-server <port> [-e] [-b] [-si <ip>]`,
    as read by `Param::parse` in server/echo-server.cpp. */
module Params {
  import opened Native
  import opened LibC

  /** `INADDR_ANY`, the default source address. */
  const INADDR_ANY: uint32 := 0

  /** The four fields of `Param`, as a value. */
  datatype Config = Config(echo: bool, broadcast: bool, port: uint16, srcIp: uint32)

  /** The field initialisers of `Param`. */
  const Defaults := Config(false, false, 0, INADDR_ANY)

  /** What `parse` returns, with the fields as they stand when it returns. */
  datatype Parsed = Parsed(ok: bool, config: Config)

  /** A token the loop reads as a port number: anything but the three flags. */
  predicate IsPortToken(token: string) {
    token != "-e" && token != "-b" && token != "-si"
  }

  /** `port = atoi(token)`, truncated to `uint16_t`. */
  function PortOf(token: string): uint16 {
    ToUint16(Atoi(token))
  }

  /** How far the loop index moves past the token at `i` when that token is accepted. */
  function Step(args: seq<string>, i: nat): nat
    requires i < |args|
  {
    if args[i] == "-si" then 2 else 1
  }

  /** The positions of `args`, from `i` on, that the loop examines as tokens when
      nothing is rejected (the address after `-si` is not one of them). */
  function Heads(args: seq<string>, i: nat): set<nat>
    decreases |args| - i
  {
    if i >= |args| then {} else {i} + Heads(args, i + Step(args, i))
  }

  /** The token at `k` makes `parse` return false: a `-si` without an address or
      with one `inet_pton` refuses, or a port token whose truncated value is 0. */
  predicate Rejects(args: seq<string>, k: nat, pton: string -> PtonResult) {
    k < |args| &&
    ((args[k] == "-si" && (k + 1 >= |args| || !pton(args[k + 1]).Converted?)) ||
     (IsPortToken(args[k]) && PortOf(args[k]) == 0))
  }

  /** The token at `k` is `-si` and `inet_pton` converts the token after it to `ip`. */
  predicate SetsAddress(args: seq<string>, k: nat, pton: string -> PtonResult, ip: uint32) {
    k + 1 < |args| && args[k] == "-si" && pton(args[k + 1]) == Converted(ip)
  }

  /** No token the loop examines from `i` on is rejected. */
  predicate Clean(args: seq<string>, i: nat, pton: string -> PtonResult) {
    forall k :: k in Heads(args, i) ==> !Rejects(args, k, pton)
  }

  /** Reference definition of the parsing loop from index `i` with fields `c`. */
  function ParseFrom(args: seq<string>, i: nat, c: Config, pton: string -> PtonResult): Parsed
    decreases |args| - i
  {
    if i >= |args| then Parsed(c.port != 0, c)
    else if args[i] == "-e" then ParseFrom(args, i + 1, c.(echo := true), pton)
    else if args[i] == "-b" then ParseFrom(args, i + 1, c.(broadcast := true), pton)
    else if args[i] == "-si" then
      if i + 1 >= |args| then Parsed(false, c)
      else match pton(args[i + 1])
        case Converted(a) => ParseFrom(args, i + 2, c.(srcIp := a), pton)
        case _ => Parsed(false, c)
    else
      var p := PortOf(args[i]);
      if p == 0 then Parsed(false, c.(port := p)) else ParseFrom(args, i + 1, c.(port := p), pton)
  }

  /** The global `param` object. */
  class Param {
    var echo: bool
    var broadcast: bool
    var port: uint16
    var srcIp: uint32

    function Settings(): Config
      reads this
    {
      Config(echo, broadcast, port, srcIp)
    }

    constructor ()
      ensures Settings() == Defaults
    {
      echo, broadcast, port, srcIp := false, false, 0, INADDR_ANY;
    }

    /** `parse(argc, argv)`: `argv[0]` is the program name and is skipped. */
    method Parse(argv: seq<string>, pton: string -> PtonResult) returns (ok: bool)
      modifies this
      ensures Parsed(ok, Settings()) == ParseFrom(argv, 1, old(Settings()), pton)
    {
      var i: nat := 1;
      while i < |argv|
        invariant ParseFrom(argv, 1, old(Settings()), pton) == ParseFrom(argv, i, Settings(), pton)
        decreases |argv| - i
      {
        if argv[i] == "-e" {
          echo := true;
          i := i + 1;
          continue;
        }
        if argv[i] == "-b" {
          broadcast := true;
          i := i + 1;
          continue;
        }
        if argv[i] == "-si" {
          if i + 1 >= |argv| {
            return false;
          }
          var res := pton(argv[i + 1]);
          match res {
            case Converted(a) => srcIp := a;
            case NotAnAddress => return false;
            case AfNotSupported => return false;
          }
          i := i + 2;
          continue;
        }
        port := PortOf(argv[i]);
        if port == 0 {
          return false;
        }
        i := i + 1;
      }
      ok := port != 0;
    }
  }

  lemma {:induction false} HeadsBounds(args: seq<string>, i: nat, k: nat)
    requires k in Heads(args, i)
    ensures i <= k < |args|
    decreases |args| - i
  {
    if k != i {
      HeadsBounds(args, i + Step(args, i), k);
    }
  }

  /** Every examined token moves the loop on by one position, except `-si`, which
      takes the next token as its address and moves it on by two. */
  lemma {:induction false} HeadsAdvance(args: seq<string>, i: nat, k: nat)
    requires k in Heads(args, i)
    ensures i <= k < |args|
    ensures args[k] != "-si" && k + 1 < |args| ==> k + 1 in Heads(args, i)
    ensures args[k] == "-si" ==> k + 1 !in Heads(args, i)
    ensures args[k] == "-si" && k + 2 < |args| ==> k + 2 in Heads(args, i)
    decreases |args| - i
  {
    var next := i + Step(args, i);
    HeadsBounds(args, i, k);
    if k == i {
      if k + 1 in Heads(args, next) {
        HeadsBounds(args, next, k + 1);
      }
    } else {
      HeadsAdvance(args, next, k);
    }
  }

  /** `parse` returns true exactly when no examined token is rejected and the
      final port is not 0. */
  lemma {:induction false} ParseAcceptsIff(args: seq<string>, i: nat, c: Config, pton: string -> PtonResult)
    ensures ParseFrom(args, i, c, pton).ok <==>
            Clean(args, i, pton) && ParseFrom(args, i, c, pton).config.port != 0
    decreases |args| - i
  {
    if i < |args| {
      var next := i + Step(args, i);
      assert Heads(args, i) == {i} + Heads(args, next);
      if Rejects(args, i, pton) {
        assert !Clean(args, i, pton);
      } else if args[i] == "-e" {
        ParseAcceptsIff(args, next, c.(echo := true), pton);
      } else if args[i] == "-b" {
        ParseAcceptsIff(args, next, c.(broadcast := true), pton);
      } else if args[i] == "-si" {
        ParseAcceptsIff(args, next, c.(srcIp := pton(args[i + 1]).addr), pton);
      } else {
        ParseAcceptsIff(args, next, c.(port := PortOf(args[i])), pton);
      }
    }
  }

  /** A `-si` that the loop reaches as the last argument makes `parse` fail. */
  lemma MissingAddressRejected(args: seq<string>, i: nat, c: Config, pton: string -> PtonResult)
    requires |args| > 0 && |args| - 1 in Heads(args, i) && args[|args| - 1] == "-si"
    ensures !ParseFrom(args, i, c, pton).ok
  {
    assert Rejects(args, |args| - 1, pton);
    ParseAcceptsIff(args, i, c, pton);
  }

  /** A `-si` whose address `inet_pton` refuses (0 or -1) makes `parse` fail. */
  lemma RefusedAddressRejected(args: seq<string>, i: nat, k: nat, c: Config, pton: string -> PtonResult)
    requires k + 1 < |args| && k in Heads(args, i) && args[k] == "-si"
    requires pton(args[k + 1]).Code() != 1
    ensures !ParseFrom(args, i, c, pton).ok
  {
    HeadsBounds(args, i, k);
    assert Rejects(args, k, pton);
    ParseAcceptsIff(args, i, c, pton);
  }

  /** A port token that the loop reaches and whose truncated value is 0 (such as
      "0", "abc" or "65536") makes `parse` fail. */
  lemma ZeroPortRejected(args: seq<string>, i: nat, k: nat, c: Config, pton: string -> PtonResult)
    requires k in Heads(args, i) && k < |args| && IsPortToken(args[k]) && PortOf(args[k]) == 0
    ensures !ParseFrom(args, i, c, pton).ok
  {
    assert Rejects(args, k, pton);
    ParseAcceptsIff(args, i, c, pton);
  }

  /** When nothing is rejected, `echo` ends up true exactly when it already was or
      some examined token is `-e`, wherever it stands; likewise `broadcast` and `-b`. */
  lemma {:induction false} ParseSetsFlags(args: seq<string>, i: nat, c: Config, pton: string -> PtonResult)
    requires Clean(args, i, pton)
    ensures ParseFrom(args, i, c, pton).config.echo <==>
            c.echo || exists k :: k in Heads(args, i) && k < |args| && args[k] == "-e"
    ensures ParseFrom(args, i, c, pton).config.broadcast <==>
            c.broadcast || exists k :: k in Heads(args, i) && k < |args| && args[k] == "-b"
    decreases |args| - i
  {
    if i < |args| {
      var next := i + Step(args, i);
      assert Heads(args, i) == {i} + Heads(args, next);
      assert !Rejects(args, i, pton);
      assert Clean(args, next, pton);
      var c' :=
        if args[i] == "-e" then c.(echo := true)
        else if args[i] == "-b" then c.(broadcast := true)
        else if args[i] == "-si" then c.(srcIp := pton(args[i + 1]).addr)
        else c.(port := PortOf(args[i]));
      assert ParseFrom(args, i, c, pton) == ParseFrom(args, next, c', pton);
      ParseSetsFlags(args, next, c', pton);
    }
  }

  /** When nothing is rejected, the final port is that of the last examined port
      token (later ones overwrite earlier ones), or the initial port if there is none. */
  lemma {:induction false} ParsePortIsLast(args: seq<string>, i: nat, c: Config, pton: string -> PtonResult)
    requires Clean(args, i, pton)
    ensures (ParseFrom(args, i, c, pton).config.port == c.port && forall k :: k in Heads(args, i) && k < |args| ==> !IsPortToken(args[k])) ||
            (exists k :: k in Heads(args, i) && k < |args| && IsPortToken(args[k]) && ParseFrom(args, i, c, pton).config.port == PortOf(args[k]) &&
              forall k' :: k' in Heads(args, i) && k < k' < |args| ==> !IsPortToken(args[k']))
    decreases |args| - i
  {
    if i < |args| {
      var next := i + Step(args, i);
      assert Heads(args, i) == {i} + Heads(args, next);
      assert !Rejects(args, i, pton);
      assert Clean(args, next, pton);
      var c' :=
        if args[i] == "-e" then c.(echo := true)
        else if args[i] == "-b" then c.(broadcast := true)
        else if args[i] == "-si" then c.(srcIp := pton(args[i + 1]).addr)
        else c.(port := PortOf(args[i]));
      assert ParseFrom(args, i, c, pton) == ParseFrom(args, next, c', pton);
      ParsePortIsLast(args, next, c', pton);
      forall k | k in Heads(args, next) ensures i < k { HeadsBounds(args, next, k); }
    }
  }

  /** When nothing is rejected, the final source address is the one `inet_pton`
      gave for the last examined `-si`, or the initial one if there is none. */
  lemma {:induction false} ParseSrcIpIsLast(args: seq<string>, i: nat, c: Config, pton: string -> PtonResult)
    requires Clean(args, i, pton)
    ensures (ParseFrom(args, i, c, pton).config.srcIp == c.srcIp && forall k :: k in Heads(args, i) && k < |args| ==> args[k] != "-si") ||
            (exists k :: k in Heads(args, i) && SetsAddress(args, k, pton, ParseFrom(args, i, c, pton).config.srcIp) &&
              forall k' :: k' in Heads(args, i) && k < k' < |args| ==> args[k'] != "-si")
    decreases |args| - i
  {
    if i < |args| {
      var next := i + Step(args, i);
      assert Heads(args, i) == {i} + Heads(args, next);
      assert !Rejects(args, i, pton);
      assert Clean(args, next, pton);
      var c' :=
        if args[i] == "-e" then c.(echo := true)
        else if args[i] == "-b" then c.(broadcast := true)
        else if args[i] == "-si" then c.(srcIp := pton(args[i + 1]).addr)
        else c.(port := PortOf(args[i]));
      assert ParseFrom(args, i, c, pton) == ParseFrom(args, next, c', pton);
      ParseSrcIpIsLast(args, next, c', pton);
      forall k | k in Heads(args, next) ensures i < k { HeadsBounds(args, next, k); }
    }
  }

  /** A port token is read with `atoi` and wraps modulo 2^16: "9000" is port 9000,
      "65537" is port 1, "65536" is rejected as port 0 and "-1" is port 65535. */
  lemma PortTokens()
    ensures PortOf("9000") == 9000
    ensures PortOf("65537") == 1
    ensures PortOf("65536") == 0
    ensures PortOf("-1") == 65535
  {
    assert SkipSpace("9000") == "9000";
    assert Accumulate("000", 9) == 9000 by {
      assert Accumulate("0", 900) == 9000;
      assert Accumulate("00", 90) == 9000;
    }
    assert SkipSpace("65537") == "65537";
    assert Accumulate("5537", 6) == 65537 by {
      assert Accumulate("7", 6553) == 65537;
      assert Accumulate("37", 655) == 65537;
      assert Accumulate("537", 65) == 65537;
    }
    assert SkipSpace("65536") == "65536";
    assert Accumulate("5536", 6) == 65536 by {
      assert Accumulate("6", 6553) == 65536;
      assert Accumulate("36", 655) == 65536;
      assert Accumulate("536", 65) == 65536;
    }
  }

  /** The usage line's sample, `echo-server 1234 -e -b`, is accepted as an echo
      server on port 1234 that broadcasts, bound to any address. */
  lemma UsageSample(pton: string -> PtonResult)
    ensures ParseFrom(["echo-server", "1234", "-e", "-b"], 1, Defaults, pton)
            == Parsed(true, Config(true, true, 1234, INADDR_ANY))
  {
    assert SkipSpace("1234") == "1234";
    assert Accumulate("234", 1) == 1234 by {
      assert Accumulate("4", 123) == 1234;
      assert Accumulate("34", 12) == 1234;
    }
    var args := ["echo-server", "1234", "-e", "-b"];
    assert args[1] != "-e" && args[1] != "-b" && args[1] != "-si";
  }
}
