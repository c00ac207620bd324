/** cmd/udp_tun/internal/handlers/registry.go: the tunnel's configuration
    and, per mode, whether a datagram gets the timestamp header added or
    removed on its way through. A tunnel in client mode packs what the
    local application sends and unpacks what comes back from its proxy; a
    tunnel in server mode does the reverse; normal mode forwards as is. */
module TunRegistry {
  import opened Wrappers
  import opened Bytes
  import opened Decimal
  import TunCodec

  const ModeNormal: int := 0
  const ModeClient: int := 1
  const ModeServer: int := 2

  predicate ValidMode(mode: int) {
    mode == ModeNormal || mode == ModeClient || mode == ModeServer
  }

  /** modeString. Every valid mode's name starts with a letter other than
      'm', so it cannot be mistaken for the invalid-mode text. */
  function ModeString(mode: int): (s: string)
    ensures mode == ModeNormal ==> s == "normal"
    ensures mode == ModeClient ==> s == "client"
    ensures mode == ModeServer ==> s == "server"
    ensures !ValidMode(mode) ==> s == "mode[" + IntToString(mode) + "] invalid"
    ensures |s| > 0 && (s[0] == 'm' <==> !ValidMode(mode))
  {
    if mode == ModeNormal then "normal"
    else if mode == ModeClient then "client"
    else if mode == ModeServer then "server"
    else "mode[" + IntToString(mode) + "] invalid"
  }

  /** Distinct modes have distinct names. */
  lemma ModeStringInjective(a: int, b: int)
    requires ModeString(a) == ModeString(b)
    ensures a == b
  {
    if !ValidMode(a) && !ValidMode(b) {
      var sa, sb := IntToString(a), IntToString(b);
      assert "mode[" + sa + "] invalid" == "mode[" + sb + "] invalid";
      assert |sa| == |sb|;
      assert sa == ("mode[" + sa + "] invalid")[5..5 + |sa|];
      assert sb == ("mode[" + sb + "] invalid")[5..5 + |sb|];
      ParseIntToString(a);
      ParseIntToString(b);
    }
  }

  /** RegistryArgs, and the registry's fields, which are the same list. */
  datatype Config = Config(proxyAddr: string, mode: int, header: bool,
                           inLoss: Uint32, inLatency: Uint32, outLoss: Uint32, outLatency: Uint32)

  /** What InitRegistry stores for `arg`: an invalid mode is refused, and
      normal mode never uses the header. */
  function Configure(arg: Config): (r: Result<Config>)
    ensures r.Err? <==> !ValidMode(arg.mode)
    ensures r.Err? ==> r.msg == "mode[" + IntToString(arg.mode) + "] invalid[0|1|2]"
    ensures r.Ok? ==> r.value.header == (arg.header && arg.mode != ModeNormal)
    ensures r.Ok? ==> r.value.(header := arg.header) == arg
  {
    if !ValidMode(arg.mode) then Err("mode[" + IntToString(arg.mode) + "] invalid[0|1|2]")
    else if arg.mode == ModeNormal then Ok(arg.(header := false))
    else Ok(arg)
  }

  /** The statistics calls a datagram causes (the statistics object only
      exists outside normal mode). */
  datatype Stat = RecvClient(n: nat) | RecvProxy(n: nat) | AddLatency(delay: Int64)

  /** What one OnMsg call does: bytes consumed (always 0, as each datagram
      is a message of its own), an error, the datagram forwarded to the
      latency actor, and the statistics recorded. */
  datatype TunStep = TunStep(consumed: nat, failed: bool, forward: Option<seq<Byte>>, stats: seq<Stat>)

  /** The header's delay: the receiver's clock minus the sender's, as Go's
      int64 subtraction computes it. */
  function HeaderDelay(msg: seq<Byte>, now: Int64): Int64
    requires |msg| >= TunCodec.HeaderSize
  {
    WrapInt64(TunCodec.Delay(msg, now))
  }

  /** Strip the header and record the delay and the remaining length, as
      received from the proxy side or from the local side. */
  function Strip(msg: seq<Byte>, now: Int64, fromProxy: bool): (r: TunStep)
    ensures r.consumed == 0
    ensures r.failed <==> |msg| < TunCodec.HeaderSize
    ensures r.failed ==> r.forward == None && r.stats == []
  {
    match TunCodec.Unpack(msg)
    case Err(_) => TunStep(0, true, None, [])
    case Ok(body) =>
      var recv := if fromProxy then RecvProxy(|body|) else RecvClient(|body|);
      TunStep(0, false, Some(body), [AddLatency(HeaderDelay(msg, now)), recv])
  }

  /** Registry.OnMsg: a datagram from the local side, bound for the proxy
      address. */
  function OnMsg(cfg: Config, msg: seq<Byte>, now: Int64): (r: TunStep)
    ensures r.consumed == 0
    ensures r.failed <==> cfg.mode == ModeServer && cfg.header && |msg| < TunCodec.HeaderSize
    ensures !r.failed ==> r.forward.Some?
    ensures cfg.mode == ModeClient && cfg.header ==> r.forward == Some(TunCodec.Pack(msg, now))
    ensures (cfg.mode != ModeClient && cfg.mode != ModeServer) || !cfg.header ==> r.forward == Some(msg)
    ensures cfg.mode != ModeClient && cfg.mode != ModeServer ==> r.stats == []
  {
    if cfg.mode == ModeClient then
      var stats := [RecvClient(|msg|)];
      if cfg.header then TunStep(0, false, Some(TunCodec.Pack(msg, now)), stats)
      else TunStep(0, false, Some(msg), stats)
    else if cfg.mode == ModeServer then
      if cfg.header then Strip(msg, now, false)
      else TunStep(0, false, Some(msg), [RecvClient(|msg|)])
    else TunStep(0, false, Some(msg), [])
  }

  /** The proxy client's OnMsg: a datagram coming back from the proxy
      address, bound for the local side. */
  function ProxyOnMsg(cfg: Config, msg: seq<Byte>, now: Int64): (r: TunStep)
    ensures r.consumed == 0
    ensures r.failed <==> cfg.mode == ModeClient && cfg.header && |msg| < TunCodec.HeaderSize
    ensures !r.failed ==> r.forward.Some?
    ensures cfg.mode == ModeServer && cfg.header ==> r.forward == Some(TunCodec.Pack(msg, now))
    ensures (cfg.mode != ModeClient && cfg.mode != ModeServer) || !cfg.header ==> r.forward == Some(msg)
    ensures cfg.mode != ModeClient && cfg.mode != ModeServer ==> r.stats == []
  {
    if cfg.mode == ModeClient then
      if cfg.header then Strip(msg, now, true)
      else TunStep(0, false, Some(msg), [RecvProxy(|msg|)])
    else if cfg.mode == ModeServer then
      var stats := [RecvProxy(|msg|)];
      if cfg.header then TunStep(0, false, Some(TunCodec.Pack(msg, now)), stats)
      else TunStep(0, false, Some(msg), stats)
    else TunStep(0, false, Some(msg), [])
  }

  /** Two tunnels configured from the same header flag, one in client mode
      and one in server mode. */
  predicate Paired(c: Config, s: Config) {
    c.mode == ModeClient && s.mode == ModeServer && c.header == s.header
  }

  /** Outbound: what the application hands the client tunnel at time t1
      leaves the server tunnel at time t2 unchanged, and with the header
      the server records the delay t2 - t1 and the original length. */
  lemma OutboundRoundTrip(c: Config, s: Config, msg: seq<Byte>, t1: Int64, t2: Int64)
    requires Paired(c, s)
    ensures OnMsg(s, OnMsg(c, msg, t1).forward.value, t2).forward == Some(msg)
    ensures s.header ==> OnMsg(s, OnMsg(c, msg, t1).forward.value, t2).stats ==
                         [AddLatency(WrapInt64(t2 - t1)), RecvClient(|msg|)]
  {
    if s.header {
      TunCodec.UnpackPack(msg, t1);
    }
  }

  /** Inbound: what the real server answers the server tunnel at time t1
      reaches the application through the client tunnel at time t2
      unchanged, and with the header the client records the delay. */
  lemma InboundRoundTrip(c: Config, s: Config, msg: seq<Byte>, t1: Int64, t2: Int64)
    requires Paired(c, s)
    ensures ProxyOnMsg(c, ProxyOnMsg(s, msg, t1).forward.value, t2).forward == Some(msg)
    ensures c.header ==> ProxyOnMsg(c, ProxyOnMsg(s, msg, t1).forward.value, t2).stats ==
                         [AddLatency(WrapInt64(t2 - t1)), RecvProxy(|msg|)]
  {
    if c.header {
      TunCodec.UnpackPack(msg, t1);
    }
  }

  /** Conversely whatever the server tunnel accepts with the header on is
      a packing: packing what it forwards at the recorded time gives back
      the datagram it received. */
  lemma ServerAcceptsOnlyPackings(s: Config, msg: seq<Byte>, now: Int64)
    requires s.mode == ModeServer && s.header && !OnMsg(s, msg, now).failed
    ensures TunCodec.Pack(OnMsg(s, msg, now).forward.value, TunCodec.HeaderTime(msg)) == msg
  {
    TunCodec.PackUnpack(msg);
  }

  /** The package-level registry InitRegistry writes. */
  class Registry {
    var proxyAddr: string
    var mode: int
    var header: bool
    var inLoss: Uint32
    var inLatency: Uint32
    var outLoss: Uint32
    var outLatency: Uint32

    function Snapshot(): Config
      reads this
    {
      Config(proxyAddr, mode, header, inLoss, inLatency, outLoss, outLatency)
    }

    /** The zero registry. */
    constructor ()
      ensures Snapshot() == Config("", ModeNormal, false, 0, 0, 0, 0)
    {
      proxyAddr, mode, header := "", ModeNormal, false;
      inLoss, inLatency, outLoss, outLatency := 0, 0, 0, 0;
    }

    /** InitRegistry: a refused configuration leaves the registry as it
        was; an accepted one replaces every field, so a second call
        overwrites the first. */
    method InitRegistry(arg: Config) returns (err: Option<string>)
      modifies this
      ensures err.Some? <==> Configure(arg).Err?
      ensures err.Some? ==> err.value == Configure(arg).msg && Snapshot() == old(Snapshot())
      ensures err.None? ==> Snapshot() == Configure(arg).value
    {
      if !ValidMode(arg.mode) {
        return Some("mode[" + IntToString(arg.mode) + "] invalid[0|1|2]");
      }
      var withHeader := arg.header;
      if arg.mode == ModeNormal {
        withHeader := false;
      }
      proxyAddr := arg.proxyAddr;
      mode := arg.mode;
      header := withHeader;
      inLoss := arg.inLoss;
      inLatency := arg.inLatency;
      outLoss := arg.outLoss;
      outLatency := arg.outLatency;
      return None;
    }
  }
}
