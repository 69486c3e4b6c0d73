/**
 Startup of the server after command-line parsing: how the flags resolve into
 the serving configuration, the mDNS record that advertises the server, and
 the order in which startup acts.
 */
module Startup {
  import opened Wrappers
  import Strings

  /** The parsed command line: positional arguments and the five flags. */
  datatype Flags = Flags(args: seq<string>, port: string, strict: bool, noTcp: bool, noUdp: bool, noMdns: bool)

  /** Default of the port flag. */
  const DefaultPort: string := "3333"

  /** The port RFC 865 assigns to QOTD, forced in strict mode. */
  const StrictPort: string := "17"

  /** The port every mDNS record announces, whatever port is served. */
  const AdvertisedPort: int := 3333

  /** Service type of the mDNS record. */
  const ServiceType: string := "_qotd._tcp"

  /** The one address the mDNS record lists: the unspecified IPv4 address 0.0.0.0. */
  const UnspecifiedAddress: seq<Strings.byte> := [0, 0, 0, 0]

  /** The single TXT entry of the mDNS record. */
  const ServiceDescription: string := "Local web server"

  /** The serving configuration the flags resolve to. */
  datatype Settings = Settings(port: string, strict: bool, tcp: bool, udp: bool, advertise: bool)

  /** Strict mode leaves no choice of port or transport. */
  predicate Consistent(s: Settings) {
    s.strict ==> s.port == StrictPort && s.tcp && s.udp
  }

  /** Flag resolution: each transport is on unless disabled, and strict mode overrides port and transports. */
  function ResolveSettings(f: Flags): (s: Settings)
    ensures Consistent(s)
    ensures s.strict == f.strict && s.advertise == !f.noMdns
    ensures f.strict ==> s.port == StrictPort && s.tcp && s.udp
    ensures !f.strict ==> s.port == f.port && s.tcp == !f.noTcp && s.udp == !f.noUdp
  {
    var port := f.port;
    var startUdp := !f.noUdp;
    var startTcp := !f.noTcp;
    if f.strict then Settings(StrictPort, true, true, true, !f.noMdns)
    else Settings(port, false, startTcp, startUdp, !f.noMdns)
  }

  /** The fatal conditions of startup. */
  datatype StartupError = MissingQuoteSource | NoTransport

  /** Resolution with its failure: a server serving on neither transport refuses to start. */
  function ResolveConfig(f: Flags): (r: Result<Settings, StartupError>)
    ensures r.Err? <==> !f.strict && f.noTcp && f.noUdp
    ensures r.Err? ==> r.error == NoTransport
    ensures r.Ok? ==> r.value == ResolveSettings(f) && (r.value.tcp || r.value.udp)
  {
    var s := ResolveSettings(f);
    if s.tcp || s.udp then Ok(s) else Err(NoTransport)
  }

  /** A command line that resolves to `s`: the inverse of `ResolveSettings`. */
  function ToFlags(s: Settings, args: seq<string>): Flags {
    Flags(args, s.port, s.strict, !s.tcp, !s.udp, !s.advertise)
  }

  /** Every consistent configuration is reached by some command line, and only those are. */
  lemma ResolveSettingsRoundTrip(s: Settings, args: seq<string>)
    ensures ResolveSettings(ToFlags(s, args)) == s <==> Consistent(s)
  {
  }

  /** With strict mode on, the port and transport flags make no difference. */
  lemma StrictOverridesFlags(f: Flags, g: Flags)
    requires f.strict && g.strict && f.noMdns == g.noMdns
    ensures ResolveConfig(f) == ResolveConfig(g)
    ensures ResolveConfig(f).Ok?
  {
  }

  /** The mDNS record announcing the server. */
  datatype MdnsService = MdnsService(instance: string, service: string, ips: seq<seq<Strings.byte>>, port: int, txt: seq<string>)

  /**
   The record the server advertises under `hostname`. The transports and the
   port it is given are not used: the record always names port 3333.
   */
  function AdvertiseQotdService(advertiseTcp: bool, advertiseUdp: bool, port: string, hostname: string): (m: MdnsService)
    ensures m.port == AdvertisedPort
    ensures m.instance == hostname && m.service == ServiceType
    ensures m.ips == [UnspecifiedAddress] && m.txt == [ServiceDescription]
  {
    MdnsService(hostname, ServiceType, [[0, 0, 0, 0]], 3333, ["Local web server"])
  }

  /** The advertised record depends on the hostname alone. */
  lemma AdvertisementIgnoresConfiguration(t1: bool, u1: bool, p1: string, t2: bool, u2: bool, p2: string, hostname: string)
    ensures AdvertiseQotdService(t1, u1, p1, hostname) == AdvertiseQotdService(t2, u2, p2, hostname)
  {
  }

  /** What startup does, in order. Loading and listening are carried out by the environment. */
  datatype Effect =
    | LoadQuotes(source: string)
    | Advertise(record: MdnsService)
    | ListenUdp(port: string, strict: bool)
    | ListenTcp(port: string, strict: bool)
    | KeepAlive
    | Fatal(error: StartupError)

  /** Is `e` a listener on either transport? */
  predicate IsListener(e: Effect) {
    e.ListenUdp? || e.ListenTcp?
  }

  /**
   In `a + b`, when `a` holds no listener and `b` no advertisement, every
   advertisement comes before every listener.
   */
  lemma AdvertisementsFirst(a: seq<Effect>, b: seq<Effect>)
    requires forall e :: e in a ==> !IsListener(e)
    requires forall e :: e in b ==> !e.Advertise?
    ensures forall i, j :: 0 <= i < |a + b| && 0 <= j < |a + b| && (a + b)[i].Advertise? && IsListener((a + b)[j]) ==> i < j
  {
    forall i | |a| <= i < |a + b|
      ensures !(a + b)[i].Advertise?
    {
      assert (a + b)[i] == b[i - |a|];
    }
    forall j | 0 <= j < |a|
      ensures !IsListener((a + b)[j])
    {
      assert (a + b)[j] == a[j];
    }
  }

  /** One for a step that happens, zero for one that does not. */
  function CountIf(b: bool): nat {
    if b then 1 else 0
  }

  /** The advertisement startup makes for `s`, if any. */
  function Announcement(s: Settings, hostname: string): (effects: seq<Effect>)
    ensures |effects| <= 1
    ensures |effects| == 1 <==> s.advertise
    ensures forall e :: e in effects ==> e.Advertise? && e.record.port == AdvertisedPort
    ensures forall e :: e in effects ==> e == Advertise(AdvertiseQotdService(s.tcp, s.udp, s.port, hostname))
  {
    if s.advertise then [Advertise(AdvertiseQotdService(s.tcp, s.udp, s.port, hostname))] else []
  }

  /** The listeners startup starts for `s`: UDP first, then TCP. */
  function Listeners(s: Settings): (effects: seq<Effect>)
    ensures |effects| == 0 <==> !s.tcp && !s.udp
    ensures forall e :: e in effects ==> IsListener(e) && e.port == s.port && e.strict == s.strict
    ensures ListenUdp(s.port, s.strict) in effects <==> s.udp
    ensures ListenTcp(s.port, s.strict) in effects <==> s.tcp
    ensures |effects| == CountIf(s.udp) + CountIf(s.tcp)
    ensures s.udp ==> effects[0] == ListenUdp(s.port, s.strict)
    ensures s.tcp ==> effects[|effects| - 1] == ListenTcp(s.port, s.strict)
  {
    (if s.udp then [ListenUdp(s.port, s.strict)] else []) + (if s.tcp then [ListenTcp(s.port, s.strict)] else [])
  }

  /** How startup ends for `s`: stay alive serving, or fail because no transport is on. */
  function Finish(s: Settings): (e: Effect)
    ensures e == KeepAlive <==> s.tcp || s.udp
    ensures e == Fatal(NoTransport) <==> !s.tcp && !s.udp
  {
    if s.tcp || s.udp then KeepAlive else Fatal(NoTransport)
  }

  /** The listeners of a start are those of `Listeners`, with the resolved port and mode. */
  lemma StartListeners(s: Settings, hostname: string)
    ensures var effects := Announcement(s, hostname) + Listeners(s) + [Finish(s)];
            && (forall e :: e in effects && IsListener(e) ==> e.port == s.port && e.strict == s.strict)
            && (ListenUdp(s.port, s.strict) in effects <==> s.udp)
            && (ListenTcp(s.port, s.strict) in effects <==> s.tcp)
  {
    var effects := Announcement(s, hostname) + Listeners(s) + [Finish(s)];
    assert forall e :: e in effects && IsListener(e) ==> e in Listeners(s);
  }

  /** The advertisements of a start are those of `Announcement`, and nothing is loaded. */
  lemma StartAnnouncements(s: Settings, hostname: string)
    ensures var effects := Announcement(s, hostname) + Listeners(s) + [Finish(s)];
            && (forall e :: e in effects && e.Advertise? ==> e.record.port == AdvertisedPort)
            && (forall e :: e in effects && e.Advertise? ==> e == Advertise(AdvertiseQotdService(s.tcp, s.udp, s.port, hostname)))
            && ((exists e :: e in effects && e.Advertise?) <==> s.advertise)
            && (forall e :: e in effects ==> !e.LoadQuotes?)
  {
    var announce := Announcement(s, hostname);
    var effects := announce + Listeners(s) + [Finish(s)];
    assert forall e :: e in effects && e.Advertise? ==> e in announce;
    assert s.advertise ==> announce[0] in effects;
  }

  /**
   A start holds one effect per enabled step, and everything before its last
   effect is an advertisement or a listener: it neither stops nor fails early.
   */
  lemma StartShape(s: Settings, hostname: string)
    ensures var effects := Announcement(s, hostname) + Listeners(s) + [Finish(s)];
            && |effects| == CountIf(s.advertise) + CountIf(s.udp) + CountIf(s.tcp) + 1
            && (forall k :: 0 <= k < |effects| - 1 ==> effects[k].Advertise? || IsListener(effects[k]))
            && (forall k :: 0 <= k < |effects| - 1 ==> !effects[k].Fatal? && effects[k] != KeepAlive)
  {
    var announce := Announcement(s, hostname);
    var listen := Listeners(s);
    var effects := announce + listen + [Finish(s)];
    forall k | 0 <= k < |effects| - 1
      ensures effects[k].Advertise? || IsListener(effects[k])
    {
      if k < |announce| {
        assert effects[k] == announce[k];
      } else {
        assert effects[k] == listen[k - |announce|];
      }
    }
  }

  /** In a start, the advertisement comes before the listeners. */
  lemma StartOrder(s: Settings, hostname: string)
    ensures var effects := Announcement(s, hostname) + Listeners(s) + [Finish(s)];
            forall i, j :: 0 <= i < |effects| && 0 <= j < |effects| && effects[i].Advertise? && IsListener(effects[j]) ==> i < j
  {
    var announce := Announcement(s, hostname);
    var later := Listeners(s) + [Finish(s)];
    assert announce + Listeners(s) + [Finish(s)] == announce + later;
    AdvertisementsFirst(announce, later);
  }

  /**
   What follows loading for resolved settings `s`: advertise, start the
   listeners, then either stay alive or fail because no transport is on.
   */
  function StartEffects(s: Settings, hostname: string): (effects: seq<Effect>)
    ensures |effects| >= 1
    ensures effects[|effects| - 1] == KeepAlive <==> s.tcp || s.udp
    ensures effects[|effects| - 1] == Fatal(NoTransport) <==> !s.tcp && !s.udp
    ensures forall e :: e in effects && e.Advertise? ==> e.record.port == AdvertisedPort
    ensures forall e :: e in effects && IsListener(e) ==> e.port == s.port && e.strict == s.strict
    ensures (exists e :: e in effects && e.Advertise?) <==> s.advertise
    ensures forall e :: e in effects ==> !e.LoadQuotes?
    ensures ListenUdp(s.port, s.strict) in effects <==> s.udp
    ensures ListenTcp(s.port, s.strict) in effects <==> s.tcp
    ensures forall i, j :: 0 <= i < |effects| && 0 <= j < |effects| && effects[i].Advertise? && IsListener(effects[j]) ==> i < j
    ensures forall e :: e in effects && e.Advertise? ==> e == Advertise(AdvertiseQotdService(s.tcp, s.udp, s.port, hostname))
    ensures |effects| == CountIf(s.advertise) + CountIf(s.udp) + CountIf(s.tcp) + 1
    ensures forall k :: 0 <= k < |effects| - 1 ==> effects[k].Advertise? || IsListener(effects[k])
    ensures forall k :: 0 <= k < |effects| - 1 ==> !effects[k].Fatal? && effects[k] != KeepAlive
  {
    StartListeners(s, hostname);
    StartAnnouncements(s, hostname);
    StartOrder(s, hostname);
    StartShape(s, hostname);
    Announcement(s, hostname) + Listeners(s) + [Finish(s)]
  }

  /** Loading first keeps what `StartEffects` says about advertisements and listeners. */
  lemma LoadThenStart(source: string, s: Settings, hostname: string)
    ensures var effects := [LoadQuotes(source)] + StartEffects(s, hostname);
            && (forall e :: e in effects && e.Advertise? ==> e.record.port == AdvertisedPort)
            && (forall e :: e in effects && e.Advertise? ==> e == Advertise(AdvertiseQotdService(s.tcp, s.udp, s.port, hostname)))
            && (forall e :: e in effects && IsListener(e) ==> e.port == s.port && e.strict == s.strict)
            && ((exists e :: e in effects && e.Advertise?) <==> s.advertise)
            && (ListenUdp(s.port, s.strict) in effects <==> s.udp)
            && (ListenTcp(s.port, s.strict) in effects <==> s.tcp)
  {
    var rest := StartEffects(s, hostname);
    var effects := [LoadQuotes(source)] + rest;
    assert forall e :: e in effects <==> e == effects[0] || e in rest;
  }

  /** Loading first keeps every advertisement before every listener. */
  lemma LoadThenStartOrder(source: string, s: Settings, hostname: string)
    ensures var effects := [LoadQuotes(source)] + StartEffects(s, hostname);
            forall i, j :: 0 <= i < |effects| && 0 <= j < |effects| && effects[i].Advertise? && IsListener(effects[j]) ==> i < j
  {
    var rest := StartEffects(s, hostname);
    var effects := [LoadQuotes(source)] + rest;
    forall i | 1 <= i < |effects|
      ensures effects[i] == rest[i - 1]
    {
    }
  }

  /**
   After loading, nothing is loaded again, and everything up to the last
   effect is an advertisement or a listener.
   */
  lemma LoadThenStartShape(source: string, s: Settings, hostname: string)
    ensures var effects := [LoadQuotes(source)] + StartEffects(s, hostname);
            && |effects| == 2 + CountIf(s.advertise) + CountIf(s.udp) + CountIf(s.tcp)
            && (forall k :: 1 <= k < |effects| ==> !effects[k].LoadQuotes?)
            && (forall k :: 1 <= k < |effects| - 1 ==> effects[k].Advertise? || IsListener(effects[k]))
            && (forall k :: 0 <= k < |effects| - 1 ==> !effects[k].Fatal? && effects[k] != KeepAlive)
  {
    var rest := StartEffects(s, hostname);
    var effects := [LoadQuotes(source)] + rest;
    forall k | 1 <= k < |effects|
      ensures effects[k] == rest[k - 1]
    {
    }
  }

  /**
   The action run after parsing: check for exactly one quote source, load it,
   resolve the flags, then start as `StartEffects` describes.
   */
  function Launch(f: Flags, hostname: string): (effects: seq<Effect>)
    ensures |effects| >= 1
    ensures |f.args| != 1 ==> effects == [Fatal(MissingQuoteSource)]
    ensures |f.args| == 1 ==> effects[0] == LoadQuotes(f.args[0])
    ensures effects[|effects| - 1] == KeepAlive <==> |f.args| == 1 && ResolveConfig(f).Ok?
    ensures effects[|effects| - 1] == Fatal(NoTransport) <==> |f.args| == 1 && ResolveConfig(f).Err?
    ensures forall e :: e in effects && e.Advertise? ==> e.record.port == AdvertisedPort
    ensures forall e :: e in effects && IsListener(e) ==>
      e.port == ResolveSettings(f).port && e.strict == f.strict
    ensures (exists e :: e in effects && e.Advertise?) <==> |f.args| == 1 && !f.noMdns
    ensures ListenUdp(ResolveSettings(f).port, f.strict) in effects <==> |f.args| == 1 && ResolveSettings(f).udp
    ensures ListenTcp(ResolveSettings(f).port, f.strict) in effects <==> |f.args| == 1 && ResolveSettings(f).tcp
    ensures forall i, j :: 0 <= i < |effects| && 0 <= j < |effects| && effects[i].Advertise? && IsListener(effects[j]) ==> i < j
    ensures forall e :: e in effects && e.Advertise? ==>
      e == Advertise(AdvertiseQotdService(ResolveSettings(f).tcp, ResolveSettings(f).udp, ResolveSettings(f).port, hostname))
    ensures |f.args| == 1 ==>
      |effects| == 2 + CountIf(!f.noMdns) + CountIf(ResolveSettings(f).udp) + CountIf(ResolveSettings(f).tcp)
    ensures forall k :: 1 <= k < |effects| ==> !effects[k].LoadQuotes?
    ensures forall k :: 1 <= k < |effects| - 1 ==> effects[k].Advertise? || IsListener(effects[k])
    ensures forall k :: 0 <= k < |effects| - 1 ==> !effects[k].Fatal? && effects[k] != KeepAlive
  {
    if |f.args| != 1 then
      [Fatal(MissingQuoteSource)]
    else
      var effects := [LoadQuotes(f.args[0])] + StartEffects(ResolveSettings(f), hostname);
      LoadThenStart(f.args[0], ResolveSettings(f), hostname);
      LoadThenStartOrder(f.args[0], ResolveSettings(f), hostname);
      LoadThenStartShape(f.args[0], ResolveSettings(f), hostname);
      effects
  }

  /** In strict mode both listeners start on port 17 and the server stays up. */
  lemma StrictLaunch(f: Flags, hostname: string)
    requires |f.args| == 1 && f.strict
    ensures ListenUdp(StrictPort, true) in Launch(f, hostname)
    ensures ListenTcp(StrictPort, true) in Launch(f, hostname)
    ensures Launch(f, hostname)[|Launch(f, hostname)| - 1] == KeepAlive
  {
  }

  /** The record is announced before the check for a transport, so a failing start still advertises. */
  lemma AdvertisesBeforeFailing(source: string, port: string, hostname: string)
    ensures var effects := Launch(Flags([source], port, false, true, true, false), hostname);
            && effects == [LoadQuotes(source), Advertise(AdvertiseQotdService(false, false, port, hostname)), Fatal(NoTransport)]
  {
  }

  /**
   With the command-line defaults (port 3333, every flag off) startup loads the
   source, advertises, listens on UDP then TCP on port 3333, and stays up.
   */
  lemma DefaultLaunch(source: string, hostname: string)
    ensures var effects := Launch(Flags([source], DefaultPort, false, false, false, false), hostname);
            && effects == [LoadQuotes(source), Advertise(AdvertiseQotdService(true, true, DefaultPort, hostname)),
                           ListenUdp(DefaultPort, false), ListenTcp(DefaultPort, false), KeepAlive]
  {
  }
}
