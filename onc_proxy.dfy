/**
 * The scheme rules of the ONC proxy conversion in onc_utils.cc: the default
 * proxy scheme of an ONC proxy location (AppendProxyServerForScheme and
 * SetProxyForScheme agree on it), the URL scheme a location is filed under,
 * SchemeToString, and the rule that a host is prefixed with its scheme only
 * when that scheme is not the default. ConvertOncProxyLocationToHostPort is
 * the partner that reads a location back.
 */
module OncProxy {
  import opened Wrappers
  import opened OncValues

  /** net::ProxyServer::Scheme. */
  datatype ProxyScheme = SchemeInvalid | SchemeDirect | SchemeHttp | SchemeSocks4 | SchemeSocks5 | SchemeHttps | SchemeQuic

  /** A proxy server: its scheme and host/port pair. */
  datatype ProxyServer = ProxyServer(scheme: ProxyScheme, host: Bytes, port: nat)

  // proxy::kFtp, kHttp, kHttps, kSocks, kHost, kPort
  const FtpProxyKey: Bytes := "FTPProxy"
  const HttpProxyKey: Bytes := "HTTPProxy"
  const HttpsProxyKey: Bytes := "SecureHTTPProxy"
  const SocksKey: Bytes := "SOCKS"
  const HostKey: Bytes := "Host"
  const PortKey: Bytes := "Port"

  const SchemeSeparator: Bytes := "://"

  /** The default scheme of a proxy location: SOCKS4 for the SOCKS entry, HTTP for every other. */
  function DefaultProxyScheme(oncScheme: Bytes): ProxyScheme
  {
    if oncScheme == SocksKey then SchemeSocks4 else SchemeHttp
  }

  /** The URL scheme AppendProxyServerForScheme files a location under; None where the source has NOTREACHED. */
  function UrlScheme(oncScheme: Bytes): Option<Bytes>
  {
    if oncScheme == FtpProxyKey then Some("ftp")
    else if oncScheme == HttpProxyKey then Some("http")
    else if oncScheme == HttpsProxyKey then Some("https")
    else if oncScheme == SocksKey then Some("socks")
    else None
  }

  /** The four ONC proxy entries each have their own URL scheme, and nothing else has one. */
  lemma UrlSchemeDomain(oncScheme: Bytes)
    ensures UrlScheme(oncScheme).Some? <==> oncScheme in {FtpProxyKey, HttpProxyKey, HttpsProxyKey, SocksKey}
    ensures UrlScheme(oncScheme).Some? ==>
      (UrlScheme(oncScheme).value == "socks" <==> DefaultProxyScheme(oncScheme) == SchemeSocks4)
  {
  }

  /** SchemeToString: "" for the invalid scheme, where the source has NOTREACHED. */
  function SchemeToString(scheme: ProxyScheme): Bytes
  {
    match scheme
    case SchemeDirect => "direct"
    case SchemeHttp => "http"
    case SchemeSocks4 => "socks4"
    case SchemeSocks5 => "socks5"
    case SchemeHttps => "https"
    case SchemeQuic => "quic"
    case SchemeInvalid => ""
  }

  /**
   * The scheme named by the text before "://", as net::ProxyServer parses
   * it (its source is not among the modelled files): "socks" alone names
   * SOCKS5.
   */
  function SchemeFromName(name: Bytes): ProxyScheme
  {
    if name == "http" then SchemeHttp
    else if name == "socks4" then SchemeSocks4
    else if name == "socks" || name == "socks5" then SchemeSocks5
    else if name == "direct" then SchemeDirect
    else if name == "https" then SchemeHttps
    else if name == "quic" then SchemeQuic
    else SchemeInvalid
  }

  /** Every valid scheme's name reads back as that scheme. */
  lemma SchemeNameRoundTrip(scheme: ProxyScheme)
    requires scheme != SchemeInvalid
    ensures SchemeFromName(SchemeToString(scheme)) == scheme
  {
  }

  /** The host a location is written with: prefixed by "<scheme>://" only for a non-default scheme. */
  function HostWithScheme(server: ProxyServer, oncScheme: Bytes): Bytes
  {
    if server.scheme != DefaultProxyScheme(oncScheme) then SchemeToString(server.scheme) + SchemeSeparator + server.host
    else server.host
  }

  /** The location SetProxyForScheme writes under `oncScheme` for the first proxy of the list. */
  function ProxyLocation(server: ProxyServer, oncScheme: Bytes): Entries
    requires server.port < 0x1_0000
  {
    map[HostKey := Str(HostWithScheme(server, oncScheme)), PortKey := Integer(server.port)]
  }

  /**
   * SetProxyForScheme, after the proxy list has been chosen from the proxy
   * rules: with no proxy nothing changes; otherwise the location of the first
   * proxy is stored under `oncScheme`.
   */
  method SetProxyForScheme(firstProxy: Option<ProxyServer>, oncScheme: Bytes, dict: DictionaryValue)
    requires firstProxy.Some? ==> firstProxy.value.port < 0x1_0000
    modifies dict
    ensures firstProxy.None? ==> dict.entries == old(dict.entries)
    ensures firstProxy.Some? ==> dict.entries == old(dict.entries)[oncScheme := Dict(ProxyLocation(firstProxy.value, oncScheme))]
  {
    if firstProxy.None? {
      return;
    }
    var server := firstProxy.value;
    var host := server.host;
    var defaultScheme := if oncScheme == SocksKey then SchemeSocks4 else SchemeHttp;
    if server.scheme != defaultScheme {
      host := SchemeToString(server.scheme) + SchemeSeparator + host;
    }
    var urlDict := map[HostKey := Str(host), PortKey := Integer(server.port)];
    dict.entries := dict.entries[oncScheme := Dict(urlDict)];
  }

  /** The first position at which "://" occurs in `s`, if any. */
  function FindSeparator(s: Bytes): (r: Option<nat>)
    ensures r.Some? ==> r.value + 3 <= |s| && s[r.value..r.value + 3] == SchemeSeparator
    decreases |s|
  {
    if |s| < 3 then None
    else if s[..3] == SchemeSeparator then Some(0)
    else match FindSeparator(s[1..])
      case None => None
      case Some(i) => Some(i + 1)
  }

  /**
   * The scheme and host the host string of a location stands for, as the
   * format [<scheme>"://"]<server> is read: without "://" the default scheme applies.
   */
  function ParseHost(host: Bytes, defaultScheme: ProxyScheme): (ProxyScheme, Bytes)
  {
    match FindSeparator(host)
    case None => (defaultScheme, host)
    case Some(i) => (SchemeFromName(host[..i]), host[i + 3..])
  }

  /**
   * ConvertOncProxyLocationToHostPort: the host string is parsed against the
   * default scheme, and the port is the location's Port, cast to 16 bits
   * (missing reads as 0).
   */
  function ConvertOncProxyLocationToHostPort(defaultScheme: ProxyScheme, location: Entries): (r: ProxyServer)
    ensures r.port < 0x1_0000
  {
    var (scheme, host) := ParseHost(GetString(location, HostKey).GetOr([]), defaultScheme);
    var port := GetInteger(location, PortKey).GetOr(0);
    ProxyServer(scheme, host, port % 0x1_0000)
  }

  /** A string with no ':' has no "://" anywhere. */
  lemma {:induction false} NoColonNoSeparator(s: Bytes)
    requires forall i :: 0 <= i < |s| ==> s[i] != ':'
    ensures FindSeparator(s).None?
    decreases |s|
  {
    if |s| >= 3 {
      assert s[..3][0] == s[0];
      NoColonNoSeparator(s[1..]);
    }
  }

  /** The separator after a colon-free prefix is found right after it. */
  lemma {:induction false} SeparatorAfter(name: Bytes, rest: Bytes)
    requires forall i :: 0 <= i < |name| ==> name[i] != ':'
    ensures FindSeparator(name + SchemeSeparator + rest) == Some(|name|)
    decreases |name|
  {
    var s := name + SchemeSeparator + rest;
    if name == [] {
      assert s[..3] == SchemeSeparator;
    } else {
      assert s[..3][0] == name[0];
      assert s[1..] == name[1..] + SchemeSeparator + rest;
      SeparatorAfter(name[1..], rest);
    }
  }

  /** A host written with its scheme prefix, when it has one, parses back as that scheme and host. */
  lemma {:induction false} HostRoundTrip(server: ProxyServer, oncScheme: Bytes)
    requires server.scheme != SchemeInvalid
    requires forall i :: 0 <= i < |server.host| ==> server.host[i] != ':'
    ensures ParseHost(HostWithScheme(server, oncScheme), DefaultProxyScheme(oncScheme)) == (server.scheme, server.host)
  {
    if server.scheme != DefaultProxyScheme(oncScheme) {
      var name := SchemeToString(server.scheme);
      SeparatorAfter(name, server.host);
      var h := name + SchemeSeparator + server.host;
      assert h[..|name|] == name;
      assert h[|name| + 3..] == server.host;
      SchemeNameRoundTrip(server.scheme);
    } else {
      NoColonNoSeparator(server.host);
    }
  }

  /**
   * The location SetProxyForScheme writes reads back, through
   * ConvertOncProxyLocationToHostPort with the same entry's default scheme, as
   * the proxy it was written from, for a valid scheme and a host without ':'.
   */
  lemma ProxyLocationRoundTrip(server: ProxyServer, oncScheme: Bytes)
    requires server.scheme != SchemeInvalid && server.port < 0x1_0000
    requires forall i :: 0 <= i < |server.host| ==> server.host[i] != ':'
    ensures ConvertOncProxyLocationToHostPort(DefaultProxyScheme(oncScheme), ProxyLocation(server, oncScheme)) == server
  {
    var location := ProxyLocation(server, oncScheme);
    assert HostKey != PortKey;
    assert GetString(location, HostKey) == Some(HostWithScheme(server, oncScheme));
    assert GetInteger(location, PortKey) == Some(server.port);
    HostRoundTrip(server, oncScheme);
  }

  /** A negative or oversized Port wraps around as the 16-bit cast does. */
  lemma PortWrapsAround()
    ensures ConvertOncProxyLocationToHostPort(SchemeHttp, map[PortKey := Integer(-1)]).port == 0xFFFF
    ensures ConvertOncProxyLocationToHostPort(SchemeHttp, map[PortKey := Integer(0x1_0050)]).port == 0x50
  {
    assert GetInteger(map[PortKey := Integer(-1)], PortKey) == Some(-1);
    assert GetInteger(map[PortKey := Integer(0x1_0050)], PortKey) == Some(0x1_0050);
  }
}
