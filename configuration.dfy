/** The configuration extensions: validating the TCP sink's URI, forwarding the string overloads
    and choosing the default formatter. */
module Configuration {
  import opened Common
  import Formatter

  /** The parts of a parsed `System.Uri` that are checked. How a string parses into them is the
      framework's business, so parsing is a parameter of the operations below. */
  datatype Uri = Uri(scheme: string, host: string, port: int)

  /** `new Uri(s)` either yields a URI or throws `UriFormatException`. */
  datatype UriFormatError = UriFormatError(message: string)

  /** What the configuration can throw. */
  datatype ConfigError =
    | ArgumentNullException(message: string, inner: UriFormatError)
    | UriFormatException(message: string)

  const FormatHint: string := "Uri should be in the format tcp://server:port"
  const PortZeroMessage: string := "Uri port cannot be 0"
  const BadSchemeMessage: string := "Uri scheme must be tcp or tls"

  /** The scheme test: the lower-cased scheme is `tcp` or `tls`. */
  predicate SchemeAccepted(scheme: string) {
    Lower(scheme) == "tcp" || Lower(scheme) == "tls"
  }

  function CharIs(c: char, lower: char): bool {
    c == lower || c as int == lower as int - 32
  }

  /** A reference reading of the scheme test, letter by letter: three letters, `t`, then `c`
      and `p` or `l` and `s`, each in either case. */
  lemma SchemeAcceptedLetters(scheme: string)
    ensures SchemeAccepted(scheme) <==>
      |scheme| == 3 && CharIs(scheme[0], 't') &&
      ((CharIs(scheme[1], 'c') && CharIs(scheme[2], 'p')) || (CharIs(scheme[1], 'l') && CharIs(scheme[2], 's')))
  {
    if |scheme| == 3 {
      var l := Lower(scheme);
      assert l == [LowerChar(scheme[0]), LowerChar(scheme[1]), LowerChar(scheme[2])];
    }
  }

  /** Changing the case of the scheme never changes the verdict. */
  lemma SchemeAcceptedIgnoresCase(scheme: string)
    ensures SchemeAccepted(Lower(scheme)) == SchemeAccepted(scheme)
  {
    LowerIdempotent(scheme);
  }

  lemma LowerIdempotent(s: string)
    ensures Lower(Lower(s)) == Lower(s)
  {
    var l := Lower(s);
    assert forall i :: 0 <= i < |s| ==> Lower(l)[i] == LowerChar(LowerChar(s[i]));
  }

  /** Validates a parsed URI: an unparseable string first, then port 0, then the scheme. */
  function BuildUri(parsed: Result<Uri, UriFormatError>): (r: Result<Uri, ConfigError>)
    ensures r.Success? <==> parsed.Success? && parsed.value.port != 0 && SchemeAccepted(parsed.value.scheme)
    ensures r.Success? ==> r.value == parsed.value
    ensures parsed.Failure? ==> r == Failure(ArgumentNullException(FormatHint, parsed.error))
    ensures parsed.Success? && parsed.value.port == 0 ==> r == Failure(UriFormatException(PortZeroMessage))
    ensures parsed.Success? && parsed.value.port != 0 && !SchemeAccepted(parsed.value.scheme) ==>
      r == Failure(UriFormatException(BadSchemeMessage))
  {
    match parsed
    case Failure(ex) => Failure(ArgumentNullException(FormatHint, ex))
    case Success(uri) =>
      if uri.port == 0 then Failure(UriFormatException(PortZeroMessage))
      else if !SchemeAccepted(uri.scheme) then Failure(UriFormatException(BadSchemeMessage))
      else Success(uri)
  }

  /** The formatters a configuration can name. */
  datatype TextFormatter = LogstashJsonFormatter | FluentdJsonFormatter(defaultTag: string) | CustomFormatter(id: nat)

  /** A missing formatter is replaced by the Logstash formatter. */
  function ChooseFormatter(f: Option<TextFormatter>): (r: TextFormatter)
    ensures f.None? ==> r == LogstashJsonFormatter
    ensures f.Some? ==> r == f.value
  {
    f.GetOr(LogstashJsonFormatter)
  }

  /** The sink a configuration call adds, with the level it is restricted to. */
  datatype SinkConfig =
    | UriSink(uri: Uri, formatter: TextFormatter, minimumLevel: Formatter.Level)
    | AddressSink(address: string, port: int, formatter: TextFormatter, minimumLevel: Formatter.Level)

  /** Without an explicit level a sink receives every event. */
  const DefaultMinimumLevel: Formatter.Level := Formatter.Verbose

  /** The overload taking an address: no validation, only the default formatter. */
  function TcpSinkAt(address: string, port: int, formatter: Option<TextFormatter>, level: Formatter.Level): (r: SinkConfig)
    ensures r.AddressSink? && r.address == address && r.port == port && r.minimumLevel == level
    ensures r.formatter == ChooseFormatter(formatter)
  {
    AddressSink(address, port, ChooseFormatter(formatter), level)
  }

  /** The overload taking a URI string: the string must build into a valid URI. */
  function TcpSinkTo(uri: string, parse: string -> Result<Uri, UriFormatError>, formatter: Option<TextFormatter>,
                     level: Formatter.Level): (r: Result<SinkConfig, ConfigError>)
    ensures r.Success? <==> BuildUri(parse(uri)).Success?
    ensures r.Failure? ==> r.error == BuildUri(parse(uri)).error
    ensures r.Success? ==> r.value == UriSink(parse(uri).value, ChooseFormatter(formatter), level)
  {
    match BuildUri(parse(uri))
    case Failure(ex) => Failure(ex)
    case Success(u) => Success(UriSink(u, ChooseFormatter(formatter), level))
  }

  /** The decimal text of an `int`, as `ToString` writes it. */
  function DigitChar(d: nat): char
    requires d < 10
  {
    ('0' as int + d) as char
  }

  function NatText(n: nat): (s: string)
    ensures |s| >= 1
    decreases n
  {
    if n < 10 then [DigitChar(n)] else NatText(n / 10) + [DigitChar(n % 10)]
  }

  function IntText(n: int): string {
    if n < 0 then ['-'] + NatText(-n) else NatText(n)
  }

  /** Reads back a decimal text: digits, optionally after a minus sign. */
  function ParseNat(s: string): Option<nat>
    decreases |s|
  {
    if s == [] then None
    else
      var c := s[|s| - 1];
      if !('0' <= c <= '9') then None
      else if |s| == 1 then Some(c as int - '0' as int)
      else match ParseNat(s[..|s| - 1])
        case None => None
        case Some(h) => Some(h * 10 + (c as int - '0' as int))
  }

  function ParseInt(s: string): Option<int> {
    var unsigned := if s != [] && s[0] == '-' then s[1..] else s;
    var magnitude: Option<int> := ParseNat(unsigned);
    if unsigned == s then magnitude
    else if magnitude.None? || magnitude.value == 0 then None
    else Some(-magnitude.value)
  }

  lemma {:induction false} NatTextRoundTrip(n: nat)
    ensures ParseNat(NatText(n)) == Some(n)
    decreases n
  {
    if n >= 10 {
      NatTextRoundTrip(n / 10);
      var s := NatText(n);
      assert s[..|s| - 1] == NatText(n / 10);
    }
  }

  /** The decimal text reads back as the number it was written for. */
  lemma IntTextRoundTrip(n: int)
    ensures ParseInt(IntText(n)) == Some(n)
  {
    NatTextRoundTrip(if n < 0 then -n else n);
    if n < 0 {
      assert IntText(n)[1..] == NatText(-n);
    } else {
      assert NatText(n)[0] != '-' by {
        NatTextFirstIsDigit(n);
      }
    }
  }

  lemma {:induction false} NatTextFirstIsDigit(n: nat)
    ensures '0' <= NatText(n)[0] <= '9'
    decreases n
  {
    if n >= 10 {
      NatTextFirstIsDigit(n / 10);
    }
  }

  /** The URI string the host and port overload builds. */
  function HostPortUri(host: string, port: int): string {
    host + [':'] + IntText(port)
  }

  /** The overload taking a host and a port forwards `host:port`, the port in decimal, to the
      URI overload: it fails exactly as that URI does, and otherwise sinks to it. */
  function TcpSinkToHost(host: string, port: int, parse: string -> Result<Uri, UriFormatError>,
                         formatter: Option<TextFormatter>, level: Formatter.Level): (r: Result<SinkConfig, ConfigError>)
    ensures var u := BuildUri(parse(host + ":" + IntText(port)));
      (r.Success? <==> u.Success?) &&
      (r.Failure? ==> r.error == u.error) &&
      (r.Success? ==> r.value == UriSink(u.value, ChooseFormatter(formatter), level))
  {
    assert HostPortUri(host, port) == host + ":" + IntText(port);
    TcpSinkTo(HostPortUri(host, port), parse, formatter, level)
  }

  /** The forwarded string is the host, a colon and a decimal text that reads back as the port. */
  lemma HostPortForwarded(host: string, port: int)
    ensures var u := HostPortUri(host, port);
      |u| > |host| && u[..|host|] == host && u[|host|] == ':' && ParseInt(u[|host| + 1..]) == Some(port)
  {
    var u := HostPortUri(host, port);
    assert u[|host| + 1..] == IntText(port);
    IntTextRoundTrip(port);
  }

  /** The Fluentd overload prefixes `tcp://` to the address and uses the Fluentd formatter. */
  function FluentdTcpSink(ip: string, port: int, defaultTag: string, parse: string -> Result<Uri, UriFormatError>)
    : (r: Result<SinkConfig, ConfigError>)
    ensures var u := BuildUri(parse("tcp://" + ip + ":" + IntText(port)));
      (r.Success? <==> u.Success?) &&
      (r.Failure? ==> r.error == u.error) &&
      (r.Success? ==> r.value == UriSink(u.value, FluentdJsonFormatter(defaultTag), Formatter.Verbose))
  {
    TcpSinkToHost("tcp://" + ip, port, parse, Some(FluentdJsonFormatter(defaultTag)), DefaultMinimumLevel)
  }
}
