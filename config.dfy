/**
 * The settings validators and derived properties of server/src/config.py.
 * Values come from the environment in the service; here they are the
 * arguments. The defaults live in a module this model does not contain.
 */
module Config {
  import opened Wrappers
  import opened Strings
  import opened Exceptions

  // ---------------------------------------------------------------- PostgresSettings

  /** The fields of `PostgresSettings` that `dsn` reads. */
  datatype PostgresSettings = PostgresSettings(host: string, port: int, user: string, password: string, dbname: string)

  /** `PostgresSettings.dsn`: the port is written with `str()`. */
  function Dsn(s: PostgresSettings): string {
    "postgresql://" + s.user + ":" + s.password + "@" + s.host + ":" + IntToString(s.port) + "/" + s.dbname
  }

  /**
   * The connection string names the PostgreSQL scheme, carries the port at
   * its place as `str(port)` (which `int()` reads back, Strings.ParseIntRoundTrip), and ends with
   * the database name.
   */
  lemma DsnParts(s: PostgresSettings)
    ensures var d := Dsn(s);
      var before := "postgresql://" + s.user + ":" + s.password + "@" + s.host + ":";
      var port := IntToString(s.port);
      && StartsWith(d, "postgresql://")
      && |before| + |port| < |d|
      && d[..|before|] == before
      && d[|before|..|before| + |port|] == port
      && d[|before| + |port|] == '/'
      && d[|before| + |port| + 1..] == s.dbname
  {
    var before := "postgresql://" + s.user + ":" + s.password + "@" + s.host + ":";
    var port := IntToString(s.port);
    assert Dsn(s) == before + port + ("/" + s.dbname);
    Split3(before, port, "/" + s.dbname);
    assert before[..13] == "postgresql://";
  }

  /** The three pieces of a concatenation can be read back by position. */
  lemma Split3(a: string, b: string, c: string)
    ensures var d := a + b + c;
      && d[..|a|] == a && d[|a|..|a| + |b|] == b && d[|a| + |b|..] == c
  {
  }

  // ---------------------------------------------------------------- LoggingSettings

  datatype LoggingSettings = LoggingSettings(logLevel: string)

  const ValidLevels: seq<string> := ["DEBUG", "INFO", "WARNING", "ERROR", "CRITICAL"]

  /** `LoggingSettings.validate_log_level`: the settings pass unchanged when the level is one of the five names. */
  function ValidateLogLevel(s: LoggingSettings): (r: Result<LoggingSettings>)
    ensures r.Ok? <==> s.logLevel in ValidLevels
    ensures r.Ok? ==> r.value == s
    ensures r.Err? ==> r.error == ValueError
  {
    if s.logLevel !in ValidLevels then Err(ValueError) else Ok(s)
  }

  // ---------------------------------------------------------------- ServerSettings

  type Protocol = p: string | p == "http" || p == "https" witness "http"
  type Host = h: string | |h| >= 1 witness "h"

  datatype ServerSettings = ServerSettings(protocol: Protocol, host: Host, port: string)

  /**
   * `ServerSettings.validate_port`: `int(value)` must succeed and land in
   * [0, 65535]; the accepted value is returned as it was written.
   */
  function ValidatePort(value: string): (r: Result<string>)
    ensures r.Ok? <==> ParseInt(value).Some? && 0 <= ParseInt(value).value <= 65535
    ensures r.Ok? ==> r.value == value
    ensures r.Err? ==> r.error == ValueError
  {
    match ParseInt(value)
    case None => Err(ValueError)
    case Some(n) => if !(0 <= n <= 65535) then Err(ValueError) else Ok(value)
  }

  /** Every port number written in decimal is accepted, and every integer outside the range is refused. */
  lemma PortRange(n: int)
    ensures ValidatePort(IntToString(n)).Ok? <==> 0 <= n <= 65535
  {
    ParseIntRoundTrip(n);
  }

  /** A port followed by one of the separators U+001C..U+001F is refused, as `int()` raises on it. */
  lemma PortRejectsSeparator(value: string)
    requires value != [] && '\U{1C}' <= value[|value| - 1] <= '\U{1F}'
    ensures ValidatePort(value) == Err(ValueError)
  {
    ParseIntRejectsSeparator(value);
  }

  /** A character `int()` lets through: a digit, an underscore, a sign or whitespace. */
  predicate PortChar(c: char) {
    IsDigit(c) || c == '_' || c == '+' || c == '-' || IsSpace(IntSpaces, c)
  }

  /** An accepted port is made only of characters `int()` lets through, so it holds no colon. */
  lemma ValidPortChars(value: string)
    requires ValidatePort(value).Ok?
    ensures forall i :: 0 <= i < |value| ==> PortChar(value[i])
  {
    ParseIntChars(value);
  }


  /**
   * `ServerSettings(...)`: pydantic checks the protocol literal, the host's
   * minimum length and then `validate_port`, and reports any failure as a
   * validation error.
   */
  function NewServerSettings(protocol: string, host: string, port: string): (r: Result<ServerSettings>)
    ensures r.Ok? <==> (protocol == "http" || protocol == "https") && host != [] && ValidatePort(port).Ok?
    ensures r.Ok? ==> r.value.protocol == protocol && r.value.host == host && r.value.port == port
    ensures r.Err? ==> r.error == ValidationError
  {
    if !(protocol == "http" || protocol == "https") || host == [] then Err(ValidationError)
    else match ValidatePort(port)
      case Err(e) => Err(ValidatorRaised(e))
      case Ok(p) => Ok(ServerSettings(protocol, host, p))
  }

  /** `ServerSettings.url`. */
  function Url(s: ServerSettings): string {
    s.protocol + "://" + s.host + ":" + s.port
  }

  /**
   * The URL of validated settings splits back into its parts: it opens with
   * the protocol and `://`, the port is everything after the last colon,
   * and the host is what lies between.
   */
  lemma UrlParts(s: ServerSettings)
    requires ValidatePort(s.port).Ok?
    ensures var u := Url(s);
      && StartsWith(u, s.protocol + "://")
      && |s.protocol| + 3 + |s.host| + 1 + |s.port| == |u|
      && u[|u| - |s.port| - 1] == ':'
      && u[|u| - |s.port|..] == s.port
      && (forall i :: |u| - |s.port| <= i < |u| ==> u[i] != ':')
      && u[|s.protocol| + 3..|u| - |s.port| - 1] == s.host
  {
    UrlSplit(s.protocol, "://", s.host, s.port);
    UrlHost(s);
    ValidPortChars(s.port);
    SuffixWithoutColon(Url(s), s.port);
  }

  /** The host is what lies between `://` and the colon before the port. */
  lemma UrlHost(s: ServerSettings)
    ensures var u := Url(s); u[|s.protocol| + 3..|u| - |s.port| - 1] == s.host
  {
    UrlSplit(s.protocol, "://", s.host, s.port);
  }

  /** `protocol + sep + host + ":" + port` read back piece by piece. */
  lemma UrlSplit(protocol: string, sep: string, host: string, port: string)
    ensures var u := protocol + sep + host + ":" + port;
      && |u| == |protocol| + |sep| + |host| + 1 + |port|
      && u[..|protocol| + |sep|] == protocol + sep
      && u[|u| - |port| - 1] == ':'
      && u[|u| - |port|..] == port
      && u[|protocol| + |sep|..|u| - |port| - 1] == host
  {
    var head := protocol + sep;
    var u := head + host + ":" + port;
    var middle := host + ":";
    assert u == head + middle + port;
    Split3(head, middle, port);
    assert u[|head|..|u| - |port| - 1] == middle[..|host|];
  }

  /** A suffix made of characters other than `:` leaves no colon after its start. */
  lemma SuffixWithoutColon(u: string, port: string)
    requires |port| <= |u| && u[|u| - |port|..] == port
    requires forall i :: 0 <= i < |port| ==> PortChar(port[i])
    ensures forall i :: |u| - |port| <= i < |u| ==> u[i] != ':'
  {
    forall i | |u| - |port| <= i < |u|
      ensures u[i] != ':'
    {
      assert u[i] == port[i - (|u| - |port|)];
    }
  }

  // ---------------------------------------------------------------- Settings

  /** The sections `Settings` declares. */
  const SettingsSections: set<string> := {"postgres", "logging", "server", "openai"}

  /** `settings.<name>`: a section `Settings` does not declare raises `AttributeError`. */
  function SettingsSection(name: string): (r: Result<()>)
    ensures r.Ok? <==> name in SettingsSections
    ensures r.Err? ==> r.error == AttributeError
  {
    if name in SettingsSections then Ok(()) else Err(AttributeError)
  }
}
