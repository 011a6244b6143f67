/**
 * Connection strings of crates/red-core/src/lib.rs: `ConnectionConfig::dsn`,
 * `parse_conn_str`, `dsn_requests_tls`, and exactly when one undoes the other.
 */
module Dsn {
  import opened Bytes
  import opened Wrappers
  import opened Percent
  import opened Search
  import Utf8

  datatype DbKind = Postgres | Mysql | Sqlite | Clickhouse | Redis | Mongo

  type Port = n: nat | n < 65536

  datatype Config = Config(
    kind: DbKind, host: Text, port: Option<Port>, user: Text, password: Text, database: Text, tls: bool, sentinelMaster: Text)

  datatype ParsedDsn = ParsedDsn(
    kind: DbKind, host: Text, port: Option<Port>, user: Text, password: Text, database: Text, tls: bool)

  const AT: Byte := 64
  const COLON: Byte := 58
  const QUERY: Byte := 63
  const OPEN: Byte := 91
  const CLOSE: Byte := 93
  const PLUS: Byte := 43

  function DefaultPort(kind: DbKind): Option<Port> {
    match kind
    case Postgres => Some(5432)
    case Mysql => Some(3306)
    case Clickhouse => Some(8123)
    case Redis => Some(6379)
    case Mongo => Some(27017)
    case Sqlite => None
  }

  function UrlScheme(kind: DbKind): Text {
    match kind
    case Postgres => Ascii("postgres")
    case Mysql => Ascii("mysql")
    case Sqlite => Ascii("sqlite")
    case Clickhouse => Ascii("clickhouse")
    case Redis => Ascii("redis")
    case Mongo => Ascii("mongodb")
  }

  function FromScheme(s: Text): Option<DbKind> {
    if Spells(s, "postgres") || Spells(s, "postgresql") then Some(Postgres)
    else if Spells(s, "mysql") || Spells(s, "mariadb") then Some(Mysql)
    else if Spells(s, "sqlite") || Spells(s, "sqlite3") || Spells(s, "file") then Some(Sqlite)
    else if Spells(s, "clickhouse") || Spells(s, "clickhouse-http") || Spells(s, "ch") || Spells(s, "clickhouses") then Some(Clickhouse)
    else if Spells(s, "redis") || Spells(s, "rediss") then Some(Redis)
    else if Spells(s, "mongodb") || Spells(s, "mongodb+srv") then Some(Mongo)
    else None
  }

  predicate SchemeIsTls(s: Text) {
    Spells(s, "rediss") || Spells(s, "clickhouses")
  }

  // ----- splitting -----

  function SplitOnce(b: Text, c: Byte): Option<(Text, Text)> {
    var i := First(b, c);
    if i < |b| then Some((b[..i], b[i + 1..])) else None
  }

  /** One past the last place of `c`, or 0. */
  function AfterLast(b: Text, c: Byte): (i: nat)
    ensures i <= |b|
  {
    if b == [] then 0 else if b[|b| - 1] == c then |b| else AfterLast(b[..|b| - 1], c)
  }

  function RSplitOnce(b: Text, c: Byte): Option<(Text, Text)> {
    var i := AfterLast(b, c);
    if i > 0 then Some((b[..i - 1], b[i..])) else None
  }

  const SEP: Text := [COLON, SLASH, SLASH]

  /** The first place of `://`, or the end. */
  function FirstSep(b: Text): (i: nat)
    ensures i <= |b|
    ensures i < |b| ==> i + 3 <= |b|
  {
    if b == [] || (|b| >= 3 && b[..3] == SEP) then 0 else 1 + FirstSep(b[1..])
  }

  /** The part of `b` before any query or fragment. */
  function BeforeQuery(b: Text): Text {
    if b == [] || b[0] == QUERY || b[0] == HASH then [] else [b[0]] + BeforeQuery(b[1..])
  }

  /** The piece of `b` between its first and second `?` or `#`. */
  function QueryOf(b: Text): Text {
    var n := |BeforeQuery(b)|;
    if n < |b| then BeforeQuery(b[n + 1..]) else []
  }

  function SkipSlashes(b: Text): Text {
    if b != [] && b[0] == SLASH then SkipSlashes(b[1..]) else b
  }

  // ----- TLS markers -----

  function LowerAll(b: Text): Text {
    if b == [] then [] else [Lower(b[0])] + LowerAll(b[1..])
  }

  predicate Contains(b: Text, w: Text) {
    StartsWithAt(b, 0, w) || (b != [] && Contains(b[1..], w))
  }

  /** A query, in lower case, that asks for TLS. */
  predicate AsksTls(q: Text) {
    || (Contains(q, Ascii("sslmode=")) && !Contains(q, Ascii("sslmode=disable")))
    || Contains(q, Ascii("require_ssl=true"))
    || Contains(q, Ascii("ssl=true"))
    || Contains(q, Ascii("tls=true"))
  }

  /** `dsn_requests_tls`. */
  predicate RequestsTls(dsn: Text) {
    var b := Utf8.Trim(dsn);
    var i := FirstSep(b);
    i < |b| && (SchemeIsTls(b[..i]) || AsksTls(LowerAll(QueryOf(b[i + 3..]))))
  }

  // ----- ports -----

  predicate AllDigits(b: Text) {
    forall k :: 0 <= k < |b| ==> IsDigit(b[k])
  }

  function Number(b: Text): int {
    if b == [] then 0 else 10 * Number(b[..|b| - 1]) + (b[|b| - 1] as int - 48)
  }

  /** `str::parse::<u16>`. */
  function ParsePort(b: Text): Option<Port> {
    var t := if b != [] && b[0] == PLUS then b[1..] else b;
    if t != [] && AllDigits(t) && 0 <= Number(t) < 65536 then Some(Number(t)) else None
  }

  // ----- composing -----

  function EffectiveHost(c: Config): Text {
    if c.host == [] then Ascii("localhost") else c.host
  }

  function BracketHost(h: Text): Text {
    if COLON in h && !(h != [] && h[0] == OPEN) then [OPEN] + h + [CLOSE] else h
  }

  function SchemeOf(c: Config): Text {
    if c.tls && c.kind == Redis then Ascii("rediss")
    else if c.tls && c.kind == Clickhouse then Ascii("clickhouses")
    else UrlScheme(c.kind)
  }

  function Credentials(c: Config): Text {
    Encoded(c.user) + if c.password != [] then [COLON] + Encoded(c.password) else []
  }

  function UserInfo(c: Config): Text {
    if c.user != [] || c.password != [] then Credentials(c) + [AT] else []
  }

  function HostPort(c: Config): Text {
    BracketHost(EffectiveHost(c)) + if c.port.Some? then [COLON] + DecimalBytes(c.port.value) else []
  }

  /** The query of a composed DSN, or nothing. */
  function Query(c: Config): Option<Text> {
    if c.tls && c.kind == Postgres then Some(Ascii("sslmode=require"))
    else if c.tls && c.kind == Mysql then Some(Ascii("require_ssl=true"))
    else if c.tls && c.kind == Mongo then Some(Ascii("tls=true"))
    else if c.kind == Redis && c.sentinelMaster != [] then Some(Ascii("master=") + Encoded(c.sentinelMaster))
    else None
  }

  function QueryText(q: Option<Text>): Text {
    if q.Some? then [QUERY] + q.value else []
  }

  /** `scheme://` rest. */
  function Authority(c: Config): Text {
    UserInfo(c) + HostPort(c)
  }

  function DsnText(c: Config): Text {
    if c.kind == Sqlite then c.database
    else SchemeOf(c) + SEP + (Authority(c) + [SLASH] + Encoded(c.database) + QueryText(Query(c)))
  }

  method PushUserInfo(out: Text, c: Config) returns (url: Text)
    ensures url == out + UserInfo(c)
  {
    hide Encoded;
    url := out;
    if c.user != [] || c.password != [] {
      var user := Encode(c.user);
      url := url + user;
      if c.password != [] {
        var password := Encode(c.password);
        url := url + [COLON] + password;
      }
      url := url + [AT];
    }
  }

  method PushHost(out: Text, c: Config) returns (url: Text)
    ensures url == out + HostPort(c)
  {
    hide DecimalBytes, EffectiveHost, BracketHost;
    url := out + BracketHost(EffectiveHost(c));
    if c.port.Some? {
      url := url + [COLON] + DecimalBytes(c.port.value);
    }
  }

  method PushQuery(out: Text, c: Config) returns (url: Text)
    ensures url == out + QueryText(Query(c))
  {
    hide Encoded, Ascii;
    url := out;
    if c.tls {
      match c.kind {
        case Postgres => url := url + ([QUERY] + Ascii("sslmode=require"));
        case Mysql => url := url + ([QUERY] + Ascii("require_ssl=true"));
        case Mongo => url := url + ([QUERY] + Ascii("tls=true"));
        case _ =>
      }
    }
    if c.kind == Redis && c.sentinelMaster != [] {
      var master := Encode(c.sentinelMaster);
      url := url + ([QUERY] + (Ascii("master=") + master));
    }
  }

  /** `ConnectionConfig::dsn`. */
  method Compose(c: Config) returns (url: Text)
    ensures url == DsnText(c)
  {
    hide SchemeOf, Encoded, UserInfo, HostPort, QueryText, Query;
    if c.kind == Sqlite {
      return c.database;
    }
    url := PushUserInfo(SchemeOf(c) + SEP, c);
    url := PushHost(url, c);
    var database := Encode(c.database);
    url := url + [SLASH] + database;
    url := PushQuery(url, c);
    DsnAssembly(SchemeOf(c), UserInfo(c), HostPort(c), Encoded(c.database), QueryText(Query(c)));
  }

  lemma DsnAssembly(s: Text, u: Text, h: Text, d: Text, q: Text)
    ensures s + SEP + u + h + [SLASH] + d + q == s + SEP + (u + h + [SLASH] + d + q)
  {
  }

  // ----- parsing -----

  function ReadUser(userinfo: Option<Text>): (Text, Text) {
    match userinfo
    case None => ([], [])
    case Some(u) =>
      (match SplitOnce(u, COLON)
       case Some((user, password)) => (Decoded(user), Decoded(password))
       case None => (Decoded(u), []))
  }

  function ReadHost(hp: Text): (Text, Option<Port>) {
    if hp != [] && hp[0] == OPEN then
      match SplitOnce(hp[1..], CLOSE)
      case Some((addr, tail)) => (addr, if tail != [] && tail[0] == COLON then ParsePort(tail[1..]) else None)
      case None => (hp[1..], None)
    else
      match RSplitOnce(hp, COLON)
      case Some((h, p)) => (h, ParsePort(p))
      case None => (hp, None)
  }

  function SplitAuthority(authority: Text): (Option<Text>, Text) {
    match RSplitOnce(authority, AT)
    case Some((u, h)) => (Some(u), h)
    case None => (None, authority)
  }

  function OrDefault(port: Option<Port>, kind: DbKind): Option<Port> {
    if port.Some? then port else DefaultPort(kind)
  }

  /** What follows `scheme://` for a network engine, its query cut off. */
  function ReadBody(kind: DbKind, body: Text, tls: bool): ParsedDsn {
    var (authority, database) := match SplitOnce(body, SLASH) case Some((a, d)) => (a, d) case None => (body, []);
    var (userinfo, hp) := SplitAuthority(authority);
    var (user, password) := ReadUser(userinfo);
    var (host, port) := ReadHost(hp);
    ParsedDsn(kind, host, OrDefault(port, kind), user, password, Decoded(database), tls)
  }

  /** `parse_conn_str`. */
  function ParseConnStr(text: Text): Option<ParsedDsn> {
    var input := Utf8.Trim(text);
    var i := FirstSep(input);
    if i == |input| then None
    else
      var scheme := input[..i];
      var kind := if FromScheme(scheme).Some? then FromScheme(scheme).value else Postgres;
      var tls := RequestsTls(input);
      var body := SkipSlashes(BeforeQuery(input[i + 3..]));
      if kind == Sqlite then Some(ParsedDsn(kind, [], DefaultPort(kind), [], [], [SLASH] + SkipSlashes(body), false))
      else Some(ReadBody(kind, body, tls))
  }
}
