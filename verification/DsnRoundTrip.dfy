/** Composing a connection string and parsing it back: exactly when every field returns. */
module DsnRoundTrip {
  import opened Bytes
  import opened Wrappers
  import opened Percent
  import opened Search
  import opened Dsn
  import opened DsnParts
  import Utf8

  /** The database as parsing finds it: trimming reaches it when no query follows. */
  function DatabaseRead(c: Config): Text {
    if Query(c).Some? then c.database else DropControls(c.database)
  }

  predicate Sentinel(c: Config) {
    c.kind == Redis && c.sentinelMaster != []
  }

  /** The query after trimming. */
  function TrimmedQuery(c: Config): Option<Text> {
    if Sentinel(c) then Some(Ascii("master=") + Encoded(DropControls(c.sentinelMaster))) else Query(c)
  }

  function BodyRead(c: Config): Text {
    Authority(c) + [SLASH] + Encoded(DatabaseRead(c))
  }

  /** The composed text after trimming. */
  function Input(c: Config): Text {
    SchemeOf(c) + SEP + (BodyRead(c) + QueryText(TrimmedQuery(c)))
  }

  lemma CleanAscii(s: Text)
    ensures AllAscii(Encoded(s))
  {
    hide Encoded;
    EncodedClean(s);
  }

  lemma TrimPlain(c: Config)
    requires c.kind != Sqlite && Query(c).None?
    ensures Utf8.Trim(DsnText(c)) == Input(c) && Utf8.Trim(Input(c)) == Input(c)
  {
    hide Utf8.Trim, SchemeOf, Authority, Encoded, Query, DropControls;
    SchemeReads(c);
    var x := SchemeOf(c) + SEP + (Authority(c) + [SLASH]);
    var y := Encoded(c.database);
    assert DsnText(c) == x + y;
    CleanAscii(c.database);
    TrimText(x, y);
    TrimEncoded(c.database);
    assert !Sentinel(c) by { NoSentinel(c); }
    assert Input(c) == x + TrimTail(y);
  }

  lemma NoSentinel(c: Config)
    requires Query(c).None?
    ensures !Sentinel(c)
  {
    hide Ascii, Encoded;
  }

  lemma TrimSentinel(c: Config)
    requires Sentinel(c)
    ensures Utf8.Trim(DsnText(c)) == Input(c) && Utf8.Trim(Input(c)) == Input(c)
  {
    hide Utf8.Trim, SchemeOf, Authority, Encoded, DropControls, Ascii;
    SchemeReads(c);
    var lead := Authority(c) + [SLASH] + Encoded(c.database);
    var m := Ascii("master=");
    var x := SchemeOf(c) + SEP + (lead + ([QUERY] + m));
    var y := Encoded(c.sentinelMaster);
    QueryAssembly(SchemeOf(c), lead, m, y);
    assert DsnText(c) == x + y;
    CleanAscii(c.sentinelMaster);
    assert x[|x| - 1] == m[|m| - 1];
    TrimText(x, y);
    TrimEncoded(c.sentinelMaster);
    QueryAssembly(SchemeOf(c), lead, m, TrimTail(y));
    assert Input(c) == x + TrimTail(y);
  }

  lemma QueryAssembly(s: Text, lead: Text, m: Text, y: Text)
    ensures s + SEP + (lead + ([QUERY] + (m + y))) == s + SEP + (lead + ([QUERY] + m)) + y
  {
  }

  lemma TrimFlagged(c: Config)
    requires c.kind != Sqlite && Query(c).Some? && !Sentinel(c)
    ensures Utf8.Trim(DsnText(c)) == Input(c) && Utf8.Trim(Input(c)) == Input(c)
  {
    hide Utf8.Trim, SchemeOf, Authority, Encoded, Query;
    SchemeReads(c);
    var x := DsnText(c);
    assert x == Input(c);
    FlagEnd(c);
    var q := Query(c).value;
    assert x[|x| - 1] == q[|q| - 1];
    TrimText(x, []);
    assert x + [] == x;
    assert TrimTail([]) == [];
  }

  lemma FlagEnd(c: Config)
    requires Query(c).Some? && !Sentinel(c)
    ensures var q := Query(c).value; q != [] && q[|q| - 1] == 101
  {
    hide Ascii, Encoded;
  }

  lemma TrimDsn(c: Config)
    requires c.kind != Sqlite
    ensures Utf8.Trim(DsnText(c)) == Input(c) && Utf8.Trim(Input(c)) == Input(c)
  {
    hide Utf8.Trim, DsnText, Input, Query;
    if Query(c).None? {
      TrimPlain(c);
    } else if Sentinel(c) {
      TrimSentinel(c);
    } else {
      TrimFlagged(c);
    }
  }

  // ----- the query -----

  lemma EncodedFree(s: Text)
    ensures Free(Encoded(s), COLON) && Free(Encoded(s), AT) && Free(Encoded(s), SLASH) && NoQuery(Encoded(s))
  {
    hide Encoded;
    EncodedClean(s);
  }

  lemma TrimmedQueryClean(c: Config)
    ensures TrimmedQuery(c).Some? ==> NoQuery(TrimmedQuery(c).value)
  {
    hide Encoded, DropControls, Ascii;
    EncodedFree(DropControls(c.sentinelMaster));
    if Sentinel(c) {
      assert NoQuery(Ascii("master="));
    }
  }

  /** TLS as parsing reads it. */
  ghost predicate TlsRead(c: Config) {
    c.tls || (c.kind == Redis && AsksTls(LowerAll(c.sentinelMaster)))
  }

  lemma QueryAsks(c: Config)
    requires c.kind != Sqlite
    ensures var q := if TrimmedQuery(c).Some? then TrimmedQuery(c).value else [];
            SchemeIsTls(SchemeOf(c)) || AsksTls(LowerAll(q)) <==> TlsRead(c)
  {
    hide Encoded, DropControls, Ascii, AsksTls, LowerAll, SchemeOf, SchemeIsTls;
    SchemeReads(c);
    PostgresAsks();
    MysqlAsks();
    MongoAsks();
    NothingAsks();
    MasterAsks(c.sentinelMaster);
  }

  // ----- the authority -----

  lemma PortTailFree(port: Option<Port>)
    ensures Free(PortTail(port), AT) && Free(PortTail(port), SLASH) && NoQuery(PortTail(port))
  {
    hide DecimalBytes;
    if port.Some? {
      PortParses(port.value);
    }
  }

  lemma HostFacts(c: Config)
    requires Uncut(c.host)
    ensures HostPort(c) != [] && Uncut(HostPort(c))
  {
    hide PortTail, Ascii;
    LocalhostOk();
    HostPortIs(c);
    PortTailFree(c.port);
    var h := EffectiveHost(c);
    assert h != [] && Uncut(h);
    assert Uncut(BracketHost(h));
  }

  lemma UserFacts(c: Config)
    ensures Free(UserInfo(c), SLASH) && NoQuery(UserInfo(c))
  {
    hide Encoded;
    EncodedFree(c.user);
    EncodedFree(c.password);
  }

  lemma AuthorityFacts(c: Config)
    requires Uncut(c.host)
    ensures Authority(c) != [] && Free(Authority(c), SLASH) && NoQuery(Authority(c))
  {
    hide UserInfo, HostPort;
    HostFacts(c);
    UserFacts(c);
  }

  lemma BodyFacts(c: Config)
    requires Uncut(c.host)
    ensures NoQuery(BodyRead(c)) && SkipSlashes(BodyRead(c)) == BodyRead(c)
  {
    hide Authority, Encoded, DatabaseRead;
    AuthorityFacts(c);
    EncodedFree(DatabaseRead(c));
    assert BodyRead(c)[0] == Authority(c)[0];
  }

  lemma CredentialsRead(c: Config)
    requires Utf8.Valid(c.user) && Utf8.Valid(c.password)
    ensures ReadUser(Some(Credentials(c))) == (c.user, c.password)
  {
    hide Encoded, Decoded, SplitOnce, Free;
    DecodeInvertsEncode(c.user);
    DecodeInvertsEncode(c.password);
    EncodedFree(c.user);
    SplitAt(Encoded(c.user), COLON, Encoded(c.password));
    if c.password != [] {
      assert Credentials(c) == Encoded(c.user) + [COLON] + Encoded(c.password);
    } else {
      assert Credentials(c) == Encoded(c.user);
    }
  }

  lemma AuthorityReads(c: Config)
    requires Uncut(c.host) && Utf8.Valid(c.user) && Utf8.Valid(c.password)
    ensures var (u, hp) := SplitAuthority(Authority(c)); ReadUser(u) == (c.user, c.password) && hp == HostPort(c)
  {
    hide HostPort, Credentials, RSplitOnce;
    HostFacts(c);
    var hp := HostPort(c);
    if c.user != [] || c.password != [] {
      RSplitAt(Credentials(c), AT, hp);
      CredentialsRead(c);
    } else {
      assert Authority(c) == hp;
      RSplitAt([], AT, hp);
    }
  }

  /** What parsing makes of a composed DSN whose host no delimiter cuts. */
  lemma ParsedIs(c: Config)
    requires c.kind != Sqlite && Uncut(c.host) && Utf8.Valid(c.user) && Utf8.Valid(c.password) && Utf8.Valid(c.database)
    ensures var (host, port) := ReadHost(HostPort(c));
            ParseConnStr(DsnText(c)) ==
            Some(ParsedDsn(c.kind, host, OrDefault(port, c.kind), c.user, c.password, DatabaseRead(c), TlsRead(c)))
  {
    hide Utf8.Trim, DsnText, Input, FromScheme, SchemeIsTls, SchemeOf, QueryOf, BeforeQuery, SkipSlashes, AsksTls, LowerAll;
    hide BodyRead, TrimmedQuery, QueryText, TlsRead, ReadBody, DatabaseRead, ReadHost, HostPort, Uncut, NoQuery, Free;
    TrimDsn(c);
    InputParts(c);
    BodyFacts(c);
    TrimmedQueryClean(c);
    QueryRead(BodyRead(c), TrimmedQuery(c));
    QueryAsks(c);
    SchemeReads(c);
    BodyReads(c, TlsRead(c));
  }

  lemma InputParts(c: Config)
    requires c.kind != Sqlite
    ensures var i := FirstSep(Input(c));
            && i < |Input(c)| && Input(c)[..i] == SchemeOf(c)
            && Input(c)[i + 3..] == BodyRead(c) + QueryText(TrimmedQuery(c))
  {
    hide BodyRead, TrimmedQuery, QueryText, SchemeOf, FirstSep;
    SchemeReads(c);
    SepAt(SchemeOf(c), BodyRead(c) + QueryText(TrimmedQuery(c)));
  }

  lemma BodyReads(c: Config, tls: bool)
    requires Uncut(c.host) && Utf8.Valid(c.user) && Utf8.Valid(c.password) && Utf8.Valid(c.database)
    ensures var (host, port) := ReadHost(HostPort(c));
            ReadBody(c.kind, BodyRead(c), tls) ==
            ParsedDsn(c.kind, host, OrDefault(port, c.kind), c.user, c.password, DatabaseRead(c), tls)
  {
    hide Authority, Encoded, Decoded, SplitOnce, SplitAuthority, ReadUser, ReadHost, HostPort, Uncut, Free, DropControls, Query;
    var d := DatabaseRead(c);
    AuthorityFacts(c);
    SplitAt(Authority(c), SLASH, Encoded(d));
    AuthorityReads(c);
    DropControlsValid(c.database);
    DecodeInvertsEncode(d);
  }

  // ----- hosts that delimiters cut -----

  lemma {:induction false} BeforeQueryFree(b: Text)
    ensures NoQuery(BeforeQuery(b))
    decreases |b|
  {
    if b != [] && b[0] != QUERY && b[0] != HASH {
      BeforeQueryFree(b[1..]);
    }
  }

  lemma {:induction false} SkipSlashesFree(b: Text)
    requires NoQuery(b)
    ensures NoQuery(SkipSlashes(b))
    decreases |b|
  {
    if b != [] && b[0] == SLASH {
      SkipSlashesFree(b[1..]);
    }
  }

  lemma {:induction false} FirstFree(b: Text, c: Byte)
    ensures Free(b[..First(b, c)], c)
    decreases |b|
  {
    if b != [] && b[0] != c {
      FirstFree(b[1..], c);
      assert b[..1 + First(b[1..], c)] == [b[0]] + b[1..][..First(b[1..], c)];
    }
  }

  lemma {:induction false} LastFree(b: Text, c: Byte)
    ensures Free(b[AfterLast(b, c)..], c)
    decreases |b|
  {
    if b != [] && b[|b| - 1] != c {
      var front := b[..|b| - 1];
      LastFree(front, c);
      var i := AfterLast(front, c);
      assert b[i..] == front[i..] + [b[|b| - 1]];
    }
  }

  lemma SliceFree(b: Text, lo: nat, hi: nat, c: Byte)
    requires lo <= hi <= |b| && Free(b, c)
    ensures Free(b[lo..hi], c)
  {
  }

  lemma SliceUncut(b: Text, lo: nat, hi: nat)
    requires lo <= hi <= |b| && Uncut(b)
    ensures Uncut(b[lo..hi])
  {
    hide Free;
    SliceFree(b, lo, hi, SLASH);
    SliceFree(b, lo, hi, AT);
    SliceFree(b, lo, hi, QUERY);
    SliceFree(b, lo, hi, HASH);
  }

  lemma ReadHostUncut(hp: Text)
    requires Uncut(hp)
    ensures Uncut(ReadHost(hp).0)
  {
    hide Uncut, First, AfterLast, ParsePort;
    if hp != [] && hp[0] == OPEN {
      SliceUncut(hp, 1, |hp|);
      assert hp[1..] == hp[1..|hp|];
      var i := First(hp[1..], CLOSE);
      SliceUncut(hp[1..], 0, i);
      assert hp[1..][0..i] == hp[1..][..i];
    } else {
      var i := AfterLast(hp, COLON);
      if i > 0 {
        SliceUncut(hp, 0, i - 1);
        assert hp[0..i - 1] == hp[..i - 1];
      }
    }
  }

  lemma AuthorityOf(body: Text)
    requires NoQuery(body)
    ensures var a := match SplitOnce(body, SLASH) case Some((a, d)) => a case None => body;
            NoQuery(a) && Free(a, SLASH)
  {
    hide First, Free;
    var i := First(body, SLASH);
    FirstFree(body, SLASH);
    SliceFree(body, 0, i, QUERY);
    SliceFree(body, 0, i, HASH);
    assert body[0..i] == body[..i];
    if i == |body| {
      assert body[..i] == body;
    }
  }

  lemma HostPartUncut(a: Text)
    requires NoQuery(a) && Free(a, SLASH)
    ensures Uncut(SplitAuthority(a).1)
  {
    hide AfterLast, Free;
    var i := AfterLast(a, AT);
    LastFree(a, AT);
    SliceFree(a, i, |a|, SLASH);
    SliceFree(a, i, |a|, QUERY);
    SliceFree(a, i, |a|, HASH);
    assert a[i..|a|] == a[i..];
    if i == 0 {
      assert a[0..] == a;
    }
  }

  /** No parse of any text yields a host with a URL delimiter in it. */
  lemma ParsedHostUncut(text: Text)
    requires ParseConnStr(text).Some?
    ensures Uncut(ParseConnStr(text).value.host)
  {
    hide Utf8.Trim, FirstSep, FromScheme, RequestsTls, Decoded, Uncut, NoQuery, BeforeQuery, SkipSlashes, SplitAuthority, ReadUser;
    hide ReadHost, SplitOnce, Free;
    NothingUncut();
    var input := Utf8.Trim(text);
    var rest := input[FirstSep(input) + 3..];
    BeforeQueryFree(rest);
    SkipSlashesFree(BeforeQuery(rest));
    var body := SkipSlashes(BeforeQuery(rest));
    AuthorityOf(body);
    var a := match SplitOnce(body, SLASH) case Some((a, d)) => a case None => body;
    HostPartUncut(a);
    ReadHostUncut(SplitAuthority(a).1);
  }

  lemma NothingUncut()
    ensures Uncut([])
  {
  }

  // ----- the law -----

  /** The port an engine listens on unless told otherwise. */
  function WellKnownPort(kind: DbKind): Option<Port> {
    match kind
    case Postgres => Some(5432)
    case Mysql => Some(3306)
    case Clickhouse => Some(8123)
    case Redis => Some(6379)
    case Mongo => Some(27017)
    case Sqlite => None
  }

  /** The fields a parse should give back. */
  function Fields(c: Config): ParsedDsn {
    ParsedDsn(
      c.kind, if c.host == [] then Ascii("localhost") else c.host, if c.port.Some? then c.port else WellKnownPort(c.kind),
      c.user, c.password, c.database, c.tls)
  }

  /** No raw control white space at the end of the text. */
  predicate DatabaseOk(c: Config) {
    Query(c).Some? || c.database == [] || !(9 <= c.database[|c.database| - 1] <= 13)
  }

  /** No TLS marker in the name of a cleartext sentinel group. */
  predicate SentinelOk(c: Config) {
    c.kind == Redis && !c.tls ==> !AsksTls(LowerAll(c.sentinelMaster))
  }

  /** For every network engine, composing and parsing gives every field back exactly under these three conditions. */
  lemma DsnRoundTrips(c: Config)
    requires c.kind != Sqlite && Utf8.Valid(c.user) && Utf8.Valid(c.password) && Utf8.Valid(c.database)
    ensures ParseConnStr(DsnText(c)) == Some(Fields(c)) <==> HostOk(c.host) && DatabaseOk(c) && SentinelOk(c)
  {
    hide DsnText, ParseConnStr, ReadHost, HostPort, AsksTls, LowerAll, Query, DropControls, Uncut;
    if Uncut(c.host) {
      ParsedIs(c);
      HostReads(c);
      DropControlsSame(c.database);
    } else {
      CutHostLost(c);
    }
  }

  lemma CutHostLost(c: Config)
    requires !Uncut(c.host)
    ensures ParseConnStr(DsnText(c)) != Some(Fields(c))
  {
    hide DsnText, ParseConnStr, Uncut;
    NothingUncut();
    var r := ParseConnStr(DsnText(c));
    if r.Some? {
      ParsedHostUncut(DsnText(c));
    }
  }

  // ----- the two losses, at their shortest -----

  lemma ShortTexts()
    ensures Utf8.Valid([]) && Utf8.Valid([97, TAB]) && HostOk([97]) && Uncut([97])
  {
    var t: Text := [97, TAB];
    assert Utf8.CharLen(t, 0) == 1 && Utf8.CharLen(t, 1) == 1;
  }

  /** `postgres://a/a<TAB>` comes back without the tab. */
  lemma TabLost()
    ensures var c := Config(Postgres, [97], None, [], [], [97, TAB], false, []);
            ParseConnStr(DsnText(c)) == Some(Fields(c).(database := [97]))
  {
    hide ParseConnStr, DsnText, ReadHost, HostPort, HostOk, Uncut, Utf8.Valid;
    var c := Config(Postgres, [97], None, [], [], [97, TAB], false, []);
    ShortTexts();
    ParsedIs(c);
    HostReads(c);
    assert [97, TAB][..1] == [97];
    assert DropControls([97]) == [97];
    assert DropControls([97, TAB]) == [97];
  }

  /** `redis://a/?master=tls=true` asks for no TLS and is read as asking for it. */
  lemma MarkerSwitchesTls()
    ensures var c := Config(Redis, [97], None, [], [], [], false, Ascii("tls=true"));
            ParseConnStr(DsnText(c)) == Some(Fields(c).(tls := true))
  {
    hide ParseConnStr, DsnText, ReadHost, HostPort, HostOk, Uncut, Utf8.Valid, Ascii, AsksTls, LowerAll;
    var c := Config(Redis, [97], None, [], [], [], false, Ascii("tls=true"));
    ShortTexts();
    ParsedIs(c);
    HostReads(c);
    MongoAsks();
  }
}
