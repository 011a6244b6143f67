/** What splitting, trimming, markers, ports and hosts do to the parts of a composed connection string. */
module DsnParts {
  import opened Bytes
  import opened Wrappers
  import opened Percent
  import opened Search
  import opened Dsn
  import Utf8

  // ----- splitting -----

  lemma SplitAt(x: Text, c: Byte, y: Text)
    requires Free(x, c)
    ensures SplitOnce(x + [c] + y, c) == Some((x, y)) && SplitOnce(x, c) == None
  {
    hide First;
    FirstAt(x, c, y);
    var b := x + [c] + y;
    assert b[..|x|] == x && b[|x| + 1..] == y;
  }

  lemma {:induction false} LastAt(x: Text, c: Byte, y: Text)
    requires Free(y, c)
    ensures AfterLast(x + [c] + y, c) == |x| + 1 && AfterLast(y, c) == 0
    decreases |y|
  {
    var b := x + [c] + y;
    if y == [] {
      assert b[|b| - 1] == c;
    } else {
      assert b[..|b| - 1] == x + [c] + y[..|y| - 1];
      LastAt(x, c, y[..|y| - 1]);
    }
  }

  lemma RSplitAt(x: Text, c: Byte, y: Text)
    requires Free(y, c)
    ensures RSplitOnce(x + [c] + y, c) == Some((x, y)) && RSplitOnce(y, c) == None
  {
    hide AfterLast;
    LastAt(x, c, y);
    var b := x + [c] + y;
    assert b[..|x|] == x && b[|x| + 1..] == y;
  }

  lemma {:induction false} SepAt(s: Text, r: Text)
    requires Free(s, COLON)
    ensures FirstSep(s + SEP + r) == |s|
    decreases |s|
  {
    var b := s + SEP + r;
    if s == [] {
      assert b[..3] == SEP;
    } else {
      assert b[0] != COLON && b[1..] == s[1..] + SEP + r;
      assert b[..3][0] == b[0];
      SepAt(s[1..], r);
    }
  }

  ghost predicate NoQuery(b: Text) {
    Free(b, QUERY) && Free(b, HASH)
  }

  lemma {:induction false} QueryCut(x: Text, y: Text)
    requires NoQuery(x) && (y != [] ==> y[0] == QUERY)
    ensures BeforeQuery(x + y) == x
    decreases |x|
  {
    var b := x + y;
    if x == [] {
      assert b == y;
    } else {
      assert b[1..] == x[1..] + y;
      QueryCut(x[1..], y);
      assert x == [x[0]] + x[1..];
    }
  }

  lemma QueryRead(x: Text, q: Option<Text>)
    requires NoQuery(x) && (q.Some? ==> NoQuery(q.value))
    ensures BeforeQuery(x + QueryText(q)) == x
    ensures QueryOf(x + QueryText(q)) == if q.Some? then q.value else []
  {
    hide BeforeQuery, NoQuery;
    QueryCut(x, QueryText(q));
    if q.Some? {
      var b := x + QueryText(q);
      assert b[|x| + 1..] == q.value;
      QueryCut(q.value, []);
      assert q.value + [] == q.value;
    }
  }

  // ----- trimming -----

  predicate Blank(c: Byte) {
    9 <= c <= 13 || c == 32
  }

  function TrimTail(y: Text): Text {
    if y != [] && Blank(y[|y| - 1]) then TrimTail(y[..|y| - 1]) else y
  }

  /** The control white space `encode` leaves raw at the end of a text. */
  function DropControls(s: Text): Text {
    if s != [] && 9 <= s[|s| - 1] <= 13 then DropControls(s[..|s| - 1]) else s
  }

  lemma LastByte(b: Text)
    requires b != [] && b[|b| - 1] < 128
    ensures Utf8.LastSpaceLen(b) == if Blank(b[|b| - 1]) then 1 else 0
  {
  }

  predicate AllAscii(b: Text) {
    forall k :: 0 <= k < |b| ==> b[k] < 128
  }

  lemma {:induction false} TrimEndText(x: Text, y: Text)
    requires x != [] && x[|x| - 1] < 128 && !Blank(x[|x| - 1]) && AllAscii(y)
    ensures Utf8.TrimEnd(x + y) == x + TrimTail(y)
    decreases |y|
  {
    hide Utf8.LastSpaceLen, Blank;
    var b := x + y;
    LastByte(b);
    if y == [] {
      assert b == x;
    } else if Blank(y[|y| - 1]) {
      assert b[..|b| - 1] == x + y[..|y| - 1];
      TrimEndText(x, y[..|y| - 1]);
    }
  }

  lemma {:induction false} TrimEndTwice(b: Text)
    ensures Utf8.TrimEnd(Utf8.TrimEnd(b)) == Utf8.TrimEnd(b)
    decreases |b|
  {
    hide Utf8.LastSpaceLen;
    if Utf8.LastSpaceLen(b) > 0 {
      TrimEndTwice(b[..|b| - Utf8.LastSpaceLen(b)]);
    }
  }

  /** Text that starts with a letter and ends in ASCII after something solid. */
  lemma TrimText(x: Text, y: Text)
    requires x != [] && IsAlpha(x[0]) && x[|x| - 1] < 128 && !Blank(x[|x| - 1]) && AllAscii(y)
    ensures Utf8.Trim(x + y) == x + TrimTail(y)
    ensures Utf8.Trim(x + TrimTail(y)) == x + TrimTail(y)
  {
    hide Utf8.TrimEnd, TrimTail, Blank;
    TrimEndText(x, y);
    TrimEndTwice(x + y);
    StartNoop(x + y);
    StartNoop(x + TrimTail(y));
  }

  lemma StartNoop(b: Text)
    requires b != [] && IsAlpha(b[0])
    ensures Utf8.TrimStart(b) == b
  {
  }

  lemma {:induction false} TrimEncoded(s: Text)
    ensures TrimTail(Encoded(s)) == Encoded(DropControls(s))
    decreases |s|
  {
    hide Encoded;
    EncodedNone();
    if s != [] {
      var front, c := s[..|s| - 1], s[|s| - 1];
      assert s == front + [c];
      EncodedConcat(front, [c]);
      EncodedOne(c);
      PieceEnd(c);
      var e := Encoded(s);
      assert e == Encoded(front) + Piece(c);
      if 9 <= c <= 13 {
        assert e[..|e| - 1] == Encoded(front);
        TrimEncoded(front);
      } else {
        assert e[|e| - 1] == Piece(c)[|Piece(c)| - 1];
      }
    }
  }

  lemma PieceEnd(c: Byte)
    ensures 9 <= c <= 13 ==> Piece(c) == [c]
    ensures !(9 <= c <= 13) ==> !Blank(Piece(c)[|Piece(c)| - 1])
    ensures |Piece(c)| > 0
  {
  }

  lemma ValidStart(s: Text)
    requires Utf8.Valid(s)
    ensures Utf8.Boundary(s, 0)
  {
  }

  lemma {:induction false} DropControlsValid(s: Text)
    requires Utf8.Valid(s)
    ensures Utf8.Valid(DropControls(s))
    decreases |s|
  {
    hide Utf8.Valid;
    if s != [] && 9 <= s[|s| - 1] <= 13 {
      ValidStart(s);
      Utf8.SliceValid(s, 0, |s| - 1);
      assert s[0..|s| - 1] == s[..|s| - 1];
      DropControlsValid(s[..|s| - 1]);
    }
  }

  /** Dropping changes a text exactly when it ends in control white space. */
  lemma {:induction false} DropControlsSame(s: Text)
    ensures |DropControls(s)| <= |s|
    ensures DropControls(s) == s <==> s == [] || !(9 <= s[|s| - 1] <= 13)
    decreases |s|
  {
    if s != [] && 9 <= s[|s| - 1] <= 13 {
      DropControlsSame(s[..|s| - 1]);
    }
  }

  // ----- schemes -----

  lemma Misspelled(w: Text, keyword: string, k: nat)
    requires k < |w| && k < |keyword| && Lower(w[k]) as int != keyword[k] as int
    ensures !Spells(w, keyword)
  {
  }

  lemma SchemePostgres()
    ensures FromScheme(Ascii("postgres")) == Some(Postgres) && !SchemeIsTls(Ascii("postgres"))
    ensures Free(Ascii("postgres"), COLON)
  {
    hide Ascii;
    var s := Ascii("postgres");
    assert Spells(s, "postgres");
  }

  lemma SchemeMysql()
    ensures FromScheme(Ascii("mysql")) == Some(Mysql) && !SchemeIsTls(Ascii("mysql"))
    ensures Free(Ascii("mysql"), COLON)
  {
    hide Ascii;
    var s := Ascii("mysql");
    assert Spells(s, "mysql");
  }

  lemma SchemeClickhouse()
    ensures FromScheme(Ascii("clickhouse")) == Some(Clickhouse) && !SchemeIsTls(Ascii("clickhouse"))
    ensures Free(Ascii("clickhouse"), COLON)
  {
    hide Ascii;
    var s := Ascii("clickhouse");
    assert Spells(s, "clickhouse");
    Misspelled(s, "postgresql", 0);
  }

  lemma SchemeClickhouses()
    ensures FromScheme(Ascii("clickhouses")) == Some(Clickhouse) && SchemeIsTls(Ascii("clickhouses"))
    ensures Free(Ascii("clickhouses"), COLON)
  {
    hide Ascii;
    var s := Ascii("clickhouses");
    assert Spells(s, "clickhouses");
  }

  lemma SchemeRedis()
    ensures FromScheme(Ascii("redis")) == Some(Redis) && !SchemeIsTls(Ascii("redis"))
    ensures Free(Ascii("redis"), COLON)
  {
    hide Ascii;
    var s := Ascii("redis");
    assert Spells(s, "redis");
    Misspelled(s, "mysql", 0);
  }

  lemma SchemeRediss()
    ensures FromScheme(Ascii("rediss")) == Some(Redis) && SchemeIsTls(Ascii("rediss"))
    ensures Free(Ascii("rediss"), COLON)
  {
    hide Ascii;
    var s := Ascii("rediss");
    assert Spells(s, "rediss");
    Misspelled(s, "sqlite", 0);
  }

  lemma SchemeMongo()
    ensures FromScheme(Ascii("mongodb")) == Some(Mongo) && !SchemeIsTls(Ascii("mongodb"))
    ensures Free(Ascii("mongodb"), COLON)
  {
    hide Ascii;
    var s := Ascii("mongodb");
    assert Spells(s, "mongodb");
    Misspelled(s, "mariadb", 1);
    Misspelled(s, "sqlite3", 0);
  }

  /** The scheme says the engine, and TLS for the two engines that spell it there. */
  lemma SchemeReads(c: Config)
    requires c.kind != Sqlite
    ensures FromScheme(SchemeOf(c)) == Some(c.kind) && Free(SchemeOf(c), COLON)
    ensures SchemeIsTls(SchemeOf(c)) <==> c.tls && (c.kind == Redis || c.kind == Clickhouse)
    ensures SchemeOf(c) != [] && IsAlpha(SchemeOf(c)[0])
  {
    hide Ascii, FromScheme, SchemeIsTls, Free;
    SchemePostgres();
    SchemeMysql();
    SchemeClickhouse();
    SchemeClickhouses();
    SchemeRedis();
    SchemeRediss();
    SchemeMongo();
  }

  // ----- TLS markers -----

  /** A word that escapes cannot forge, hide or cut. */
  predicate Marker(w: Text) {
    && |w| >= 2 && (w[0] == 115 || w[0] == 114 || w[0] == 116)
    && forall k :: 0 <= k < |w| ==> !Reserved(w[k]) && !Blank(w[k]) && Lower(w[k]) == w[k]
  }

  lemma Markers()
    ensures Marker(Ascii("sslmode=")) && Marker(Ascii("sslmode=disable")) && Marker(Ascii("require_ssl=true"))
    ensures Marker(Ascii("ssl=true")) && Marker(Ascii("tls=true"))
  {
    hide Ascii;
  }

  predicate Prefix(b: Text, w: Text) {
    w == [] || (b != [] && b[0] == w[0] && Prefix(b[1..], w[1..]))
  }

  lemma {:induction false} PrefixIs(b: Text, w: Text)
    ensures Prefix(b, w) <==> StartsWithAt(b, 0, w)
    decreases |w|
  {
    if w == [] {
      assert b[0..0] == [];
    } else if b != [] {
      PrefixIs(b[1..], w[1..]);
      assert w == [w[0]] + w[1..];
      if |w| <= |b| {
        assert b[0..|w|] == [b[0]] + b[1..][0..|w| - 1];
        assert [b[0]] + b[1..][0..|w| - 1] == [w[0]] + w[1..] ==> ([b[0]] + b[1..][0..|w| - 1])[1..] == ([w[0]] + w[1..])[1..];
        assert ([b[0]] + b[1..][0..|w| - 1])[1..] == b[1..][0..|w| - 1] && ([w[0]] + w[1..])[1..] == w[1..];
      }
    }
  }

  lemma ContainsStep(b: Text, w: Text)
    ensures Contains(b, w) <==> Prefix(b, w) || (b != [] && Contains(b[1..], w))
  {
    hide Prefix;
    PrefixIs(b, w);
  }

  lemma LowerConcat(x: Text, y: Text)
    ensures LowerAll(x + y) == LowerAll(x) + LowerAll(y)
    decreases |x|
  {
    if x == [] {
      assert x + y == y;
    } else {
      assert (x + y)[1..] == x[1..] + y;
      LowerConcat(x[1..], y);
    }
  }

  /** The tail of a marker. */
  predicate Plain(w: Text) {
    forall k :: 0 <= k < |w| ==> !Reserved(w[k])
  }

  lemma EncodedStep(s: Text)
    requires s != []
    ensures var e := LowerAll(Encoded(s)); var t := LowerAll(Encoded(s[1..]));
            if Reserved(s[0]) then |e| == 3 + |t| && e[3..] == t && e[0] == PERCENT && IsHex(e[1]) && IsHex(e[2])
            else e == [Lower(s[0])] + t
  {
    hide LowerAll, Encoded;
    var p := Piece(s[0]);
    EncodedConcat([s[0]], s[1..]);
    assert s == [s[0]] + s[1..];
    EncodedOne(s[0]);
    LowerConcat(p, Encoded(s[1..]));
    LowerPiece(s[0]);
  }

  predicate IsHex(c: Byte) {
    48 <= c <= 57 || 97 <= c <= 102
  }

  lemma LowerPiece(c: Byte)
    ensures var l := LowerAll(Piece(c));
            if Reserved(c) then |l| == 3 && l[0] == PERCENT && IsHex(l[1]) && IsHex(l[2]) else l == [Lower(c)]
  {
    if Reserved(c) {
      var h, d := HexDigit(c as int / 16), HexDigit(c as int % 16);
      assert Piece(c)[1..] == [h, d] && [h, d][1..] == [d] && [d][1..] == [];
      assert LowerAll([d]) == [Lower(d)];
      assert LowerAll([h, d]) == [Lower(h), Lower(d)];
    } else {
      assert [c][1..] == [];
    }
  }

  lemma {:induction false} PrefixEncoded(s: Text, w: Text)
    requires Plain(w)
    ensures Prefix(LowerAll(Encoded(s)), w) <==> Prefix(LowerAll(s), w)
    decreases |s|
  {
    hide LowerAll, Encoded, Reserved;
    LowerNone();
    EncodedNone();
    if s != [] && w != [] {
      EncodedStep(s);
      LowerHead(s);
      ReservedLower(s[0]);
      PrefixEncoded(s[1..], w[1..]);
      var e, l := LowerAll(Encoded(s)), LowerAll(s);
      assert l[1..] == LowerAll(s[1..]);
      if !Reserved(s[0]) {
        assert e[1..] == LowerAll(Encoded(s[1..]));
      }
    }
  }

  lemma LowerNone()
    ensures LowerAll([]) == []
  {
  }

  lemma LowerHead(s: Text)
    requires s != []
    ensures LowerAll(s) == [Lower(s[0])] + LowerAll(s[1..])
  {
  }

  lemma ReservedLower(c: Byte)
    ensures Reserved(c) ==> Lower(c) == c
    ensures Reserved(PERCENT)
  {
  }

  /** Encoding neither adds nor removes a marker. */
  lemma {:induction false} ContainsEncoded(s: Text, w: Text)
    requires Marker(w)
    ensures Contains(LowerAll(Encoded(s)), w) <==> Contains(LowerAll(s), w)
    decreases |s|
  {
    hide LowerAll, Encoded, Contains, Prefix;
    LowerNone();
    EncodedNone();
    if s != [] {
      var e, l := LowerAll(Encoded(s)), LowerAll(s);
      PrefixEncoded(s, w);
      ContainsEncoded(s[1..], w);
      EncodedStep(s);
      LowerHead(s);
      ContainsStep(e, w);
      ContainsStep(l, w);
      assert l[1..] == LowerAll(s[1..]);
      if Reserved(s[0]) {
        SkipEscape(e, w);
      } else {
        assert e[1..] == LowerAll(Encoded(s[1..]));
      }
    }
  }

  lemma SkipEscape(e: Text, w: Text)
    requires Marker(w) && |e| >= 3 && e[0] == PERCENT && IsHex(e[1]) && IsHex(e[2])
    ensures Contains(e, w) <==> Contains(e[3..], w)
  {
    hide Contains;
    ContainsStep(e, w);
    ContainsStep(e[1..], w);
    ContainsStep(e[2..], w);
    assert e[1..][1..] == e[2..] && e[2..][1..] == e[3..];
    assert e[1..][0] == e[1] && e[2..][0] == e[2];
  }

  lemma {:induction false} PrefixSnoc(x: Text, z: Byte, w: Text)
    requires forall k :: 0 <= k < |w| ==> w[k] != z
    ensures Prefix(x + [z], w) <==> Prefix(x, w)
    decreases |x|
  {
    var b := x + [z];
    if x == [] {
      assert b == [z];
    } else if w != [] {
      assert b[1..] == x[1..] + [z];
      PrefixSnoc(x[1..], z, w[1..]);
    }
  }

  lemma {:induction false} ContainsSnoc(x: Text, z: Byte, w: Text)
    requires w != [] && forall k :: 0 <= k < |w| ==> w[k] != z
    ensures Contains(x + [z], w) <==> Contains(x, w)
    decreases |x|
  {
    hide Contains;
    var b := x + [z];
    PrefixSnoc(x, z, w);
    ContainsStep(b, w);
    ContainsStep(x, w);
    if x == [] {
      assert b[1..] == [];
    } else {
      assert b[1..] == x[1..] + [z];
      ContainsSnoc(x[1..], z, w);
    }
  }

  lemma {:induction false} ContainsDropped(s: Text, w: Text)
    requires Marker(w)
    ensures Contains(LowerAll(DropControls(s)), w) <==> Contains(LowerAll(s), w)
    decreases |s|
  {
    hide Contains, LowerAll;
    if s != [] && 9 <= s[|s| - 1] <= 13 {
      var front, c := s[..|s| - 1], s[|s| - 1];
      assert s == front + [c];
      LowerConcat(front, [c]);
      LowerHead([c]);
      assert [c][1..] == [];
      LowerNone();
      assert LowerAll([c]) == [c];
      ContainsSnoc(LowerAll(front), c, w);
      ContainsDropped(front, w);
    }
  }

  lemma SkipByte(c: Byte, t: Text, w: Text)
    requires |w| >= 2 && (c != w[0] || (t != [] && t[0] != w[1]))
    ensures Contains([c] + t, w) <==> Contains(t, w)
  {
    hide Contains;
    var b := [c] + t;
    assert b[1..] == t;
    ContainsStep(b, w);
    assert w[1..][0] == w[1];
  }

  lemma SkipMaster(t: Text, w: Text)
    requires Marker(w) && (w[0] == 115 ==> w[1] == 115) && (w[0] == 114 ==> w[1] == 101) && (w[0] == 116 ==> w[1] == 108)
    ensures Contains(Ascii("master=") + t, w) <==> Contains(t, w)
  {
    hide Contains, Marker, Ascii;
    assert 2 <= |w| && (w[0] == 115 || w[0] == 114 || w[0] == 116) by { MarkerHead(w); }
    var t1 := [61] + t;
    var t2 := [114] + t1;
    var t3 := [101] + t2;
    var t4 := [116] + t3;
    var t5 := [115] + t4;
    var t6 := [97] + t5;
    SkipByte(61, t, w);
    SkipByte(114, t1, w);
    SkipByte(101, t2, w);
    SkipByte(116, t3, w);
    SkipByte(115, t4, w);
    SkipByte(97, t5, w);
    SkipByte(109, t6, w);
    assert Ascii("master=") == [109, 97, 115, 116, 101, 114, 61];
    assert Ascii("master=") + t == [109] + t6;
  }

  lemma MarkerHead(w: Text)
    requires Marker(w)
    ensures |w| >= 2 && (w[0] == 115 || w[0] == 114 || w[0] == 116)
  {
  }

  lemma MasterContains(m: Text, w: Text)
    requires Marker(w) && (w[0] == 115 ==> w[1] == 115) && (w[0] == 114 ==> w[1] == 101) && (w[0] == 116 ==> w[1] == 108)
    ensures Contains(LowerAll(Ascii("master=") + Encoded(DropControls(m))), w) <==> Contains(LowerAll(m), w)
  {
    hide Contains, Marker, LowerAll, Encoded, DropControls, Ascii;
    LowerConcat(Ascii("master="), Encoded(DropControls(m)));
    LowerMaster();
    SkipMaster(LowerAll(Encoded(DropControls(m))), w);
    ContainsEncoded(DropControls(m), w);
    ContainsDropped(m, w);
  }

  lemma {:induction false} LowerSame(b: Text)
    requires forall k :: 0 <= k < |b| ==> Lower(b[k]) == b[k]
    ensures LowerAll(b) == b
    decreases |b|
  {
    if b != [] {
      LowerSame(b[1..]);
      assert b == [b[0]] + b[1..];
    }
  }

  lemma LowerMaster()
    ensures LowerAll(Ascii("master=")) == Ascii("master=")
  {
    hide LowerAll, Ascii;
    LowerSame(Ascii("master="));
  }

  /** A sentinel group is read as a TLS request exactly when its own name holds a TLS marker. */
  lemma MasterAsks(m: Text)
    ensures AsksTls(LowerAll(Ascii("master=") + Encoded(DropControls(m)))) <==> AsksTls(LowerAll(m))
  {
    hide Contains, Marker, LowerAll, Encoded, DropControls, Ascii;
    Markers();
    MasterContains(m, Ascii("sslmode="));
    MasterContains(m, Ascii("sslmode=disable"));
    MasterContains(m, Ascii("require_ssl=true"));
    MasterContains(m, Ascii("ssl=true"));
    MasterContains(m, Ascii("tls=true"));
  }

  lemma SelfContained(w: Text)
    ensures Contains(w, w)
  {
    assert w[0..|w|] == w;
  }

  lemma {:induction false} TooLong(b: Text, w: Text)
    requires |b| < |w|
    ensures !Contains(b, w)
    decreases |b|
  {
    if b != [] {
      TooLong(b[1..], w);
    }
  }

  lemma PostgresAsks()
    ensures AsksTls(LowerAll(Ascii("sslmode=require")))
  {
    hide LowerAll, Ascii;
    var q, w, d := Ascii("sslmode=require"), Ascii("sslmode="), Ascii("sslmode=disable");
    LowerSame(q);
    assert q[0..8] == w;
    TooLong(q[1..], d);
    assert q[8] != d[8];
    assert q[0..15][8] == q[8];
  }

  lemma MysqlAsks()
    ensures AsksTls(LowerAll(Ascii("require_ssl=true")))
  {
    hide LowerAll, Ascii;
    LowerSame(Ascii("require_ssl=true"));
    SelfContained(Ascii("require_ssl=true"));
  }

  lemma MongoAsks()
    ensures AsksTls(LowerAll(Ascii("tls=true")))
  {
    hide LowerAll, Ascii;
    LowerSame(Ascii("tls=true"));
    SelfContained(Ascii("tls=true"));
  }

  lemma NothingAsks()
    ensures !AsksTls(LowerAll([]))
  {
    hide LowerAll, Ascii, Contains;
    LowerNone();
    TooLong([], Ascii("sslmode="));
    TooLong([], Ascii("require_ssl=true"));
    TooLong([], Ascii("ssl=true"));
    TooLong([], Ascii("tls=true"));
  }

  // ----- ports -----

  lemma {:induction false} PortReads(n: nat)
    ensures DecimalBytes(n) != [] && AllDigits(DecimalBytes(n)) && Number(DecimalBytes(n)) == n
  {
    hide Number, AllDigits;
    NumberNone();
    if n >= 10 {
      PortReads(n / 10);
      DigitReads(DecimalBytes(n / 10), n % 10);
      assert n == 10 * (n / 10) + n % 10;
    } else {
      DigitReads([], n);
      assert [] + [(48 + n) as Byte] == DecimalBytes(n);
    }
  }

  lemma NumberNone()
    ensures Number([]) == 0 && AllDigits([])
  {
  }

  lemma DigitReads(front: Text, d: int)
    requires AllDigits(front) && 0 <= d < 10
    ensures var t := front + [(48 + d) as Byte]; AllDigits(t) && Number(t) == 10 * Number(front) + d
  {
    var t := front + [(48 + d) as Byte];
    assert t[..|t| - 1] == front;
  }

  lemma PortParses(p: Port)
    ensures ParsePort(DecimalBytes(p)) == Some(p) && Free(DecimalBytes(p), COLON) && Free(DecimalBytes(p), AT)
    ensures Free(DecimalBytes(p), SLASH) && NoQuery(DecimalBytes(p)) && Free(DecimalBytes(p), CLOSE)
  {
    hide DecimalBytes, Number;
    PortReads(p);
  }

  // ----- hosts -----

  /** A host that no URL delimiter cuts. */
  ghost predicate Uncut(h: Text) {
    Free(h, SLASH) && Free(h, AT) && NoQuery(h)
  }

  /** A host name, an IPv4 address or a bare IPv6 address. */
  ghost predicate HostOk(h: Text) {
    && Uncut(h)
    && (h != [] ==> h[0] != OPEN)
    && (Free(h, COLON) || Free(h, CLOSE))
  }

  function PortTail(port: Option<Port>): Text {
    if port.Some? then [COLON] + DecimalBytes(port.value) else []
  }

  lemma HostReadsBracketed(h: Text, port: Option<Port>)
    requires Free(h, CLOSE)
    ensures ReadHost([OPEN] + h + [CLOSE] + PortTail(port)) == (h, port)
  {
    hide SplitOnce, RSplitOnce, ParsePort, DecimalBytes;
    var hp := [OPEN] + h + [CLOSE] + PortTail(port);
    var tail := PortTail(port);
    assert hp[1..] == h + [CLOSE] + tail;
    SplitAt(h, CLOSE, tail);
    if port.Some? {
      PortParses(port.value);
      assert tail[1..] == DecimalBytes(port.value);
    }
  }

  lemma HostReadsPlain(h: Text, port: Option<Port>)
    requires h != [] && h[0] != OPEN && Free(h, COLON)
    ensures ReadHost(h + PortTail(port)) == (h, port)
  {
    hide SplitOnce, RSplitOnce, ParsePort, DecimalBytes, Free;
    if port.Some? {
      var t := DecimalBytes(port.value);
      PortParses(port.value);
      RSplitAt(h, COLON, t);
      assert h + PortTail(port) == h + [COLON] + t;
    } else {
      RSplitAt([], COLON, h);
      assert h + PortTail(port) == h;
    }
  }

  lemma {:induction false} FirstBefore(b: Text, c: Byte, k: nat)
    requires k < |b| && b[k] == c
    ensures First(b, c) <= k
    decreases |b|
  {
    if b[0] != c {
      FirstBefore(b[1..], c, k - 1);
    }
  }

  /** A leading bracket is taken off, and never comes back. */
  lemma HostLosesBracket(h: Text, port: Option<Port>)
    requires h != [] && h[0] == OPEN
    ensures ReadHost(h + PortTail(port)).0 != h
  {
    hide ReadHost, PortTail, Free;
    if Free(h, CLOSE) {
      LosesNoClose(h, port);
    } else {
      LosesAtClose(h, PortTail(port));
    }
  }

  lemma LosesNoClose(h: Text, port: Option<Port>)
    requires h != [] && h[0] == OPEN && Free(h, CLOSE)
    ensures ReadHost(h + PortTail(port)).0 != h
  {
    hide SplitOnce, DecimalBytes, ParsePort;
    var rest := h[1..] + PortTail(port);
    assert (h + PortTail(port))[1..] == rest;
    if port.Some? {
      PortParses(port.value);
      PortReads(port.value);
    }
    assert Free(rest, CLOSE);
    SplitAt(rest, CLOSE, []);
    assert |rest| != |h|;
  }

  lemma LosesAtClose(h: Text, tail: Text)
    requires h != [] && h[0] == OPEN && !Free(h, CLOSE)
    ensures ReadHost(h + tail).0 != h
  {
    hide First, ParsePort;
    var rest := (h + tail)[1..];
    var k :| 0 <= k < |h| && h[k] == CLOSE;
    assert rest[k - 1] == CLOSE;
    FirstBefore(rest, CLOSE, k - 1);
  }

  lemma HostCutAtBracket(h: Text, tail: Text)
    requires !Free(h, CLOSE)
    ensures ReadHost([OPEN] + h + [CLOSE] + tail).0 != h
  {
    hide First, ParsePort;
    var hp := [OPEN] + h + [CLOSE] + tail;
    var rest := hp[1..];
    var k :| 0 <= k < |h| && h[k] == CLOSE;
    assert rest[k] == CLOSE;
    FirstBefore(rest, CLOSE, k);
  }

  lemma HostPortIs(c: Config)
    ensures HostPort(c) == BracketHost(EffectiveHost(c)) + PortTail(c.port)
  {
    hide BracketHost, EffectiveHost, DecimalBytes;
  }

  lemma LocalhostOk()
    ensures HostOk(Ascii("localhost"))
  {
    hide Ascii;
  }

  /** The host and port of a composed DSN come back exactly when no bracket confuses them. */
  lemma HostReads(c: Config)
    requires Uncut(c.host)
    ensures HostOk(c.host) ==> ReadHost(HostPort(c)) == (EffectiveHost(c), c.port)
    ensures !HostOk(c.host) ==> ReadHost(HostPort(c)).0 != EffectiveHost(c)
  {
    hide ReadHost, PortTail, Uncut, Ascii;
    LocalhostOk();
    HostPortIs(c);
    var h := EffectiveHost(c);
    if h[0] == OPEN {
      HostLosesBracket(h, c.port);
    } else if Free(h, COLON) {
      HostReadsPlain(h, c.port);
    } else if Free(h, CLOSE) {
      HostReadsBracketed(h, c.port);
    } else {
      HostCutAtBracket(h, PortTail(c.port));
    }
  }
}
