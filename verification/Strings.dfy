/** Splitting and ordering of strings, as the rollups use them. */
module Strings {

  /** `s.split(sep)`. */
  function SplitOn(s: string, sep: char): (r: seq<string>)
    ensures r != []
  {
    if s == "" then [""]
    else
      var rest := SplitOn(s[..|s| - 1], sep);
      var c := s[|s| - 1];
      if c == sep then rest + [""] else rest[..|rest| - 1] + [rest[|rest| - 1] + [c]]
  }

  predicate SepFree(s: string, sep: char) {
    forall k :: 0 <= k < |s| ==> s[k] != sep
  }

  lemma {:induction false} SplitEmpty(sep: char)
    ensures SplitOn("", sep) == [""]
  {
  }

  lemma {:induction false} SplitStep(s: string, c: char, sep: char)
    ensures c == sep ==> SplitOn(s + [c], sep) == SplitOn(s, sep) + [""]
    ensures c != sep ==>
              SplitOn(s + [c], sep) == SplitOn(s, sep)[..|SplitOn(s, sep)| - 1] + [SplitOn(s, sep)[|SplitOn(s, sep)| - 1] + [c]]
  {
    assert (s + [c])[..|s|] == s;
  }

  lemma {:induction false} SplitPlain(s: string, name: string, sep: char)
    requires SepFree(name, sep)
    ensures SplitOn(s + name, sep) == SplitOn(s, sep)[..|SplitOn(s, sep)| - 1] + [SplitOn(s, sep)[|SplitOn(s, sep)| - 1] + name]
    decreases |name|
  {
    hide SplitOn;
    var last := SplitOn(s, sep)[|SplitOn(s, sep)| - 1];
    if name == "" {
      assert s + name == s;
      assert last + "" == last;
    } else {
      var front, c := name[..|name| - 1], name[|name| - 1];
      SplitPlain(s, front, sep);
      SplitStep(s + front, c, sep);
      assert s + name == s + front + [c];
      assert (last + front) + [c] == last + name;
    }
  }

  /** A separator and a piece without one add that piece. */
  lemma SplitSnoc(s: string, name: string, sep: char)
    requires SepFree(name, sep)
    ensures SplitOn(s + [sep] + name, sep) == SplitOn(s, sep) + [name]
  {
    hide SplitOn;
    SplitStep(s, sep, sep);
    SplitPlain(s + [sep], name, sep);
    assert "" + name == name;
  }

  lemma SplitOne(name: string, sep: char)
    requires SepFree(name, sep)
    ensures SplitOn(name, sep) == [name]
  {
    hide SplitOn;
    SplitPlain("", name, sep);
    SplitEmpty(sep);
    assert "" + name == name;
  }

  lemma {:induction false} SplitPieces(s: string, sep: char)
    ensures forall k :: 0 <= k < |SplitOn(s, sep)| ==> SepFree(SplitOn(s, sep)[k], sep)
    decreases |s|
  {
    hide SplitOn;
    SplitEmpty(sep);
    if s != "" {
      var front, c := s[..|s| - 1], s[|s| - 1];
      assert s == front + [c];
      SplitPieces(front, sep);
      SplitStep(front, c, sep);
    }
  }

  /** `pieces.join(sep)`. */
  function JoinWith(pieces: seq<string>, sep: char): string
    requires pieces != []
  {
    if |pieces| == 1 then pieces[0] else JoinWith(pieces[..|pieces| - 1], sep) + [sep] + pieces[|pieces| - 1]
  }

  /** Splitting undoes joining. */
  lemma {:induction false} SplitJoined(pieces: seq<string>, sep: char)
    requires pieces != [] && forall k :: 0 <= k < |pieces| ==> SepFree(pieces[k], sep)
    ensures SplitOn(JoinWith(pieces, sep), sep) == pieces
    decreases |pieces|
  {
    hide SplitOn, SepFree;
    var last := pieces[|pieces| - 1];
    if |pieces| == 1 {
      SplitOne(last, sep);
      assert pieces == [last];
    } else {
      var front := pieces[..|pieces| - 1];
      SplitJoined(front, sep);
      SplitSnoc(JoinWith(front, sep), last, sep);
      assert pieces == front + [last];
    }
  }

  lemma JoinSnoc(pieces: seq<string>, last: string, sep: char)
    requires pieces != []
    ensures JoinWith(pieces + [last], sep) == JoinWith(pieces, sep) + [sep] + last
  {
    assert (pieces + [last])[..|pieces|] == pieces;
  }

  lemma JoinGrow(pieces: seq<string>, c: char, sep: char)
    requires pieces != []
    ensures JoinWith(pieces[..|pieces| - 1] + [pieces[|pieces| - 1] + [c]], sep) == JoinWith(pieces, sep) + [c]
  {
    var front, last := pieces[..|pieces| - 1], pieces[|pieces| - 1];
    if front != [] {
      JoinSnoc(front, last + [c], sep);
      assert JoinWith(front, sep) + [sep] + (last + [c]) == JoinWith(pieces, sep) + [c];
    }
  }

  /** Joining undoes splitting. */
  lemma {:induction false} JoinSplit(s: string, sep: char)
    ensures JoinWith(SplitOn(s, sep), sep) == s
    decreases |s|
  {
    hide JoinWith, SplitOn;
    if s == "" {
      SplitEmpty(sep);
      JoinOne("", sep);
    } else {
      var front, c := s[..|s| - 1], s[|s| - 1];
      assert s == front + [c];
      JoinSplit(front, sep);
      SplitStep(front, c, sep);
      if c == sep {
        JoinSnoc(SplitOn(front, sep), "", sep);
      } else {
        JoinGrow(SplitOn(front, sep), c, sep);
      }
    }
  }

  lemma JoinOne(piece: string, sep: char)
    ensures JoinWith([piece], sep) == piece
  {
  }

  /** Rust's order on strings: by code point. */
  predicate Less(a: string, b: string) {
    b != "" && (a == "" || a[0] < b[0] || (a[0] == b[0] && Less(a[1..], b[1..])))
  }

  /** `a` is a proper prefix of `b`, or smaller at the first character in which they differ. */
  ghost predicate Precedes(a: string, b: string) {
    exists n :: 0 <= n <= |a| && PartsAt(a, b, n)
  }

  /** Equal up to `n`, where `a` has ended or has the smaller character. */
  predicate PartsAt(a: string, b: string, n: nat)
    requires n <= |a|
  {
    n < |b| && a[..n] == b[..n] && (n < |a| ==> a[n] < b[n])
  }

  lemma PrecedesTail(a: string, b: string)
    requires a != "" && b != "" && a[0] == b[0]
    ensures Precedes(a, b) <==> Precedes(a[1..], b[1..])
  {
    if Precedes(a, b) {
      var n :| 0 <= n <= |a| && PartsAt(a, b, n);
      assert a[1..][..n - 1] == a[..n][1..] && b[1..][..n - 1] == b[..n][1..];
      assert PartsAt(a[1..], b[1..], n - 1);
    }
    if Precedes(a[1..], b[1..]) {
      var n :| 0 <= n <= |a[1..]| && PartsAt(a[1..], b[1..], n);
      assert a[..n + 1] == [a[0]] + a[1..][..n] && b[..n + 1] == [b[0]] + b[1..][..n];
      assert PartsAt(a, b, n + 1);
    }
  }

  /** The order is that of the first difference. */
  lemma {:induction false} LessExactly(a: string, b: string)
    ensures Less(a, b) <==> Precedes(a, b)
    decreases |a|
  {
    if a != "" && b != "" && a[0] == b[0] {
      LessExactly(a[1..], b[1..]);
      PrecedesTail(a, b);
    } else if b != "" {
      assert PartsAt(a, b, 0) <==> (a == "" || a[0] < b[0]);
    }
  }

  lemma {:induction false} LessTotal(a: string, b: string)
    ensures !(Less(a, b) && Less(b, a)) && !Less(a, a) && (a != b ==> Less(a, b) || Less(b, a))
  {
    if a != "" && b != "" {
      LessTotal(a[1..], b[1..]);
      assert a == [a[0]] + a[1..] && b == [b[0]] + b[1..];
    }
    if a != "" {
      LessSelf(a);
    }
  }

  lemma {:induction false} LessSelf(a: string)
    ensures !Less(a, a)
  {
    if a != "" {
      LessSelf(a[1..]);
    }
  }

  lemma {:induction false} LessTrans(a: string, b: string, c: string)
    requires Less(a, b) && Less(b, c)
    ensures Less(a, c)
  {
    if a != "" && a[0] == b[0] && b[0] == c[0] {
      LessTrans(a[1..], b[1..], c[1..]);
    }
  }

  /** What does not come before chains, too. */
  lemma NotLessTrans(x: string, y: string, z: string)
    requires !Less(y, x) && !Less(z, y)
    ensures !Less(z, x)
  {
    hide Less;
    LessTotal(x, y);
    LessTotal(y, z);
    if x != y && y != z {
      LessTrans(x, y, z);
      LessTotal(x, z);
    }
  }
}
