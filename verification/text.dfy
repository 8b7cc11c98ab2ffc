/**
  The .NET string operations the receive path relies on: `IndexOf(char)`,
  `Split(char)`, `Trim()`, `string.IsNullOrWhiteSpace` and ordinal
  case-insensitive comparison. Strings are sequences of Unicode scalar values, where .NET
  has UTF-16 code units; no separator or white-space character is a surrogate, so every
  cut falls where .NET's does.
*/
module Text {

  /** The code points `char.IsWhiteSpace` accepts: the C0 layout controls, NEL,
      and the Unicode space, line and paragraph separators. */
  const WhiteSpace: set<char> :=
    {'\t', '\n', '\U{000B}', '\U{000C}', '\r', ' ', '\U{0085}', '\U{00A0}', '\U{1680}',
     '\U{2000}', '\U{2001}', '\U{2002}', '\U{2003}', '\U{2004}', '\U{2005}', '\U{2006}',
     '\U{2007}', '\U{2008}', '\U{2009}', '\U{200A}', '\U{2028}', '\U{2029}', '\U{202F}',
     '\U{205F}', '\U{3000}'}

  /** `char.IsWhiteSpace`. */
  predicate IsWhite(c: char) {
    c in WhiteSpace
  }

  /** `string.IsNullOrWhiteSpace` on a non-null string. */
  predicate IsBlank(s: string) {
    forall i :: 0 <= i < |s| ==> IsWhite(s[i])
  }

  /** `String.IndexOf(char)`: the first position of `c`, or -1. */
  function IndexOf(s: string, c: char): (r: int)
    ensures -1 <= r < |s|
    ensures r == -1 <==> c !in s
    ensures r >= 0 ==> s[r] == c && c !in s[..r]
  {
    if |s| == 0 then -1
    else if s[0] == c then 0
    else
      var k := IndexOf(s[1..], c);
      assert s[1..][..if k >= 0 then k else 0] == s[1..if k >= 0 then k + 1 else 1];
      if k == -1 then -1 else k + 1
  }

  /** The state of a left-to-right scan that cuts at every separator: the pieces
      already closed, in order, and the piece still open. */
  datatype Pieces = Pieces(closed: seq<string>, open: string)

  /** Scans `s` with `open` as the piece begun so far, closing a piece at each `sep`. */
  function Cut(sep: char, open: string, s: string): (p: Pieces)
    decreases |s|
  {
    if s == [] then Pieces([], open)
    else if s[0] == sep then
      var q := Cut(sep, [], s[1..]);
      Pieces([open] + q.closed, q.open)
    else Cut(sep, open + [s[0]], s[1..])
  }

  /** Text free of the separator only extends the open piece. */
  lemma {:induction false} CutPlain(sep: char, open: string, s: string)
    requires sep !in s
    ensures Cut(sep, open, s) == Pieces([], open + s)
    decreases |s|
  {
    if s == [] {
      assert open + s == open;
    } else {
      assert s[0] != sep;
      assert sep !in s[1..] by { assert forall i :: 0 <= i < |s[1..]| ==> s[1..][i] == s[i + 1]; }
      CutPlain(sep, open + [s[0]], s[1..]);
      assert open + [s[0]] + s[1..] == open + s;
    }
  }

  /** Scanning `a + b` is scanning `a`, then scanning `b` from where `a` left off. */
  lemma {:induction false} CutAppend(sep: char, open: string, a: string, b: string)
    ensures Cut(sep, open, a + b).closed
      == Cut(sep, open, a).closed + Cut(sep, Cut(sep, open, a).open, b).closed
    ensures Cut(sep, open, a + b).open == Cut(sep, Cut(sep, open, a).open, b).open
    decreases |a|
  {
    if a == [] {
      assert a + b == b;
    } else {
      assert (a + b)[0] == a[0];
      assert (a + b)[1..] == a[1..] + b;
      if a[0] == sep {
        CutAppend(sep, [], a[1..], b);
      } else {
        CutAppend(sep, open + [a[0]], a[1..], b);
      }
    }
  }

  /** A separator-free run followed by a separator closes exactly one piece. */
  lemma CutLine(sep: char, open: string, line: string, rest: string)
    requires sep !in line
    ensures Cut(sep, open, line + [sep] + rest).closed == [open + line] + Cut(sep, [], rest).closed
    ensures Cut(sep, open, line + [sep] + rest).open == Cut(sep, [], rest).open
  {
    CutAppend(sep, open, line, [sep] + rest);
    CutPlain(sep, open, line);
    assert line + [sep] + rest == line + ([sep] + rest);
    assert ([sep] + rest)[1..] == rest;
  }

  /** No piece the scan produces contains the separator. */
  lemma {:induction false} CutPiecesFree(sep: char, open: string, s: string)
    requires sep !in open
    ensures forall k :: 0 <= k < |Cut(sep, open, s).closed| ==> sep !in Cut(sep, open, s).closed[k]
    ensures sep !in Cut(sep, open, s).open
    decreases |s|
  {
    if s != [] {
      if s[0] == sep {
        CutPiecesFree(sep, [], s[1..]);
      } else {
        CutPiecesFree(sep, open + [s[0]], s[1..]);
      }
    }
  }

  /** `String.Split(char)`: every piece, empty ones included, in order. */
  function Split(s: string, sep: char): (parts: seq<string>)
    ensures |parts| >= 1
    ensures forall k :: 0 <= k < |parts| ==> sep !in parts[k]
  {
    CutPiecesFree(sep, [], s);
    Parts(Cut(sep, [], s))
  }

  /** The inverse of `Split`: the pieces glued back with the separator. */
  function Join(parts: seq<string>, sep: char): string
    requires |parts| >= 1
  {
    if |parts| == 1 then parts[0] else parts[0] + [sep] + Join(parts[1..], sep)
  }

  lemma JoinCons(x: string, rest: seq<string>, sep: char)
    requires |rest| >= 1
    ensures Join([x] + rest, sep) == x + [sep] + Join(rest, sep)
  {
    assert ([x] + rest)[1..] == rest;
  }

  /** The pieces a scan produces, the open one last. */
  function Parts(p: Pieces): (parts: seq<string>)
    ensures |parts| == |p.closed| + 1
  {
    p.closed + [p.open]
  }

  lemma {:induction false} JoinCut(sep: char, open: string, s: string)
    ensures Join(Parts(Cut(sep, open, s)), sep) == open + s
    decreases |s|
  {
    if s == [] {
      assert open + s == open;
    } else if s[0] == sep {
      JoinCut(sep, [], s[1..]);
      JoinCutAtSep(sep, open, s);
    } else {
      JoinCut(sep, open + [s[0]], s[1..]);
      assert open + [s[0]] + s[1..] == open + s;
    }
  }

  lemma JoinCutAtSep(sep: char, open: string, s: string)
    requires s != [] && s[0] == sep
    requires Join(Parts(Cut(sep, [], s[1..])), sep) == [] + s[1..]
    ensures Join(Parts(Cut(sep, open, s)), sep) == open + s
  {
    PartsAtSep(sep, open, s);
    JoinCons(open, Parts(Cut(sep, [], s[1..])), sep);
    ReattachHead(open, s);
  }

  lemma PartsAtSep(sep: char, open: string, s: string)
    requires s != [] && s[0] == sep
    ensures Parts(Cut(sep, open, s)) == [open] + Parts(Cut(sep, [], s[1..]))
  {
  }

  lemma ReattachHead(open: string, s: string)
    requires s != []
    ensures open + [s[0]] + ([] + s[1..]) == open + s
  {
    assert [] + s[1..] == s[1..];
    assert [s[0]] + s[1..] == s;
  }

  lemma JoinSplit(s: string, sep: char)
    ensures Join(Split(s, sep), sep) == s
  {
    assert Split(s, sep) == Parts(Cut(sep, [], s));
    JoinCut(sep, [], s);
    assert [] + s == s;
  }

  lemma {:induction false} SplitJoin(parts: seq<string>, sep: char)
    requires |parts| >= 1
    requires forall k :: 0 <= k < |parts| ==> sep !in parts[k]
    ensures Split(Join(parts, sep), sep) == parts
  {
    if |parts| == 1 {
      CutPlain(sep, [], parts[0]);
      assert [] + parts[0] == parts[0];
    } else {
      var rest := Join(parts[1..], sep);
      assert sep !in parts[0] by { assert 0 < |parts|; }
      CutLine(sep, [], parts[0], rest);
      assert [] + parts[0] == parts[0];
      SplitJoin(parts[1..], sep);
      var q := Cut(sep, [], rest);
      assert q.closed + [q.open] == parts[1..];
      assert [parts[0]] + q.closed + [q.open] == parts;
    }
  }

  lemma {:induction false} JoinAppend(p: seq<string>, q: seq<string>, sep: char)
    requires |p| >= 1 && |q| >= 1
    ensures Join(p + q, sep) == Join(p, sep) + [sep] + Join(q, sep)
  {
    if |p| > 1 {
      assert (p + q)[1..] == p[1..] + q;
      JoinAppend(p[1..], q, sep);
    } else {
      assert (p + q)[1..] == q;
    }
  }

  /** Splitting at a separator splits the pieces: the basis of "later segments are read later". */
  lemma SplitAround(a: string, b: string, sep: char)
    ensures Split(a + [sep] + b, sep) == Split(a, sep) + Split(b, sep)
  {
    var p := Split(a, sep);
    var q := Split(b, sep);
    JoinSplit(a, sep);
    JoinSplit(b, sep);
    JoinAppend(p, q, sep);
    SplitJoin(p + q, sep);
  }

  /** `String.TrimStart()`: drops the leading white space. */
  function TrimStart(s: string): string
    decreases |s|
  {
    if |s| > 0 && IsWhite(s[0]) then TrimStart(s[1..]) else s
  }

  /** `String.TrimEnd()`: drops the trailing white space. */
  function TrimEnd(s: string): string
    decreases |s|
  {
    if |s| > 0 && IsWhite(s[|s| - 1]) then TrimEnd(s[..|s| - 1]) else s
  }

  lemma BlankCons(s: string)
    requires |s| > 0
    ensures IsBlank(s) <==> IsWhite(s[0]) && IsBlank(s[1..])
  {
    assert forall i :: 0 <= i < |s| - 1 ==> s[1..][i] == s[i + 1];
  }

  lemma BlankSnoc(s: string)
    requires |s| > 0
    ensures IsBlank(s) <==> IsWhite(s[|s| - 1]) && IsBlank(s[..|s| - 1])
  {
    assert forall i :: 0 <= i < |s| - 1 ==> s[..|s| - 1][i] == s[i];
  }

  /** What `TrimStart` keeps is empty exactly when the input is blank, and otherwise
      starts with a non-white character. */
  lemma {:induction false} TrimStartFacts(s: string)
    ensures TrimStart(s) == [] <==> IsBlank(s)
    ensures TrimStart(s) != [] ==> !IsWhite(TrimStart(s)[0])
    ensures |TrimStart(s)| <= |s|
    ensures TrimStart(s) == s[|s| - |TrimStart(s)|..] && IsBlank(s[..|s| - |TrimStart(s)|])
    decreases |s|
  {
    if |s| > 0 {
      BlankCons(s);
      if IsWhite(s[0]) {
        TrimStartFacts(s[1..]);
        var n := |TrimStart(s)|;
        assert s[1..][|s| - 1 - n..] == s[|s| - n..];
        assert s[..|s| - n][1..] == s[1..][..|s| - 1 - n];
        BlankCons(s[..|s| - n]);
      }
    }
  }

  /** What `TrimEnd` keeps is empty exactly when the input is blank; otherwise it is a
      prefix of the input ending in a non-white character. */
  lemma {:induction false} TrimEndFacts(s: string)
    ensures TrimEnd(s) == [] <==> IsBlank(s)
    ensures TrimEnd(s) != [] ==> !IsWhite(TrimEnd(s)[|TrimEnd(s)| - 1]) && TrimEnd(s)[0] == s[0]
    ensures |TrimEnd(s)| <= |s|
    ensures TrimEnd(s) == s[..|TrimEnd(s)|] && IsBlank(s[|TrimEnd(s)|..])
    decreases |s|
  {
    if |s| > 0 {
      BlankSnoc(s);
      if IsWhite(s[|s| - 1]) {
        TrimEndFacts(s[..|s| - 1]);
        var n := |TrimEnd(s)|;
        assert s[..|s| - 1][..n] == s[..n];
        assert s[n..][..|s| - n - 1] == s[..|s| - 1][n..];
        BlankSnoc(s[n..]);
      }
    }
  }

  /** `String.Trim()`: no white space remains at either end, and nothing remains
      exactly when `s` is blank. */
  function Trim(s: string): (r: string)
    ensures |r| > 0 ==> !IsWhite(r[0]) && !IsWhite(r[|r| - 1])
    ensures r == [] <==> IsBlank(s)
    ensures |r| <= |s|
  {
    TrimStartFacts(s);
    TrimEndFacts(TrimStart(s));
    TrimEnd(TrimStart(s))
  }

  /** What `Trim` keeps is a slice of `s` with only white space before and after it. */
  lemma TrimIsSlice(s: string)
    ensures exists i :: (0 <= i <= |s| - |Trim(s)| && Trim(s) == s[i..i + |Trim(s)|]
                         && IsBlank(s[..i]) && IsBlank(s[i + |Trim(s)|..]))
  {
    TrimStartFacts(s);
    var a := TrimStart(s);
    var i := |s| - |a|;
    assert a == s[i..];
    TrimEndFacts(a);
    var r := TrimEnd(a);
    SliceOfSuffix(s, i, |r|);
    assert r == s[i..i + |r|] && IsBlank(s[i + |r|..]);
  }

  lemma SliceOfSuffix(s: string, i: nat, n: nat)
    requires i + n <= |s|
    ensures s[i..][..n] == s[i..i + n] && s[i..][n..] == s[i + n..]
  {
  }

  /** Trimming a trimmed string changes nothing. */
  lemma TrimIdempotent(s: string)
    ensures Trim(Trim(s)) == Trim(s)
  {
    var r := Trim(s);
    if |r| > 0 {
      assert TrimStart(r) == r;
      assert TrimEnd(r) == r;
    }
  }

  /** ASCII upper-casing, the part of ordinal case folding the protocol keys use. */
  function Upper(c: char): char {
    if 'a' <= c <= 'z' then (c as int - 32) as char else c
  }

  /** `String.Equals(b, StringComparison.OrdinalIgnoreCase)` on ASCII text. */
  predicate EqualsIgnoreCase(a: string, b: string) {
    |a| == |b| && forall i :: 0 <= i < |a| ==> Upper(a[i]) == Upper(b[i])
  }
}
