/** The drift checker's own scanner (cmd/migrations-drift-check/column.go) and when it sees the
    same statements as the migration runner's splitter. It strips line comments first and then
    cuts at semicolons at parenthesis depth zero; it knows neither quotes nor block comments. */
module SqlScanners {
  import opened SqlSplitter
  import RT = SqlRoundTrip
  import SG = SqlSegments

  // ---------- The drift checker's scanner ----------

  function Strip(inComment: bool, s: string): string
    decreases |s|
  {
    if s == [] then []
    else if inComment then
      if s[0] == '\n' then ['\n'] + Strip(false, s[1..]) else Strip(true, s[1..])
    else if |s| >= 2 && s[0] == '-' && s[1] == '-' then Strip(true, s[2..])
    else [s[0]] + Strip(false, s[1..])
  }

  method StripComments(src: string) returns (text: string)
    ensures text == Strip(false, src)
  {
    text := "";
    var inComment := false;
    var i := 0;
    assert src[0..] == src;
    while i < |src|
      invariant 0 <= i <= |src|
      invariant Strip(false, src) == text + Strip(inComment, src[i..])
    {
      var c := src[i];
      ghost var rest := src[i..];
      assert rest[1..] == src[i + 1..];
      if !inComment && c == '-' && i + 1 < |src| && src[i + 1] == '-' {
        assert rest[2..] == src[i + 2..];
        inComment := true;
        i := i + 1;
      } else if inComment {
        if c == '\n' {
          inComment := false;
          text := text + [c];
        }
      } else {
        text := text + [c];
      }
      i := i + 1;
    }
  }

  function Depth(c: char, depth: int): int {
    if c == '(' then depth + 1 else if c == ')' then depth - 1 else depth
  }

  /** The text cut at semicolons at depth zero; the depth runs on across statements. */
  function DriftPieces(s: string, depth: int): (ps: seq<string>)
    ensures ps != []
  {
    if s == [] then [""]
    else if s[0] == ';' && depth == 0 then [""] + DriftPieces(s[1..], 0)
    else Prepend([s[0]], DriftPieces(s[1..], Depth(s[0], depth)))
  }

  function DropEmptyLast(ps: seq<string>): seq<string>
    requires ps != []
  {
    if ps[|ps| - 1] == "" then ps[..|ps| - 1] else ps
  }

  lemma DriftCut(piece: string, rest: string)
    requires rest != [] && rest[0] == ';'
    ensures Prepend(piece, DriftPieces(rest, 0)) == [piece] + Prepend("", DriftPieces(rest[1..], 0))
  {
    PrependEmpty(DriftPieces(rest[1..], 0));
    assert piece + "" == piece;
  }

  /** The pieces found so far, the current one and the rest make up the whole. */
  ghost predicate Scanned(whole: seq<string>, out: seq<string>, piece: string, rest: string, depth: int) {
    whole == out + Prepend(piece, DriftPieces(rest, depth))
  }

  lemma ScanCut(whole: seq<string>, out: seq<string>, piece: string, rest: string)
    requires rest != [] && rest[0] == ';' && Scanned(whole, out, piece, rest, 0)
    ensures Scanned(whole, out + [piece], "", rest[1..], 0)
  {
    DriftCut(piece, rest);
  }

  lemma ScanOn(whole: seq<string>, out: seq<string>, piece: string, rest: string, depth: int)
    requires rest != [] && !(rest[0] == ';' && depth == 0) && Scanned(whole, out, piece, rest, depth)
    ensures Scanned(whole, out, piece + [rest[0]], rest[1..], Depth(rest[0], depth))
  {
    PrependPrepend(piece, [rest[0]], DriftPieces(rest[1..], Depth(rest[0], depth)));
  }

  lemma ScanEnd(whole: seq<string>, out: seq<string>, piece: string, rest: string, depth: int)
    requires Scanned(whole, out, piece, rest, depth) && rest == []
    ensures whole == out + [piece]
  {
    assert piece + "" == piece;
    assert Prepend(piece, [""]) == [piece];
  }

  lemma DropLast(out: seq<string>, piece: string)
    ensures DropEmptyLast(out + [piece]) == if piece == "" then out else out + [piece]
  {
    assert (out + [piece])[..|out|] == out;
  }

  lemma ScanFinish(whole: seq<string>, out: seq<string>, piece: string, rest: string, depth: int)
    requires Scanned(whole, out, piece, rest, depth) && rest == [] && whole != []
    ensures DropEmptyLast(whole) == if piece == "" then out else out + [piece]
  {
    ScanEnd(whole, out, piece, rest, depth);
    DropLast(out, piece);
  }

  /** The scan stands at position i, with the current piece starting at `start`. */
  ghost predicate ScanAt(src: string, out: seq<string>, start: nat, i: nat, depth: int) {
    start <= i <= |src| && Scanned(DriftPieces(src, 0), out, src[start..i], src[i..], depth)
  }

  lemma ScanStarts(src: string)
    ensures ScanAt(src, [], 0, 0, 0)
  {
    assert src[0..] == src;
    PrependEmpty(DriftPieces(src, 0));
  }

  lemma ScanAtCut(src: string, out: seq<string>, start: nat, i: nat)
    requires ScanAt(src, out, start, i, 0) && i < |src| && src[i] == ';'
    ensures ScanAt(src, out + [src[start..i]], i + 1, i + 1, 0)
  {
    ScanCut(DriftPieces(src, 0), out, src[start..i], src[i..]);
    assert src[i..][1..] == src[i + 1..];
  }

  lemma ScanAtOn(src: string, out: seq<string>, start: nat, i: nat, depth: int)
    requires ScanAt(src, out, start, i, depth) && i < |src| && !(src[i] == ';' && depth == 0)
    ensures ScanAt(src, out, start, i + 1, Depth(src[i], depth))
  {
    ScanOn(DriftPieces(src, 0), out, src[start..i], src[i..], depth);
    assert src[i..][1..] == src[i + 1..] && src[start..i] + [src[i]] == src[start..i + 1];
  }

  lemma ScanEnds(src: string, out: seq<string>, start: nat, i: nat, depth: int)
    requires ScanAt(src, out, start, i, depth) && i == |src|
    ensures DropEmptyLast(DriftPieces(src, 0)) == if start < i then out + [src[start..i]] else out
  {
    ScanFinish(DriftPieces(src, 0), out, src[start..i], src[i..], depth);
  }

  method SplitStatements(src: string) returns (out: seq<string>)
    ensures out == DropEmptyLast(DriftPieces(src, 0))
  {
    out := [];
    var depth, start := 0, 0;
    ScanStarts(src);
    for i := 0 to |src|
      invariant 0 <= start <= i && ScanAt(src, out, start, i, depth)
    {
      if src[i] == ';' && depth == 0 {
        ScanAtCut(src, out, start, i);
      } else {
        ScanAtOn(src, out, start, i, depth);
      }
      if src[i] == '(' {
        depth := depth + 1;
      } else if src[i] == ')' {
        depth := depth - 1;
      }
      if src[i] == ';' && depth == 0 {
        out := out + [src[start..i]];
        start := i + 1;
      }
    }
    ScanEnds(src, out, start, |src|, depth);
    assert src[start..] == src[start..|src|];
    if start < |src| {
      out := out + [src[start..]];
    }
  }

  // ---------- Agreement ----------

  /** Scanning meets neither a quote nor a block comment outside line comments. */
  predicate Plain(m: Mode, s: string)
    decreases |s|
  {
    s == [] || ((After(m, s) == Normal || After(m, s) == Line) && Plain(After(m, s), s[Width(m, s)..]))
  }

  /** Every semicolon stands at parenthesis depth zero. */
  predicate SemicolonsAtTop(s: string, depth: int) {
    s == [] || ((s[0] == ';' ==> depth == 0) && SemicolonsAtTop(s[1..], Depth(s[0], depth)))
  }

  function StripEach(ps: seq<string>): (r: seq<string>)
    ensures |r| == |ps| && forall i :: 0 <= i < |ps| ==> r[i] == Strip(false, ps[i])
  {
    seq(|ps|, i requires 0 <= i < |ps| => Strip(false, ps[i]))
  }

  function StripFrom(m: Mode, ps: seq<string>): (r: seq<string>)
    requires ps != []
  {
    [Strip(m == Line, ps[0])] + StripEach(ps[1..])
  }

  /** The statements each tool works on: comments stripped, trimmed, empty ones dropped. */
  function MigratorView(s: string): seq<string> {
    TrimAll(StripEach(Split(s)))
  }

  function DriftView(s: string): seq<string> {
    TrimAll(DropEmptyLast(DriftPieces(Strip(false, s), 0)))
  }

  /** What stripping keeps of the first token. */
  function Kept(m: Mode, s: string): string
    requires s != []
  {
    if m == Line then (if s[0] == '\n' then "\n" else "") else if Width(m, s) == 2 then "" else [s[0]]
  }

  lemma StripStep(m: Mode, s: string)
    requires (m == Normal || m == Line) && s != [] && (After(m, s) == Normal || After(m, s) == Line)
    ensures Strip(m == Line, s) == Kept(m, s) + Strip(After(m, s) == Line, s[Width(m, s)..])
  {}

  lemma StripFromPrepend(m: Mode, s: string)
    requires (m == Normal || m == Line) && s != [] && !Cut(m, s) && Plain(m, s)
    ensures
      var w, m' := Width(m, s), After(m, s);
      && Strip(m == Line, s) == Kept(m, s) + Strip(m' == Line, s[w..])
      && StripFrom(m, Pieces(m, s)) == Prepend(Kept(m, s), StripFrom(m', Pieces(m', s[w..])))
  {
    var p := Pieces(m, s)[0];
    RT.PieceStep(m, s);
    StripStep(m, s);
    StripStep(m, p);
    assert p[0] == s[0];
  }

  lemma DriftSemicolon(text: string)
    ensures DriftPieces(";" + text, 0) == [""] + DriftPieces(text, 0)
  {
    assert (";" + text)[1..] == text;
  }

  lemma StripFromCut(m: Mode, ps: seq<string>)
    requires ps != []
    ensures StripFrom(m, [""] + ps) == [""] + StripFrom(Normal, ps)
  {
    assert ([""] + ps)[1..] == ps;
    assert StripEach(ps) == StripFrom(Normal, ps);
  }

  lemma StripSemicolon(s: string)
    requires s != [] && s[0] == ';'
    ensures Strip(false, s) == ";" + Strip(false, s[1..])
  {}

  lemma SameCut(m: Mode, s: string)
    requires s != [] && Cut(m, s) && DriftPieces(Strip(false, s[1..]), 0) == StripFrom(Normal, Pieces(Normal, s[1..]))
    ensures DriftPieces(Strip(m == Line, s), 0) == StripFrom(m, Pieces(m, s))
  {
    StripSemicolon(s);
    DriftSemicolon(Strip(false, s[1..]));
    StripFromCut(m, Pieces(Normal, s[1..]));
  }

  lemma SameToken(kept: string, tail: string, depth: int, ps: seq<string>)
    requires |kept| <= 1 && ps != [] && (kept != "" ==> kept[0] != ';')
    requires DriftPieces(tail, if kept == "" then depth else Depth(kept[0], depth)) == ps
    ensures DriftPieces(kept + tail, depth) == Prepend(kept, ps)
  {
    if kept == "" {
      assert kept + tail == tail;
      PrependEmpty(ps);
    } else {
      assert (kept + tail)[1..] == tail && kept == [kept[0]];
    }
  }

  lemma TopOfToken(kept: string, tail: string, depth: int)
    requires |kept| <= 1 && SemicolonsAtTop(kept + tail, depth)
    ensures SemicolonsAtTop(tail, if kept == "" then depth else Depth(kept[0], depth))
  {
    if kept == "" {
      assert kept + tail == tail;
    } else {
      assert (kept + tail)[1..] == tail;
    }
  }

  /** With all its semicolons at the top level, a plain text is cut in the same places by both. */
  lemma {:induction false} SamePieces(m: Mode, s: string, depth: int)
    requires (m == Normal || m == Line) && Plain(m, s) && SemicolonsAtTop(Strip(m == Line, s), depth)
    ensures DriftPieces(Strip(m == Line, s), depth) == StripFrom(m, Pieces(m, s))
    decreases |s|
  {
    if s == [] {
    } else if Cut(m, s) {
      StripSemicolon(s);
      TopOfToken(";", Strip(false, s[1..]), depth);
      SamePieces(Normal, s[1..], 0);
      SameCut(m, s);
    } else {
      StripFromPrepend(m, s);
      var w, m', kept := Width(m, s), After(m, s), Kept(m, s);
      var tail := Strip(m' == Line, s[w..]);
      TopOfToken(kept, tail, depth);
      SamePieces(m', s[w..], if kept == "" then depth else Depth(kept[0], depth));
      SameToken(kept, tail, depth, StripFrom(m', Pieces(m', s[w..])));
    }
  }

  /** The runner's pieces of a plain text, stripped, hold no semicolon. */
  lemma {:induction false} NoSemicolonLeft(m: Mode, s: string)
    requires (m == Normal || m == Line) && Plain(m, s)
    ensures forall i :: 0 <= i < |StripFrom(m, Pieces(m, s))| ==> ';' !in StripFrom(m, Pieces(m, s))[i]
    decreases |s|
  {
    if s == [] {
    } else if Cut(m, s) {
      var rest := Pieces(Normal, s[1..]);
      NoSemicolonLeft(Normal, s[1..]);
      assert Pieces(m, s)[1..] == rest;
      assert StripEach(rest) == StripFrom(Normal, rest);
    } else {
      StripFromPrepend(m, s);
      NoSemicolonLeft(After(m, s), s[Width(m, s)..]);
    }
  }

  /** A semicolon inside parentheses stays inside some piece of the drift checker. */
  lemma {:induction false} SemicolonKept(s: string, depth: int) returns (i: nat)
    requires !SemicolonsAtTop(s, depth)
    ensures i < |DriftPieces(s, depth)| && ';' in DriftPieces(s, depth)[i]
  {
    if s[0] == ';' && depth != 0 {
      i := 0;
    } else {
      i := SemicolonKept(s[1..], Depth(s[0], depth));
      if s[0] == ';' {
        i := i + 1;
      }
    }
  }

  // ---------- Trimming before and after stripping ----------

  function EndsInComment(inComment: bool, s: string): bool
    decreases |s|
  {
    if s == [] then inComment
    else if inComment then EndsInComment(s[0] != '\n', s[1..])
    else if |s| >= 2 && s[0] == '-' && s[1] == '-' then EndsInComment(true, s[2..])
    else EndsInComment(false, s[1..])
  }

  /** How many characters stripping consumes at once, what it keeps of them, and the state after. */
  function TokenWidth(inComment: bool, s: string): nat
    requires s != []
  {
    if !inComment && |s| >= 2 && s[0] == '-' && s[1] == '-' then 2 else 1
  }

  function TokenKept(inComment: bool, s: string): string
    requires s != []
  {
    if inComment then (if s[0] == '\n' then "\n" else "") else if TokenWidth(inComment, s) == 2 then "" else [s[0]]
  }

  predicate TokenEnd(inComment: bool, s: string)
    requires s != []
  {
    if inComment then s[0] != '\n' else TokenWidth(inComment, s) == 2
  }

  lemma StripToken(inComment: bool, s: string)
    requires s != []
    ensures
      var w, c := TokenWidth(inComment, s), TokenEnd(inComment, s);
      && Strip(inComment, s) == TokenKept(inComment, s) + Strip(c, s[w..])
      && EndsInComment(inComment, s) == EndsInComment(c, s[w..])
  {}

  lemma TokenOfConcat(inComment: bool, p: string, q: string)
    requires p != [] && (q == [] || p[|p| - 1] != '-' || q[0] != '-')
    ensures
      var s, w := p + q, TokenWidth(inComment, p);
      && TokenWidth(inComment, s) == w && TokenEnd(inComment, s) == TokenEnd(inComment, p)
      && TokenKept(inComment, s) == TokenKept(inComment, p) && s[w..] == p[w..] + q
  {}

  lemma {:induction false} StripConcat(inComment: bool, p: string, q: string)
    requires p == [] || q == [] || p[|p| - 1] != '-' || q[0] != '-'
    ensures Strip(inComment, p + q) == Strip(inComment, p) + Strip(EndsInComment(inComment, p), q)
    decreases |p|
  {
    if p == [] {
      assert p + q == q;
    } else {
      var w, c, kept := TokenWidth(inComment, p), TokenEnd(inComment, p), TokenKept(inComment, p);
      StripToken(inComment, p);
      StripToken(inComment, p + q);
      TokenOfConcat(inComment, p, q);
      StripConcat(c, p[w..], q);
      Associate(kept, Strip(c, p[w..]), Strip(EndsInComment(c, p[w..]), q));
    }
  }

  lemma Associate(a: string, b: string, c: string)
    ensures a + (b + c) == a + b + c
  {}

  lemma {:induction false} StripBlank(inComment: bool, b: string)
    requires Blank(b)
    ensures Blank(Strip(inComment, b)) && (!inComment ==> !EndsInComment(inComment, b))
    decreases |b|
  {
    if b == [] {
    } else {
      assert IsSpace(b[0]);
      StripBlank(inComment && b[0] != '\n', b[1..]);
    }
  }

  /** Stripping a text with blank ends leaves blank ends around the stripped core. */
  lemma StripParts(l: string, t: string, r: string)
    requires Blank(l) && Blank(r)
    ensures Strip(false, l + (t + r)) == Strip(false, l) + (Strip(false, t) + Strip(EndsInComment(false, t), r))
  {
    assert l != [] ==> IsSpace(l[|l| - 1]);
    assert r != [] ==> IsSpace(r[0]);
    StripBlank(false, l);
    StripConcat(false, l, t + r);
    StripConcat(false, t, r);
  }

  lemma StripTrim(p: string)
    ensures Trim(Strip(false, Trim(p))) == Trim(Strip(false, p))
  {
    var l, r := TrimParts(p);
    var t := Trim(p);
    assert p == l + (t + r);
    StripParts(l, t, r);
    StripBlank(false, l);
    StripBlank(EndsInComment(false, t), r);
    var a, b, c := Strip(false, l), Strip(false, t), Strip(EndsInComment(false, t), r);
    assert a + (b + c) == a + b + c;
    TrimBlankEnds(a, b, c);
  }

  lemma {:induction false} TrimStripTrim(ps: seq<string>)
    ensures TrimAll(StripEach(TrimAll(ps))) == TrimAll(StripEach(ps))
  {
    if ps == [] {
    } else {
      TrimStripTrim(ps[1..]);
      StripTrim(ps[0]);
      assert StripEach(ps)[1..] == StripEach(ps[1..]);
      if Trim(ps[0]) == "" {
        assert Trim(Strip(false, "")) == "";
        assert TrimAll(ps) == TrimAll(ps[1..]);
        assert Emit(Strip(false, ps[0])) == [];
      } else {
        var ts := TrimAll(ps);
        assert ts[1..] == TrimAll(ps[1..]);
        assert StripEach(ts)[1..] == StripEach(ts[1..]);
      }
    }
  }

  lemma {:induction false} TrimAllDropsEmpty(ps: seq<string>)
    requires ps != []
    ensures TrimAll(DropEmptyLast(ps)) == TrimAll(ps)
  {
    if |ps| == 1 {
      assert Trim("") == "";
    } else {
      TrimAllDropsEmpty(ps[1..]);
      if ps[|ps| - 1] == "" {
        assert DropEmptyLast(ps)[1..] == DropEmptyLast(ps[1..]);
      }
    }
  }

  lemma SemicolonSurvivesTrim(p: string)
    ensures ';' in Trim(p) <==> ';' in p
  {
    var l, r := TrimParts(p);
    assert p == l + Trim(p) + r;
    if ';' in p {
      var i :| 0 <= i < |p| && p[i] == ';';
      RT.InCore(l, Trim(p), r, i);
    }
  }

  lemma {:induction false} SemicolonInTrimAll(ps: seq<string>)
    ensures (exists t :: t in TrimAll(ps) && ';' in t) <==> (exists p :: p in ps && ';' in p)
  {
    if ps == [] {
    } else {
      SemicolonSurvivesTrim(ps[0]);
      SemicolonInTrimAll(ps[1..]);
      assert ps == [ps[0]] + ps[1..];
      if ';' in ps[0] {
        assert Trim(ps[0]) in TrimAll(ps);
      }
      assert forall t :: t in TrimAll(ps) ==> t == Trim(ps[0]) || t in TrimAll(ps[1..]);
      assert forall t :: t in TrimAll(ps[1..]) ==> t in TrimAll(ps);
    }
  }

  ghost predicate HoldsSemicolon(ts: seq<string>) {
    exists t :: t in ts && ';' in t
  }

  /** Both views are trimmed lists of pieces. */
  lemma ViewsAreTrimmed(s: string)
    ensures MigratorView(s) == TrimAll(StripFrom(Normal, Pieces(Normal, s)))
    ensures DriftView(s) == TrimAll(DriftPieces(Strip(false, s), 0))
  {
    TrimStripTrim(Pieces(Normal, s));
    TrimAllDropsEmpty(DriftPieces(Strip(false, s), 0));
    assert StripEach(Pieces(Normal, s)) == StripFrom(Normal, Pieces(Normal, s));
  }

  lemma RunnerDropsSemicolons(s: string)
    requires Plain(Normal, s)
    ensures !HoldsSemicolon(MigratorView(s))
  {
    ViewsAreTrimmed(s);
    NoSemicolonLeft(Normal, s);
    SemicolonInTrimAll(StripFrom(Normal, Pieces(Normal, s)));
  }

  lemma CheckerKeepsSemicolon(s: string)
    requires !SemicolonsAtTop(Strip(false, s), 0)
    ensures HoldsSemicolon(DriftView(s))
  {
    var ds := DriftPieces(Strip(false, s), 0);
    ViewsAreTrimmed(s);
    var i := SemicolonKept(Strip(false, s), 0);
    assert ds[i] in ds;
    SemicolonInTrimAll(ds);
  }

  /** The two scanners, exactly: on a text without quotes and block comments they see the same
      statements if and only if every semicolon outside comments is at parenthesis depth zero. */
  lemma ScannersAgreeIff(s: string)
    requires Plain(Normal, s)
    ensures MigratorView(s) == DriftView(s) <==> SemicolonsAtTop(Strip(false, s), 0)
  {
    if SemicolonsAtTop(Strip(false, s), 0) {
      ViewsAreTrimmed(s);
      SamePieces(Normal, s, 0);
    } else {
      RunnerDropsSemicolons(s);
      CheckerKeepsSemicolon(s);
    }
  }

  // ---------- The drift checker's scanner on characters ----------

  lemma StripOne(s: string, tail: string)
    requires s != [] && tail == s[1..] && (tail == [] || s[0] != '-' || tail[0] != '-')
    ensures Strip(false, s) == [s[0]] + Strip(false, tail)
  {
    assert tail != [] ==> s[1] == tail[0];
  }

  /** Text without two dashes in a row is kept, */
  lemma {:induction false} StripKeeps(a: string, rest: string)
    requires !SG.HasPair(a, '-', '-') && (a == [] || rest == [] || a[|a| - 1] != '-' || rest[0] != '-')
    ensures Strip(false, a + rest) == a + Strip(false, rest)
  {
    if a == [] {
      assert a + rest == rest;
    } else {
      SG.PairInTail(a, '-', '-');
      StripOne(a + rest, a[1..] + rest);
      StripKeeps(a[1..], rest);
      Associate([a[0]], a[1..], Strip(false, rest));
      assert [a[0]] + a[1..] == a;
    }
  }

  lemma {:induction false} StripInside(b: string, rest: string)
    requires '\n' !in b
    ensures Strip(true, b + rest) == Strip(true, rest)
  {
    if b == [] {
      assert b + rest == rest;
    } else {
      assert (b + rest)[1..] == b[1..] + rest;
      StripInside(b[1..], rest);
    }
  }

  /** and two dashes drop everything up to the end of the line, which stays. */
  lemma StripDrops(b: string, rest: string)
    requires '\n' !in b
    ensures Strip(false, "--" + b + "\n" + rest) == "\n" + Strip(false, rest)
    ensures Strip(false, "--" + b) == ""
  {
    var s, tail := "--" + b + "\n" + rest, "\n" + rest;
    assert s[2..] == b + tail && tail[1..] == rest;
    StripInside(b, tail);
    assert ("--" + b)[2..] == b + "";
    StripInside(b, "");
  }

  function Occurrences(s: string, c: char): nat {
    if s == [] then 0 else Occurrences(s[1..], c) + (if s[0] == c then 1 else 0)
  }

  /** Opening less closing parentheses. */
  function Balance(s: string): int {
    Occurrences(s, '(') - Occurrences(s, ')')
  }

  /** Every semicolon at the top level means: as many parentheses closed as opened before each. */
  lemma {:induction false} AtTopMeaning(s: string, depth: int)
    ensures SemicolonsAtTop(s, depth) <==>
      forall k :: 0 <= k < |s| && s[k] == ';' ==> depth + Balance(s[..k]) == 0
  {
    if s == [] {
    } else {
      var tail := s[1..];
      AtTopMeaning(tail, Depth(s[0], depth));
      forall k | 0 <= k < |tail|
        ensures depth + Balance(s[..k + 1]) == Depth(s[0], depth) + Balance(tail[..k])
      {
        assert s[..k + 1][1..] == tail[..k];
      }
      assert forall k :: 0 < k < |s| ==> s[k] == tail[k - 1];
      forall k | 0 < k < |s|
        ensures depth + Balance(s[..k]) == Depth(s[0], depth) + Balance(tail[..k - 1])
      {
        assert k - 1 + 1 == k;
      }
      assert s[..0] == [];
    }
  }

  /** The two lists with the last piece of one and the first of the other run together. */
  function Attach(ps: seq<string>, qs: seq<string>): (r: seq<string>)
    requires ps != [] && qs != []
    ensures r != []
  {
    ps[..|ps| - 1] + Prepend(ps[|ps| - 1], qs)
  }

  lemma AttachCons(ps: seq<string>, qs: seq<string>)
    requires ps != [] && qs != []
    ensures Attach([""] + ps, qs) == [""] + Attach(ps, qs)
  {
    assert ([""] + ps)[..|ps|] == [""] + ps[..|ps| - 1];
  }

  lemma AttachPrepend(a: string, ps: seq<string>, qs: seq<string>)
    requires ps != [] && qs != []
    ensures Attach(Prepend(a, ps), qs) == Prepend(a, Attach(ps, qs))
  {
    var r := Prepend(a, ps);
    if |ps| == 1 {
      PrependPrepend(a, ps[0], qs);
      assert r[..0] == [] && Attach(ps, qs) == Prepend(ps[0], qs);
    } else {
      assert r[..|ps| - 1] == Prepend(a, ps[..|ps| - 1]);
    }
  }

  lemma BalanceStep(p: string, depth: int)
    requires p != []
    ensures depth + Balance(p) == Depth(p[0], depth) + Balance(p[1..])
  {}

  /** What one character makes of the pieces of the text after it. */
  function DriftCons(c: char, depth: int, rest: seq<string>): (r: seq<string>)
    requires rest != []
    ensures r != []
  {
    if c == ';' && depth == 0 then [""] + rest else Prepend([c], rest)
  }

  lemma DriftUnfold(s: string, tail: string, depth: int)
    requires s != [] && tail == s[1..]
    ensures DriftPieces(s, depth) == DriftCons(s[0], depth, DriftPieces(tail, Depth(s[0], depth)))
  {}

  lemma AttachDrift(c: char, depth: int, rest: seq<string>, last: seq<string>)
    requires rest != [] && last != []
    ensures Attach(DriftCons(c, depth, rest), last) == DriftCons(c, depth, Attach(rest, last))
  {
    AttachCons(rest, last);
    AttachPrepend([c], rest, last);
  }

  /** The depth runs on: scanning a concatenation goes on with the balance of what came before. */
  lemma {:induction false} DriftConcat(p: string, q: string, depth: int)
    ensures DriftPieces(p + q, depth) == Attach(DriftPieces(p, depth), DriftPieces(q, depth + Balance(p)))
    decreases |p|
  {
    if p == [] {
      assert p + q == q;
      PrependEmpty(DriftPieces(q, depth));
    } else {
      var next, tail := Depth(p[0], depth), p[1..];
      assert (p + q)[1..] == tail + q;
      BalanceStep(p, depth);
      DriftUnfold(p + q, tail + q, depth);
      DriftUnfold(p, tail, depth);
      DriftConcat(tail, q, next);
      AttachDrift(p[0], depth, DriftPieces(tail, next), DriftPieces(q, depth + Balance(p)));
    }
  }

  lemma AttachCut(ps: seq<string>, qs: seq<string>)
    requires ps != []
    ensures Attach(ps, [""] + qs) == ps + qs
  {
    var last := ps[|ps| - 1];
    RT.PrependToEmpty(last, qs);
    assert ps == ps[..|ps| - 1] + [last];
  }

  lemma DriftFromSemicolon(q: string, depth: int)
    ensures DriftPieces(";" + q, depth) ==
      if depth == 0 then [""] + DriftPieces(q, 0) else Prepend(";", DriftPieces(q, depth))
  {
    assert (";" + q)[1..] == q;
  }

  /** A semicolon is a cut exactly when as many parentheses were closed as opened before it. */
  lemma DriftCutsMeaning(p: string, q: string)
    ensures
      var ps, qs := DriftPieces(p, 0), DriftPieces(q, Balance(p));
      DriftPieces(p + ";" + q, 0) == if Balance(p) == 0 then ps + qs else Attach(ps, Prepend(";", qs))
  {
    Associate(p, ";", q);
    DriftConcat(p, ";" + q, 0);
    DriftFromSemicolon(q, Balance(p));
    if Balance(p) == 0 {
      AttachCut(DriftPieces(p, 0), DriftPieces(q, 0));
    }
  }
}
