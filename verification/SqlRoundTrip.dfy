/** Round trips of the migration splitter: cutting is the inverse of joining, and the list of
    statements survives being joined and split again. */
module SqlRoundTrip {
  import opened SqlSplitter

  function Join(ps: seq<string>, sep: string): string {
    if ps == [] then "" else if |ps| == 1 then ps[0] else ps[0] + sep + Join(ps[1..], sep)
  }

  /** No two-character token can start before `q` and end in it. */
  predicate Seam(q: string) {
    q == [] || (q[0] != '-' && q[0] != '*' && q[0] != '/')
  }

  /** The first token of a concatenation is the first token of its first part. */
  lemma FirstToken(m: Mode, p: string, q: string)
    requires p != [] && Seam(q)
    ensures
      var s, w := p + q, Width(m, p);
      && Width(m, s) == w && After(m, s) == After(m, p) && Cut(m, s) == Cut(m, p)
      && s[..w] == p[..w] && s[w..] == p[w..] + q
  {}

  /** Scanning a concatenation is scanning the parts in turn. */
  lemma {:induction false} ScanConcat(m: Mode, p: string, q: string)
    requires Seam(q)
    ensures Clean(m, p + q) <==> Clean(m, p) && Clean(End(m, p), q)
    ensures End(m, p + q) == End(End(m, p), q)
    decreases |p|
  {
    if p == [] {
      assert p + q == q;
    } else {
      FirstToken(m, p, q);
      ScanConcat(After(m, p), p[Width(m, p)..], q);
    }
  }

  lemma {:induction false} PiecesConcat(m: Mode, p: string, q: string)
    requires Seam(q) && Clean(m, p)
    ensures Pieces(m, p + q) == Prepend(p, Pieces(End(m, p), q))
    decreases |p|
  {
    if p == [] {
      assert p + q == q;
      PrependEmpty(Pieces(m, q));
    } else {
      var w := Width(m, p);
      FirstToken(m, p, q);
      PiecesConcat(After(m, p), p[w..], q);
      PrependPrepend(p[..w], p[w..], Pieces(End(m, p), q));
      assert p[..w] + p[w..] == p;
    }
  }

  /** A piece list the scanner could have produced from mode m: no live semicolon inside a piece,
      and every piece but the last ends outside quotes and comments. */
  ghost predicate WellCut(m: Mode, ps: seq<string>)
    decreases |ps|
  {
    && ps != [] && Clean(m, ps[0])
    && (|ps| > 1 ==> End(m, ps[0]) == Normal && WellCut(Normal, ps[1..]))
  }

  lemma {:induction false} FirstPiece(m: Mode, s: string)
    ensures Pieces(m, s)[0] <= s
    ensures Pieces(m, s)[0] == [] ==> s == [] || Cut(m, s)
    decreases |s|
  {
    if s == [] || Cut(m, s) {
    } else {
      FirstPiece(After(m, s), s[Width(m, s)..]);
      assert s == s[..Width(m, s)] + s[Width(m, s)..];
    }
  }

  lemma TokenOfPrefix(m: Mode, p: string, s: string)
    requires s != [] && p <= s && |p| >= Width(m, s)
    ensures Width(m, p) == Width(m, s) && After(m, p) == After(m, s) && Cut(m, p) == Cut(m, s)
  {}

  /** Away from a cut the first piece starts with the first token, and the rest is cut as before. */
  lemma PieceStep(m: Mode, s: string)
    requires s != [] && !Cut(m, s)
    ensures
      var w, rest := Width(m, s), Pieces(After(m, s), s[Width(m, s)..]);
      var p := s[..w] + rest[0];
      && Pieces(m, s)[0] == p && Pieces(m, s)[1..] == rest[1..]
      && Width(m, p) == w && After(m, p) == After(m, s) && !Cut(m, p) && p[w..] == rest[0]
  {
    var w := Width(m, s);
    var rest := Pieces(After(m, s), s[w..]);
    FirstPiece(After(m, s), s[w..]);
    var p := s[..w] + rest[0];
    assert p <= s;
    TokenOfPrefix(m, p, s);
  }

  lemma WellCutStep(m: Mode, s: string)
    requires s != [] && !Cut(m, s) && WellCut(After(m, s), Pieces(After(m, s), s[Width(m, s)..]))
    ensures WellCut(m, Pieces(m, s))
  {
    PieceStep(m, s);
  }

  lemma {:induction false} PiecesAreWellCut(m: Mode, s: string)
    ensures WellCut(m, Pieces(m, s))
    decreases |s|
  {
    if s == [] {
    } else if Cut(m, s) {
      PiecesAreWellCut(Normal, s[1..]);
      assert Pieces(m, s)[1..] == Pieces(Normal, s[1..]);
    } else {
      PiecesAreWellCut(After(m, s), s[Width(m, s)..]);
      WellCutStep(m, s);
    }
  }

  lemma JoinCut(ps: seq<string>, s: string)
    requires ps != [] && s != [] && s[0] == ';' && Join(ps, ";") == s[1..]
    ensures Join([""] + ps, ";") == s
  {
    assert ([""] + ps)[1..] == ps;
    assert "" + ";" + s[1..] == s;
  }

  /** Nothing is lost but the semicolons cut at. */
  lemma {:induction false} JoinPieces(m: Mode, s: string)
    ensures Join(Pieces(m, s), ";") == s
    decreases |s|
  {
    if s == [] {
    } else if Cut(m, s) {
      JoinPieces(Normal, s[1..]);
      JoinCut(Pieces(Normal, s[1..]), s);
    } else {
      var w := Width(m, s);
      JoinPieces(After(m, s), s[w..]);
      JoinPrepend(s[..w], Pieces(After(m, s), s[w..]), ";");
      assert s == s[..w] + s[w..];
    }
  }

  lemma JoinPrepend(p: string, ps: seq<string>, sep: string)
    requires ps != []
    ensures Join(Prepend(p, ps), sep) == p + Join(ps, sep)
  {
    var r := Prepend(p, ps);
    assert r[1..] == ps[1..];
    if |ps| > 1 {
      assert p + ps[0] + sep + Join(ps[1..], sep) == p + (ps[0] + sep + Join(ps[1..], sep));
    }
  }

  lemma JoinFirst(ps: seq<string>)
    requires |ps| > 1
    ensures Join(ps, ";") == ps[0] + (";" + Join(ps[1..], ";"))
  {}

  lemma PiecesFromSemicolon(tail: string)
    ensures Pieces(Normal, ";" + tail) == [""] + Pieces(Normal, tail)
  {
    assert (";" + tail)[1..] == tail;
  }

  lemma PrependToEmpty(p: string, ps: seq<string>)
    ensures Prepend(p, [""] + ps) == [p] + ps
  {
    assert p + "" == p;
  }

  /** Cutting is the inverse of joining: a list is what the scanner makes of a text exactly when
      it is well cut and joins to that text. */
  lemma {:induction false} CutInvertsJoin(m: Mode, ps: seq<string>)
    requires WellCut(m, ps)
    ensures Pieces(m, Join(ps, ";")) == ps
    decreases |ps|
  {
    var p := ps[0];
    if |ps| == 1 {
      PiecesConcat(m, p, "");
      assert p + "" == p;
      PrependToEmpty(p, []);
    } else {
      var tail := Join(ps[1..], ";");
      CutInvertsJoin(Normal, ps[1..]);
      PiecesFromSemicolon(tail);
      PiecesConcat(m, p, ";" + tail);
      JoinFirst(ps);
      PrependToEmpty(p, ps[1..]);
    }
  }

  lemma PiecesExact(s: string, ps: seq<string>)
    ensures ps == Pieces(Normal, s) <==> WellCut(Normal, ps) && Join(ps, ";") == s
  {
    PiecesAreWellCut(Normal, s);
    JoinPieces(Normal, s);
    if WellCut(Normal, ps) {
      CutInvertsJoin(Normal, ps);
    }
  }

  // ---------- Statements ----------

  lemma {:induction false} BlankScan(m: Mode, b: string)
    requires Blank(b)
    ensures Clean(m, b)
    ensures End(m, b) == m || (m == Line && End(m, b) == Normal)
    decreases |b|
  {
    if b == [] {
    } else {
      assert IsSpace(b[0]);
      BlankScan(After(m, b), b[1..]);
    }
  }

  /** Trimming a clean piece keeps it clean; a piece that ended outside quotes and comments then
      ends there or in a line comment whose line break was trimmed away. */
  lemma TrimKeepsClean(p: string)
    requires Clean(Normal, p)
    ensures Clean(Normal, Trim(p))
    ensures End(Normal, p) == Normal ==> End(Normal, Trim(p)) == Normal || End(Normal, Trim(p)) == Line
  {
    var l, r := TrimParts(p);
    var t := Trim(p);
    assert p == l + (t + r);
    BlankScan(Normal, l);
    assert Seam(r) by { if r != [] { assert IsSpace(r[0]); } }
    ScanConcat(Normal, t, r);
    BlankScan(End(Normal, t), r);
    LeadingBlank(l, t + r);
  }

  lemma BlankToken(s: string)
    requires s != [] && IsSpace(s[0])
    ensures Width(Normal, s) == 1 && After(Normal, s) == Normal && !Cut(Normal, s)
  {}

  lemma {:induction false} LeadingBlank(l: string, s: string)
    requires Blank(l)
    ensures Clean(Normal, l + s) <==> Clean(Normal, s)
    ensures End(Normal, l + s) == End(Normal, s)
  {
    if l == [] {
      assert l + s == s;
    } else {
      assert IsSpace(l[0]);
      assert (l + s)[1..] == l[1..] + s;
      BlankToken(l + s);
      LeadingBlank(l[1..], s);
    }
  }

  /** What every returned list satisfies: statements are non-empty, trimmed and free of semicolons
      outside quotes and comments, and all but the last end in normal or line-comment mode. */
  ghost predicate StatementList(ts: seq<string>) {
    && (forall i :: 0 <= i < |ts| ==> ts[i] != "" && Trimmed(ts[i]) && Clean(Normal, ts[i]))
    && (forall i :: 0 <= i < |ts| - 1 ==> End(Normal, ts[i]) == Normal || End(Normal, ts[i]) == Line)
  }

  lemma {:induction false} TrimAllStatements(ps: seq<string>)
    requires WellCut(Normal, ps)
    ensures StatementList(TrimAll(ps))
    decreases |ps|
  {
    var _, _ := TrimParts(ps[0]);
    TrimKeepsClean(ps[0]);
    if |ps| > 1 {
      TrimAllStatements(ps[1..]);
    } else {
      assert TrimAll(ps[1..]) == [];
    }
  }

  lemma SplitStatements(s: string)
    ensures StatementList(Split(s))
  {
    PiecesAreWellCut(Normal, s);
    TrimAllStatements(Pieces(Normal, s));
  }

  const SEPARATOR := "\n;\n"

  lemma LineBreakResets(m: Mode, s: string)
    requires m == Normal || m == Line
    ensures Pieces(m, "\n" + s) == Prepend("\n", Pieces(Normal, s))
  {
    var u := "\n" + s;
    assert Width(m, u) == 1 && After(m, u) == Normal && !Cut(m, u);
    assert u[..1] == "\n" && u[1..] == s;
  }

  lemma TrimAllLeadingBreak(ps: seq<string>)
    requires ps != []
    ensures TrimAll(Prepend("\n", ps)) == TrimAll(ps)
  {
    TrimBlankEnds("\n", ps[0], "");
    assert "\n" + ps[0] + "" == "\n" + ps[0];
    assert Prepend("\n", ps)[1..] == ps[1..];
  }

  /** A statement followed by the separator is cut off as one piece. */
  lemma PiecesAfterSeparator(t: string, tail: string)
    requires Clean(Normal, t) && (End(Normal, t) == Normal || End(Normal, t) == Line)
    ensures Pieces(Normal, t + (SEPARATOR + tail)) ==
      Prepend(t, Prepend("\n", [""] + Prepend("\n", Pieces(Normal, tail))))
  {
    var u := ";" + ("\n" + tail);
    assert SEPARATOR + tail == "\n" + u;
    PiecesConcat(Normal, t, "\n" + u);
    LineBreakResets(End(Normal, t), u);
    assert u[1..] == "\n" + tail && Cut(Normal, u);
    LineBreakResets(Normal, tail);
  }

  /** Joining with a line break before each semicolon and splitting again gives the list back. */
  lemma {:induction false} RejoinStatements(ts: seq<string>)
    requires StatementList(ts)
    ensures Split(Join(ts, SEPARATOR)) == ts
  {
    if |ts| == 0 {
      assert Trim("") == "";
    } else if |ts| == 1 {
      SplitOne(ts[0]);
      assert ts == [ts[0]];
    } else {
      var tail := Join(ts[1..], SEPARATOR);
      assert StatementList(ts[1..]);
      RejoinStatements(ts[1..]);
      assert Join(ts, SEPARATOR) == ts[0] + SEPARATOR + tail == ts[0] + (SEPARATOR + tail);
      SplitAfterSeparator(ts[0], tail);
    }
  }

  lemma SplitAfterSeparator(t: string, tail: string)
    requires t != "" && Trimmed(t) && Clean(Normal, t) && (End(Normal, t) == Normal || End(Normal, t) == Line)
    ensures Split(t + (SEPARATOR + tail)) == [t] + Split(tail)
  {
    PiecesAfterSeparator(t, tail);
    AssembleRejoin(t, Prepend("\n", Pieces(Normal, tail)));
    TrimAllLeadingBreak(Pieces(Normal, tail));
  }

  lemma AssembleRejoin(t: string, rest: seq<string>)
    requires t != "" && Trimmed(t)
    ensures TrimAll(Prepend(t, Prepend("\n", [""] + rest))) == [t] + TrimAll(rest)
  {
    var ps := Prepend(t, Prepend("\n", [""] + rest));
    assert ps[0] == t + "\n";
    assert ps[1..] == rest;
    TrimUnique("", t, "\n");
    assert "" + t + "\n" == t + "\n";
  }

  lemma {:induction false} TrimAllOfTrimmed(ts: seq<string>)
    requires forall i :: 0 <= i < |ts| ==> ts[i] != "" && Trimmed(ts[i])
    ensures TrimAll(ts) == ts
  {
    if ts == [] {
    } else {
      TrimUnique("", ts[0], "");
      assert "" + ts[0] + "" == ts[0];
      TrimAllOfTrimmed(ts[1..]);
    }
  }

  lemma SplitOne(t: string)
    requires t != "" && Trimmed(t) && Clean(Normal, t)
    ensures Split(t) == [t]
  {
    PiecesConcat(Normal, t, "");
    assert t + "" == t;
    assert Prepend(t, [""]) == [t];
    TrimAllOfTrimmed([t]);
  }

  /** The round trip for every text: joining the statements with newline, semicolon, newline and
      splitting again returns the same list, and each statement alone splits to itself. */
  lemma SplitterRoundTrip(s: string)
    ensures Split(Join(Split(s), SEPARATOR)) == Split(s)
    ensures forall i :: 0 <= i < |Split(s)| ==> Split(Split(s)[i]) == [Split(s)[i]]
  {
    SplitStatements(s);
    RejoinStatements(Split(s));
    forall i | 0 <= i < |Split(s)|
      ensures Split(Split(s)[i]) == [Split(s)[i]]
    {
      SplitOne(Split(s)[i]);
    }
  }

  lemma InCore(l: string, core: string, r: string, i: nat)
    requires Blank(l) && Blank(r) && i < |l + core + r| && !IsSpace((l + core + r)[i])
    ensures |l| <= i < |l| + |core|
  {}

  lemma BareSemicolonCuts(t: string, u: string)
    requires StatementList([t, u]) && End(Normal, t) == Normal
    ensures Split(t + ";" + u) == [t, u]
  {
    assert [t, u][0] == t && [t, u][1] == u;
    assert [t, u][1..] == [u] && Join([u], ";") == u;
    CutInvertsJoin(Normal, [t, u]);
    TrimAllOfTrimmed([t, u]);
  }

  lemma BareSemicolonSwallowed(t: string, u: string)
    requires t != "" && Trimmed(t) && Clean(Normal, t) && End(Normal, t) == Line
    ensures Split(t + ";" + u) != [] && |Split(t + ";" + u)[0]| > |t|
  {
    var q := ";" + u;
    assert t + ";" + u == t + q;
    PiecesConcat(Normal, t, q);
    assert q[..1] == ";";
    var ps := Pieces(Normal, t + q);
    assert ps[0][|t|] == ';' && ps[0][0] == t[0];
    var l, r := TrimParts(ps[0]);
    InCore(l, Trim(ps[0]), r, 0);
    InCore(l, Trim(ps[0]), r, |t|);
  }

  /** The line break in the separator is needed: two statements joined by a bare semicolon come
      apart again exactly when the first does not end in a line comment. */
  lemma BareSemicolonIff(t: string, u: string)
    requires StatementList([t, u])
    ensures Split(t + ";" + u) == [t, u] <==> End(Normal, t) == Normal
  {
    assert [t, u][0] == t;
    if End(Normal, t) == Normal {
      BareSemicolonCuts(t, u);
    } else {
      BareSemicolonSwallowed(t, u);
    }
  }
}
