/** What the splitter's modes mean on characters. A text is a list of segments: code, single-quoted
    strings, line comments and block comments, each up to its first closing delimiter. The cuts are
    exactly the semicolons of the code segments (internal/database/migrator.go, splitSQLStatements). */
module SqlSegments {
  import opened SqlSplitter

  /** `closed` is false for a delimited segment that runs to the end of the text. */
  datatype Segment =
    | Code(text: string)
    | Quoted(body: string, closed: bool)
    | LineComment(body: string, closed: bool)
    | BlockComment(body: string, closed: bool)

  function Text(g: Segment): string {
    match g
    case Code(text) => text
    case Quoted(body, closed) => "'" + body + (if closed then "'" else "")
    case LineComment(body, closed) => "--" + body + (if closed then "\n" else "")
    case BlockComment(body, closed) => "/*" + body + (if closed then "*/" else "")
  }

  function TextOf(gs: seq<Segment>): string {
    if gs == [] then "" else Text(gs[0]) + TextOf(gs[1..])
  }

  /** The two characters stand next to each other in the text. */
  predicate HasPair(s: string, a: char, b: char) {
    exists k :: 0 <= k < |s| - 1 && s[k] == a && s[k + 1] == b
  }

  /** Code opens nothing, and a body does not hold its own closing delimiter. */
  predicate ValidSegment(g: Segment) {
    match g
    case Code(text) => text != "" && '\'' !in text && !HasPair(text, '-', '-') && !HasPair(text, '/', '*')
    case Quoted(body, _) => '\'' !in body
    case LineComment(body, _) => '\n' !in body
    case BlockComment(body, _) => !HasPair(body, '*', '/')
  }

  /** Only the last segment may be unclosed; code stretches as far as it can, so that no code follows it
      and it does not end in the dash that would open a following line comment. */
  predicate Valid(gs: seq<Segment>) {
    gs == [] ||
    (&& ValidSegment(gs[0]) && Valid(gs[1..])
     && (|gs| > 1 ==>
          if gs[0].Code? then !gs[1].Code? && (gs[1].LineComment? ==> gs[0].text[|gs[0].text| - 1] != '-')
          else gs[0].closed))
  }

  /** The text cut at the semicolons of its code segments. */
  function Cuts(gs: seq<Segment>): (ps: seq<string>)
    ensures ps != []
  {
    if gs == [] then [""]
    else if gs[0].Code? then CutCode(gs[0].text, Cuts(gs[1..]))
    else Prepend(Text(gs[0]), Cuts(gs[1..]))
  }

  function CutCode(t: string, rest: seq<string>): (ps: seq<string>)
    requires rest != []
    ensures ps != []
  {
    if t == "" then rest
    else if t[0] == ';' then [""] + CutCode(t[1..], rest)
    else Prepend([t[0]], CutCode(t[1..], rest))
  }

  // ---------- Scanning one segment ----------

  lemma Step1(m: Mode, s: string, rest: string)
    requires s != [] && s == [s[0]] + rest && !Cut(m, s) && Width(m, s) == 1
    ensures Pieces(m, s) == Prepend([s[0]], Pieces(After(m, s), rest))
  {
    assert s[1..] == rest && s[..1] == [s[0]];
  }

  lemma Step2(m: Mode, s: string, rest: string)
    requires |s| >= 2 && s == s[..2] + rest && !Cut(m, s) && Width(m, s) == 2
    ensures Pieces(m, s) == Prepend(s[..2], Pieces(After(m, s), rest))
  {
    assert s[2..] == rest;
  }

  lemma PairInTail(s: string, a: char, b: char)
    requires s != []
    ensures HasPair(s, a, b) <==> (|s| > 1 && s[0] == a && s[1] == b) || HasPair(s[1..], a, b)
  {
    var tail := s[1..];
    if HasPair(tail, a, b) {
      var k :| 0 <= k < |tail| - 1 && tail[k] == a && tail[k + 1] == b;
      assert s[k + 1] == a && s[k + 1 + 1] == b;
    }
    if HasPair(s, a, b) && !(|s| > 1 && s[0] == a && s[1] == b) {
      var k :| 0 <= k < |s| - 1 && s[k] == a && s[k + 1] == b;
      assert tail[k - 1] == a && tail[k - 1 + 1] == b;
    }
  }

  /** Inside a delimited segment nothing is a cut until its closing delimiter. */
  lemma {:induction false} BodyScan(m: Mode, body: string, rest: string)
    requires m == Quote ==> '\'' !in body
    requires m == Line ==> '\n' !in body
    requires m == Block ==> !HasPair(body, '*', '/') && (rest == [] || rest[0] != '/')
    requires m != Normal
    ensures Pieces(m, body + rest) == Prepend(body, Pieces(m, rest))
  {
    if body == [] {
      assert body + rest == rest;
      PrependEmpty(Pieces(m, rest));
    } else {
      var s, tail := body + rest, body[1..];
      assert s == [s[0]] + (tail + rest);
      PairInTail(body, '*', '/');
      Step1(m, s, tail + rest);
      BodyScan(m, tail, rest);
      PrependPrepend([s[0]], tail, Pieces(m, rest));
      assert [s[0]] + tail == body;
    }
  }

  /** A quoted string ends at its next quote, whatever is in it. */
  lemma QuotedScan(body: string, rest: string)
    requires '\'' !in body
    ensures Pieces(Normal, "'" + body + "'" + rest) == Prepend("'" + body + "'", Pieces(Normal, rest))
    ensures Pieces(Normal, "'" + body) == ["'" + body]
  {
    DelimitedScan("'", Quote, body, "'", rest);
    OpenScan("'", Quote, body);
  }

  /** A line comment ends at its newline. */
  lemma LineScan(body: string, rest: string)
    requires '\n' !in body
    ensures Pieces(Normal, "--" + body + "\n" + rest) == Prepend("--" + body + "\n", Pieces(Normal, rest))
    ensures Pieces(Normal, "--" + body) == ["--" + body]
  {
    DelimitedScan("--", Line, body, "\n", rest);
    OpenScan("--", Line, body);
  }

  /** A block comment ends at its first star and slash. */
  lemma BlockScan(body: string, rest: string)
    requires !HasPair(body, '*', '/')
    ensures Pieces(Normal, "/*" + body + "*/" + rest) == Prepend("/*" + body + "*/", Pieces(Normal, rest))
    ensures Pieces(Normal, "/*" + body) == ["/*" + body]
  {
    DelimitedScan("/*", Block, body, "*/", rest);
    OpenScan("/*", Block, body);
  }

  predicate Delimits(open: string, m: Mode, close: string) {
    || (open == "'" && m == Quote && close == "'")
    || (open == "--" && m == Line && close == "\n")
    || (open == "/*" && m == Block && close == "*/")
  }

  predicate ValidBody(m: Mode, body: string) {
    match m
    case Quote => '\'' !in body
    case Line => '\n' !in body
    case Block => !HasPair(body, '*', '/')
    case Normal => false
  }

  lemma OpenStep(open: string, m: Mode, close: string, rest: string)
    requires Delimits(open, m, close)
    ensures Pieces(Normal, open + rest) == Prepend(open, Pieces(m, rest))
  {
    var s := open + rest;
    if m == Quote {
      Step1(Normal, s, rest);
    } else {
      assert s[..2] == open;
      Step2(Normal, s, rest);
    }
  }

  lemma CloseStep(open: string, m: Mode, close: string, rest: string)
    requires Delimits(open, m, close)
    ensures Pieces(m, close + rest) == Prepend(close, Pieces(Normal, rest))
  {
    var s := close + rest;
    if m == Block {
      assert s[..2] == close;
      Step2(m, s, rest);
    } else {
      Step1(m, s, rest);
    }
  }

  lemma BodyCloseScan(open: string, m: Mode, body: string, close: string, rest: string)
    requires Delimits(open, m, close) && ValidBody(m, body)
    ensures Pieces(m, body + (close + rest)) == Prepend(body + close, Pieces(Normal, rest))
  {
    BodyScan(m, body, close + rest);
    CloseStep(open, m, close, rest);
    PrependPrepend(body, close, Pieces(Normal, rest));
  }

  lemma Reassociate(open: string, body: string, close: string, rest: string)
    ensures open + body + close + rest == open + (body + (close + rest)) && open + (body + close) == open + body + close
  {}

  lemma DelimitedScan(open: string, m: Mode, body: string, close: string, rest: string)
    requires Delimits(open, m, close) && ValidBody(m, body)
    ensures Pieces(Normal, open + body + close + rest) == Prepend(open + body + close, Pieces(Normal, rest))
  {
    Reassociate(open, body, close, rest);
    OpenStep(open, m, close, body + (close + rest));
    BodyCloseScan(open, m, body, close, rest);
    PrependPrepend(open, body + close, Pieces(Normal, rest));
  }

  lemma OpenScan(open: string, m: Mode, body: string)
    requires ValidBody(m, body) && (m == Quote ==> open == "'")
    requires (m == Line ==> open == "--") && (m == Block ==> open == "/*")
    ensures Pieces(Normal, open + body) == [open + body]
  {
    OpenStep(open, m, if m == Quote then "'" else if m == Line then "\n" else "*/", body);
    BodyScan(m, body, "");
    assert body + "" == body;
    PrependPrepend(open, body, [""]);
    assert Prepend(open + body, [""]) == [open + body + ""];
    assert open + body + "" == open + body;
  }

  /** Code is cut at its semicolons and opens nothing. */
  lemma {:induction false} CodeScan(t: string, rest: string)
    requires '\'' !in t && !HasPair(t, '-', '-') && !HasPair(t, '/', '*')
    requires rest == [] || t == [] || (t[|t| - 1] == '-' ==> rest[0] != '-')
    requires rest == [] || t == [] || (t[|t| - 1] == '/' ==> rest[0] != '*')
    ensures Pieces(Normal, t + rest) == CutCode(t, Pieces(Normal, rest))
  {
    if t == [] {
      assert t + rest == rest;
    } else {
      var s, tail := t + rest, t[1..];
      assert s == [s[0]] + (tail + rest);
      PairInTail(t, '-', '-');
      PairInTail(t, '/', '*');
      CodeScan(tail, rest);
      CodeToken(t, rest);
      if t[0] == ';' {
        assert s[1..] == tail + rest;
      } else {
        Step1(Normal, s, tail + rest);
      }
    }
  }

  lemma CodeToken(t: string, rest: string)
    requires t != [] && t[0] != '\''
    requires |t| > 1 ==> !(t[0] == '-' && t[1] == '-') && !(t[0] == '/' && t[1] == '*')
    requires |t| == 1 && rest != [] ==> !(t[0] == '-' && rest[0] == '-') && !(t[0] == '/' && rest[0] == '*')
    ensures Width(Normal, t + rest) == 1 && After(Normal, t + rest) == Normal
    ensures Cut(Normal, t + rest) <==> t[0] == ';'
  {}

  // ---------- Whole texts ----------

  lemma LonePiece(p: string)
    ensures Prepend(p, [""]) == [p]
  {
    assert p + "" == p;
  }

  lemma TextOfFirst(gs: seq<Segment>)
    requires Valid(gs) && gs != [] && !gs[0].Code?
    ensures TextOf(gs) != [] && TextOf(gs)[0] != '*'
    ensures TextOf(gs)[0] == '-' <==> gs[0].LineComment?
  {}

  function Opening(g: Segment): string
    requires !g.Code?
  {
    match g case Quoted(_, _) => "'" case LineComment(_, _) => "--" case BlockComment(_, _) => "/*"
  }

  lemma UnclosedText(g: Segment)
    requires !g.Code? && !g.closed
    ensures Text(g) == Opening(g) + g.body && Text(g) + "" == Text(g)
  {}

  /** A delimited segment is passed over whole, up to its closing delimiter or the end of the text. */
  lemma SegmentScan(g: Segment, rest: string)
    requires ValidSegment(g) && !g.Code? && (g.closed || rest == "")
    ensures Pieces(Normal, Text(g) + rest) == Prepend(Text(g), Pieces(Normal, rest))
  {
    match g {
      case Quoted(body, closed) => QuotedScan(body, rest);
      case LineComment(body, closed) => LineScan(body, rest);
      case BlockComment(body, closed) => BlockScan(body, rest);
    }
    if !g.closed {
      UnclosedText(g);
      LonePiece(Text(g));
    }
  }

  /** The meaning of the splitter: whatever quotes, comments and code a text is made of, it is cut at
      the semicolons of its code and nowhere else. */
  lemma {:induction false} CutsMeaning(gs: seq<Segment>)
    requires Valid(gs)
    ensures Pieces(Normal, TextOf(gs)) == Cuts(gs)
  {
    if gs == [] {
    } else {
      var g, rest := gs[0], TextOf(gs[1..]);
      CutsMeaning(gs[1..]);
      if g.Code? {
        if |gs| > 1 {
          TextOfFirst(gs[1..]);
        }
        CodeScan(g.text, rest);
      } else {
        SegmentScan(g, rest);
      }
    }
  }

  /** What opens at the start of a text, if anything. */
  predicate Opens(s: string) {
    s != "" && (s[0] == '\'' || (|s| > 1 && ((s[0] == '-' && s[1] == '-') || (s[0] == '/' && s[1] == '*'))))
  }

  /** How far code reaches. */
  lemma {:induction false} FindOpening(s: string) returns (k: nat)
    ensures k <= |s| && (k < |s| ==> Opens(s[k..]))
    ensures forall i :: 0 <= i < k ==> !Opens(s[i..])
  {
    if s == "" || Opens(s) {
      k := 0;
      assert s[0..] == s;
    } else {
      var k' := FindOpening(s[1..]);
      k := k' + 1;
      assert s[1..][k'..] == s[k..];
      forall i | 0 <= i < k
        ensures !Opens(s[i..])
      {
        if i == 0 {
          assert s[0..] == s;
        } else {
          assert s[1..][i - 1..] == s[i..];
        }
      }
    }
  }

  lemma CodeOpensNothing(s: string, k: nat)
    requires 0 < k <= |s| && forall i :: 0 <= i < k ==> !Opens(s[i..])
    ensures ValidSegment(Code(s[..k]))
    ensures k < |s| && s[k] == '-' ==> s[k - 1] != '-'
  {
    var t := s[..k];
    assert forall i :: 0 <= i < k ==> s[i..] != [] && s[i..][0] == t[i];
    assert forall i :: 0 <= i < |s| - 1 ==> s[i..][1] == s[i + 1];
  }

  lemma {:induction false} FindChar(s: string, c: char) returns (k: nat)
    ensures k <= |s| && (k < |s| ==> s[k] == c) && c !in s[..k]
  {
    if s == "" || s[0] == c {
      k := 0;
    } else {
      var k' := FindChar(s[1..], c);
      k := k' + 1;
      assert s[..k] == [s[0]] + s[1..][..k'];
    }
  }

  lemma {:induction false} FindPair(s: string, a: char, b: char) returns (k: nat)
    requires a != b
    ensures k <= |s| && (k < |s| ==> k + 1 < |s| && s[k] == a && s[k + 1] == b) && !HasPair(s[..k], a, b)
  {
    if s == "" || (|s| > 1 && s[0] == a && s[1] == b) {
      k := 0;
    } else {
      var k' := FindPair(s[1..], a, b);
      k := k' + 1;
      var t := s[..k];
      assert t[1..] == s[1..][..k'];
      PairInTail(t, a, b);
    }
  }

  /** Every text is made of segments. */
  lemma {:induction false} Segmented(s: string) returns (gs: seq<Segment>)
    ensures Valid(gs) && TextOf(gs) == s
    ensures s != "" ==> gs != [] && (gs[0].Code? <==> !Opens(s))
    decreases |s|
  {
    if s == "" {
      gs := [];
    } else {
      var g, n := FirstSegment(s);
      var rest := Segmented(s[n..]);
      gs := [g] + rest;
      assert gs[1..] == rest;
      assert s == s[..n] + s[n..];
    }
  }

  /** The segment that opens with `open` and whose body has k characters. */
  lemma TakeDelimited(s: string, open: string, k: nat, close: string) returns (n: nat)
    requires open <= s && |open| + k <= |s| && open != ""
    requires |open| + k < |s| ==> |open| + k + |close| <= |s| && s[|open| + k..|open| + k + |close|] == close
    ensures |open| <= n <= |s|
    ensures s[..n] == open + s[|open|..][..k] + (if |open| + k < |s| then close else "")
    ensures n < |s| ==> |open| + k < |s|
  {
    n := if |open| + k < |s| then |open| + k + |close| else |s|;
    assert s[..|open|] == open && s[|open|..][..k] == s[|open|..|open| + k];
    assert s[..|open| + k] == open + s[|open|..][..k];
  }

  lemma FirstSegment(s: string) returns (g: Segment, n: nat)
    requires s != ""
    ensures 0 < n <= |s| && Text(g) == s[..n] && ValidSegment(g) && (g.Code? <==> !Opens(s))
    ensures g.Code? && n < |s| ==> Opens(s[n..]) && (s[n] == '-' ==> s[n - 1] != '-')
    ensures !g.Code? && n < |s| ==> g.closed
  {
    if !Opens(s) {
      n := FindOpening(s);
      assert s[0..] == s;
      CodeOpensNothing(s, n);
      g := Code(s[..n]);
    } else {
      g, n := FirstDelimited(s);
    }
  }

  lemma FirstDelimited(s: string) returns (g: Segment, n: nat)
    requires Opens(s)
    ensures 0 < n <= |s| && Text(g) == s[..n] && ValidSegment(g) && !g.Code?
    ensures n < |s| ==> g.closed
  {
    if s[0] == '\'' {
      var k := FindChar(s[1..], '\'');
      n := TakeDelimited(s, "'", k, "'");
      g := Quoted(s[1..][..k], 1 + k < |s|);
    } else if s[0] == '-' {
      var k := FindChar(s[2..], '\n');
      n := TakeDelimited(s, "--", k, "\n");
      g := LineComment(s[2..][..k], 2 + k < |s|);
    } else {
      var k := FindPair(s[2..], '*', '/');
      n := TakeDelimited(s, "/*", k, "*/");
      g := BlockComment(s[2..][..k], 2 + k < |s|);
    }
  }

  // ---------- Statements ----------

  /** The statement a piece holds: its text between blank ends, if it is not blank. */
  lemma OnePiece(l: string, t: string, r: string)
    requires Blank(l) && Blank(r) && Trimmed(t)
    ensures TrimAll([l + t + r]) == if t == "" then [] else [t]
  {
    TrimUnique(l, t, r);
    assert [l + t + r][1..] == [];
  }

  lemma {:induction false} TrimAllConcat(a: seq<string>, b: seq<string>)
    ensures TrimAll(a + b) == TrimAll(a) + TrimAll(b)
  {
    if a == [] {
      assert a + b == b;
    } else {
      assert (a + b)[1..] == a[1..] + b;
      TrimAllConcat(a[1..], b);
    }
  }

  /** The splitter, exactly and on characters: every text is made of segments, and of whatever segments
      it is made, its statements are the pieces between the semicolons of its code, with blank ends
      trimmed and blank pieces dropped. */
  lemma SplitMeaning(s: string) returns (gs: seq<Segment>)
    ensures Valid(gs) && TextOf(gs) == s
    ensures forall hs: seq<Segment> :: Valid(hs) && TextOf(hs) == s ==> Split(s) == TrimAll(Cuts(hs))
  {
    gs := Segmented(s);
    forall hs: seq<Segment> | Valid(hs) && TextOf(hs) == s
      ensures Split(s) == TrimAll(Cuts(hs))
    {
      CutsMeaning(hs);
    }
  }

  // ---------- Where a text ends ----------

  /** The segment the text ends in. */
  function LastMode(gs: seq<Segment>): Mode {
    if gs == [] || gs[|gs| - 1].Code? || gs[|gs| - 1].closed then Normal
    else match gs[|gs| - 1]
    case Quoted(_, _) => Quote
    case LineComment(_, _) => Line
    case BlockComment(_, _) => Block
  }

  lemma {:induction false} BodyEnd(m: Mode, body: string, rest: string)
    requires ValidBody(m, body) && (m == Block && rest != [] ==> rest[0] != '/')
    ensures End(m, body + rest) == End(m, rest)
  {
    if body == [] {
      assert body + rest == rest;
    } else {
      var s := body + rest;
      PairInTail(body, '*', '/');
      assert s[1..] == body[1..] + rest;
      BodyEnd(m, body[1..], rest);
    }
  }

  lemma OpenEnd(open: string, m: Mode, close: string, rest: string)
    requires Delimits(open, m, close)
    ensures End(Normal, open + rest) == End(m, rest)
  {
    var s := open + rest;
    assert s[|open|..] == rest && Width(Normal, s) == |open| && After(Normal, s) == m;
  }

  lemma CloseEnd(open: string, m: Mode, close: string, rest: string)
    requires Delimits(open, m, close)
    ensures End(m, close + rest) == End(Normal, rest)
  {
    var s := close + rest;
    assert s[|close|..] == rest && Width(m, s) == |close| && After(m, s) == Normal;
  }

  lemma DelimitedEnd(open: string, m: Mode, body: string, close: string, rest: string)
    requires Delimits(open, m, close) && ValidBody(m, body)
    ensures End(Normal, open + body + close + rest) == End(Normal, rest)
  {
    var after := close + rest;
    assert open + body + close + rest == open + (body + after);
    OpenEnd(open, m, close, body + after);
    BodyEnd(m, body, after);
    CloseEnd(open, m, close, rest);
  }

  lemma UnclosedEnd(open: string, m: Mode, body: string, close: string)
    requires Delimits(open, m, close) && ValidBody(m, body)
    ensures End(Normal, open + body) == m
  {
    OpenEnd(open, m, close, body);
    BodyEnd(m, body, "");
    assert body + "" == body;
  }

  lemma CodeEndStep(t: string, rest: string, s: string)
    requires t != [] && s == t + rest && Width(Normal, s) == 1 && After(Normal, s) == Normal
    ensures End(Normal, s) == End(Normal, t[1..] + rest)
  {
    assert s[1..] == t[1..] + rest;
  }

  lemma {:induction false} CodeEnd(t: string, rest: string)
    requires '\'' !in t && !HasPair(t, '-', '-') && !HasPair(t, '/', '*')
    requires rest == [] || t == [] || (t[|t| - 1] == '-' ==> rest[0] != '-')
    requires rest == [] || t == [] || (t[|t| - 1] == '/' ==> rest[0] != '*')
    ensures End(Normal, t + rest) == End(Normal, rest)
  {
    if t == [] {
      assert t + rest == rest;
    } else {
      PairInTail(t, '-', '-');
      PairInTail(t, '/', '*');
      CodeToken(t, rest);
      CodeEndStep(t, rest, t + rest);
      CodeEnd(t[1..], rest);
    }
  }

  lemma SegmentEnd(g: Segment, rest: string)
    requires ValidSegment(g) && !g.Code? && (g.closed || rest == "")
    ensures End(Normal, Text(g) + rest) == if g.closed then End(Normal, rest) else LastMode([g])
  {
    match g {
      case Quoted(body, closed) =>
        DelimitedEnd("'", Quote, body, "'", rest);
        UnclosedEnd("'", Quote, body, "'");
      case LineComment(body, closed) =>
        DelimitedEnd("--", Line, body, "\n", rest);
        UnclosedEnd("--", Line, body, "\n");
      case BlockComment(body, closed) =>
        DelimitedEnd("/*", Block, body, "*/", rest);
        UnclosedEnd("/*", Block, body, "*/");
    }
    if !g.closed {
      UnclosedText(g);
    }
  }

  /** The mode in which scanning ends is that of an unclosed last segment. */
  lemma {:induction false} EndMeaning(gs: seq<Segment>)
    requires Valid(gs)
    ensures End(Normal, TextOf(gs)) == LastMode(gs)
  {
    if gs == [] {
    } else {
      var g, rest := gs[0], TextOf(gs[1..]);
      EndMeaning(gs[1..]);
      if g.Code? {
        if |gs| > 1 {
          TextOfFirst(gs[1..]);
        }
        CodeEnd(g.text, rest);
      } else {
        SegmentEnd(g, rest);
      }
    }
  }

  lemma {:induction false} CleanIsOnePiece(m: Mode, s: string)
    ensures Clean(m, s) <==> |Pieces(m, s)| == 1
    decreases |s|
  {
    if s == [] {
    } else if !Cut(m, s) {
      CleanIsOnePiece(After(m, s), s[Width(m, s)..]);
    }
  }

  lemma {:induction false} CutCodeLength(t: string, rest: seq<string>)
    requires rest != []
    ensures |CutCode(t, rest)| >= |rest| && (|CutCode(t, rest)| == |rest| <==> ';' !in t)
  {
    if t == "" {
    } else {
      CutCodeLength(t[1..], rest);
      assert t == [t[0]] + t[1..];
    }
  }

  lemma {:induction false} OneCut(gs: seq<Segment>)
    ensures |Cuts(gs)| == 1 <==> forall i :: 0 <= i < |gs| && gs[i].Code? ==> ';' !in gs[i].text
  {
    if gs == [] {
    } else {
      OneCut(gs[1..]);
      if gs[0].Code? {
        CutCodeLength(gs[0].text, Cuts(gs[1..]));
      }
      assert forall i :: 0 <= i < |gs| - 1 ==> gs[1..][i] == gs[i + 1];
    }
  }

  /** A text is free of live semicolons exactly when its code has none. */
  lemma CleanMeaning(gs: seq<Segment>)
    requires Valid(gs)
    ensures Clean(Normal, TextOf(gs)) <==> forall i :: 0 <= i < |gs| && gs[i].Code? ==> ';' !in gs[i].text
  {
    CutsMeaning(gs);
    CleanIsOnePiece(Normal, TextOf(gs));
    OneCut(gs);
  }
}
