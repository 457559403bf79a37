/** The migration runner's statement splitter (internal/database/migrator.go, splitSQLStatements):
    one pass over the text that knows single quotes, line comments and block comments. */
module SqlSplitter {

  datatype Mode = Normal | Quote | Line | Block

  /** `unicode.IsSpace`, the set that `strings.TrimSpace` removes. */
  predicate IsSpace(c: char) {
    || '\t' <= c <= '\r' || c == ' ' || c == '\U{85}' || c == '\U{A0}' || c == '\U{1680}'
    || '\U{2000}' <= c <= '\U{200A}' || c == '\U{2028}' || c == '\U{2029}' || c == '\U{202F}'
    || c == '\U{205F}' || c == '\U{3000}'
  }

  function TrimLeft(s: string): string {
    if s != [] && IsSpace(s[0]) then TrimLeft(s[1..]) else s
  }

  function TrimRight(s: string): string {
    if s != [] && IsSpace(s[|s| - 1]) then TrimRight(s[..|s| - 1]) else s
  }

  function Trim(s: string): string {
    TrimRight(TrimLeft(s))
  }

  // ---------- Trimming ----------

  predicate Blank(s: string) {
    forall i :: 0 <= i < |s| ==> IsSpace(s[i])
  }

  /** A text with no white space at either end. */
  predicate Trimmed(s: string) {
    s != [] ==> !IsSpace(s[0]) && !IsSpace(s[|s| - 1])
  }

  /** White space by code point. */
  lemma SpaceCodePoints(c: char)
    ensures IsSpace(c) <==>
      var n := c as int;
      || 9 <= n <= 13 || n == 32 || n == 133 || n == 160 || n == 5760 || 8192 <= n <= 8202
      || n == 8232 || n == 8233 || n == 8239 || n == 8287 || n == 12288
  {}

  lemma {:induction false} TrimLeftBlank(l: string, s: string)
    requires Blank(l)
    ensures TrimLeft(l + s) == TrimLeft(s)
  {
    if l == [] {
      assert l + s == s;
    } else {
      assert (l + s)[1..] == l[1..] + s;
      TrimLeftBlank(l[1..], s);
    }
  }

  lemma {:induction false} TrimRightBlank(s: string, r: string)
    requires Blank(r)
    ensures TrimRight(s + r) == TrimRight(s)
  {
    if r == [] {
      assert s + r == s;
    } else {
      assert (s + r)[..|s + r| - 1] == s + r[..|r| - 1];
      TrimRightBlank(s, r[..|r| - 1]);
    }
  }

  /** `Trim` is determined by its meaning: drop blank ends, keep a trimmed core. */
  lemma TrimUnique(l: string, t: string, r: string)
    requires Blank(l) && Blank(r) && Trimmed(t)
    ensures Trim(l + t + r) == t
  {
    assert l + t + r == l + (t + r);
    TrimLeftBlank(l, t + r);
    if t == [] {
      assert t + r == r + [];
      TrimLeftBlank(r, []);
    } else {
      TrimRightBlank(t, r);
    }
  }

  lemma {:induction false} TrimLeftParts(s: string) returns (l: string)
    ensures s == l + TrimLeft(s) && Blank(l)
    ensures TrimLeft(s) != [] ==> !IsSpace(TrimLeft(s)[0])
  {
    if s != [] && IsSpace(s[0]) {
      var l' := TrimLeftParts(s[1..]);
      l := [s[0]] + l';
      assert s == [s[0]] + s[1..];
    } else {
      l := "";
    }
  }

  lemma {:induction false} TrimRightParts(s: string) returns (r: string)
    ensures s == TrimRight(s) + r && Blank(r)
    ensures TrimRight(s) != [] ==> !IsSpace(TrimRight(s)[|TrimRight(s)| - 1])
  {
    if s != [] && IsSpace(s[|s| - 1]) {
      var r' := TrimRightParts(s[..|s| - 1]);
      r := r' + [s[|s| - 1]];
      assert s == s[..|s| - 1] + [s[|s| - 1]];
    } else {
      r := "";
    }
  }

  lemma TrimParts(s: string) returns (l: string, r: string)
    ensures s == l + Trim(s) + r && Blank(l) && Blank(r) && Trimmed(Trim(s))
  {
    var a := TrimLeft(s);
    var t := TrimRight(a);
    l := TrimLeftParts(s);
    r := TrimRightParts(a);
    assert l + t + r == l + (t + r) == l + a;
    assert t != [] ==> a[0] == t[0];
  }

  /** Blank ends do not change what trimming leaves. */
  lemma TrimBlankEnds(l: string, s: string, r: string)
    requires Blank(l) && Blank(r)
    ensures Trim(l + s + r) == Trim(s)
  {
    var a, b := TrimParts(s);
    assert l + s + r == (l + a) + Trim(s) + (b + r);
    TrimUnique(l + a, Trim(s), b + r);
  }

  // ---------- Scanning ----------

  /** How many characters the scanner consumes at once. */
  function Width(m: Mode, s: string): (w: nat)
    requires s != []
    ensures 1 <= w <= 2 && w <= |s|
  {
    if |s| >= 2 && ((m == Normal && ((s[0] == '-' && s[1] == '-') || (s[0] == '/' && s[1] == '*'))) ||
                    (m == Block && s[0] == '*' && s[1] == '/'))
    then 2 else 1
  }

  /** The mode after consuming them. */
  function After(m: Mode, s: string): Mode
    requires s != []
  {
    match m
    case Line => if s[0] == '\n' then Normal else Line
    case Block => if Width(m, s) == 2 then Normal else Block
    case Quote => if s[0] == '\'' then Normal else Quote
    case Normal =>
      if Width(m, s) == 2 then (if s[0] == '-' then Line else Block)
      else if s[0] == '\'' then Quote else Normal
  }

  /** A semicolon outside quotes and comments. */
  predicate Cut(m: Mode, s: string)
    requires s != []
  {
    m == Normal && s[0] == ';'
  }

  function Prepend(p: string, ps: seq<string>): (r: seq<string>)
    requires ps != []
    ensures |r| == |ps| && r[0] == p + ps[0] && forall i :: 1 <= i < |ps| ==> r[i] == ps[i]
  {
    [p + ps[0]] + ps[1..]
  }

  /** The text cut at its semicolons outside quotes and comments. */
  function Pieces(m: Mode, s: string): (ps: seq<string>)
    ensures ps != []
    decreases |s|
  {
    if s == [] then [""]
    else if Cut(m, s) then [""] + Pieces(Normal, s[1..])
    else Prepend(s[..Width(m, s)], Pieces(After(m, s), s[Width(m, s)..]))
  }

  /** The pieces trimmed, empty ones dropped. */
  function TrimAll(ps: seq<string>): seq<string> {
    if ps == [] then []
    else Emit(ps[0]) + TrimAll(ps[1..])
  }

  function Split(s: string): seq<string> {
    TrimAll(Pieces(Normal, s))
  }

  /** No semicolon outside quotes and comments. */
  predicate Clean(m: Mode, s: string)
    decreases |s|
  {
    s == [] || (!Cut(m, s) && Clean(After(m, s), s[Width(m, s)..]))
  }

  /** The mode in which scanning the text ends. */
  function End(m: Mode, s: string): Mode
    decreases |s|
  {
    if s == [] then m else End(After(m, s), s[Width(m, s)..])
  }

  // ---------- The imperative scanner ----------

  function Emit(builder: string): seq<string> {
    if Trim(builder) == "" then [] else [Trim(builder)]
  }

  /** What is still to be returned with `builder` collected and `rest` unread. */
  function Remaining(builder: string, m: Mode, rest: string): seq<string>
    decreases |rest|
  {
    if rest == [] then Emit(builder)
    else if Cut(m, rest) then Emit(builder) + Remaining("", Normal, rest[1..])
    else Remaining(builder + rest[..Width(m, rest)], After(m, rest), rest[Width(m, rest)..])
  }

  lemma {:induction false} RemainingMeaning(builder: string, m: Mode, rest: string)
    ensures Remaining(builder, m, rest) == TrimAll(Prepend(builder, Pieces(m, rest)))
    decreases |rest|
  {
    if rest == [] {
      assert builder + "" == builder;
      assert Prepend(builder, [""]) == [builder];
      assert TrimAll([builder]) == Emit(builder) + TrimAll([builder][1..]);
    } else {
      PrependStep(builder, m, rest);
      if Cut(m, rest) {
        RemainingMeaning("", Normal, rest[1..]);
      } else {
        RemainingMeaning(builder + rest[..Width(m, rest)], After(m, rest), rest[Width(m, rest)..]);
      }
    }
  }

  /** One scanner step, with the statements found so far. */
  lemma RemainingStep(done: seq<string>, builder: string, m: Mode, rest: string)
    requires rest != []
    ensures
      var w, cut := Width(m, rest), Cut(m, rest);
      done + Remaining(builder, m, rest) ==
        (done + if cut then Emit(builder) else []) +
        Remaining(if cut then "" else builder + rest[..w], After(m, rest), rest[w..])
  {}

  /** The flags after the current character, whether the next one is consumed with it, and whether a
      statement ends here. */
  method Advance(
      current: char, next: char, inQuote: bool, inLine: bool, inBlock: bool, ghost m: Mode, ghost rest: string)
    returns (quote: bool, line: bool, block: bool, two: bool, cut: bool)
    requires inQuote == (m == Quote) && inLine == (m == Line) && inBlock == (m == Block)
    requires rest != [] && rest[0] == current && next == if |rest| > 1 then rest[1] else '\0'
    ensures
      var m' := After(m, rest);
      quote == (m' == Quote) && line == (m' == Line) && block == (m' == Block)
    ensures two <==> Width(m, rest) == 2
    ensures cut <==> Cut(m, rest)
  {
    quote, line, block, two, cut := inQuote, inLine, inBlock, false, false;
    if inLine {
      if current == '\n' {
        line := false;
      }
    } else if inBlock {
      if current == '*' && next == '/' {
        two, block := true, false;
      }
    } else if !inQuote && current == '-' && next == '-' {
      two, line := true, true;
    } else if !inQuote && current == '/' && next == '*' {
      two, block := true, true;
    } else if current == '\'' {
      quote := !inQuote;
    } else if current == ';' && !inQuote {
      cut := true;
    }
  }

  method SplitSQLStatements(sql: string) returns (statements: seq<string>)
    ensures statements == Split(sql)
  {
    statements := [];
    var builder := "";
    var inSingleQuote, inLineComment, inBlockComment := false, false, false;
    ghost var mode := Normal;
    var index := 0;
    RemainingMeaning("", Normal, sql);
    PrependEmpty(Pieces(Normal, sql));
    ghost var whole, rest := Remaining("", Normal, sql), sql;
    while index < |sql|
      invariant 0 <= index <= |sql| && rest == sql[index..]
      invariant inSingleQuote == (mode == Quote) && inLineComment == (mode == Line) && inBlockComment == (mode == Block)
      invariant whole == statements + Remaining(builder, mode, rest)
    {
      var current := sql[index];
      var next := if index + 1 < |sql| then sql[index + 1] else '\0';
      RemainingStep(statements, builder, mode, rest);
      var two, cut;
      inSingleQuote, inLineComment, inBlockComment, two, cut :=
        Advance(current, next, inSingleQuote, inLineComment, inBlockComment, mode, rest);
      ghost var w := if two then 2 else 1;
      assert rest[..w] == if two then [current, next] else [current];
      mode := After(mode, rest);
      if cut {
        var statement := Trim(builder);
        statements := statements + if statement != "" then [statement] else [];
        builder := "";
      } else {
        builder := builder + if two then [current, next] else [current];
      }
      assert rest[w..] == sql[index + w..];
      rest := rest[w..];
      index := if two then index + 2 else index + 1;
    }
    var trailing := Trim(builder);
    if trailing != "" {
      statements := statements + [trailing];
    }
  }

  lemma PrependEmpty(ps: seq<string>)
    requires ps != []
    ensures Prepend("", ps) == ps
  {
    assert "" + ps[0] == ps[0];
  }

  lemma PrependPrepend(a: string, b: string, ps: seq<string>)
    requires ps != []
    ensures Prepend(a, Prepend(b, ps)) == Prepend(a + b, ps)
  {
    assert a + (b + ps[0]) == a + b + ps[0];
  }

  /** One scanner step moves the consumed characters from the text to the current piece. */
  lemma PrependStep(b: string, m: Mode, s: string)
    requires s != []
    ensures !Cut(m, s) ==>
      Prepend(b, Pieces(m, s)) == Prepend(b + s[..Width(m, s)], Pieces(After(m, s), s[Width(m, s)..]))
    ensures Cut(m, s) ==>
      TrimAll(Prepend(b, Pieces(m, s))) ==
        Emit(b) + TrimAll(Prepend("", Pieces(Normal, s[1..])))
  {
    if Cut(m, s) {
      var rest := Pieces(Normal, s[1..]);
      assert b + "" == b;
      assert Prepend(b, [""] + rest) == [b] + rest;
      PrependEmpty(rest);
    } else {
      PrependPrepend(b, s[..Width(m, s)], Pieces(After(m, s), s[Width(m, s)..]));
    }
  }
}
