/** The migration drift check (cmd/migrations-drift-check): pairing of files by prefix, snapshots of
    the columns they define, and the comparison. A file stands for the column definitions found in
    it, a prefix for its four-digit number; file order is prefix order. */
module DriftCheck {
  import opened Wrappers

  datatype ColumnDef = ColumnDef(table: string, column: string, notNull: bool)
  type File = seq<ColumnDef>
  type Listing = map<nat, File>

  datatype Pair = Pair(prefix: nat, postgres: Option<File>, sqlite: Option<File>)

  /** Table, column, nullability. */
  type Snapshot = map<string, map<string, bool>>

  datatype Message =
    | MissingPair(prefix: nat)
    | OnlyInPostgres(table: string, column: string)
    | OnlyInSqlite(table: string, column: string)
    | Nullability(table: string, column: string)

  // ---------- Pairing ----------

  function Get(l: Listing, p: nat): Option<File> {
    if p in l then Some(l[p]) else None
  }

  ghost predicate Ascending(s: seq<nat>) {
    forall i, j :: 0 <= i < j < |s| ==> s[i] < s[j]
  }

  method SortPrefixes(prefixes: set<nat>) returns (sorted: seq<nat>)
    ensures Sorts(sorted, prefixes)
  {
    sorted := [];
    var rest := prefixes;
    while rest != {}
      invariant Ascending(sorted) && rest <= prefixes
      invariant forall p :: p in sorted <==> p in prefixes && p !in rest
      invariant forall p, q :: p in sorted && q in rest ==> p < q
      decreases rest
    {
      LeastExists(rest);
      var least :| least in rest && forall q :: q in rest ==> least <= q by {
        var m :| IsLeast(m, rest);
        assert m in rest && forall q :: q in rest ==> m <= q;
      }
      rest := rest - {least};
      assert forall i :: 0 <= i < |sorted| ==> sorted[i] in sorted;
      sorted := sorted + [least];
    }
  }

  ghost predicate IsLeast(m: nat, s: set<nat>) {
    m in s && forall q :: q in s ==> m <= q
  }

  lemma {:induction false} LeastExists(s: set<nat>)
    requires s != {}
    ensures exists m :: IsLeast(m, s)
  {
    var x :| x in s;
    var rest := s - {x};
    assert forall q :: q in s ==> q == x || q in rest;
    if rest == {} {
      assert IsLeast(x, s);
    } else {
      LeastExists(rest);
      var m :| IsLeast(m, rest);
      assert IsLeast(if x < m then x else m, s);
    }
  }

  ghost predicate Sorts(sorted: seq<nat>, prefixes: set<nat>) {
    Ascending(sorted) && forall p :: p in sorted <==> p in prefixes
  }

  function MakePairs(sorted: seq<nat>, pg: Listing, sqlite: Listing): seq<Pair> {
    seq(|sorted|, i requires 0 <= i < |sorted| => Pair(sorted[i], Get(pg, sorted[i]), Get(sqlite, sorted[i])))
  }

  method BuildPairs(pg: Listing, sqlite: Listing) returns (pairs: seq<Pair>)
    ensures pairs == MakePairs(SortedOf(pg.Keys + sqlite.Keys), pg, sqlite)
  {
    var sorted := SortPrefixes(pg.Keys + sqlite.Keys);
    pairs := [];
    for k := 0 to |sorted|
      invariant pairs == MakePairs(sorted, pg, sqlite)[..k]
    {
      pairs := pairs + [Pair(sorted[k], Get(pg, sorted[k]), Get(sqlite, sorted[k]))];
    }
    SortedIsUnique(sorted, SortedOf(pg.Keys + sqlite.Keys), pg.Keys + sqlite.Keys);
  }

  predicate Unpaired(p: Pair) {
    p.postgres.None? || p.sqlite.None?
  }

  function PairMessages(pairs: seq<Pair>): seq<Message> {
    if pairs == [] then []
    else
      var p := pairs[|pairs| - 1];
      PairMessages(pairs[..|pairs| - 1]) + (if Unpaired(p) then [MissingPair(p.prefix)] else [])
  }

  method CheckPairs(pairs: seq<Pair>) returns (msgs: seq<Message>)
    ensures msgs == PairMessages(pairs)
  {
    msgs := [];
    for k := 0 to |pairs|
      invariant msgs == PairMessages(pairs[..k])
    {
      assert pairs[..k + 1][..k] == pairs[..k];
      if pairs[k].postgres.None? {
        msgs := msgs + [MissingPair(pairs[k].prefix)];
      } else if pairs[k].sqlite.None? {
        msgs := msgs + [MissingPair(pairs[k].prefix)];
      }
    }
    assert pairs[..|pairs|] == pairs;
  }

  function PairedDefs(pairs: seq<Pair>, postgres: bool): seq<ColumnDef> {
    if pairs == [] then []
    else
      var p := pairs[|pairs| - 1];
      PairedDefs(pairs[..|pairs| - 1], postgres) +
      (if Unpaired(p) then [] else if postgres then p.postgres.value else p.sqlite.value)
  }

  method OrderedPaired(pairs: seq<Pair>) returns (pg: seq<File>, sq: seq<File>)
    ensures Concat(pg) == PairedDefs(pairs, true) && Concat(sq) == PairedDefs(pairs, false)
  {
    pg, sq := [], [];
    for k := 0 to |pairs|
      invariant Concat(pg) == PairedDefs(pairs[..k], true) && Concat(sq) == PairedDefs(pairs[..k], false)
    {
      assert pairs[..k + 1][..k] == pairs[..k];
      if pairs[k].postgres.Some? && pairs[k].sqlite.Some? {
        ConcatAppend(pg, pairs[k].postgres.value);
        ConcatAppend(sq, pairs[k].sqlite.value);
        pg, sq := pg + [pairs[k].postgres.value], sq + [pairs[k].sqlite.value];
      }
    }
    assert pairs[..|pairs|] == pairs;
  }

  function Concat(files: seq<File>): seq<ColumnDef> {
    if files == [] then [] else Concat(files[..|files| - 1]) + files[|files| - 1]
  }

  lemma ConcatAppend(files: seq<File>, f: File)
    ensures Concat(files + [f]) == Concat(files) + f
  {
    assert (files + [f])[..|files|] == files;
  }

  // ---------- Snapshots ----------

  function AddColumn(snap: Snapshot, c: ColumnDef): Snapshot {
    var cols := if c.table in snap then snap[c.table] else map[];
    snap[c.table := cols[c.column := c.notNull]]
  }

  function SnapshotOf(defs: seq<ColumnDef>): Snapshot {
    if defs == [] then map[] else AddColumn(SnapshotOf(defs[..|defs| - 1]), defs[|defs| - 1])
  }

  method ScanFile(snap: Snapshot, file: File, ghost before: seq<ColumnDef>) returns (r: Snapshot)
    requires snap == SnapshotOf(before)
    ensures r == SnapshotOf(before + file)
  {
    r := snap;
    assert before + file[..0] == before;
    for j := 0 to |file|
      invariant r == SnapshotOf(before + file[..j])
    {
      assert (before + file[..j + 1])[..|before| + j] == before + file[..j];
      var c := file[j];
      var cols := if c.table in r then r[c.table] else map[];
      r := r[c.table := cols[c.column := c.notNull]];
    }
    assert file[..|file|] == file;
  }

  method BuildSnapshot(files: seq<File>) returns (snap: Snapshot)
    ensures snap == SnapshotOf(Concat(files))
  {
    snap := map[];
    for k := 0 to |files|
      invariant snap == SnapshotOf(Concat(files[..k]))
    {
      assert files[..k + 1] == files[..k] + [files[k]];
      ConcatAppend(files[..k], files[k]);
      snap := ScanFile(snap, files[k], Concat(files[..k]));
    }
    assert files[..|files|] == files;
  }

  function Lookup(snap: Snapshot, t: string, c: string): Option<bool> {
    if t in snap && c in snap[t] then Some(snap[t][c]) else None
  }

  /** The last definition of a column wins. */
  function LastDef(defs: seq<ColumnDef>, t: string, c: string): Option<bool> {
    if defs == [] then None
    else
      var d := defs[|defs| - 1];
      if d.table == t && d.column == c then Some(d.notNull) else LastDef(defs[..|defs| - 1], t, c)
  }

  lemma {:induction false} SnapshotMeaning(defs: seq<ColumnDef>, t: string, c: string)
    ensures Lookup(SnapshotOf(defs), t, c) == LastDef(defs, t, c)
  {
    if defs == [] {
    } else {
      SnapshotMeaning(defs[..|defs| - 1], t, c);
    }
  }

  // ---------- Comparison ----------

  function Columns(snap: Snapshot, t: string): set<string> {
    if t in snap then snap[t].Keys else {}
  }

  /** The (table, column) pairs on which the snapshots differ. */
  function Differing(pg: Snapshot, sq: Snapshot): set<(string, string)> {
    set t, c | t in pg.Keys + sq.Keys && c in Columns(pg, t) + Columns(sq, t) &&
               Lookup(pg, t, c) != Lookup(sq, t, c) :: (t, c)
  }

  /** The message two definitions of a column call for, if any. */
  function Verdict(p: Option<bool>, s: Option<bool>, t: string, c: string): seq<Message> {
    if p.Some? && s.None? then [OnlyInPostgres(t, c)]
    else if p.None? && s.Some? then [OnlyInSqlite(t, c)]
    else if p.Some? && s.Some? && p.value != s.value then [Nullability(t, c)]
    else []
  }

  function MessageFor(pg: Snapshot, sq: Snapshot, t: string, c: string): seq<Message> {
    Verdict(Lookup(pg, t, c), Lookup(sq, t, c), t, c)
  }

  /** The message says how the two definitions of its column differ. */
  predicate Describes(m: Message, p: Option<bool>, s: Option<bool>) {
    match m
    case MissingPair(_) => false
    case OnlyInPostgres(_, _) => p.Some? && s.None?
    case OnlyInSqlite(_, _) => p.None? && s.Some?
    case Nullability(_, _) => p.Some? && s.Some? && p.value != s.value
  }

  /** The message describes its own table and column. */
  predicate Justified(pg: Snapshot, sq: Snapshot, m: Message) {
    !m.MissingPair? && Describes(m, Lookup(pg, m.table, m.column), Lookup(sq, m.table, m.column))
  }

  lemma DifferingMembers(pg: Snapshot, sq: Snapshot, t: string, c: string)
    ensures (t, c) in Differing(pg, sq) <==> Lookup(pg, t, c) != Lookup(sq, t, c)
    ensures |MessageFor(pg, sq, t, c)| == if (t, c) in Differing(pg, sq) then 1 else 0
  {
    if Lookup(pg, t, c) != Lookup(sq, t, c) {
      assert t in pg.Keys + sq.Keys && c in Columns(pg, t) + Columns(sq, t);
    }
  }

  lemma JustifiedKeys(pg: Snapshot, sq: Snapshot, m: Message)
    requires Justified(pg, sq, m)
    ensures m.table in pg.Keys + sq.Keys && m.column in Columns(pg, m.table) + Columns(sq, m.table)
  {}

  lemma MessageForMembers(pg: Snapshot, sq: Snapshot, t: string, c: string)
    ensures forall m :: m in MessageFor(pg, sq, t, c) <==> Justified(pg, sq, m) && m.table == t && m.column == c
  {}

  /** Exactly the messages that differing pairs call for, each once, whatever order tables and columns
      are visited in. */
  method DiffSnapshots(pg: Snapshot, sq: Snapshot) returns (msgs: seq<Message>)
    ensures |msgs| == |Differing(pg, sq)|
    ensures forall m :: m in msgs <==> Justified(pg, sq, m)
  {
    msgs := [];
    var tables := pg.Keys + sq.Keys;
    ghost var covered: set<(string, string)> := {};
    ghost var all := Differing(pg, sq);
    forall m | Justified(pg, sq, m)
      ensures m.table in tables
    {
      JustifiedKeys(pg, sq, m);
    }
    while tables != {}
      invariant |msgs| == |covered|
      invariant forall p :: p in covered <==> p in all && p.0 !in tables
      invariant forall m :: m in msgs <==> Justified(pg, sq, m) && m.table !in tables
      decreases tables
    {
      var t :| t in tables;
      var part: seq<Message>;
      ghost var pairs: set<(string, string)>;
      part, pairs := DiffTable(pg, sq, t);
      assert covered !! pairs;
      DisjointUnion(covered, pairs);
      msgs, covered := msgs + part, covered + pairs;
      tables := tables - {t};
    }
    assert covered == all;
  }

  lemma DisjointUnion(a: set<(string, string)>, b: set<(string, string)>)
    requires a !! b
    ensures |a + b| == |a| + |b|
  {}

  method DiffTable(pg: Snapshot, sq: Snapshot, t: string)
    returns (msgs: seq<Message>, ghost pairs: set<(string, string)>)
    ensures |msgs| == |pairs|
    ensures forall p :: p in pairs <==> p in Differing(pg, sq) && p.0 == t
    ensures forall m :: m in msgs <==> Justified(pg, sq, m) && m.table == t
  {
    msgs, pairs := [], {};
    var cols := Columns(pg, t) + Columns(sq, t);
    forall m | Justified(pg, sq, m) && m.table == t
      ensures m.column in cols
    {
      JustifiedKeys(pg, sq, m);
    }
    while cols != {}
      invariant cols <= Columns(pg, t) + Columns(sq, t) && |msgs| == |pairs|
      invariant forall p :: p in pairs <==> p in Differing(pg, sq) && p.0 == t && p.1 !in cols
      invariant forall m :: m in msgs <==> Justified(pg, sq, m) && m.table == t && m.column !in cols
      decreases cols
    {
      var c :| c in cols;
      DifferingMembers(pg, sq, t, c);
      var new_ := MessageFor(pg, sq, t, c);
      MessageForMembers(pg, sq, t, c);
      pairs := pairs + if new_ != [] then {(t, c)} else {};
      msgs := msgs + new_;
      cols := cols - {c};
    }
  }

  // ---------- The decision ----------

  /** The command after both trees have been read: messages and exit code. */
  method Check(pg: Listing, sqlite: Listing) returns (exit: int, msgs: seq<Message>)
    ensures exit == if msgs == [] then 0 else 1
    ensures exit == 0 <==> InSync(pg, sqlite)
    ensures |msgs| == |Unmatched(pg, sqlite)| + |Disagreements(pg, sqlite)|
    ensures forall m :: m in msgs <==> Called(pg, sqlite, m)
  {
    var pairs := BuildPairs(pg, sqlite);
    ghost var sorted := SortedOf(pg.Keys + sqlite.Keys);
    msgs := CheckPairs(pairs);
    var pgOrdered, sqOrdered := OrderedPaired(pairs);
    var pgSnap := BuildSnapshot(pgOrdered);
    var sqSnap := BuildSnapshot(sqOrdered);
    var diff := DiffSnapshots(pgSnap, sqSnap);
    CountUnmatched(sorted, pg, sqlite);
    UnmatchedOfKeys(sorted, pg, sqlite);
    PairedDefsOf(sorted, pg, sqlite);
    forall m
      ensures m in msgs + diff <==> Called(pg, sqlite, m)
    {
      PairMessageMembers(sorted, pg, sqlite, m);
      CalledIsJustified(pg, sqlite, m);
    }
    msgs := msgs + diff;
    NothingToReportIff(pg, sqlite);
    exit := if |msgs| == 0 then 0 else 1;
  }

  /** Prefixes found in one tree only. */
  function Unmatched(pg: Listing, sqlite: Listing): set<nat> {
    (pg.Keys - sqlite.Keys) + (sqlite.Keys - pg.Keys)
  }

  ghost function SortedOf(prefixes: set<nat>): (s: seq<nat>)
    ensures Sorts(s, prefixes)
  {
    SortExists(prefixes);
    var s :| Sorts(s, prefixes);
    s
  }

  /** The definitions of one tree in prefix order, restricted to the prefixes both trees have. */
  function CommonDefs(sorted: seq<nat>, own: Listing, other: Listing): seq<ColumnDef> {
    if sorted == [] then []
    else
      var p := sorted[|sorted| - 1];
      CommonDefs(sorted[..|sorted| - 1], own, other) + (if p in own && p in other then own[p] else [])
  }

  /** Columns on which the last definitions of the two trees disagree. */
  ghost function Disagreements(pg: Listing, sqlite: Listing): set<(string, string)> {
    var sorted := SortedOf(pg.Keys + sqlite.Keys);
    Differing(SnapshotOf(CommonDefs(sorted, pg, sqlite)), SnapshotOf(CommonDefs(sorted, sqlite, pg)))
  }

  /** What the trees call for: a message for each prefix in one tree only and, going by the last
      definitions of the files both trees have, the message of each column they define differently. */
  ghost predicate Called(pg: Listing, sqlite: Listing, m: Message) {
    var sorted := SortedOf(pg.Keys + sqlite.Keys);
    var a, b := CommonDefs(sorted, pg, sqlite), CommonDefs(sorted, sqlite, pg);
    if m.MissingPair? then m.prefix in Unmatched(pg, sqlite)
    else Describes(m, LastDef(a, m.table, m.column), LastDef(b, m.table, m.column))
  }

  lemma CalledIsJustified(pg: Listing, sqlite: Listing, m: Message)
    ensures
      var sorted := SortedOf(pg.Keys + sqlite.Keys);
      var a, b := CommonDefs(sorted, pg, sqlite), CommonDefs(sorted, sqlite, pg);
      !m.MissingPair? ==> (Called(pg, sqlite, m) <==> Justified(SnapshotOf(a), SnapshotOf(b), m))
  {
    if !m.MissingPair? {
      var sorted := SortedOf(pg.Keys + sqlite.Keys);
      SnapshotMeaning(CommonDefs(sorted, pg, sqlite), m.table, m.column);
      SnapshotMeaning(CommonDefs(sorted, sqlite, pg), m.table, m.column);
    }
  }

  lemma {:induction false} PairMessageMembers(sorted: seq<nat>, pg: Listing, sqlite: Listing, m: Message)
    ensures m in PairMessages(MakePairs(sorted, pg, sqlite)) <==>
      m.MissingPair? && m.prefix in UnmatchedIn(sorted, pg, sqlite)
  {
    if sorted == [] {
    } else {
      var n := |sorted| - 1;
      var pairs, p := MakePairs(sorted, pg, sqlite), sorted[n];
      PairMessageMembers(sorted[..n], pg, sqlite, m);
      assert pairs[..n] == MakePairs(sorted[..n], pg, sqlite);
      assert Unpaired(pairs[n]) <==> p !in pg || p !in sqlite;
    }
  }

  lemma {:induction false} SortExists(prefixes: set<nat>)
    ensures exists s :: Sorts(s, prefixes)
  {
    if prefixes == {} {
      assert Sorts([], prefixes);
    } else {
      LeastExists(prefixes);
      var m :| IsLeast(m, prefixes);
      SortExists(prefixes - {m});
      var s :| Sorts(s, prefixes - {m});
      assert forall i :: 0 <= i < |s| ==> s[i] in s;
      assert Sorts([m] + s, prefixes);
    }
  }

  lemma {:induction false} SortedIsUnique(a: seq<nat>, b: seq<nat>, prefixes: set<nat>)
    requires Sorts(a, prefixes) && Sorts(b, prefixes)
    ensures a == b
    decreases |a|
  {
    if a == [] {
      assert forall i :: 0 <= i < |b| ==> b[i] in prefixes;
    } else {
      assert a[0] in a && a[0] in b;
      assert b[0] in b && b[0] in a;
      assert forall i :: 0 <= i < |a| ==> a[0] <= a[i];
      assert forall i :: 0 <= i < |b| ==> b[0] <= b[i];
      assert a[0] == b[0];
      SortsTail(a, prefixes);
      SortsTail(b, prefixes);
      SortedIsUnique(a[1..], b[1..], prefixes - {a[0]});
      assert a == [a[0]] + a[1..] && b == [b[0]] + b[1..];
    }
  }

  lemma SortsTail(s: seq<nat>, prefixes: set<nat>)
    requires Sorts(s, prefixes) && s != []
    ensures Sorts(s[1..], prefixes - {s[0]})
  {
    assert forall p :: p in s <==> p == s[0] || p in s[1..];
    assert s[0] !in s[1..];
  }

  function UnmatchedIn(sorted: seq<nat>, pg: Listing, sqlite: Listing): set<nat> {
    if sorted == [] then {}
    else
      var p := sorted[|sorted| - 1];
      UnmatchedIn(sorted[..|sorted| - 1], pg, sqlite) + (if p !in pg || p !in sqlite then {p} else {})
  }

  lemma {:induction false} UnmatchedMembers(sorted: seq<nat>, pg: Listing, sqlite: Listing, p: nat)
    ensures p in UnmatchedIn(sorted, pg, sqlite) <==> p in sorted && (p !in pg || p !in sqlite)
  {
    if sorted == [] {
    } else {
      UnmatchedMembers(sorted[..|sorted| - 1], pg, sqlite, p);
      assert p in sorted <==> p in sorted[..|sorted| - 1] || p == sorted[|sorted| - 1];
    }
  }

  lemma {:induction false} CountUnmatched(sorted: seq<nat>, pg: Listing, sqlite: Listing)
    requires Ascending(sorted)
    ensures |PairMessages(MakePairs(sorted, pg, sqlite))| == |UnmatchedIn(sorted, pg, sqlite)|
  {
    if sorted == [] {
    } else {
      var n := |sorted| - 1;
      var pairs, p := MakePairs(sorted, pg, sqlite), sorted[n];
      CountUnmatched(sorted[..n], pg, sqlite);
      assert pairs[..n] == MakePairs(sorted[..n], pg, sqlite);
      assert Unpaired(pairs[n]) <==> p !in pg || p !in sqlite;
      assert p !in sorted[..n];
      UnmatchedMembers(sorted[..n], pg, sqlite, p);
    }
  }

  lemma UnmatchedOfKeys(sorted: seq<nat>, pg: Listing, sqlite: Listing)
    requires Sorts(sorted, pg.Keys + sqlite.Keys)
    ensures UnmatchedIn(sorted, pg, sqlite) == Unmatched(pg, sqlite)
  {
    forall p
      ensures p in UnmatchedIn(sorted, pg, sqlite) <==> p in Unmatched(pg, sqlite)
    {
      UnmatchedMembers(sorted, pg, sqlite, p);
    }
  }

  lemma {:induction false} PairedDefsOf(sorted: seq<nat>, pg: Listing, sqlite: Listing)
    ensures PairedDefs(MakePairs(sorted, pg, sqlite), true) == CommonDefs(sorted, pg, sqlite)
    ensures PairedDefs(MakePairs(sorted, pg, sqlite), false) == CommonDefs(sorted, sqlite, pg)
  {
    if sorted == [] {
    } else {
      var n := |sorted| - 1;
      PairedDefsOf(sorted[..n], pg, sqlite);
      assert MakePairs(sorted, pg, sqlite)[..n] == MakePairs(sorted[..n], pg, sqlite);
    }
  }

  /** A tree's definitions in prefix order. */
  function AllDefs(sorted: seq<nat>, own: Listing): seq<ColumnDef> {
    CommonDefs(sorted, own, own)
  }

  lemma {:induction false} CommonIsAll(sorted: seq<nat>, own: Listing, other: Listing)
    requires own.Keys == other.Keys
    ensures CommonDefs(sorted, own, other) == AllDefs(sorted, own)
  {
    if sorted == [] {
    } else {
      CommonIsAll(sorted[..|sorted| - 1], own, other);
    }
  }

  /** Both trees have the same prefixes and, going by the last definition in prefix order, the same
      columns with the same nullability. */
  ghost predicate InSync(pg: Listing, sqlite: Listing) {
    var sorted := SortedOf(pg.Keys + sqlite.Keys);
    pg.Keys == sqlite.Keys && SameColumns(AllDefs(sorted, pg), AllDefs(sorted, sqlite))
  }

  ghost predicate SameColumns(a: seq<ColumnDef>, b: seq<ColumnDef>) {
    forall t, c :: LastDef(a, t, c) == LastDef(b, t, c)
  }

  /** The check is sound and complete: there is nothing to report exactly when the trees are
      in sync. */
  lemma NothingToReportIff(pg: Listing, sqlite: Listing)
    ensures |Unmatched(pg, sqlite)| + |Disagreements(pg, sqlite)| == 0 <==> InSync(pg, sqlite)
  {
    UnmatchedEmptyIff(pg, sqlite);
    if pg.Keys == sqlite.Keys {
      var sorted := SortedOf(pg.Keys + sqlite.Keys);
      CommonIsAll(sorted, pg, sqlite);
      CommonIsAll(sorted, sqlite, pg);
      DisagreementsMeaning(AllDefs(sorted, pg), AllDefs(sorted, sqlite));
    }
  }

  lemma UnmatchedEmptyIff(pg: Listing, sqlite: Listing)
    ensures |Unmatched(pg, sqlite)| == 0 <==> pg.Keys == sqlite.Keys
  {
    if Unmatched(pg, sqlite) == {} {
      forall p
        ensures p in pg.Keys <==> p in sqlite.Keys
      {
        assert p !in Unmatched(pg, sqlite);
      }
    }
  }

  lemma DifferingIsLastDef(a: seq<ColumnDef>, b: seq<ColumnDef>, t: string, c: string)
    ensures (t, c) in Differing(SnapshotOf(a), SnapshotOf(b)) <==> LastDef(a, t, c) != LastDef(b, t, c)
  {
    SnapshotMeaning(a, t, c);
    SnapshotMeaning(b, t, c);
    DifferingMembers(SnapshotOf(a), SnapshotOf(b), t, c);
  }

  lemma DisagreementsMeaning(a: seq<ColumnDef>, b: seq<ColumnDef>)
    ensures |Differing(SnapshotOf(a), SnapshotOf(b))| == 0 <==> SameColumns(a, b)
  {
    var d := Differing(SnapshotOf(a), SnapshotOf(b));
    if d == {} {
      forall t, c
        ensures LastDef(a, t, c) == LastDef(b, t, c)
      {
        DifferingIsLastDef(a, b, t, c);
      }
    } else {
      var p :| p in d;
      assert p == (p.0, p.1);
      DifferingIsLastDef(a, b, p.0, p.1);
    }
  }
}
