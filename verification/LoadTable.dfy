// _split and load_table.
module LoadTable {
  import opened Text
  import opened Dictionary
  import TD = TableData
  import TT = TableTheorems
  import opened Tables

  function Find(s: string, d: char): (i: nat)
    ensures i <= |s| && (i < |s| ==> s[i] == d) && forall k :: 0 <= k < i ==> s[k] != d
  {
    if s == [] || s[0] == d then 0 else 1 + Find(s[1..], d)
  }

  // The tokens that std::getline reads: a delimiter ends a token, and nothing follows the last one.
  function Split(s: string, d: char): seq<string>
    decreases |s|
  {
    if s == [] then []
    else
      var i := Find(s, d);
      if i == |s| then [s] else [s[..i]] + Split(s[i + 1..], d)
  }

  // What getline leaves in the stream.
  function Rest(s: string, d: char): (r: string)
    ensures s != [] ==> |r| < |s|
  {
    var i := Find(s, d);
    if i == |s| then [] else s[i + 1..]
  }

  lemma SplitNext(s: string, d: char)
    requires s != []
    ensures Split(s, d) == [s[..Find(s, d)]] + Split(Rest(s, d), d)
  {
    var i := Find(s, d);
    if i == |s| { assert s[..i] == s; }
  }

  method SplitString(str: string, delimiter: char) returns (internal: seq<string>)
    ensures internal == Split(str, delimiter)
  {
    internal := [];
    var ss := str;
    while ss != []
      invariant internal + Split(ss, delimiter) == Split(str, delimiter)
      decreases |ss|
    {
      SplitNext(ss, delimiter);
      var tok, rest := ss[..Find(ss, delimiter)], Rest(ss, delimiter);
      assert internal + ([tok] + Split(rest, delimiter)) == internal + [tok] + Split(rest, delimiter);
      internal, ss := internal + [tok], rest;
    }
  }

  function Join(fields: seq<string>, d: char): string {
    if fields == [] then []
    else if |fields| == 1 then fields[0]
    else fields[0] + [d] + Join(fields[1..], d)
  }

  predicate Clean(fields: seq<string>, d: char) { forall k :: 0 <= k < |fields| ==> d !in fields[k] }

  lemma FindAtEnd(a: string, b: string, d: char)
    requires d !in a && (b == [] || b[0] == d)
    ensures Find(a + b, d) == |a|
  {
    assert forall i :: 0 <= i < |a| ==> (a + b)[i] == a[i];
    assert b != [] ==> (a + b)[|a|] == b[0];
  }

  lemma SplitFirst(a: string, tail: string, d: char)
    requires d !in a
    ensures Split(a + [d] + tail, d) == [a] + Split(tail, d)
  {
    var s := a + ([d] + tail);
    FindAtEnd(a, [d] + tail, d);
    assert a + [d] + tail == s && s[..|a|] == a && s[|a| + 1..] == tail;
  }

  lemma JoinCons(a: string, fields: seq<string>, d: char)
    ensures Join([a] + fields, d) == if fields == [] then a else a + [d] + Join(fields, d)
  {
    assert ([a] + fields)[1..] == fields;
  }

  function DropLastEmpty(fields: seq<string>): seq<string> {
    var n := |fields|;
    if n > 0 && fields[n - 1] == [] then fields[..n - 1] else fields
  }

  lemma SplitWhole(a: string, d: char)
    requires d !in a
    ensures Split(a, d) == DropLastEmpty([a])
  {
    FindAtEnd(a, [], d);
    assert a + [] == a;
  }

  lemma DropLastEmptyCons(a: string, fields: seq<string>)
    requires fields != []
    ensures DropLastEmpty([a] + fields) == [a] + DropLastEmpty(fields)
  {
    var n := |fields|;
    assert ([a] + fields)[n] == fields[n - 1] && ([a] + fields)[..n] == [a] + fields[..n - 1];
  }

  // Splitting what was joined loses an empty last field and nothing else.
  lemma {:induction false} SplitOfJoin(fields: seq<string>, d: char)
    requires Clean(fields, d)
    ensures Split(Join(fields, d), d) == DropLastEmpty(fields)
  {
    if fields != [] {
      var a, rest := fields[0], fields[1..];
      assert fields == [a] + rest;
      JoinCons(a, rest, d);
      if rest == [] {
        SplitWhole(a, d);
      } else {
        SplitOfJoin(rest, d);
        SplitFirst(a, Join(rest, d), d);
        DropLastEmptyCons(a, rest);
      }
    }
  }

  lemma {:induction false} TokensAreClean(s: string, d: char)
    ensures Clean(Split(s, d), d)
    decreases |s|
  {
    if s != [] {
      var i := Find(s, d);
      if i < |s| { TokensAreClean(s[i + 1..], d); }
    }
  }

  // Exactly when splitting gives the fields back.
  lemma SplitUndoesJoin(fields: seq<string>, d: char)
    ensures Split(Join(fields, d), d) == fields <==>
            Clean(fields, d) && (fields != [] ==> fields[|fields| - 1] != [])
  {
    TokensAreClean(Join(fields, d), d);
    if Clean(fields, d) { SplitOfJoin(fields, d); }
  }

  function DropLastDelimiter(s: string, d: char): string {
    if s != [] && s[|s| - 1] == d then s[..|s| - 1] else s
  }

  lemma DropAfter(a: string, rest: string, d: char)
    ensures DropLastDelimiter(a + [d] + rest, d) == if rest == [] then a else a + [d] + DropLastDelimiter(rest, d)
  {
    var s := a + [d] + rest;
    assert s[|s| - 1] == if rest == [] then d else rest[|rest| - 1];
    if rest == [] {
      assert s[..|s| - 1] == a;
    } else {
      assert s[..|s| - 1] == a + [d] + rest[..|rest| - 1];
    }
  }

  // Joining what was split restores the text up to one trailing delimiter.
  lemma {:induction false} JoinUndoesSplit(s: string, d: char)
    ensures Join(Split(s, d), d) == DropLastDelimiter(s, d)
    decreases |s|
  {
    var i := Find(s, d);
    if i < |s| {
      var first, rest := s[..i], s[i + 1..];
      JoinUndoesSplit(rest, d);
      JoinCons(first, Split(rest, d), d);
      assert s == first + [d] + rest;
      DropAfter(first, rest, d);
    }
  }

  const BAR := '|'

  const NEWLINE := '\n'

  // A text file as std::getline reads it; closed says that a newline ends its last line.
  datatype TextFile = TextFile(lines: seq<string>, closed: bool) {
    // What the first and the second std::getline leave in their string. Past the end of the file
    // the second one finds an empty line only after a newline; otherwise it does nothing.
    function First(): string { if lines == [] then [] else lines[0] }

    function Second(): string {
      if |lines| >= 2 then lines[1] else if |lines| == 1 && closed then [] else First()
    }

    function Names(): seq<string> { Split(First(), BAR) }

    function DataLines(): seq<string> { if |lines| >= 2 then lines[2..] else [] }

    // As many types as names at least, and one token per column on every data line.
    predicate WellFormed() {
      && |Names()| <= |Split(Second(), BAR)|
      && forall k :: 0 <= k < |DataLines()| ==> |Split(DataLines()[k], BAR)| == |Names()|
    }

    function Types(): (r: seq<string>)
      requires WellFormed()
      ensures |r| == |Names()|
    {
      Split(Second(), BAR)[..|Names()|]
    }

    // The rows of the first n data lines. Without columns there are none.
    function Rows<V>(ts: TD.Types<V>, toVariant: string -> V, n: nat): seq<TD.Row<V>>
      requires WellFormed() && n <= |DataLines()|
    {
      if Names() == [] then []
      else seq(n, k requires 0 <= k < n => TD.CastRow(ts, Types(), Variants(Split(DataLines()[k], BAR), toVariant)))
    }
  }

  function FileOf(text: string): TextFile {
    TextFile(Split(text, NEWLINE), text != [] && text[|text| - 1] == NEWLINE)
  }

  // The tokens of each line.
  function Tokens(lines: seq<string>): (r: seq<seq<string>>)
    ensures |r| == |lines| && forall k :: 0 <= k < |lines| ==> r[k] == Split(lines[k], '|')
  {
    seq(|lines|, k requires 0 <= k < |lines| => Split(lines[k], '|'))
  }

  // Every cell is the field in its place, cast to the type of its column.
  ghost predicate AreCells<V>(
    ts: TD.Types<V>, toVariant: string -> V, types: seq<string>, fields: seq<seq<string>>, rows: seq<TD.Row<V>>)
  {
    && |rows| == |fields|
    && (forall k :: 0 <= k < |fields| ==> |rows[k]| == |fields[k]| == |types|)
    && forall k, j :: 0 <= k < |fields| && 0 <= j < |types| ==>
         rows[k][j] == Some(ts.cast(types[j])(toVariant(fields[k][j])))
  }

  function Variants<V>(fields: seq<string>, toVariant: string -> V): (r: seq<V>)
    ensures |r| == |fields|
  {
    seq(|fields|, j requires 0 <= j < |fields| => toVariant(fields[j]))
  }

  method AddColumns<V(!new)>(table: Table<V>, names: seq<string>, types: seq<string>)
    requires table.Valid() && |names| <= |types| && table.colNames == table.colTypes == []
    requires table.data == TT.NewTable(table.ts, table.chunkSize, []) && |table.chunks| == 1
    modifies table, table.chunks
    ensures table.Valid() && table.chunks == old(table.chunks) && fresh(table.segs - old(table.segs))
    ensures table.colNames == names && table.colTypes == types[..|names|]
    ensures table.data == TT.NewTable(table.ts, table.chunkSize, types[..|names|])
  {
    for i := 0 to |names|
      invariant table.Valid() && table.chunks == old(table.chunks) && fresh(table.segs - old(table.segs))
      invariant table.colNames == names[..i] && table.colTypes == types[..i]
      invariant table.data == TT.NewTable(table.ts, table.chunkSize, types[..i])
    {
      table.AddColumn(names[i], types[i]);
    }
  }

  // A new table with a column for every name.
  method MakeTable<V(!new)>(ts: TD.Types<V>, chunkSize: nat, names: seq<string>, types: seq<string>)
    returns (table: Table<V>)
    requires |names| <= |types|
    ensures fresh(table) && fresh(table.chunks) && fresh(table.segs) && table.Valid() && table.ts == ts
    ensures table.data == TT.NewTable(ts, chunkSize, types[..|names|]) && table.colNames == names
  {
    table := new Table(ts, chunkSize);
    AddColumns(table, names, types);
  }

  lemma NextFileRow<V>(ts: TD.Types<V>, toVariant: string -> V, file: TextFile, n: nat)
    requires file.WellFormed() && n < |file.DataLines()|
    ensures |Split(file.DataLines()[n], BAR)| == |file.Types()|
    ensures file.Rows(ts, toVariant, n + 1) ==
            file.Rows(ts, toVariant, n) +
            if file.Names() == [] then []
            else [TD.CastRow(ts, file.Types(), Variants(Split(file.DataLines()[n], BAR), toVariant))]
  {
  }

  // A table without columns takes an empty row and stays as it is.
  lemma EmptyRow<V(!new)>(ts: TD.Types<V>, t: TD.Table<V>, row: seq<V>)
    requires t == TT.NewTable(ts, t.chunkSize, []) && 1 <= t.chunkSize < ID_RANGE && row == []
    ensures TT.LastFits(t) && TD.Append(ts, t, row) == Some(t)
  {
    assert TD.Last(t) == [] && TD.AppendUpTo(TD.Last(t), row, 0) == [];
    assert TD.ReplaceLast(t, TD.Last(t)).chunks == t.chunks;
  }

  // The table as a value after n data lines.
  ghost predicate Holds<V(!new)>(ts: TD.Types<V>, t: TD.Table<V>, toVariant: string -> V, file: TextFile, n: nat)
    requires file.WellFormed() && n <= |file.DataLines()|
  {
    && t.types == file.Types() && 1 <= t.chunkSize < ID_RANGE
    && TD.Rows(t.chunks) == file.Rows(ts, toVariant, n)
    && if t.types == [] then t == TT.NewTable(ts, t.chunkSize, []) else TT.Sound(ts, t) && TT.CodedAreFull(t)
  }

  lemma HoldsNext<V(!new)>(ts: TD.Types<V>, t: TD.Table<V>, toVariant: string -> V, file: TextFile, n: nat)
    requires TD.Lawful(ts) && file.WellFormed() && n < |file.DataLines()| && Holds(ts, t, toVariant, file, n)
    ensures var row := Variants(Split(file.DataLines()[n], BAR), toVariant);
            && TT.LastFits(t) && |row| == |t.types|
            && TD.Append(ts, t, row).Some? && Holds(ts, TD.Append(ts, t, row).value, toVariant, file, n + 1)
  {
    var row := Variants(Split(file.DataLines()[n], BAR), toVariant);
    NextFileRow(ts, toVariant, file, n);
    if t.types == [] {
      EmptyRow(ts, t, row);
    } else {
      TT.SoundTablesFit(ts, t);
      TD.AppendRefines(ts, t, row);
      TT.AppendKeepsFull(ts, t, row);
    }
  }

  lemma HoldsNothing<V(!new)>(ts: TD.Types<V>, chunkSize: nat, toVariant: string -> V, file: TextFile)
    requires file.WellFormed() && 1 <= chunkSize < ID_RANGE
    ensures Holds(ts, TT.NewTable(ts, chunkSize, file.Types()), toVariant, file, 0)
  {
    var t := TT.NewTable(ts, chunkSize, file.Types());
    if file.Types() == [] {
      assert TD.ChunkRows(t.chunks[0]) == [] && t.chunks[..0] == [];
    } else {
      TT.NewTableIsSound(ts, chunkSize, file.Types());
    }
  }

  // Appending the tokens of line takes table t to t'.
  ghost predicate Takes<V(!new)>(
    ts: TD.Types<V>, toVariant: string -> V, line: string, t: TD.Table<V>, t': TD.Table<V>)
  {
    && TT.LastFits(t) && |Split(line, BAR)| == |t.types|
    && TD.Append(ts, t, Variants(Split(line, BAR), toVariant)) == Some(t')
  }

  method LoadLine<V(!new)>(table: Table<V>, toVariant: string -> V, line: string, ghost next: TD.Table<V>)
    requires table.Valid() && Takes(table.ts, toVariant, line, table.data, next)
    modifies table, table.chunks, table.segs
    ensures table.Valid() && table.data == next && table.colNames == old(table.colNames)
    ensures fresh(table.segs - old(table.segs))
    ensures fresh(table.Objects(table.chunks) - table.Objects(old(table.chunks)))
  {
    var fields := SplitString(line, BAR);
    var _ := table.Append(Variants(fields, toVariant));
  }

  // A line takes each table to the next one.
  ghost predicate LinesLead<V(!new)>(
    ts: TD.Types<V>, toVariant: string -> V, lines: seq<string>, tables: seq<TD.Table<V>>)
  {
    |tables| == |lines| + 1 && forall n :: 0 <= n < |lines| ==> Takes(ts, toVariant, lines[n], tables[n], tables[n + 1])
  }

  // The loop over the data lines.
  method AppendLines<V(!new)>(
    table: Table<V>, toVariant: string -> V, lines: seq<string>, ghost tables: seq<TD.Table<V>>)
    requires table.Valid() && LinesLead(table.ts, toVariant, lines, tables) && table.data == tables[0]
    modifies table, table.chunks, table.segs
    ensures table.Valid() && table.colNames == old(table.colNames) && table.data == tables[|lines|]
  {
    for n := 0 to |lines|
      invariant table.Valid() && table.data == tables[n]
      invariant table.colNames == old(table.colNames) && fresh(table.segs - old(table.segs))
      invariant fresh(table.Objects(table.chunks) - table.Objects(old(table.chunks)))
    {
      LoadLine(table, toVariant, lines[n], tables[n + 1]);
    }
  }

  lemma NextTable<V(!new)>(ts: TD.Types<V>, t: TD.Table<V>, toVariant: string -> V, file: TextFile, n: nat)
    returns (t': TD.Table<V>)
    requires TD.Lawful(ts) && file.WellFormed() && n < |file.DataLines()| && Holds(ts, t, toVariant, file, n)
    ensures Takes(ts, toVariant, file.DataLines()[n], t, t') && Holds(ts, t', toVariant, file, n + 1)
  {
    HoldsNext(ts, t, toVariant, file, n);
    t' := TD.Append(ts, t, Variants(Split(file.DataLines()[n], BAR), toVariant)).value;
  }

  lemma OneMoreTable<V(!new)>(
    ts: TD.Types<V>, toVariant: string -> V, lines: seq<string>, tables: seq<TD.Table<V>>, t: TD.Table<V>)
    requires tables != [] && |tables| <= |lines| && LinesLead(ts, toVariant, lines[..|tables| - 1], tables)
    requires Takes(ts, toVariant, lines[|tables| - 1], tables[|tables| - 1], t)
    ensures LinesLead(ts, toVariant, lines[..|tables|], tables + [t])
  {
    var m, all, before, ls := |tables|, tables + [t], lines[..|tables| - 1], lines[..|tables|];
    forall n | 0 <= n < m ensures Takes(ts, toVariant, ls[n], all[n], all[n + 1]) {
      if n < m - 1 {
        assert Takes(ts, toVariant, before[n], tables[n], tables[n + 1]);
      }
    }
  }

  // The tables after each of the first n data lines.
  lemma {:induction false} TablesOf<V(!new)>(
    ts: TD.Types<V>, t: TD.Table<V>, toVariant: string -> V, file: TextFile, n: nat)
    returns (tables: seq<TD.Table<V>>)
    requires TD.Lawful(ts) && file.WellFormed() && Holds(ts, t, toVariant, file, 0) && n <= |file.DataLines()|
    ensures LinesLead(ts, toVariant, file.DataLines()[..n], tables) && tables[0] == t
    ensures Holds(ts, tables[n], toVariant, file, n)
  {
    tables := [t];
    if n > 0 {
      tables := TablesOf(ts, t, toVariant, file, n - 1);
      var next := NextTable(ts, tables[n - 1], toVariant, file, n - 1);
      OneMoreTable(ts, toVariant, file.DataLines(), tables, next);
      tables := tables + [next];
    }
  }

  method FillTable<V(!new)>(table: Table<V>, toVariant: string -> V, file: TextFile)
    requires TD.Lawful(table.ts) && file.WellFormed()
    requires table.Valid() && Holds(table.ts, table.data, toVariant, file, 0)
    modifies table, table.chunks, table.segs
    ensures table.Valid() && table.colNames == old(table.colNames)
    ensures Holds(table.ts, table.data, toVariant, file, |file.DataLines()|)
  {
    var lines := file.DataLines();
    ghost var tables := TablesOf(table.ts, table.data, toVariant, file, |lines|);
    assert lines[..|lines|] == lines;
    AppendLines(table, toVariant, lines, tables);
  }

  // The table that load_table builds from the text of a file; size_t chunk_size is cut to 32 bits.
  method LoadTable<V(!new)>(ts: TD.Types<V>, toVariant: string -> V, text: string, chunkSize: nat)
    returns (table: Table<V>)
    requires TD.Lawful(ts) && FileOf(text).WellFormed() && chunkSize % ID_RANGE >= 1
    ensures table.Valid() && table.ts == ts && table.chunkSize == chunkSize % ID_RANGE
    ensures table.colNames == FileOf(text).Names() && table.colTypes == FileOf(text).Types()
    ensures var file, rows := FileOf(text), TD.Rows(table.data.chunks);
            if file.Names() == [] then rows == []
            else AreCells(ts, toVariant, file.Types(), Tokens(file.DataLines()), rows) && TT.Sound(ts, table.data)
  {
    var file := FileOf(text);
    var columnNames := SplitString(file.First(), BAR);
    var columnTypes := SplitString(file.Second(), BAR);
    table := MakeTable(ts, chunkSize % ID_RANGE, columnNames, columnTypes);
    HoldsNothing(ts, chunkSize % ID_RANGE, toVariant, file);
    FillTable(table, toVariant, file);
    if file.Names() != [] { FileRowsAreCells(ts, toVariant, file); }
  }

  lemma FileRowsAreCells<V>(ts: TD.Types<V>, toVariant: string -> V, file: TextFile)
    requires file.WellFormed() && file.Names() != []
    ensures AreCells(ts, toVariant, file.Types(), Tokens(file.DataLines()),
                     file.Rows(ts, toVariant, |file.DataLines()|))
  {
  }

  // What the two calls of std::getline leave for the header of a short file: without a second line
  // the types are empty after a newline, and a copy of the names without one.
  lemma ShortFiles(line: string)
    requires '\n' !in line
    ensures FileOf(line + "\n").Names() == Split(line, '|') && Split(FileOf(line + "\n").Second(), '|') == []
    ensures FileOf(line).Names() == Split(line, '|') == Split(FileOf(line).Second(), '|')
    ensures FileOf(line + "\n").DataLines() == FileOf(line).DataLines() == []
  {
    SplitWhole(line, NEWLINE);
    SplitFirst(line, [], NEWLINE);
    assert line + [NEWLINE] + [] == line + "\n";
  }

  lemma {:induction false} JoinOmits(fields: seq<string>, d: char, c: char)
    requires Clean(fields, c) && c != d
    ensures c !in Join(fields, d)
  {
    if |fields| > 1 { JoinOmits(fields[1..], d, c); }
  }

  lemma {:induction false} JoinLast(fields: seq<string>, d: char)
    requires fields != [] && fields[|fields| - 1] != []
    ensures var s, last := Join(fields, d), fields[|fields| - 1];
            s != [] && s[|s| - 1] == last[|last| - 1]
  {
    if |fields| > 1 { JoinLast(fields[1..], d); }
  }

  lemma {:induction false} JoinSnocEmpty(fields: seq<string>, d: char)
    requires fields != []
    ensures Join(fields + [[]], d) == Join(fields, d) + [d]
  {
    assert (fields + [[]])[1..] == fields[1..] + [[]];
    if |fields| > 1 { JoinSnocEmpty(fields[1..], d); }
  }

  function TextOf(lines: seq<string>, closed: bool): string {
    Join(lines, '\n') + if closed then "\n" else ""
  }

  // Lines are read back from their text, unless one holds a newline or the last is empty.
  lemma FileOfText(lines: seq<string>, closed: bool)
    requires lines != [] && Clean(lines, NEWLINE) && lines[|lines| - 1] != []
    ensures FileOf(TextOf(lines, closed)) == TextFile(lines, closed)
  {
    JoinLast(lines, NEWLINE);
    if closed {
      assert Clean(lines + [[]], NEWLINE) && (lines + [[]])[..|lines|] == lines;
      JoinSnocEmpty(lines, NEWLINE);
      SplitOfJoin(lines + [[]], NEWLINE);
    } else {
      var last := lines[|lines| - 1];
      assert TextOf(lines, closed) == Join(lines, NEWLINE) && last[|last| - 1] in last;
      SplitUndoesJoin(lines, NEWLINE);
    }
  }

  // A row whose rendering can be read back: no field holds a bar or a newline, and the last is not
  // empty.
  predicate Renders(fields: seq<string>, n: nat) {
    |fields| == n && Clean(fields, '|') && Clean(fields, '\n') && fields != [] && fields[n - 1] != []
  }

  function Render(names: seq<string>, types: seq<string>, rows: seq<seq<string>>): (lines: seq<string>)
    ensures |lines| == |rows| + 2
  {
    [Join(names, '|'), Join(types, '|')] + seq(|rows|, k requires 0 <= k < |rows| => Join(rows[k], '|'))
  }

  lemma RenderedRow(fields: seq<string>, n: nat)
    requires Renders(fields, n)
    ensures Split(Join(fields, BAR), BAR) == fields && Join(fields, BAR) != [] && NEWLINE !in Join(fields, BAR)
  {
    SplitUndoesJoin(fields, BAR);
    JoinLast(fields, BAR);
    JoinOmits(fields, BAR, NEWLINE);
  }

  lemma RenderedFile(names: seq<string>, types: seq<string>, rows: seq<seq<string>>, closed: bool)
    requires Renders(names, |names|) && Renders(types, |names|)
    requires forall k :: 0 <= k < |rows| ==> Renders(rows[k], |names|)
    ensures var lines := Render(names, types, rows); FileOf(TextOf(lines, closed)) == TextFile(lines, closed)
  {
    RenderedRow(names, |names|);
    RenderedRow(types, |names|);
    forall k | 0 <= k < |rows| ensures Join(rows[k], BAR) != [] && NEWLINE !in Join(rows[k], BAR) {
      RenderedRow(rows[k], |names|);
    }
    FileOfText(Render(names, types, rows), closed);
  }

  // Loading the text rebuilds names, types and field values, cast and in order, whether or not a
  // newline ends the last line.
  lemma LoadUndoesRender<V>(
    ts: TD.Types<V>, toVariant: string -> V,
    names: seq<string>, types: seq<string>, rows: seq<seq<string>>, closed: bool)
    requires Renders(names, |names|) && Renders(types, |names|)
    requires forall k :: 0 <= k < |rows| ==> Renders(rows[k], |names|)
    ensures var file := FileOf(TextOf(Render(names, types, rows), closed));
            && file.WellFormed() && file.Names() == names && file.Types() == types && |file.DataLines()| == |rows|
            && AreCells(ts, toVariant, types, rows, file.Rows(ts, toVariant, |rows|))
  {
    RenderedFile(names, types, rows, closed);
    RenderedRow(names, |names|);
    RenderedRow(types, |names|);
    forall k | 0 <= k < |rows| ensures Split(Join(rows[k], BAR), BAR) == rows[k] { RenderedRow(rows[k], |names|); }
    var file := TextFile(Render(names, types, rows), closed);
    assert forall k :: 0 <= k < |rows| ==> file.DataLines()[k] == Join(rows[k], BAR);
  }
}
