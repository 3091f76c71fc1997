/** Reading a whole pg_dump file, and the proof that it inverts printing one. */
module CopyParser {
  import opened Strings
  import opened CopyFormat

  /** A COPY block being read; `table` is a table of the current model. */
  datatype Block = Block(table: string, columns: seq<string>, rows: seq<Row>)

  datatype State = State(open: Option<Block>, data: Data)

  datatype Header = Header(table: string, columns: seq<string>)

  function Trimmed(parts: seq<string>): seq<string> {
    if parts == [] then [] else [Strip(Strip(parts[0], SPACES), {'"'})] + Trimmed(parts[1..])
  }

  /** `<table> (<columns>) FROM stdin;`, or None where `split` or `index` raises ValueError. */
  function ReadHeader(header: string): Option<Header> {
    var space := IndexOf(header, ' ');
    if space.None? then None
    else
      var rest := header[space.value + 1..];
      var lo := IndexOf(rest, '(');
      var hi := IndexOf(rest, ')');
      if lo.None? || hi.None? then None
      else
        var inner := if lo.value + 1 <= hi.value then rest[lo.value + 1..hi.value] else "";
        Some(Header(Strip(header[..space.value], {'"'}), Trimmed(Split(inner, ','))))
  }

  /** One line of the file; None is the error of a malformed header or of a cell its type cannot read. */
  function StepLine(schema: Schema, st: State, line: string): Option<State> {
    if st.open.None? then
      if !StartsWith(line, COPY) then Some(st)
      else
        var h := ReadHeader(line[|COPY|..]);
        if h.None? then None
        else if h.value.table in schema then Some(st.(open := Some(Block(h.value.table, h.value.columns, []))))
        else Some(st)
    else
      var b := st.open.value;
      if line == END then
        Some(State(None, if b.table in IGNORED_TABLES then st.data else st.data[b.table := b.rows]))
      else if b.table !in schema then Some(st)
      else
        var row := ReadRow(schema[b.table], b.columns, Split(line, '\t'));
        if row.None? then None else Some(st.(open := Some(b.(rows := b.rows + [row.value]))))
  }

  function Run(schema: Schema, st: State, lines: seq<string>): Option<State>
    decreases |lines|
  {
    if lines == [] then Some(st)
    else var st' := StepLine(schema, st, lines[0]); if st'.None? then None else Run(schema, st'.value, lines[1..])
  }

  function Parse(schema: Schema, content: string): Option<Data> {
    var st := Run(schema, State(None, map[]), Lines(content));
    if st.None? then None else Some(st.value.data)
  }

  method ParseFile(schema: Schema, content: string) returns (result: Option<Data>)
    ensures result == Parse(schema, content)
  {
    hide ReadRow, ReadHeader, Lines;
    var data: Data := map[];
    var table: Option<string> := None;
    var columns: seq<string> := [];
    var rows: seq<Row> := [];
    var lines := Lines(content);
    var i := 0;
    while i < |lines|
      invariant i <= |lines|
      invariant table.Some? ==> table.value in schema
      invariant Run(schema, State(None, map[]), lines)
             == Run(schema, State(if table.Some? then Some(Block(table.value, columns, rows)) else None, data), lines[i..])
    {
      var line := lines[i];
      assert lines[i..][0] == line && lines[i..][1..] == lines[i + 1..];
      if table.None? {
        if StartsWith(line, COPY) {
          var h := ReadHeader(line[|COPY|..]);
          if h.None? { return None; }
          table := if h.value.table in schema then Some(h.value.table) else None;
          columns, rows := h.value.columns, [];
        }
      } else if line == END {
        if table.value !in IGNORED_TABLES {
          data := data[table.value := rows];
        }
        table := None;
      } else {
        var row := ReadRow(schema[table.value], columns, Split(line, '\t'));
        if row.None? { return None; }
        rows := rows + [row.value];
      }
      i := i + 1;
    }
    assert lines[i..] == [];
    result := Some(data);
  }

  lemma {:induction false} RunAppend(schema: Schema, st: State, a: seq<string>, b: seq<string>)
    requires Run(schema, st, a).Some?
    ensures Run(schema, st, a + b) == Run(schema, Run(schema, st, a).value, b)
    decreases |a|
  {
    hide StepLine;
    if a == [] {
      assert a + b == b;
    } else {
      assert (a + b)[1..] == a[1..] + b;
      RunAppend(schema, StepLine(schema, st, a[0]).value, a[1..], b);
    }
  }

  // ----- Printing -----

  /** A part of a dump file: a line outside every block, or a table. `q` says which names are quoted. */
  datatype Item =
    | Other(line: string)
    | Table(name: string, columns: seq<string>, rows: seq<seq<Value>>)

  function Quoted(name: string, quote: bool): string {
    if quote then "\"" + name + "\"" else name
  }

  function QuotedAll(names: seq<string>, q: string -> bool): seq<string> {
    if names == [] then [] else [Quoted(names[0], q(names[0]))] + QuotedAll(names[1..], q)
  }

  function Rest(inner: string): string {
    "(" + inner + ")" + " FROM stdin;"
  }

  function HeaderLine(name: string, columns: seq<string>, q: string -> bool): string {
    COPY + (Quoted(name, q(name)) + [' '] + Rest(Join(QuotedAll(columns, q), ", ")))
  }

  function RowLines(rows: seq<seq<Value>>): (r: seq<string>)
    ensures |r| == |rows| && forall i :: 0 <= i < |r| ==> r[i] == RowLine(rows[i])
  {
    if rows == [] then [] else [RowLine(rows[0])] + RowLines(rows[1..])
  }

  function Printed(item: Item, q: string -> bool): seq<string> {
    match item
    case Other(line) => [line]
    case Table(name, columns, rows) => [HeaderLine(name, columns, q)] + RowLines(rows) + [END]
  }

  function PrintedAll(items: seq<Item>, q: string -> bool): seq<string> {
    if items == [] then [] else Printed(items[0], q) + PrintedAll(items[1..], q)
  }

  const NAME_MARKS: set<char> := {',', '(', ')'} + SPACES

  /** Names that need no escaping beyond optional quotes. */
  predicate Plain(name: string) {
    Absent(name, NAME_MARKS + {'"'})
  }

  predicate PlainAll(names: seq<string>) {
    forall i :: 0 <= i < |names| ==> Plain(names[i])
  }

  /** Every line reads as a row of this table. */
  predicate Readable(types: map<string, Type>, columns: seq<string>, lines: seq<string>) {
    forall i :: 0 <= i < |lines| ==> ReadRow(types, columns, Split(lines[i], '\t')).Some?
  }

  /**
   * No line is taken for a header that is malformed or opens a known table; an ignored table may be
   * opened if it can read the rest.
   */
  predicate Harmless(schema: Schema, lines: seq<string>) {
    lines == [] ||
    if !StartsWith(lines[0], COPY) then Harmless(schema, lines[1..])
    else
      var h := ReadHeader(lines[0][|COPY|..]);
      h.Some? &&
      if h.value.table in schema
      then h.value.table in IGNORED_TABLES && Readable(schema[h.value.table], h.value.columns, lines[1..])
      else Harmless(schema, lines[1..])
  }

  ghost predicate Printable(schema: Schema, item: Item) {
    match item
    case Other(line) => !StartsWith(line, COPY) && Absent(line, {LF, CR})
    case Table(name, columns, rows) =>
      && Plain(name) && columns != []
      && PlainAll(columns)
      && (forall i :: 0 <= i < |rows| ==> rows[i] != [] && CleanRow(rows[i]))
      && (name in schema ==> forall i :: 0 <= i < |rows| ==> TypedRow(schema[name], columns, rows[i]))
      && (name !in schema ==> Harmless(schema, RowLines(rows)))
  }

  function RowsOf(types: map<string, Type>, columns: seq<string>, rows: seq<seq<Value>>): seq<Row> {
    if rows == [] then [] else [RowOf(types, columns, rows[0])] + RowsOf(types, columns, rows[1..])
  }

  /** The data a dump stands for: the last block of every known table counts. */
  function Meaning(schema: Schema, items: seq<Item>, data: Data := map[]): Data {
    if items == [] then data
    else
      var it := items[0];
      Meaning(schema, items[1..],
              if it.Table? && it.name in schema && it.name !in IGNORED_TABLES
              then data[it.name := RowsOf(schema[it.name], it.columns, it.rows)] else data)
  }

  // ----- The header -----

  lemma QuotedRoundTrip(name: string, quote: bool)
    requires Plain(name)
    ensures Strip(Quoted(name, quote), {'"'}) == name
    ensures Absent(Quoted(name, quote), NAME_MARKS)
  {
    if quote {
      StripAround(name, '"', {'"'});
    } else {
      StripNothing(name, {'"'});
    }
  }

  /** Joining with a comma and a space is joining, by commas, parts that start with a space. */
  function Spaced(parts: seq<string>): (r: seq<string>)
    ensures |r| == |parts| && forall i :: 0 <= i < |r| ==> r[i] == " " + parts[i]
  {
    if parts == [] then [] else [" " + parts[0]] + Spaced(parts[1..])
  }

  lemma {:induction false} JoinSpaced(parts: seq<string>)
    requires parts != []
    ensures " " + Join(parts, ", ") == Join(Spaced(parts), ",")
    ensures Join(parts, ", ") == Join([parts[0]] + Spaced(parts[1..]), ",")
  {
    var head := [parts[0]] + Spaced(parts[1..]);
    assert head[1..] == Spaced(parts[1..]) && Spaced(parts)[1..] == Spaced(parts[1..]);
    if |parts| > 1 {
      JoinSpaced(parts[1..]);
      assert parts[0] + ", " + Join(parts[1..], ", ") == parts[0] + "," + (" " + Join(parts[1..], ", "));
      assert " " + (parts[0] + "," + Join(Spaced(parts[1..]), ",")) == (" " + parts[0]) + "," + Join(Spaced(parts[1..]), ",");
    }
  }

  lemma StripSpaced(part: string)
    requires Absent(part, SPACES)
    ensures Strip(part, SPACES) == part && Strip(" " + part, SPACES) == part
  {
    StripNothing(part, SPACES);
    StripAround(part, ' ', SPACES);
  }

  lemma {:induction false} TrimSpaced(names: seq<string>, q: string -> bool)
    requires PlainAll(names)
    ensures Trimmed(Spaced(QuotedAll(names, q))) == names
  {
    hide Strip, Quoted, Plain;
    if names != [] {
      var quoted := QuotedAll(names, q);
      QuotedRoundTrip(names[0], q(names[0]));
      AbsentFewer(quoted[0], NAME_MARKS, SPACES);
      StripSpaced(quoted[0]);
      TrimSpaced(names[1..], q);
      assert Spaced(quoted)[1..] == Spaced(QuotedAll(names[1..], q));
      assert Trimmed(Spaced(quoted)) == [names[0]] + names[1..];
    }
  }

  lemma AbsentFewer(s: string, more: set<char>, fewer: set<char>)
    requires Absent(s, more) && fewer <= more
    ensures Absent(s, fewer)
  {
  }

  lemma {:induction false} QuotedAllFree(names: seq<string>, q: string -> bool, banned: set<char>)
    requires PlainAll(names) && banned <= NAME_MARKS
    ensures |QuotedAll(names, q)| == |names| && Free(QuotedAll(names, q), banned)
  {
    hide Absent, Quoted, Plain;
    if names != [] {
      QuotedRoundTrip(names[0], q(names[0]));
      AbsentFewer(Quoted(names[0], q(names[0])), NAME_MARKS, banned);
      QuotedAllFree(names[1..], q, banned);
    }
  }

  lemma {:induction false} SpacedFree(parts: seq<string>)
    requires Free(parts, {','})
    ensures Free(Spaced(parts), {','})
  {
    if parts != [] {
      assert Absent(" " + parts[0], {','});
      SpacedFree(parts[1..]);
    }
  }

  lemma FreeCons(head: string, tail: seq<string>, banned: set<char>)
    requires Absent(head, banned) && Free(tail, banned)
    ensures Free([head] + tail, banned)
  {
    hide Absent;
  }

  lemma FreeTail(parts: seq<string>, banned: set<char>)
    requires parts != [] && Free(parts, banned)
    ensures Absent(parts[0], banned) && Free(parts[1..], banned)
  {
    hide Absent;
  }

  lemma SplitColumns(quoted: seq<string>)
    requires quoted != [] && Free(quoted, {','})
    ensures Split(Join(quoted, ", "), ',') == [quoted[0]] + Spaced(quoted[1..])
  {
    hide *;
    FreeTail(quoted, {','});
    SpacedFree(quoted[1..]);
    FreeCons(quoted[0], Spaced(quoted[1..]), {','});
    JoinSpaced(quoted);
    SplitJoin([quoted[0]] + Spaced(quoted[1..]), ',');
    assert [','] == ",";
  }

  lemma TrimCons(first: string, tail: seq<string>)
    ensures Trimmed([first] + tail) == [Strip(Strip(first, SPACES), {'"'})] + Trimmed(tail)
  {
    assert ([first] + tail)[1..] == tail;
  }

  lemma TrimColumns(columns: seq<string>, q: string -> bool)
    requires columns != [] && PlainAll(columns)
    ensures var quoted := QuotedAll(columns, q);
      |quoted| > 0 && Trimmed([quoted[0]] + Spaced(quoted[1..])) == columns
  {
    hide Absent, Strip, Quoted, Plain, Trimmed, Spaced;
    QuotedRoundTrip(columns[0], q(columns[0]));
    var first := Quoted(columns[0], q(columns[0]));
    AbsentFewer(first, NAME_MARKS, SPACES);
    StripSpaced(first);
    TrimSpaced(columns[1..], q);
    TrimCons(first, Spaced(QuotedAll(columns[1..], q)));
    assert QuotedAll(columns, q)[1..] == QuotedAll(columns[1..], q);
  }

  /** Splitting the printed column list at its commas and trimming gives the columns back. */
  lemma ColumnsRoundTrip(columns: seq<string>, q: string -> bool)
    requires columns != [] && PlainAll(columns)
    ensures Trimmed(Split(Join(QuotedAll(columns, q), ", "), ',')) == columns
  {
    hide *;
    TrimColumns(columns, q);
    MarksInclude();
    QuotedAllFree(columns, q, {','});
    SplitColumns(QuotedAll(columns, q));
  }

  lemma MarksInclude()
    ensures {','} <= NAME_MARKS && SPACES <= NAME_MARKS && {' '} <= NAME_MARKS
    ensures {'(', ')'} <= NAME_MARKS && {LF, CR} <= NAME_MARKS
  {
  }

  lemma RestParts(inner: string)
    requires Absent(inner, {'(', ')'})
    ensures IndexOf(Rest(inner), '(') == Some(0) && IndexOf(Rest(inner), ')') == Some(|inner| + 1)
    ensures |Rest(inner)| > |inner| + 1 && Rest(inner)[1..|inner| + 1] == inner
  {
    hide IndexOf;
    var rest := Rest(inner);
    assert rest == "" + ['('] + (inner + ")" + " FROM stdin;");
    IndexAfter("", '(', inner + ")" + " FROM stdin;");
    assert rest == ("(" + inner) + [')'] + " FROM stdin;";
    IndexAfter("(" + inner, ')', " FROM stdin;");
  }

  lemma FirstParts(first: string, rest: string)
    requires Absent(first, {' '})
    ensures var header := first + [' '] + rest;
      IndexOf(header, ' ') == Some(|first|) && header[..|first|] == first && header[|first| + 1..] == rest
  {
    hide IndexOf;
    IndexAfter(first, ' ', rest);
  }

  /** How the parser takes a header apart. */
  lemma ReadParts(first: string, inner: string)
    requires Absent(first, {' '}) && Absent(inner, {'(', ')'})
    ensures ReadHeader(first + [' '] + Rest(inner)) == Some(Header(Strip(first, {'"'}), Trimmed(Split(inner, ','))))
  {
    hide Trimmed, Split, Strip, Rest, Absent, IndexOf;
    RestParts(inner);
    FirstParts(first, Rest(inner));
  }

  lemma PrefixParts(prefix: string, s: string)
    ensures StartsWith(prefix + s, prefix) && (prefix + s)[|prefix|..] == s
  {
  }

  lemma AbsentAppend(a: string, b: string, banned: set<char>)
    requires Absent(a, banned) && Absent(b, banned)
    ensures Absent(a + b, banned)
  {
  }

  lemma LiteralsHaveNoBreak()
    ensures Absent(COPY, {LF, CR}) && Absent(END, {LF, CR})
    ensures Absent("(", {LF, CR}) && Absent(")", {LF, CR}) && Absent(" FROM stdin;", {LF, CR}) && Absent([' '], {LF, CR})
  {
  }

  lemma HeaderHasNoBreak(first: string, inner: string)
    requires Absent(first, {LF, CR}) && Absent(inner, {LF, CR})
    ensures Absent(COPY + (first + [' '] + Rest(inner)), {LF, CR})
  {
    hide Absent;
    var banned := {LF, CR};
    LiteralsHaveNoBreak();
    AbsentAppend("(", inner, banned);
    AbsentAppend("(" + inner, ")", banned);
    AbsentAppend("(" + inner + ")", " FROM stdin;", banned);
    AbsentAppend(first, [' '], banned);
    AbsentAppend(first + [' '], Rest(inner), banned);
    AbsentAppend(COPY, first + [' '] + Rest(inner), banned);
  }

  lemma HeaderRoundTrip(name: string, columns: seq<string>, q: string -> bool)
    requires Plain(name) && columns != [] && PlainAll(columns)
    ensures var line := HeaderLine(name, columns, q);
      && StartsWith(line, COPY) && ReadHeader(line[|COPY|..]) == Some(Header(name, columns)) && Absent(line, {LF, CR})
  {
    hide Trimmed, Split, Strip, Rest, Absent, ReadHeader, Join, QuotedAll, Quoted, Plain, PlainAll, StartsWith, Free;
    var first := Quoted(name, q(name));
    var inner := Join(QuotedAll(columns, q), ", ");
    MarksInclude();
    QuotedRoundTrip(name, q(name));
    AbsentFewer(first, NAME_MARKS, {' '});
    AbsentFewer(first, NAME_MARKS, {LF, CR});
    SeparatorAbsent();
    QuotedAllFree(columns, q, {'(', ')'});
    JoinAbsent(QuotedAll(columns, q), ", ", {'(', ')'});
    QuotedAllFree(columns, q, {LF, CR});
    JoinAbsent(QuotedAll(columns, q), ", ", {LF, CR});
    PrefixParts(COPY, first + [' '] + Rest(inner));
    ReadParts(first, inner);
    HeaderHasNoBreak(first, inner);
    ColumnsRoundTrip(columns, q);
  }

  lemma SeparatorAbsent()
    ensures Absent(", ", {'(', ')'}) && Absent(", ", {LF, CR})
  {
  }

  // ----- Blocks -----

  lemma {:induction false} KnownRows(schema: Schema, b: Block, data: Data, rows: seq<seq<Value>>)
    requires b.table in schema && b.columns != []
    requires forall i :: 0 <= i < |rows| ==> TypedRow(schema[b.table], b.columns, rows[i])
    ensures Run(schema, State(Some(b), data), RowLines(rows))
         == Some(State(Some(b.(rows := b.rows + RowsOf(schema[b.table], b.columns, rows))), data))
    decreases |rows|
  {
    hide ReadRow, RowOf, RowLine, TypedRow, ReadHeader, StartsWith, Split, Absent;
    var types := schema[b.table];
    if rows == [] {
      assert b.rows + [] == b.rows;
    } else {
      assert TypedRow(types, b.columns, rows[0]);
      TypedNotEmpty(types, b.columns, rows[0]);
      RowRoundTrip(types, b.columns, rows[0]);
      var row := RowOf(types, b.columns, rows[0]);
      var b' := b.(rows := b.rows + [row]);
      assert RowLines(rows)[0] == RowLine(rows[0]) && RowLines(rows)[1..] == RowLines(rows[1..]);
      assert StepLine(schema, State(Some(b), data), RowLine(rows[0])) == Some(State(Some(b'), data));
      KnownRows(schema, b', data, rows[1..]);
      assert b'.rows + RowsOf(types, b.columns, rows[1..]) == b.rows + RowsOf(types, b.columns, rows);
    }
  }

  lemma TypedNotEmpty(types: map<string, Type>, columns: seq<string>, cells: seq<Value>)
    requires columns != [] && TypedRow(types, columns, cells)
    ensures cells != []
  {
  }

  lemma StepOutside(schema: Schema, data: Data, line: string)
    requires !StartsWith(line, COPY)
    ensures StepLine(schema, State(None, data), line) == Some(State(None, data))
  {
  }

  lemma EndIsOutside()
    ensures !StartsWith(END, COPY)
  {
  }

  lemma OneLine(schema: Schema, st: State, line: string)
    ensures Run(schema, st, [line]) == StepLine(schema, st, line)
  {
    hide StepLine;
    assert [line][1..] == [];
  }

  /** A header opens its block when the table is known and nothing otherwise. */
  lemma StepHeader(schema: Schema, data: Data, name: string, columns: seq<string>, q: string -> bool)
    requires Plain(name) && columns != [] && PlainAll(columns)
    ensures StepLine(schema, State(None, data), HeaderLine(name, columns, q))
         == Some(State(if name in schema then Some(Block(name, columns, [])) else None, data))
  {
    hide ReadHeader, HeaderLine, StartsWith;
    HeaderRoundTrip(name, columns, q);
  }

  lemma KnownTable(schema: Schema, data: Data, item: Item, q: string -> bool)
    requires item.Table? && item.name in schema && Printable(schema, item)
    ensures Run(schema, State(None, data), Printed(item, q)) == Some(State(None, Meaning(schema, [item], data)))
  {
    hide ReadRow, RowOf, RowLine, TypedRow, ReadHeader, StartsWith, Split, Absent, HeaderLine, RowsOf, RowLines, Plain;
    var types := schema[item.name];
    var b := Block(item.name, item.columns, []);
    var header := HeaderLine(item.name, item.columns, q);
    var body := RowLines(item.rows);
    StepHeader(schema, data, item.name, item.columns, q);
    OneLine(schema, State(None, data), header);
    KnownRows(schema, b, data, item.rows);
    var full := b.(rows := [] + RowsOf(types, item.columns, item.rows));
    RunAppend(schema, State(None, data), [header], body);
    RunAppend(schema, State(None, data), [header] + body, [END]);
    OneLine(schema, State(Some(full), data), END);
    assert full.rows == RowsOf(types, item.columns, item.rows);
    assert [item][1..] == [];
  }

  // ----- Rows of a table the model does not have -----

  lemma {:induction false} OpenBlockSwallows(schema: Schema, b: Block, data: Data, lines: seq<string>)
    requires b.table in schema && END !in lines
    ensures var r := Run(schema, State(Some(b), data), lines + [END]);
      && (r.Some? <==> Readable(schema[b.table], b.columns, lines))
      && (r.Some? && b.table in IGNORED_TABLES ==> r.value == State(None, data))
      && (r.Some? && b.table !in IGNORED_TABLES ==> b.table in r.value.data && |r.value.data[b.table]| == |b.rows| + |lines|)
    decreases |lines|
  {
    hide ReadRow, Split, ReadHeader, StartsWith;
    var all := lines + [END];
    if lines == [] {
      assert all[0] == END && all[1..] == [];
      assert Run(schema, State(Some(b), data), all) == StepLine(schema, State(Some(b), data), END);
    } else {
      assert all[0] == lines[0] && all[1..] == lines[1..] + [END];
      assert lines[0] in lines && lines[0] != END;
      var row := ReadRow(schema[b.table], b.columns, Split(lines[0], '\t'));
      if row.Some? {
        var b' := b.(rows := b.rows + [row.value]);
        assert StepLine(schema, State(Some(b), data), lines[0]) == Some(State(Some(b'), data));
        OpenBlockSwallows(schema, b', data, lines[1..]);
        ReadableTail(schema[b.table], b.columns, lines);
      }
    }
  }

  lemma ReadableTail(types: map<string, Type>, columns: seq<string>, lines: seq<string>)
    requires lines != []
    ensures Readable(types, columns, lines) <==>
              ReadRow(types, columns, Split(lines[0], '\t')).Some? && Readable(types, columns, lines[1..])
  {
    hide ReadRow, Split;
    if ReadRow(types, columns, Split(lines[0], '\t')).Some? && Readable(types, columns, lines[1..]) {
      forall i | 0 <= i < |lines|
        ensures ReadRow(types, columns, Split(lines[i], '\t')).Some?
      {
        if i > 0 { assert lines[i] == lines[1..][i - 1]; }
      }
    }
  }

  /** Skipping harmless rows of an unknown table leaves all data alone. */
  lemma {:induction false} HarmlessRows(schema: Schema, data: Data, lines: seq<string>)
    requires END !in lines && Harmless(schema, lines)
    ensures Run(schema, State(None, data), lines + [END]) == Some(State(None, data))
    decreases |lines|
  {
    hide ReadRow, Split, ReadHeader, StartsWith, Readable;
    var all := lines + [END];
    if lines == [] {
      EndIsOutside();
      assert all[0] == END && all[1..] == [];
    } else {
      assert all[0] == lines[0] && all[1..] == lines[1..] + [END];
      var st := StepLine(schema, State(None, data), lines[0]);
      if st.Some? && st.value.open.Some? {
        OpenBlockSwallows(schema, st.value.open.value, data, lines[1..]);
      } else {
        HarmlessRows(schema, data, lines[1..]);
      }
    }
  }

  lemma {:induction false} UnharmedIsHarmless(schema: Schema, lines: seq<string>)
    requires END !in lines && Run(schema, State(None, map[]), lines + [END]) == Some(State(None, map[]))
    ensures Harmless(schema, lines)
    decreases |lines|
  {
    hide ReadRow, Split, ReadHeader, StartsWith, Readable;
    var all := lines + [END];
    if lines != [] {
      assert all[0] == lines[0] && all[1..] == lines[1..] + [END];
      var st := StepLine(schema, State(None, map[]), lines[0]);
      if st.Some? && st.value.open.Some? {
        OpenBlockSwallows(schema, st.value.open.value, map[], lines[1..]);
      } else if st.Some? {
        UnharmedIsHarmless(schema, lines[1..]);
      }
    }
  }

  /** Skipping the rows of an unknown table leaves whatever was read before alone exactly when they are harmless. */
  lemma UnknownRowsHarmlessIff(schema: Schema, lines: seq<string>)
    requires END !in lines
    ensures (forall data :: Run(schema, State(None, data), lines + [END]) == Some(State(None, data)))
       <==> Harmless(schema, lines)
  {
    hide Run, Harmless;
    if Harmless(schema, lines) {
      forall data
        ensures Run(schema, State(None, data), lines + [END]) == Some(State(None, data))
      {
        HarmlessRows(schema, data, lines);
      }
    }
    if forall data :: Run(schema, State(None, data), lines + [END]) == Some(State(None, data)) {
      UnharmedIsHarmless(schema, lines);
    }
  }

  lemma {:induction false} RowLinesFree(rows: seq<seq<Value>>)
    requires forall i :: 0 <= i < |rows| ==> rows[i] != [] && CleanRow(rows[i])
    ensures Free(RowLines(rows), {LF, CR}) && END !in RowLines(rows)
  {
    hide RowLine, Absent;
    if rows != [] {
      RowLineIsSafe(rows[0]);
      RowLinesFree(rows[1..]);
    }
  }

  lemma UnknownTable(schema: Schema, data: Data, item: Item, q: string -> bool)
    requires item.Table? && item.name !in schema && Printable(schema, item)
    ensures Run(schema, State(None, data), Printed(item, q)) == Some(State(None, data))
  {
    hide ReadRow, RowLine, ReadHeader, StartsWith, Split, Absent, HeaderLine, Plain;
    var header := HeaderLine(item.name, item.columns, q);
    var body := RowLines(item.rows) + [END];
    StepHeader(schema, data, item.name, item.columns, q);
    OneLine(schema, State(None, data), header);
    RowLinesFree(item.rows);
    HarmlessRows(schema, data, RowLines(item.rows));
    RunAppend(schema, State(None, data), [header], body);
    assert Printed(item, q) == [header] + body;
  }

  lemma ItemRoundTrip(schema: Schema, data: Data, item: Item, q: string -> bool)
    requires Printable(schema, item)
    ensures Run(schema, State(None, data), Printed(item, q)) == Some(State(None, Meaning(schema, [item], data)))
  {
    hide ReadRow, RowLine, ReadHeader, StartsWith, Split, Absent, HeaderLine, Plain, StepLine, RowsOf;
    assert [item][1..] == [];
    if item.Other? {
      StepOutside(schema, data, item.line);
      OneLine(schema, State(None, data), item.line);
    } else if item.name in schema {
      KnownTable(schema, data, item, q);
    } else {
      UnknownTable(schema, data, item, q);
    }
  }

  lemma {:induction false} ItemsRoundTrip(schema: Schema, data: Data, items: seq<Item>, q: string -> bool)
    requires forall i :: 0 <= i < |items| ==> Printable(schema, items[i])
    ensures Run(schema, State(None, data), PrintedAll(items, q)) == Some(State(None, Meaning(schema, items, data)))
    decreases |items|
  {
    hide Printed, Printable, StepLine, RowsOf;
    if items != [] {
      assert Printable(schema, items[0]);
      ItemRoundTrip(schema, data, items[0], q);
      var data' := Meaning(schema, [items[0]], data);
      assert [items[0]][1..] == [];
      RunAppend(schema, State(None, data), Printed(items[0], q), PrintedAll(items[1..], q));
      ItemsRoundTrip(schema, data', items[1..], q);
    }
  }

  lemma FreeAppend(a: seq<string>, b: seq<string>, banned: set<char>)
    requires Free(a, banned) && Free(b, banned)
    ensures Free(a + b, banned)
  {
    hide Absent;
  }

  lemma PrintedFree(schema: Schema, item: Item, q: string -> bool)
    requires Printable(schema, item)
    ensures Free(Printed(item, q), {LF, CR})
  {
    hide RowLines, Absent, HeaderLine, StartsWith, Plain, TypedRow;
    if item.Table? {
      HeaderRoundTrip(item.name, item.columns, q);
      RowLinesFree(item.rows);
      LiteralsHaveNoBreak();
      var header := [HeaderLine(item.name, item.columns, q)];
      FreeAppend(header, RowLines(item.rows), {LF, CR});
      FreeAppend(header + RowLines(item.rows), [END], {LF, CR});
    }
  }

  lemma {:induction false} PrintedAllFree(schema: Schema, items: seq<Item>, q: string -> bool)
    requires forall i :: 0 <= i < |items| ==> Printable(schema, items[i])
    ensures Free(PrintedAll(items, q), {LF, CR})
  {
    hide Printed, Printable, Free;
    if items != [] {
      assert Printable(schema, items[0]);
      PrintedFree(schema, items[0], q);
      PrintedAllFree(schema, items[1..], q);
      FreeAppend(Printed(items[0], q), PrintedAll(items[1..], q), {LF, CR});
    } else {
      NoneFree({LF, CR});
    }
  }

  lemma NoneFree(banned: set<char>)
    ensures Free([], banned)
  {
  }

  /** Parsing a printed dump gives back what it stands for, however its names are quoted. */
  lemma RoundTrip(schema: Schema, items: seq<Item>, q: string -> bool)
    requires forall i :: 0 <= i < |items| ==> Printable(schema, items[i])
    ensures Parse(schema, Unlines(PrintedAll(items, q))) == Some(Meaning(schema, items))
  {
    hide Printable, StepLine, Printed, Meaning, Lines;
    PrintedAllFree(schema, items, q);
    LinesOfUnlines(PrintedAll(items, q));
    ItemsRoundTrip(schema, map[], items, q);
  }

  /** A file that breaks off inside a table gives what was complete before it. */
  lemma TruncatedFile(schema: Schema, items: seq<Item>, last: Item, q: string -> bool)
    requires forall i :: 0 <= i < |items| ==> Printable(schema, items[i])
    requires last.Table? && last.name in schema && Printable(schema, last)
    ensures Parse(schema, Unlines(PrintedAll(items, q) + ([HeaderLine(last.name, last.columns, q)] + RowLines(last.rows))))
         == Some(Meaning(schema, items))
  {
    var head, body := PrintedAll(items, q), [HeaderLine(last.name, last.columns, q)] + RowLines(last.rows);
    PrintedAllFree(schema, items, q);
    PrintedFree(schema, last, q);
    assert Printed(last, q) == body + [END];
    assert forall i :: 0 <= i < |body| ==> body[i] == (body + [END])[i];
    FreeAppend(head, body, {LF, CR});
    LinesOfUnlines(head + body);
    ItemsRoundTrip(schema, map[], items, q);
    RunAppend(schema, State(None, map[]), head, body);
    OpenTable(schema, Meaning(schema, items), last, q);
  }

  lemma OpenTable(schema: Schema, data: Data, item: Item, q: string -> bool)
    requires item.Table? && item.name in schema && Printable(schema, item)
    ensures var r := Run(schema, State(None, data), [HeaderLine(item.name, item.columns, q)] + RowLines(item.rows));
            r.Some? && r.value.data == data
  {
    hide ReadRow, RowOf, RowLine, TypedRow, ReadHeader, StartsWith, Split, Absent, HeaderLine, RowsOf, RowLines, Plain;
    StepHeader(schema, data, item.name, item.columns, q);
    OneLine(schema, State(None, data), HeaderLine(item.name, item.columns, q));
    KnownRows(schema, Block(item.name, item.columns, []), data, item.rows);
    RunAppend(schema, State(None, data), [HeaderLine(item.name, item.columns, q)], RowLines(item.rows));
  }

  // ----- Any file at all -----

  /** Only tables and columns of the model, and never the migration table. */
  ghost predicate WithinSchema(schema: Schema, data: Data) {
    forall t :: t in data ==>
      t in schema && t != "alembic_version" && forall i :: 0 <= i < |data[t]| ==> data[t][i].Keys <= schema[t].Keys
  }

  ghost predicate RowsWithin(schema: Schema, st: State) {
    st.open.Some? ==>
      st.open.value.table in schema &&
      forall i :: 0 <= i < |st.open.value.rows| ==> st.open.value.rows[i].Keys <= schema[st.open.value.table].Keys
  }

  lemma {:induction false} RowWithin(types: map<string, Type>, columns: seq<string>, fields: seq<string>, row: Row)
    requires row.Keys <= types.Keys
    ensures var r := ReadRow(types, columns, fields, row); r.Some? ==> r.value.Keys <= types.Keys
    decreases |columns|
  {
    if columns != [] && fields != [] {
      if columns[0] !in types {
        RowWithin(types, columns[1..], fields[1..], row);
      } else {
        var v := Read(fields[0], types[columns[0]]);
        if v.Some? {
          RowWithin(types, columns[1..], fields[1..], row[columns[0] := v.value]);
        }
      }
    }
  }

  lemma LineWithin(schema: Schema, st: State, line: string)
    requires WithinSchema(schema, st.data) && RowsWithin(schema, st)
    ensures var r := StepLine(schema, st, line);
            r.Some? ==> WithinSchema(schema, r.value.data) && RowsWithin(schema, r.value)
  {
    hide ReadRow, ReadHeader, StartsWith, Split;
    if st.open.Some? {
      var b := st.open.value;
      RowWithin(schema[b.table], b.columns, Split(line, '\t'), map[]);
    }
  }

  lemma {:induction false} LinesWithin(schema: Schema, st: State, lines: seq<string>)
    requires WithinSchema(schema, st.data) && RowsWithin(schema, st)
    ensures var r := Run(schema, st, lines); r.Some? ==> WithinSchema(schema, r.value.data)
    decreases |lines|
  {
    hide StepLine, WithinSchema, RowsWithin;
    if lines != [] {
      LineWithin(schema, st, lines[0]);
      if StepLine(schema, st, lines[0]).Some? {
        LinesWithin(schema, StepLine(schema, st, lines[0]).value, lines[1..]);
      }
    }
  }

  /** Whatever a file contains, what is read from it fits the model. */
  lemma ParsedWithinSchema(schema: Schema, content: string)
    ensures var r := Parse(schema, content); r.Some? ==> WithinSchema(schema, r.value)
  {
    hide Lines, StepLine;
    LinesWithin(schema, State(None, map[]), Lines(content));
  }

  /** The shape of an empty block of one column. */
  lemma PrintedLooksLike(name: string, column: string, q: string -> bool)
    requires !q(name) && !q(column)
    ensures Printed(Table(name, [column], []), q) == ["COPY public." + name + " (" + column + ") FROM stdin;", "\\."]
  {
    assert [column][1..] == [] && QuotedAll([column], q) == [column] + [];
    assert HeaderLine(name, [column], q) == COPY + (name + [' '] + Rest(column));
    assert COPY + (name + [' '] + Rest(column)) == "COPY public." + name + " (" + column + ") FROM stdin;";
  }

  lemma {:induction false} EscapeNothing(s: string)
    requires Absent(s, {BS, '\n', '\r', '\t', '\U{08}', '\U{0B}', '\U{0C}'})
    ensures Escape(s) == s
  {
    if s != "" {
      EscapeNothing(s[1..]);
    }
  }

  /** Such rows exist: this kind of text, stored in a table the model lacks, makes the whole file unreadable. */
  lemma HarmfulText(schema: Schema, s: string)
    requires Absent(s, {BS, '\n', '\r', '\t', '\U{08}', '\U{0B}', '\U{0C}'})
    requires StartsWith(s, COPY) && Absent(s[|COPY|..], {' '})
    ensures RowLine([TextValue(s)]) == s && !Harmless(schema, [s])
  {
    EscapeNothing(s);
    assert Fields([TextValue(s)]) == [s];
    HarmfulHeader(schema, s);
  }

  lemma HarmfulHeader(schema: Schema, s: string)
    requires StartsWith(s, COPY) && Absent(s[|COPY|..], {' '})
    ensures !Harmless(schema, [s])
  {
    hide Strip, Split, Trimmed, IndexOf, Absent;
    NoIndex(s[|COPY|..], ' ');
  }
}
