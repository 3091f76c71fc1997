/** The COPY blocks of a pg_dump file: the line-by-line parser and the format it has to invert. */
module CopyFormat {
  import opened Strings

  /**
   * Column types. `read` stands for int(), float() or json.loads: it gives the value in the form it is
   * printed in, or None where the library raises.
   */
  datatype Type =
    | Text
    | Boolean
    | Number(read: string -> Option<string>)
    | Json(read: string -> Option<string>)

  datatype Value =
    | Null
    | TextValue(text: string)
    | BoolValue(b: bool)
    | NumberValue(shown: string)
    | JsonValue(shown: string)

  type Row = map<string, Value>

  type Schema = map<string, map<string, Type>>

  type Data = map<string, seq<Row>>

  const IGNORED_TABLES: set<string> := {"alembic_version"}
  const COPY := "COPY public."
  const NULL := "\\N"
  const END := "\\."
  const BS := '\\'
  const SPACES: set<char> :=
    {' ', '\t', '\n', '\r', '\U{0B}', '\U{0C}', '\U{1C}', '\U{1D}', '\U{1E}', '\U{1F}', '\U{85}', '\U{A0}'}

  // ----- Escapes -----

  function Unescaped(c: char): char {
    match c
    case 't' => '\t'
    case 'n' => '\n'
    case 'r' => '\r'
    case 'b' => '\U{08}'
    case 'f' => '\U{0C}'
    case 'v' => '\U{0B}'
    case _ => c
  }

  function Unescape(s: string): string
    decreases |s|
  {
    if s == "" then ""
    else if s[0] == BS && |s| > 1 then [Unescaped(s[1])] + Unescape(s[2..])
    else [s[0]] + Unescape(s[1..])
  }

  lemma {:induction false} UnescapePlain(s: string)
    requires Absent(s, {BS})
    ensures Unescape(s) == s
  {
    if s != "" {
      UnescapePlain(s[1..]);
    }
  }

  lemma UnescapeFrom(raw: string, i: nat)
    requires i < |raw|
    ensures raw[i] == BS && i + 1 < |raw| ==> Unescape(raw[i..]) == [Unescaped(raw[i + 1])] + Unescape(raw[i + 2..])
    ensures !(raw[i] == BS && i + 1 < |raw|) ==> Unescape(raw[i..]) == [raw[i]] + Unescape(raw[i + 1..])
  {
    var s := raw[i..];
    assert s[0] == raw[i] && s[1..] == raw[i + 1..];
    if i + 1 < |raw| {
      assert s[1] == raw[i + 1] && s[2..] == raw[i + 2..];
    }
  }

  method UnescapeLoop(raw: string) returns (out: string)
    ensures out == Unescape(raw)
  {
    hide Unescape, Unescaped;
    if forall i :: 0 <= i < |raw| ==> raw[i] != BS {
      UnescapePlain(raw);
      return raw;
    }
    out := "";
    var i := 0;
    assert raw[0..] == raw;
    while i < |raw|
      invariant i <= |raw| && out + Unescape(raw[i..]) == Unescape(raw)
    {
      var ch := raw[i];
      UnescapeFrom(raw, i);
      if ch == BS && i + 1 < |raw| {
        out := out + [Unescaped(raw[i + 1])];
        i := i + 2;
      } else {
        out := out + [ch];
        i := i + 1;
      }
    }
    assert raw[i..] == "";
    UnescapePlain("");
  }

  /** The escapes of the COPY text format. */
  function EscapeChar(c: char): string {
    if c == '\U{08}' then "\\b"
    else if c == '\U{0C}' then "\\f"
    else if c == '\n' then "\\n"
    else if c == '\r' then "\\r"
    else if c == '\t' then "\\t"
    else if c == '\U{0B}' then "\\v"
    else if c == BS then "\\\\"
    else [c]
  }

  function Escape(s: string): string {
    if s == "" then "" else EscapeChar(s[0]) + Escape(s[1..])
  }

  lemma {:induction false} UnescapeEscape(s: string)
    ensures Unescape(Escape(s)) == s
  {
    if s != "" {
      var rest := Escape(s[1..]);
      UnescapeEscape(s[1..]);
      var c := EscapeChar(s[0]);
      if |c| == 2 {
        assert (c + rest)[2..] == rest;
      } else {
        assert (c + rest)[1..] == rest;
      }
    }
  }

  lemma {:induction false} EscapedHasNoBreak(s: string)
    ensures Absent(Escape(s), {'\t', LF, CR})
  {
    if s != "" {
      EscapedHasNoBreak(s[1..]);
    }
  }

  /** Escaped text holds no tab or line break, and is neither the null mark nor the end mark. */
  lemma EscapedIsSafe(s: string)
    ensures Absent(Escape(s), {'\t', LF, CR})
    ensures Escape(s) != NULL && Escape(s) != END
  {
    EscapedHasNoBreak(s);
    if s != "" {
      var e := Escape(s);
      assert e[0] == EscapeChar(s[0])[0];
      if e[0] == BS {
        assert |EscapeChar(s[0])| == 2;
        assert e[1] == EscapeChar(s[0])[1];
        assert e[1] in {'b', 'f', 'n', 'r', 't', 'v', BS};
        assert NULL[1] == 'N' && END[1] == '.';
      } else {
        assert NULL[0] == BS && END[0] == BS;
      }
    }
  }

  /** Escapes the printer does not write: any other character stands for itself, and a last backslash stays. */
  lemma OtherEscapes(c: char, rest: string)
    requires c !in {'t', 'n', 'r', 'b', 'f', 'v'}
    ensures Unescape(['\\', c] + rest) == [c] + Unescape(rest)
    ensures Unescape(['\\']) == ['\\']
  {
    assert (['\\', c] + rest)[2..] == rest;
  }

  // ----- Rows -----

  function Coerce(raw: string, ty: Type): Option<Value> {
    match ty
    case Text => Some(TextValue(Unescape(raw)))
    case Boolean => Some(BoolValue(raw == "t"))
    case Number(read) => var x := read(raw); if x.Some? then Some(NumberValue(x.value)) else None
    case Json(read) => var x := read(Unescape(raw)); if x.Some? then Some(JsonValue(x.value)) else None
  }

  function Read(raw: string, ty: Type): Option<Value> {
    if raw == NULL then Some(Null) else Coerce(raw, ty)
  }

  /** zip stops at the shorter list, columns the model no longer has are dropped, and a repeated one is overwritten. */
  function ReadRow(types: map<string, Type>, columns: seq<string>, fields: seq<string>, row: Row := map[]): Option<Row> {
    if columns == [] || fields == [] then Some(row)
    else if columns[0] !in types then ReadRow(types, columns[1..], fields[1..], row)
    else
      var v := Read(fields[0], types[columns[0]]);
      if v.None? then None else ReadRow(types, columns[1..], fields[1..], row[columns[0] := v.value])
  }

  /** Any cell of a file, printed by this format or not: only `\N` is null, only `t` is true. */
  lemma CellMeans(raw: string, ty: Type)
    ensures Read(raw, ty) == Some(Null) <==> raw == "\\N"
    ensures ty.Boolean? && raw != "\\N" ==> Read(raw, ty) == Some(BoolValue(raw == "t"))
    ensures ty.Text? && raw != "\\N" ==> Read(raw, ty) == Some(TextValue(Unescape(raw)))
    ensures ty.Number? && raw != "\\N" ==> (Read(raw, ty).None? <==> ty.read(raw).None?)
    ensures ty.Json? && raw != "\\N" ==> (Read(raw, ty).None? <==> ty.read(Unescape(raw)).None?)
  {
  }

  /** A line with more or fewer cells than columns is read as far as both go. */
  lemma {:induction false} ShorterWins(types: map<string, Type>, columns: seq<string>, fields: seq<string>, row: Row)
    ensures var n := if |columns| < |fields| then |columns| else |fields|;
            ReadRow(types, columns, fields, row) == ReadRow(types, columns[..n], fields[..n], row)
    decreases |columns|
  {
    var n := if |columns| < |fields| then |columns| else |fields|;
    if n > 0 {
      assert columns[..n][1..] == columns[1..][..n - 1] && fields[..n][1..] == fields[1..][..n - 1];
      if columns[0] !in types {
        ShorterWins(types, columns[1..], fields[1..], row);
      } else {
        var v := Read(fields[0], types[columns[0]]);
        if v.Some? {
          ShorterWins(types, columns[1..], fields[1..], row[columns[0] := v.value]);
        }
      }
    }
  }

  function Field(v: Value): string {
    match v
    case Null => NULL
    case TextValue(s) => Escape(s)
    case BoolValue(b) => if b then "t" else "f"
    case NumberValue(shown) => shown
    case JsonValue(shown) => Escape(shown)
  }

  /** Numbers print without backslashes and white-space control characters. */
  predicate Clean(v: Value) {
    v.NumberValue? ==> Absent(v.shown, {BS, '\t', LF, CR})
  }

  predicate CleanRow(cells: seq<Value>) {
    forall i :: 0 <= i < |cells| ==> Clean(cells[i])
  }

  /** The value belongs to the type, and its printed form is one its reader understands. */
  predicate Typed(v: Value, ty: Type) {
    v.Null? ||
    match ty
    case Text => v.TextValue?
    case Boolean => v.BoolValue?
    case Number(read) => v.NumberValue? && read(v.shown) == Some(v.shown)
    case Json(read) => v.JsonValue? && read(v.shown) == Some(v.shown)
  }

  function Fields(cells: seq<Value>): (r: seq<string>)
    ensures |r| == |cells| && forall i :: 0 <= i < |r| ==> r[i] == Field(cells[i])
  {
    if cells == [] then [] else [Field(cells[0])] + Fields(cells[1..])
  }

  function RowLine(cells: seq<Value>): string {
    Join(Fields(cells), "\t")
  }

  /** The row a list of cells stands for. */
  function RowOf(types: map<string, Type>, columns: seq<string>, cells: seq<Value>, row: Row := map[]): Row {
    if columns == [] || cells == [] then row
    else if columns[0] !in types then RowOf(types, columns[1..], cells[1..], row)
    else RowOf(types, columns[1..], cells[1..], row[columns[0] := cells[0]])
  }

  predicate TypedRow(types: map<string, Type>, columns: seq<string>, cells: seq<Value>) {
    && |cells| == |columns| && CleanRow(cells)
    && forall i :: 0 <= i < |columns| && columns[i] in types ==> Typed(cells[i], types[columns[i]])
  }

  lemma ReadField(v: Value, ty: Type)
    requires Typed(v, ty) && Clean(v)
    ensures Read(Field(v), ty) == Some(v)
  {
    if v.TextValue? || v.JsonValue? {
      var text := if v.TextValue? then v.text else v.shown;
      EscapedIsSafe(text);
      UnescapeEscape(text);
    } else if v.NumberValue? {
      assert NULL[0] == BS;
    }
  }

  lemma FieldIsSafe(v: Value)
    requires Clean(v)
    ensures Absent(Field(v), {'\t', LF, CR}) && Field(v) != END
  {
    if v.TextValue? || v.JsonValue? {
      EscapedIsSafe(if v.TextValue? then v.text else v.shown);
    } else if v.NumberValue? {
      assert END[0] == BS;
    }
  }

  /** Null and the text of the null mark print differently, whatever the text. */
  lemma NullIsNotText(s: string)
    ensures Field(Null) != Field(TextValue(s))
  {
    EscapedIsSafe(s);
  }

  lemma {:induction false} ReadFields(types: map<string, Type>, columns: seq<string>, cells: seq<Value>, row: Row)
    requires TypedRow(types, columns, cells)
    ensures ReadRow(types, columns, Fields(cells), row) == Some(RowOf(types, columns, cells, row))
  {
    if columns != [] {
      assert Fields(cells)[1..] == Fields(cells[1..]);
      if columns[0] in types {
        ReadField(cells[0], types[columns[0]]);
        ReadFields(types, columns[1..], cells[1..], row[columns[0] := cells[0]]);
      } else {
        ReadFields(types, columns[1..], cells[1..], row);
      }
    }
  }

  /** With distinct columns the row maps each known column to its own cell, and nothing else. */
  lemma {:induction false} RowOfHolds(types: map<string, Type>, columns: seq<string>, cells: seq<Value>, row: Row)
    requires |cells| == |columns| && forall i, j :: 0 <= i < j < |columns| ==> columns[i] != columns[j]
    ensures var r := RowOf(types, columns, cells, row);
      && (forall i :: 0 <= i < |columns| && columns[i] in types ==> columns[i] in r && r[columns[i]] == cells[i])
      && (forall c :: c in r && (c !in columns || c !in types) ==> c in row && r[c] == row[c])
      && (forall c :: c in row && (c !in columns || c !in types) ==> c in r && r[c] == row[c])
  {
    if columns != [] {
      var next := if columns[0] in types then row[columns[0] := cells[0]] else row;
      RowOfHolds(types, columns[1..], cells[1..], next);
      assert columns[0] !in columns[1..];
      assert forall c :: c in columns <==> c == columns[0] || c in columns[1..];
    }
  }

  /** A printed row is one line, not the end mark, and reads back as the row it was printed from. */
  lemma RowRoundTrip(types: map<string, Type>, columns: seq<string>, cells: seq<Value>)
    requires columns != [] && TypedRow(types, columns, cells)
    ensures Absent(RowLine(cells), {LF, CR}) && RowLine(cells) != END
    ensures ReadRow(types, columns, Split(RowLine(cells), '\t')) == Some(RowOf(types, columns, cells))
  {
    RowLineIsSafe(cells);
    SplitJoin(Fields(cells), '\t');
    ReadFields(types, columns, cells, map[]);
  }

  lemma RowLineIsSafe(cells: seq<Value>)
    requires cells != [] && CleanRow(cells)
    ensures Absent(RowLine(cells), {LF, CR}) && RowLine(cells) != END
    ensures Free(Fields(cells), {'\t'})
  {
    var fields := Fields(cells);
    forall i | 0 <= i < |cells|
      ensures Absent(fields[i], {'\t'}) && Absent(fields[i], {LF, CR})
    {
      FieldIsSafe(cells[i]);
    }
    JoinAbsent(fields, "\t", {LF, CR});
    FieldIsSafe(cells[0]);
    if |cells| > 1 {
      assert RowLine(cells) == fields[0] + "\t" + Join(fields[1..], "\t");
      assert RowLine(cells)[|fields[0]|] == '\t';
    }
  }
}
