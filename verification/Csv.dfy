/** CSV row printing (include/utils/log_writer.h:49-65, 109-116, 199-207) and a reader following the
    quoting rules of section 2 of RFC 4180, with a line feed ending each row.
 */
module Csv {

  const QUOTE := '"'
  const COMMA := ','
  const LF := '\n'
  const CR := '\r'

  // ---------------------------------------------------------------- printing

  predicate Special(ch: char) { ch == COMMA || ch == QUOTE || ch == CR || ch == LF }

  predicate NeedsQuotes(value: string) { exists i :: 0 <= i < |value| && Special(value[i]) }

  function Doubled(value: string): string {
    if value == "" then ""
    else if value[0] == QUOTE then [QUOTE, QUOTE] + Doubled(value[1..])
    else [value[0]] + Doubled(value[1..])
  }

  function Escaped(value: string): string {
    if NeedsQuotes(value) then [QUOTE] + Doubled(value) + [QUOTE] else value
  }

  lemma {:induction false} DoubledConcat(a: string, b: string)
    ensures Doubled(a + b) == Doubled(a) + Doubled(b)
  {
    if a == "" {
      assert a + b == b;
    } else {
      assert (a + b)[1..] == a[1..] + b;
      DoubledConcat(a[1..], b);
    }
  }

  lemma {:induction false} DoubledLength(value: string)
    ensures |Doubled(value)| == |value| + multiset(value)['"']
  {
    if value != "" {
      assert value == [value[0]] + value[1..];
      DoubledLength(value[1..]);
    }
  }

  /** A field without comma, quote or line break is printed as it is; any other between quotes, two
      characters longer for them and one for each quote in it. */
  lemma QuotedExactlyWhenNeeded(value: string)
    ensures (forall i | 0 <= i < |value| :: value[i] !in {',', '"', '\r', '\n'}) <==> Escaped(value) == value
    ensures Escaped(value) != value ==>
              && |Escaped(value)| == |value| + multiset(value)['"'] + 2
              && Escaped(value)[0] == '"' && Escaped(value)[|Escaped(value)| - 1] == '"'
  {
    DoubledLength(value);
    if NeedsQuotes(value) { assert |Escaped(value)| > |value|; }
  }

  method EscapeCsvString(value: string) returns (escaped: string)
    ensures escaped == Escaped(value)
  {
    if !exists i :: 0 <= i < |value| && Special(value[i]) {
      return value;
    }
    escaped := [QUOTE];
    for i := 0 to |value|
      invariant escaped == [QUOTE] + Doubled(value[..i])
    {
      DoubledConcat(value[..i], [value[i]]);
      assert value[..i + 1] == value[..i] + [value[i]];
      assert [value[i]][1..] == "" && Doubled("") == "";
      if value[i] == QUOTE {
        escaped := escaped + [QUOTE];
      }
      escaped := escaped + [value[i]];
    }
    assert value[..|value|] == value;
    escaped := escaped + [QUOTE];
  }

  function Joined(fields: seq<string>): string {
    if fields == [] then ""
    else if |fields| == 1 then Escaped(fields[0])
    else Joined(fields[..|fields| - 1]) + [COMMA] + Escaped(fields[|fields| - 1])
  }

  function Row(fields: seq<string>): string { Joined(fields) + [LF] }

  function Printed(rows: seq<seq<string>>): string {
    if rows == [] then "" else Row(rows[0]) + Printed(rows[1..])
  }

  class LogWriter {
    var buffer: string

    constructor ()
      ensures buffer == ""
    {
      buffer := "";
    }

    method AppendRow(fields: seq<string>)
      modifies this
      ensures buffer == old(buffer) + Row(fields)
    {
      for i := 0 to |fields|
        invariant buffer == old(buffer) + Joined(fields[..i])
      {
        assert fields[..i + 1][..i] == fields[..i];
        if i != 0 {
          buffer := buffer + [COMMA];
        }
        var escaped := EscapeCsvString(fields[i]);
        buffer := buffer + escaped;
      }
      assert fields[..|fields|] == fields;
      buffer := buffer + [LF];
    }
  }

  /** Rows appended one after the other make up the text of all of them. */
  lemma {:induction false} PrintedAppend(rows: seq<seq<string>>, fields: seq<string>)
    ensures Printed(rows + [fields]) == Printed(rows) + Row(fields)
  {
    if rows == [] {
      assert rows + [fields] == [fields] && [fields][1..] == [];
    } else {
      assert (rows + [fields])[1..] == rows[1..] + [fields];
      PrintedAppend(rows[1..], fields);
    }
  }

  // ---------------------------------------------------------------- reading

  datatype Option<+T> = None | Some(value: T)

  /** Where the reader stands: at the start of a field, in an unquoted one, in a quoted one, or just
      after a quote inside a quoted one. */
  datatype Mode = Start | Plain | Quoted | QuoteSeen

  /** The rows read so far, the fields of the current row and the current field. */
  datatype Reader = Reader(rows: seq<seq<string>>, fields: seq<string>, field: string, mode: Mode)

  const EMPTY := Reader([], [], "", Start)

  function EndField(r: Reader): Reader { Reader(r.rows, r.fields + [r.field], "", Start) }

  function EndRow(r: Reader): Reader { Reader(r.rows + [r.fields + [r.field]], [], "", Start) }

  /** One character; nothing is read where the grammar does not allow it. */
  function Read(r: Reader, ch: char): Option<Reader> {
    match r.mode
    case Start =>
      if ch == QUOTE then Some(r.(mode := Quoted))
      else if ch == COMMA then Some(EndField(r))
      else if ch == LF then Some(EndRow(r))
      else if ch == CR then None
      else Some(r.(field := r.field + [ch], mode := Plain))
    case Plain =>
      if ch == QUOTE || ch == CR then None
      else if ch == COMMA then Some(EndField(r))
      else if ch == LF then Some(EndRow(r))
      else Some(r.(field := r.field + [ch]))
    case Quoted =>
      if ch == QUOTE then Some(r.(mode := QuoteSeen)) else Some(r.(field := r.field + [ch]))
    case QuoteSeen =>
      if ch == QUOTE then Some(r.(field := r.field + [QUOTE], mode := Quoted))
      else if ch == COMMA then Some(EndField(r))
      else if ch == LF then Some(EndRow(r))
      else None
  }

  function ReadAll(r: Reader, s: string): Option<Reader>
    decreases |s|
  {
    if s == "" then Some(r)
    else match Read(r, s[0])
         case None => None
         case Some(next) => ReadAll(next, s[1..])
  }

  /** The rows of a whole text, every row being ended. */
  function Parse(s: string): Option<seq<seq<string>>> {
    match ReadAll(EMPTY, s)
    case None => None
    case Some(r) => if r.fields == [] && r.field == "" && r.mode.Start? then Some(r.rows) else None
  }

  // ---------------------------------------------------------------- the round trip

  lemma {:induction false} ReadConcat(r: Reader, a: string, b: string)
    ensures ReadAll(r, a + b) == match ReadAll(r, a) case None => None case Some(next) => ReadAll(next, b)
    decreases |a|
  {
    if a == "" {
      assert a + b == b;
    } else {
      assert (a + b)[0] == a[0] && (a + b)[1..] == a[1..] + b;
      match Read(r, a[0])
      case None =>
      case Some(next) => ReadConcat(next, a[1..], b);
    }
  }

  lemma ReadOne(r: Reader, ch: char)
    ensures ReadAll(r, [ch]) == Read(r, ch)
  {
    assert [ch][1..] == "";
  }

  /** An unquoted field is read as it is. */
  lemma {:induction false} ReadPlain(r: Reader, value: string)
    requires !NeedsQuotes(value) && (r.mode.Start? || r.mode.Plain?)
    ensures ReadAll(r, value) == Some(r.(field := r.field + value, mode := if value == "" then r.mode else Plain))
    decreases |value|
  {
    if value == "" {
      assert r.field + value == r.field;
    } else {
      assert !Special(value[0]);
      assert !NeedsQuotes(value[1..]) by {
        forall i | 0 <= i < |value[1..]| ensures !Special(value[1..][i]) { assert value[1..][i] == value[i + 1]; }
      }
      var next := r.(field := r.field + [value[0]], mode := Plain);
      ReadPlain(next, value[1..]);
      assert r.field + [value[0]] + value[1..] == r.field + value;
    }
  }

  /** The inside of a quoted field is read back with its quotes undoubled. */
  lemma {:induction false} ReadQuoted(r: Reader, value: string)
    requires r.mode.Quoted?
    ensures ReadAll(r, Doubled(value)) == Some(r.(field := r.field + value))
    decreases |value|
  {
    if value == "" {
      assert r.field + value == r.field;
    } else {
      var next := r.(field := r.field + [value[0]]);
      var lead := if value[0] == QUOTE then [QUOTE, QUOTE] else [value[0]];
      if value[0] == QUOTE {
        assert lead == [QUOTE] + [QUOTE];
        ReadConcat(r, [QUOTE], [QUOTE]);
        ReadOne(r, QUOTE);
        ReadOne(r.(mode := QuoteSeen), QUOTE);
      } else {
        ReadOne(r, value[0]);
      }
      assert ReadAll(r, lead) == Some(next);
      ReadConcat(r, lead, Doubled(value[1..]));
      ReadQuoted(next, value[1..]);
      assert r.field + [value[0]] + value[1..] == r.field + value;
    }
  }

  /** Any field is read back, and leaves the reader where a separator ends it. */
  lemma ReadField(r: Reader, value: string)
    requires r.mode.Start? && r.field == ""
    ensures var after := ReadAll(r, Escaped(value));
            && after.Some? && after.value.rows == r.rows && after.value.fields == r.fields && after.value.field == value
            && !after.value.mode.Quoted?
  {
    if NeedsQuotes(value) {
      var inside := r.(mode := Quoted);
      ReadOne(r, QUOTE);
      ReadQuoted(inside, value);
      ReadOne(inside.(field := value), QUOTE);
      ReadConcat(r, [QUOTE], Doubled(value));
      ReadConcat(r, [QUOTE] + Doubled(value), [QUOTE]);
      assert inside.field + value == value;
    } else {
      ReadPlain(r, value);
      assert r.field + value == value;
    }
  }

  /** All but the last field of a row are ended by commas. */
  lemma {:induction false} ReadJoined(r: Reader, fields: seq<string>)
    requires r.mode.Start? && r.field == "" && r.fields == [] && fields != []
    ensures var after := ReadAll(r, Joined(fields));
            && after.Some? && after.value.rows == r.rows && after.value.fields == fields[..|fields| - 1]
            && after.value.field == fields[|fields| - 1] && !after.value.mode.Quoted?
    decreases |fields|
  {
    var last := fields[|fields| - 1];
    if |fields| == 1 {
      ReadField(r, last);
    } else {
      var front := fields[..|fields| - 1];
      ReadJoined(r, front);
      var r1 := ReadAll(r, Joined(front)).value;
      ReadOne(r1, COMMA);
      ReadConcat(r, Joined(front), [COMMA]);
      var r2 := EndField(r1);
      ReadField(r2, last);
      ReadConcat(r, Joined(front) + [COMMA], Escaped(last));
      assert front[..|front| - 1] + [front[|front| - 1]] == front;
    }
  }

  lemma ReadRow(r: Reader, fields: seq<string>)
    requires r.mode.Start? && r.field == "" && r.fields == [] && fields != []
    ensures ReadAll(r, Row(fields)) == Some(Reader(r.rows + [fields], [], "", Start))
  {
    ReadJoined(r, fields);
    var r1 := ReadAll(r, Joined(fields)).value;
    ReadOne(r1, LF);
    ReadConcat(r, Joined(fields), [LF]);
    assert fields[..|fields| - 1] + [fields[|fields| - 1]] == fields;
  }

  lemma {:induction false} ReadRows(r: Reader, rows: seq<seq<string>>)
    requires r.mode.Start? && r.field == "" && r.fields == []
    requires forall i | 0 <= i < |rows| :: rows[i] != []
    ensures ReadAll(r, Printed(rows)) == Some(Reader(r.rows + rows, [], "", Start))
    decreases |rows|
  {
    if rows == [] {
      assert r.rows + rows == r.rows;
    } else {
      ReadRow(r, rows[0]);
      ReadConcat(r, Row(rows[0]), Printed(rows[1..]));
      ReadRows(Reader(r.rows + [rows[0]], [], "", Start), rows[1..]);
      assert r.rows + [rows[0]] + rows[1..] == r.rows + rows;
    }
  }

  /** Printing is undone by reading, whatever the fields contain, for any positive number of columns. */
  lemma RoundTrip(rows: seq<seq<string>>, columns: nat)
    requires columns >= 1 && forall i | 0 <= i < |rows| :: |rows[i]| == columns
    ensures Parse(Printed(rows)) == Some(rows)
  {
    ReadRows(EMPTY, rows);
    assert [] + rows == rows;
  }

  lemma {:induction false} PrintedWithoutColumns(rows: seq<seq<string>>)
    requires forall i | 0 <= i < |rows| :: rows[i] == []
    ensures |Printed(rows)| == |rows|
  {
    if rows != [] {
      assert Row(rows[0]) == [LF];
      PrintedWithoutColumns(rows[1..]);
    }
  }

  /** Hence, for any fixed number of columns, different lists of rows are printed differently. */
  lemma PrintingIsInjective(rows: seq<seq<string>>, rows': seq<seq<string>>, columns: nat)
    requires forall i | 0 <= i < |rows| :: |rows[i]| == columns
    requires forall i | 0 <= i < |rows'| :: |rows'[i]| == columns
    requires Printed(rows) == Printed(rows')
    ensures rows == rows'
  {
    if columns == 0 {
      PrintedWithoutColumns(rows);
      PrintedWithoutColumns(rows');
    } else {
      RoundTrip(rows, columns);
      RoundTrip(rows', columns);
    }
  }

  /** The number of columns has to be known to be positive: a row of none and a row of one empty field
      print alike, and the reader finds the latter. */
  lemma NoColumnsLookLikeOne()
    ensures Printed([[]]) == Printed([[""]]) && Parse(Printed([[]])) == Some([[""]]) && [[]] != [[""]]
  {
    assert !NeedsQuotes("");
    assert Printed([[]]) == Row([]) + Printed([[]][1..]) && Printed([[""]]) == Row([""]) + Printed([[""]][1..]);
    RoundTrip([[""]], 1);
  }
}
