/**
 * `escapeCSV` and the text it is assembled into, together with a reader in the
 * style of section 2 of RFC 4180 that undoes them. Unlike RFC 4180 its records
 * end at a line feed rather than CRLF, and an unquoted field may hold any
 * character except a comma or a line feed.
 */
module Csv {
  import opened Wrappers

  /** A field value before escaping; `None` is JavaScript's `null` or `undefined`. */
  type Cell = Option<string>

  /** The characters that force a field into quotes: `/[",\n\r]/`. */
  predicate Special(c: char) {
    c == '"' || c == ',' || c == '\n' || c == '\r'
  }

  predicate NeedsQuotes(s: string) {
    exists i :: 0 <= i < |s| && Special(s[i])
  }

  /** `s.replace(/"/g, '""')`. */
  function DoubleQuotes(s: string): (r: string)
    ensures |r| >= |s|
  {
    if s == [] then []
    else (if s[0] == '"' then "\"\"" else [s[0]]) + DoubleQuotes(s[1..])
  }

  /** `escapeCSV`: empty for a missing value; quoted, with quotes doubled, when it holds a special character. */
  function Escape(v: Cell): (r: string)
    ensures v == None ==> r == []
    ensures v.Some? && !NeedsQuotes(v.value) ==> r == v.value
    ensures v.Some? && NeedsQuotes(v.value) ==> |r| >= 2 && r[0] == '"' && r[|r| - 1] == '"'
  {
    match v
    case None => []
    case Some(s) => if NeedsQuotes(s) then "\"" + DoubleQuotes(s) + "\"" else s
  }

  /** The text a cell stands for once read back: missing values read as empty. */
  function Text(v: Cell): string {
    v.GetOr([])
  }

  /** `cells.join(',')`; an empty row joins to the empty string. */
  function JoinCells(cells: seq<string>): string
  {
    if cells == [] then []
    else if |cells| == 1 then cells[0]
    else cells[0] + "," + JoinCells(cells[1..])
  }

  /** Each row joined by commas and terminated by a line feed, as the export writes it. */
  function Document(rows: seq<seq<string>>): string
  {
    if rows == [] then [] else JoinCells(rows[0]) + "\n" + Document(rows[1..])
  }

  function EscapeAll(cells: seq<Cell>): (r: seq<string>)
    ensures |r| == |cells| && forall k :: 0 <= k < |cells| ==> r[k] == Escape(cells[k])
  {
    seq(|cells|, k requires 0 <= k < |cells| => Escape(cells[k]))
  }

  function Texts(cells: seq<Cell>): (r: seq<string>)
    ensures |r| == |cells| && forall k :: 0 <= k < |cells| ==> r[k] == Text(cells[k])
  {
    seq(|cells|, k requires 0 <= k < |cells| => Text(cells[k]))
  }

  // ---------------------------------------------------------------- reader

  /** The body of a quoted field after its opening quote: `""` reads as `"`, a lone `"` closes it. */
  function ReadQuoted(s: string): (r: Option<(string, string)>)
    ensures r.Some? ==> |r.value.1| < |s|
  {
    if s == [] then None
    else if s[0] == '"' then
      if |s| >= 2 && s[1] == '"' then
        match ReadQuoted(s[2..])
        case None => None
        case Some((f, rest)) => Some(("\"" + f, rest))
      else Some(([], s[1..]))
    else
      match ReadQuoted(s[1..])
      case None => None
      case Some((f, rest)) => Some(([s[0]] + f, rest))
  }

  /** An unquoted field runs up to the next comma or line feed. */
  function ReadPlain(s: string): (r: (string, string))
    ensures r.0 + r.1 == s
  {
    if s == [] || s[0] == ',' || s[0] == '\n' then ([], s)
    else
      var (f, rest) := ReadPlain(s[1..]);
      assert [s[0]] + f + rest == s;
      ([s[0]] + f, rest)
  }

  function ReadField(s: string): (r: Option<(string, string)>)
    ensures r.Some? ==> |r.value.1| <= |s|
    ensures r.Some? && |r.value.1| == |s| ==> r.value.1 == s
  {
    if |s| > 0 && s[0] == '"' then ReadQuoted(s[1..]) else Some(ReadPlain(s))
  }

  /** One record: fields separated by commas, ended by a line feed or the end of the text. */
  function ReadRecord(s: string): (r: Option<(seq<string>, string)>)
    ensures r.Some? ==> |r.value.0| >= 1
    ensures r.Some? && |s| > 0 ==> |r.value.1| < |s|
    decreases |s|
  {
    match ReadField(s)
    case None => None
    case Some((f, rest)) =>
      if rest == [] then Some(([f], []))
      else if rest[0] == ',' then
        match ReadRecord(rest[1..])
        case None => None
        case Some((fs, tail)) => Some(([f] + fs, tail))
      else if rest[0] == '\n' then Some(([f], rest[1..]))
      else None
  }

  /** A whole text as a sequence of records. */
  function ReadDocument(s: string): Option<seq<seq<string>>>
    decreases |s|
  {
    if s == [] then Some([])
    else
      match ReadRecord(s)
      case None => None
      case Some((fields, rest)) =>
        match ReadDocument(rest)
        case None => None
        case Some(records) => Some([fields] + records)
  }

  // ---------------------------------------------------------------- round trip

  /** What may follow a field: nothing, a comma or a line feed. */
  predicate FieldEnd(t: string) {
    t == [] || t[0] == ',' || t[0] == '\n'
  }

  lemma {:induction false} ReadQuotedDoubled(v: string, t: string)
    requires t == [] || t[0] != '"'
    ensures ReadQuoted(DoubleQuotes(v) + "\"" + t) == Some((v, t))
  {
    if v == [] {
      assert DoubleQuotes(v) + "\"" + t == "\"" + t;
    } else {
      ReadQuotedDoubled(v[1..], t);
      ReadQuotedStep(v, t);
      assert v == [v[0]] + v[1..];
    }
  }

  /** One character of the value, doubled if it is a quote, reads back as that character. */
  lemma ReadQuotedStep(v: string, t: string)
    requires v != []
    ensures ReadQuoted(DoubleQuotes(v) + "\"" + t)
            == match ReadQuoted(DoubleQuotes(v[1..]) + "\"" + t)
               case None => None
               case Some((f, rest)) => Some(([v[0]] + f, rest))
  {
    var d := DoubleQuotes(v[1..]);
    var x := d + "\"" + t;
    DoubleQuotesCons(v);
    if v[0] == '"' {
      Regroup("\"\"", d, t);
      ReadQuotedPair(x);
    } else {
      Regroup([v[0]], d, t);
      ReadQuotedChar(v[0], x);
    }
  }

  lemma Regroup(a: string, d: string, t: string)
    ensures (a + d) + "\"" + t == a + (d + "\"" + t)
  {
  }

  lemma DoubleQuotesCons(v: string)
    requires v != []
    ensures DoubleQuotes(v) == (if v[0] == '"' then "\"\"" else [v[0]]) + DoubleQuotes(v[1..])
  {
  }

  /** A doubled quote inside a quoted field reads as one quote. */
  lemma ReadQuotedPair(x: string)
    ensures ReadQuoted("\"\"" + x) == match ReadQuoted(x) case None => None case Some((f, rest)) => Some(("\"" + f, rest))
  {
    assert ("\"\"" + x)[2..] == x;
  }

  /** Any other character inside a quoted field reads as itself. */
  lemma ReadQuotedChar(c: char, x: string)
    requires c != '"'
    ensures ReadQuoted([c] + x) == match ReadQuoted(x) case None => None case Some((f, rest)) => Some(([c] + f, rest))
  {
    assert ([c] + x)[1..] == x;
  }

  lemma {:induction false} ReadPlainUnquoted(v: string, t: string)
    requires !NeedsQuotes(v)
    requires FieldEnd(t)
    ensures ReadPlain(v + t) == (v, t)
  {
    if v == [] {
      assert v + t == t;
    } else {
      assert !Special(v[0]);
      assert (v + t)[1..] == v[1..] + t;
      assert !NeedsQuotes(v[1..]) by {
        forall i | 0 <= i < |v[1..]|
          ensures !Special(v[1..][i])
        {
          assert v[1..][i] == v[i + 1];
        }
      }
      ReadPlainUnquoted(v[1..], t);
      assert v == [v[0]] + v[1..];
    }
  }

  /** Reading an escaped cell back gives its text and leaves what follows it untouched. */
  lemma EscapeReadsBack(v: Cell, t: string)
    requires FieldEnd(t)
    ensures ReadField(Escape(v) + t) == Some((Text(v), t))
  {
    match v
    case None =>
      assert Escape(v) + t == t;
      ReadPlainUnquoted([], t);
    case Some(s) =>
      if NeedsQuotes(s) {
        ReadQuotedDoubled(s, t);
        assert (Escape(v) + t)[1..] == DoubleQuotes(s) + "\"" + t;
      } else {
        ReadPlainUnquoted(s, t);
        if |s| > 0 {
          assert !Special(s[0]);
        }
      }
  }

  /** An escaped row followed by a line feed reads back as the texts of its cells. */
  lemma {:induction false} RowReadsBack(cells: seq<Cell>, t: string)
    requires |cells| >= 1
    ensures ReadRecord(JoinCells(EscapeAll(cells)) + "\n" + t) == Some((Texts(cells), t))
  {
    var e := EscapeAll(cells);
    if |cells| == 1 {
      assert JoinCells(e) + "\n" + t == Escape(cells[0]) + ("\n" + t);
      EscapeReadsBack(cells[0], "\n" + t);
      assert Texts(cells) == [Text(cells[0])];
    } else {
      var tail := JoinCells(EscapeAll(cells[1..])) + "\n" + t;
      assert e[1..] == EscapeAll(cells[1..]);
      ConsJoin(e, t);
      EscapeReadsBack(cells[0], "," + tail);
      assert ("," + tail)[1..] == tail;
      RowReadsBack(cells[1..], t);
      assert Texts(cells) == [Text(cells[0])] + Texts(cells[1..]);
    }
  }

  lemma ConsJoin(e: seq<string>, t: string)
    requires |e| >= 2
    ensures JoinCells(e) + "\n" + t == e[0] + ("," + (JoinCells(e[1..]) + "\n" + t))
  {
    var j := JoinCells(e[1..]);
    JoinCellsCons(e);
    Associate(e[0], ",", j, "\n" + t);
    assert JoinCells(e) + "\n" + t == JoinCells(e) + ("\n" + t);
    assert j + "\n" + t == j + ("\n" + t);
  }

  lemma JoinCellsCons(e: seq<string>)
    requires |e| >= 2
    ensures JoinCells(e) == e[0] + ("," + JoinCells(e[1..]))
  {
  }

  lemma Associate(a: string, b: string, c: string, t: string)
    ensures (a + b + c) + t == a + (b + (c + t))
  {
  }

  /**
   * Every non-empty escaped row survives the trip through the text: the
   * RFC 4180-style reader recovers each row's cell texts, rows and cells in order.
   */
  lemma {:induction false} DocumentReadsBack(rows: seq<seq<Cell>>)
    requires forall k :: 0 <= k < |rows| ==> |rows[k]| >= 1
    ensures ReadDocument(Document(EscapeRows(rows))) == Some(TextRows(rows))
  {
    if rows != [] {
      var rest := Document(EscapeRows(rows[1..]));
      RowsCons(rows);
      RowReadsBack(rows[0], rest);
      DocumentReadsBack(rows[1..]);
    }
  }

  lemma RowsCons(rows: seq<seq<Cell>>)
    requires rows != []
    ensures Document(EscapeRows(rows)) == JoinCells(EscapeAll(rows[0])) + "\n" + Document(EscapeRows(rows[1..]))
    ensures TextRows(rows) == [Texts(rows[0])] + TextRows(rows[1..])
  {
    assert EscapeRows(rows)[1..] == EscapeRows(rows[1..]);
  }

  function EscapeRows(rows: seq<seq<Cell>>): (r: seq<seq<string>>)
    ensures |r| == |rows| && forall k :: 0 <= k < |rows| ==> r[k] == EscapeAll(rows[k])
  {
    seq(|rows|, k requires 0 <= k < |rows| => EscapeAll(rows[k]))
  }

  function TextRows(rows: seq<seq<Cell>>): (r: seq<seq<string>>)
    ensures |r| == |rows| && forall k :: 0 <= k < |rows| ==> r[k] == Texts(rows[k])
  {
    seq(|rows|, k requires 0 <= k < |rows| => Texts(rows[k]))
  }
}
