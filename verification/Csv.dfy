/** The hardware table as CSV, and the decoder of section 2 of RFC 4180 (with a line feed as
    the record end) that reads it back. */
module Csv {
  import opened Text

  datatype HwRow = HwRow(nodeName: string, nodeIP: string, vendor: string, serial: string, bond: string,
                         nic: string, driver: string, version: string, firmware: string)

  const HEADER := ["节点名", "节点IP", "供应商", "序列号", "Bond", "网卡", "驱动", "version", "firmware"]

  /** The names with commas between them and a line feed behind, as the header is written. */
  function HeaderLine(names: seq<string>): string {
    if names == [] then ""
    else if |names| == 1 then names[0] + "\n"
    else names[0] + "," + HeaderLine(names[1..])
  }

  const HEADER_LINE := HeaderLine(HEADER)
  const OPEN_FENCE := "```csv\n"
  const CLOSE_FENCE := "```"

  // ---- printing ----

  function Doubled(s: string): string {
    if s == "" then "" else (if s[0] == '"' then "\"\"" else [s[0]]) + Doubled(s[1..])
  }

  /** `escapeCSV`. */
  function Escape(s: string): string {
    if ',' in s || '"' in s || '\n' in s then "\"" + Doubled(s) + "\"" else s
  }

  function Fields(r: HwRow): seq<string> {
    [r.nodeName, r.nodeIP, r.vendor, r.serial, r.bond, r.nic, r.driver, r.version, r.firmware]
  }

  function Record(fields: seq<string>): string {
    if fields == [] then ""
    else if |fields| == 1 then Escape(fields[0]) + "\n"
    else Escape(fields[0]) + "," + Record(fields[1..])
  }

  function Records(rows: seq<seq<string>>): string {
    if rows == [] then "" else Record(rows[0]) + Records(rows[1..])
  }

  function Rows(rows: seq<HwRow>): (r: seq<seq<string>>)
    ensures |r| == |rows| && forall i :: 0 <= i < |rows| ==> r[i] == Fields(rows[i])
  {
    seq(|rows|, i requires 0 <= i < |rows| => Fields(rows[i]))
  }

  /** What stands between the code fences. */
  function Body(rows: seq<HwRow>): string {
    HEADER_LINE + Records(Rows(rows))
  }

  function Table(rows: seq<HwRow>): string {
    if rows == [] then "```csv\n(无数据)\n```" else OPEN_FENCE + Body(rows) + CLOSE_FENCE
  }

  lemma {:induction false} RecordsAppend(a: seq<seq<string>>, row: seq<string>)
    ensures Records(a + [row]) == Records(a) + Record(row)
  {
    if a == [] {
      assert a + [row] == [row] && [row][1..] == [];
      assert Records([row]) == Record(row) + Records([row][1..]);
    } else {
      assert (a + [row])[1..] == a[1..] + [row] && (a + [row])[0] == a[0];
      RecordsAppend(a[1..], row);
    }
  }

  lemma RecordTail(f: seq<string>, k: nat)
    requires k + 1 < |f|
    ensures Record(f[k..]) == Escape(f[k]) + "," + Record(f[k + 1..])
  {
    assert f[k..] == [f[k]] + f[k + 1..];
  }

  /** Writing one more field moves it from what is left to what is written. */
  lemma WriteField(written: string, f: seq<string>, k: nat)
    requires k + 1 < |f|
    ensures written + Escape(f[k]) + "," + Record(f[k + 1..]) == written + Record(f[k..])
  {
    hide Escape, Record;
    RecordTail(f, k);
    assert written + Escape(f[k]) + "," + Record(f[k + 1..]) == written + (Escape(f[k]) + "," + Record(f[k + 1..]));
  }

  method WriteRow(written: string, r: HwRow) returns (sb: string)
    ensures sb == written + Record(Fields(r))
  {
    hide Escape;
    ghost var f := Fields(r);
    assert f[0..] == f;
    sb := written;
    WriteField(sb, f, 0);
    sb := sb + Escape(r.nodeName) + ",";
    WriteField(sb, f, 1);
    sb := sb + Escape(r.nodeIP) + ",";
    WriteField(sb, f, 2);
    sb := sb + Escape(r.vendor) + ",";
    WriteField(sb, f, 3);
    sb := sb + Escape(r.serial) + ",";
    WriteField(sb, f, 4);
    sb := sb + Escape(r.bond) + ",";
    WriteField(sb, f, 5);
    sb := sb + Escape(r.nic) + ",";
    WriteField(sb, f, 6);
    sb := sb + Escape(r.driver) + ",";
    WriteField(sb, f, 7);
    sb := sb + Escape(r.version) + ",";
    assert f[8..] == [r.firmware];
    assert sb + Record([r.firmware]) == sb + Escape(r.firmware) + "\n";
    sb := sb + Escape(r.firmware) + "\n";
  }

  method WriteRows(written: string, rows: seq<HwRow>) returns (sb: string)
    ensures sb == written + Records(Rows(rows))
  {
    hide Record, Records, Fields;
    sb := written;
    assert Rows(rows[..0]) == [];
    NoRecords();
    for i := 0 to |rows|
      invariant sb == written + Records(Rows(rows[..i]))
    {
      assert Rows(rows[..i + 1]) == Rows(rows[..i]) + [Fields(rows[i])];
      RecordsAppend(Rows(rows[..i]), Fields(rows[i]));
      sb := WriteRow(sb, rows[i]);
    }
    assert rows[..|rows|] == rows;
  }

  method FormatHWTableCSV(rows: seq<HwRow>) returns (out: string)
    ensures out == Table(rows)
  {
    hide Record, Records, Fields, HeaderLine, Rows;
    if |rows| == 0 { return "```csv\n(无数据)\n```"; }
    var sb := OPEN_FENCE + HEADER_LINE;
    sb := WriteRows(sb, rows);
    out := sb + CLOSE_FENCE;
  }

  lemma NoRecords()
    ensures Records([]) == ""
  {
  }

  // ---- decoding ----

  /** A quoted field behind its opening quote: `""` stands for a quote, a single one ends it. */
  function Quoted(s: string): (r: Option<(string, string)>)
    ensures r.Some? ==> |r.value.1| < |s|
  {
    if s == "" then None
    else if s[0] == '"' then
      if |s| > 1 && s[1] == '"' then
        match Quoted(s[2..])
        case None => None
        case Some((f, rest)) => Some(("\"" + f, rest))
      else Some(("", s[1..]))
    else
      match Quoted(s[1..])
      case None => None
      case Some((f, rest)) => Some(([s[0]] + f, rest))
  }

  /** An unquoted field: everything up to a comma, a line feed or the end; no quotes. */
  function Plain(s: string): (r: Option<(string, string)>)
    ensures r.Some? ==> |r.value.1| <= |s|
  {
    if s == "" || s[0] == ',' || s[0] == '\n' then Some(("", s))
    else if s[0] == '"' then None
    else
      match Plain(s[1..])
      case None => None
      case Some((f, rest)) => Some(([s[0]] + f, rest))
  }

  function DecodeField(s: string): (r: Option<(string, string)>)
    ensures r.Some? ==> |r.value.1| <= |s|
  {
    if s != "" && s[0] == '"' then Quoted(s[1..]) else Plain(s)
  }

  function DecodeRecord(s: string): (r: Option<(seq<string>, string)>)
    ensures r.Some? ==> |r.value.1| <= |s| && (s != "" ==> |r.value.1| < |s|)
    decreases |s|
  {
    match DecodeField(s)
    case None => None
    case Some((f, rest)) =>
      if rest == "" then Some(([f], ""))
      else if rest[0] == '\n' then Some(([f], rest[1..]))
      else if rest[0] == ',' then
        match DecodeRecord(rest[1..])
        case None => None
        case Some((fs, rest')) => Some(([f] + fs, rest'))
      else None
  }

  function Decode(s: string): Option<seq<seq<string>>>
    decreases |s|
  {
    if s == "" then Some([])
    else
      match DecodeRecord(s)
      case None => None
      case Some((r, rest)) =>
        match Decode(rest)
        case None => None
        case Some(rs) => Some([r] + rs)
  }

  // ---- decoding undoes printing ----

  predicate EndsField(s: string) {
    s != "" && (s[0] == ',' || s[0] == '\n')
  }

  lemma QuotedEnds(tail: string)
    requires EndsField(tail)
    ensures Quoted("\"" + tail) == Some(("", tail))
  {
    var s := "\"" + tail;
    assert s[1..] == tail && s[1] == tail[0];
  }

  lemma QuotedStep(c: char, rest: string)
    ensures Quoted((if c == '"' then "\"\"" else [c]) + rest) ==
      match Quoted(rest)
      case None => None
      case Some((f, tail)) => Some(([c] + f, tail))
  {
    hide Quoted;
    if c == '"' { QuotedPair(rest); } else { QuotedOne(c, rest); }
  }

  lemma QuotedPair(rest: string)
    ensures Quoted("\"\"" + rest) == match Quoted(rest) case None => None case Some((f, tail)) => Some(("\"" + f, tail))
  {
    var s := "\"\"" + rest;
    assert s[2..] == rest;
  }

  lemma QuotedOne(c: char, rest: string)
    requires c != '"'
    ensures Quoted([c] + rest) == match Quoted(rest) case None => None case Some((f, tail)) => Some(([c] + f, tail))
  {
    assert ([c] + rest)[1..] == rest;
  }

  lemma {:induction false} QuotedOfDoubled(f: string, tail: string)
    requires EndsField(tail)
    ensures Quoted(Doubled(f) + "\"" + tail) == Some((f, tail))
  {
    hide Quoted;
    var s := Doubled(f) + "\"" + tail;
    if f == "" {
      assert s == "\"" + tail;
      QuotedEnds(tail);
    } else {
      var rest := Doubled(f[1..]) + "\"" + tail;
      assert s == (if f[0] == '"' then "\"\"" else [f[0]]) + rest;
      QuotedOfDoubled(f[1..], tail);
      QuotedStep(f[0], rest);
      assert [f[0]] + f[1..] == f;
    }
  }

  lemma {:induction false} PlainOfField(f: string, tail: string)
    requires EndsField(tail) && ',' !in f && '"' !in f && '\n' !in f
    ensures Plain(f + tail) == Some((f, tail))
  {
    if f == "" {
      assert f + tail == tail;
    } else {
      assert f[0] in f && (f + tail)[0] == f[0] && (f + tail)[1..] == f[1..] + tail;
      PlainOfField(f[1..], tail);
      assert [f[0]] + f[1..] == f;
    }
  }

  lemma FieldComesBack(f: string, tail: string)
    requires EndsField(tail)
    ensures DecodeField(Escape(f) + tail) == Some((f, tail))
  {
    hide Quoted, Plain, Doubled;
    if ',' in f || '"' in f || '\n' in f {
      var s := Escape(f) + tail;
      assert s == "\"" + (Doubled(f) + "\"" + tail);
      assert s[1..] == Doubled(f) + "\"" + tail;
      QuotedOfDoubled(f, tail);
    } else {
      PlainOfField(f, tail);
      if f != "" { assert f[0] in f && (f + tail)[0] == f[0]; }
    }
  }

  lemma {:induction false} RecordComesBack(fields: seq<string>, tail: string)
    requires fields != []
    ensures DecodeRecord(Record(fields) + tail) == Some((fields, tail))
    decreases |fields|
  {
    hide Escape, DecodeField;
    var f := fields[0];
    if |fields| == 1 {
      var s := "\n" + tail;
      assert Record(fields) + tail == Escape(f) + s;
      FieldComesBack(f, s);
      assert s[1..] == tail;
      assert fields == [f];
    } else {
      var rest := Record(fields[1..]) + tail;
      var s := "," + rest;
      assert Record(fields) + tail == Escape(f) + s;
      FieldComesBack(f, s);
      assert s[1..] == rest;
      RecordComesBack(fields[1..], tail);
      assert [f] + fields[1..] == fields;
    }
  }

  lemma {:induction false} RecordsComeBack(rows: seq<seq<string>>)
    requires forall i :: 0 <= i < |rows| ==> rows[i] != []
    ensures Decode(Records(rows)) == Some(rows)
    decreases |rows|
  {
    hide Record, DecodeRecord;
    if rows != [] {
      RecordComesBack(rows[0], Records(rows[1..]));
      RecordsComeBack(rows[1..]);
      RecordNotEmpty(rows[0]);
      assert [rows[0]] + rows[1..] == rows;
    }
  }

  lemma RecordNotEmpty(fields: seq<string>)
    requires fields != []
    ensures Record(fields) != ""
  {
  }

  lemma NothingToEscape(s: string)
    requires ',' !in s && '"' !in s && '\n' !in s
    ensures Escape(s) == s
  {
  }

  lemma HeaderPlain()
    ensures forall k :: 0 <= k < |HEADER| ==> Escape(HEADER[k]) == HEADER[k]
  {
    forall k | 0 <= k < |HEADER| ensures Escape(HEADER[k]) == HEADER[k] { NothingToEscape(HEADER[k]); }
  }

  lemma HeaderIsRecord()
    ensures Record(HEADER) == HEADER_LINE
  {
    hide Record, HeaderLine, Escape;
    HeaderPlain();
    PlainRecord(HEADER);
  }

  lemma {:induction false} PlainRecord(names: seq<string>)
    requires forall k :: 0 <= k < |names| ==> Escape(names[k]) == names[k]
    ensures Record(names) == HeaderLine(names)
  {
    hide Escape;
    if |names| > 1 { PlainRecord(names[1..]); }
  }

  /** Main result: whatever commas, quotes or line feeds the fields hold, decoding the body of
      the table gives the header and exactly the rows. */
  lemma TableComesBack(rows: seq<HwRow>)
    ensures Decode(Body(rows)) == Some([HEADER] + Rows(rows))
  {
    hide Record, Records, Decode, Fields;
    HeaderIsRecord();
    var all := [HEADER] + Rows(rows);
    assert all[1..] == Rows(rows);
    RecordsCons(HEADER, Rows(rows));
    forall i | 0 <= i < |all| ensures all[i] != [] {
      if i > 0 { FieldsNotEmpty(rows[i - 1]); }
    }
    RecordsComeBack(all);
  }

  /** In a table with a header, the value stands in the row under the name. */
  predicate Under(table: seq<seq<string>>, row: nat, name: string, value: string) {
    && 0 < row < |table| && |table[0]| == |table[row]|
    && exists k :: 0 <= k < |table[0]| && table[0][k] == name && table[row][k] == value
  }

  predicate NamesDiffer(names: seq<string>) {
    forall i, j :: 0 <= i < j < |names| ==> names[i] != names[j]
  }

  /** Each value comes back in its own row under the name of its column, and no two columns have
      the same name. */
  lemma ValuesStandUnderTheirNames(rows: seq<HwRow>, i: nat)
    requires i < |rows|
    ensures Decode(Body(rows)).Some? && |Decode(Body(rows)).value| == |rows| + 1
    ensures var table, r := Decode(Body(rows)).value, rows[i];
      && NamesDiffer(table[0])
      && Under(table, i + 1, "节点名", r.nodeName) && Under(table, i + 1, "节点IP", r.nodeIP)
      && Under(table, i + 1, "供应商", r.vendor) && Under(table, i + 1, "序列号", r.serial)
      && Under(table, i + 1, "Bond", r.bond) && Under(table, i + 1, "网卡", r.nic)
      && Under(table, i + 1, "驱动", r.driver) && Under(table, i + 1, "version", r.version)
      && Under(table, i + 1, "firmware", r.firmware)
  {
    hide Decode, Body, NamesDiffer, Under;
    TableComesBack(rows);
    var table, r := Decode(Body(rows)).value, rows[i];
    var f := Fields(r);
    assert table[0] == HEADER && table[i + 1] == f;
    HeaderNamesDiffer();
    ColumnAt(table, i + 1, 0, "节点名", r.nodeName);
    ColumnAt(table, i + 1, 1, "节点IP", r.nodeIP);
    ColumnAt(table, i + 1, 2, "供应商", r.vendor);
    ColumnAt(table, i + 1, 3, "序列号", r.serial);
    ColumnAt(table, i + 1, 4, "Bond", r.bond);
    ColumnAt(table, i + 1, 5, "网卡", r.nic);
    ColumnAt(table, i + 1, 6, "驱动", r.driver);
    ColumnAt(table, i + 1, 7, "version", r.version);
    ColumnAt(table, i + 1, 8, "firmware", r.firmware);
  }

  lemma ColumnAt(table: seq<seq<string>>, row: nat, k: nat, name: string, value: string)
    requires 0 < row < |table| && |table[0]| == |table[row]| && k < |table[0]|
    requires table[0][k] == name && table[row][k] == value
    ensures Under(table, row, name, value)
  {
  }

  lemma HeaderNamesDiffer()
    ensures NamesDiffer(HEADER)
  {
    assert HEADER[0] != HEADER[1] by { assert HEADER[0][2] != HEADER[1][2]; }
  }

  lemma RecordsCons(row: seq<string>, rows: seq<seq<string>>)
    ensures Records([row] + rows) == Record(row) + Records(rows)
  {
    assert ([row] + rows)[1..] == rows;
  }

  lemma FieldsNotEmpty(r: HwRow)
    ensures Fields(r) != []
  {
  }

  /** So no two fields are escaped alike. */
  lemma EscapeIsInjective(f: string, g: string)
    requires Escape(f) == Escape(g)
    ensures f == g
  {
    FieldComesBack(f, ",");
    FieldComesBack(g, ",");
  }

  lemma BodyIsInjective(a: seq<HwRow>, b: seq<HwRow>)
    requires Body(a) == Body(b)
    ensures a == b
  {
    hide Body, Decode;
    TableComesBack(a);
    TableComesBack(b);
    assert ([HEADER] + Rows(a))[1..] == Rows(a) && ([HEADER] + Rows(b))[1..] == Rows(b);
    forall i | 0 <= i < |a| ensures a[i] == b[i] {
      assert Fields(a[i]) == Fields(b[i]);
    }
  }

  /** No two tables print alike, the text for no rows included. */
  lemma TableIsInjective(a: seq<HwRow>, b: seq<HwRow>)
    requires Table(a) == Table(b)
    ensures a == b
  {
    hide Body;
    if a != [] && b != [] {
      FenceOff(a);
      FenceOff(b);
      BodyIsInjective(a, b);
    } else if a != [] {
      NoRowsIsNoTable(a);
    } else if b != [] {
      NoRowsIsNoTable(b);
    }
  }

  /** What stands between the fences of a table with rows. */
  lemma FenceOff(rows: seq<HwRow>)
    requires rows != []
    ensures var t := Table(rows);
      |t| >= |OPEN_FENCE| + |CLOSE_FENCE| && t[|OPEN_FENCE|..|t| - |CLOSE_FENCE|] == Body(rows)
  {
    hide Body;
    var t, body := Table(rows), Body(rows);
    assert t == OPEN_FENCE + body + CLOSE_FENCE;
  }

  lemma NoRowsIsNoTable(rows: seq<HwRow>)
    requires rows != []
    ensures Table(rows) != Table([])
  {
    hide HeaderLine, Body;
    HeaderStart(rows);
    FenceOff(rows);
    var body := Body(rows);
    assert Table(rows)[|OPEN_FENCE|] == body[0];
    assert Table([])[|OPEN_FENCE|] == '(';
  }

  lemma HeaderStart(rows: seq<HwRow>)
    ensures Body(rows) != "" && Body(rows)[0] == '节'
  {
    hide Records, Rows;
    assert HEADER_LINE == HEADER[0] + "," + HeaderLine(HEADER[1..]);
  }
}
