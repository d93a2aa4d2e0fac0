/** The data-export panel: `convertToCSV` and the file names of `handleExport`
    and `handleExportAll`. Quoting follows section 2, rules 6 and 7, of
    RFC 4180, except that records are separated by LF alone and CR is an
    ordinary character. A decoder for that format is the partner of the
    encoder: decoding an export gives back the header names and the fields. */
module Export {
  import opened Common

  /** A record value: `null`/`undefined`, or the text `String(value)` gives. */
  datatype Value = Missing | Text(text: string)

  /** An exported object: its entries in key order. */
  type Record = seq<(string, Value)>

  /** `Object.keys(record)`. */
  function Keys(r: Record): (ks: seq<string>)
    ensures |ks| == |r| && forall i :: 0 <= i < |r| ==> ks[i] == r[i].0
  {
    seq(|r|, i requires 0 <= i < |r| => r[i].0)
  }

  /** `record[key]`: the value of the first entry with that key, or `undefined`. */
  function Lookup(r: Record, key: string): (v: Value)
    ensures v.Text? ==> exists i :: 0 <= i < |r| && r[i] == (key, v)
    ensures (forall i :: 0 <= i < |r| ==> r[i].0 != key) ==> v == Missing
    ensures forall i :: 0 <= i < |r| && r[i].0 == key && (forall j :: 0 <= j < i ==> r[j].0 != key) ==> v == r[i].1
  {
    if r == [] then Missing else if r[0].0 == key then r[0].1 else Lookup(r[1..], key)
  }

  /** The characters that force a field into quotes. */
  predicate NeedsQuotes(s: string) {
    ',' in s || '"' in s || '\n' in s
  }

  /** `s.replace(/"/g, '""')`. */
  function DoubleQuotes(s: string): string {
    if s == [] then [] else (if s[0] == '"' then "\"\"" else [s[0]]) + DoubleQuotes(s[1..])
  }

  /** One field as the encoder writes it. */
  function EscapeText(s: string): string {
    if NeedsQuotes(s) then "\"" + DoubleQuotes(s) + "\"" else s
  }

  /** The text a value stands for: empty for a missing value. */
  function FieldText(v: Value): string {
    match v
    case Missing => ""
    case Text(s) => s
  }

  /** The `headers.map(...)` callback of `convertToCSV`. */
  function EncodeValue(v: Value): (r: string)
    ensures r == EscapeText(FieldText(v))
    ensures v == Missing ==> r == ""
  {
    match v
    case Missing => ""
    case Text(s) => EscapeText(s)
  }

  function EscapeAll(xs: seq<string>): (r: seq<string>)
    ensures |r| == |xs|
  {
    if xs == [] then [] else [EscapeText(xs[0])] + EscapeAll(xs[1..])
  }

  /** The texts a row supplies for the given headers, in header order. A
      reference definition: `CsvRoundTrip` proves the decoder reads these
      texts back, and `ColumnHoldsValue` says which value each one is. */
  function RowTexts(r: Record, headers: seq<string>): (t: seq<string>)
    ensures |t| == |headers|
    ensures forall i :: 0 <= i < |headers| ==> t[i] == FieldText(Lookup(r, headers[i]))
  {
    seq(|headers|, i requires 0 <= i < |headers| => FieldText(Lookup(r, headers[i])))
  }

  /** A record whose distinct keys are the headers, in header order, supplies
      its own values: column `i` holds the text of its `i`-th value. */
  lemma ColumnHoldsValue(r: Record, headers: seq<string>)
    requires Keys(r) == headers
    requires forall i, j :: 0 <= i < j < |headers| ==> headers[i] != headers[j]
    ensures forall i :: 0 <= i < |r| ==> RowTexts(r, headers)[i] == FieldText(r[i].1)
  {
    forall i | 0 <= i < |r| ensures Lookup(r, headers[i]) == r[i].1 {
      assert forall j :: 0 <= j < i ==> r[j].0 != headers[i] by {
        forall j | 0 <= j < i ensures r[j].0 != headers[i] {
          assert r[j].0 == headers[j];
        }
      }
    }
  }

  /** A data line: one encoded field per header, joined by commas. */
  function RowLine(r: Record, headers: seq<string>): string {
    Join(EscapeAll(RowTexts(r, headers)), ",")
  }

  /** The lines of the export: the first record's keys, then one line per
      record. A reference definition: the loop of `ConvertToCsv` is proved to
      build it, and `CsvRoundTrip` gives it its meaning. */
  function CsvLines(data: seq<Record>): (lines: seq<string>)
    requires data != []
    ensures |lines| == |data| + 1
    ensures lines[0] == Join(Keys(data[0]), ",")
    ensures forall i :: 0 <= i < |data| ==> lines[i + 1] == RowLine(data[i], Keys(data[0]))
  {
    [Join(Keys(data[0]), ",")] + seq(|data|, i requires 0 <= i < |data| => RowLine(data[i], Keys(data[0])))
  }

  function CsvText(data: seq<Record>): string {
    if data == [] then "" else Join(CsvLines(data), "\n")
  }

  lemma CsvLinesStep(data: seq<Record>, i: nat)
    requires i < |data|
    ensures CsvLines(data)[..i + 2] == CsvLines(data)[..i + 1] + [RowLine(data[i], Keys(data[0]))]
  {
    var lines := CsvLines(data);
    assert lines[..i + 2] == lines[..i + 1] + [lines[i + 1]];
  }

  /** `convertToCSV`: builds the lines with a loop and joins them with LF. */
  method ConvertToCsv(data: seq<Record>) returns (csv: string)
    ensures data == [] ==> csv == ""
    ensures data != [] ==> csv == Join(CsvLines(data), "\n")
  {
    if |data| == 0 {
      return "";
    }
    var headers := Keys(data[0]);
    ghost var lines := CsvLines(data);
    var rows := [Join(headers, ",")];
    for i := 0 to |data|
      invariant rows == lines[..i + 1]
    {
      var values := EscapeAll(RowTexts(data[i], headers));
      CsvLinesStep(data, i);
      rows := rows + [Join(values, ",")];
    }
    assert rows == lines;
    csv := Join(rows, "\n");
  }

  // ---------------------------------------------------------------------------
  // Decoding

  /** Reads a quoted field after its opening quote: `""` stands for one quote
      and a lone quote closes the field. Returns the field and what follows it. */
  function ParseQuoted(s: string): (r: (string, string))
    ensures |r.1| <= |s|
    decreases |s|
  {
    if s == [] then ([], [])
    else if s[0] == '"' then
      if |s| >= 2 && s[1] == '"' then
        var (f, rest) := ParseQuoted(s[2..]);
        (['"'] + f, rest)
      else ([], s[1..])
    else
      var (f, rest) := ParseQuoted(s[1..]);
      ([s[0]] + f, rest)
  }

  /** Reads an unquoted field up to the next comma or line feed. */
  function ParsePlain(s: string): (r: (string, string))
    ensures |r.1| <= |s|
    ensures r.0 + r.1 == s
  {
    if s == [] || s[0] == ',' || s[0] == '\n' then ([], s)
    else
      var (f, rest) := ParsePlain(s[1..]);
      ([s[0]] + f, rest)
  }

  function ParseField(s: string): (r: (string, string))
    ensures |r.1| <= |s|
  {
    if |s| > 0 && s[0] == '"' then ParseQuoted(s[1..]) else ParsePlain(s)
  }

  /** Reads the comma-separated fields of one record. */
  function ParseRecord(s: string): (r: (seq<string>, string))
    ensures |r.1| <= |s|
    decreases |s|
  {
    var (f, rest) := ParseField(s);
    if |rest| > 0 && rest[0] == ',' then
      var (fs, rest2) := ParseRecord(rest[1..]);
      ([f] + fs, rest2)
    else ([f], rest)
  }

  /** Reads LF-separated records up to the end of the text. */
  function ParseCsv(s: string): seq<seq<string>>
    decreases |s|
  {
    var (fs, rest) := ParseRecord(s);
    if |rest| > 0 && rest[0] == '\n' then [fs] + ParseCsv(rest[1..]) else [fs]
  }

  /** What may follow a field: the end, a comma, or a line feed. */
  predicate FieldEnd(t: string) {
    t == [] || t[0] == ',' || t[0] == '\n'
  }

  lemma {:induction false} ParseQuotedRoundTrip(f: string, t: string)
    requires t == [] || t[0] != '"'
    ensures ParseQuoted(DoubleQuotes(f) + "\"" + t) == (f, t)
    decreases |f|
  {
    var s := DoubleQuotes(f) + "\"" + t;
    if f == [] {
      assert s == "\"" + t;
    } else if f[0] == '"' {
      ParseQuotedRoundTrip(f[1..], t);
      assert s == "\"\"" + (DoubleQuotes(f[1..]) + "\"" + t);
      assert s[2..] == DoubleQuotes(f[1..]) + "\"" + t;
      assert ['"'] + f[1..] == f;
    } else {
      ParseQuotedRoundTrip(f[1..], t);
      assert s == [f[0]] + (DoubleQuotes(f[1..]) + "\"" + t);
      assert s[1..] == DoubleQuotes(f[1..]) + "\"" + t;
      assert [f[0]] + f[1..] == f;
    }
  }

  lemma {:induction false} ParsePlainRoundTrip(f: string, t: string)
    requires ',' !in f && '\n' !in f
    requires FieldEnd(t)
    ensures ParsePlain(f + t) == (f, t)
    decreases |f|
  {
    if f == [] {
      assert f + t == t;
    } else {
      ParsePlainRoundTrip(f[1..], t);
      assert (f + t)[1..] == f[1..] + t;
      assert [f[0]] + f[1..] == f;
    }
  }

  lemma QuotedFieldRoundTrip(f: string, t: string)
    requires NeedsQuotes(f) && FieldEnd(t)
    ensures ParseField(EscapeText(f) + t) == (f, t)
  {
    var s := EscapeText(f) + t;
    assert s == "\"" + (DoubleQuotes(f) + "\"" + t);
    assert s[1..] == DoubleQuotes(f) + "\"" + t;
    ParseQuotedRoundTrip(f, t);
  }

  lemma PlainFieldRoundTrip(f: string, t: string)
    requires !NeedsQuotes(f) && FieldEnd(t)
    ensures ParseField(EscapeText(f) + t) == (f, t)
  {
    assert EscapeText(f) == f;
    if f == [] {
      assert f + t == t;
    } else {
      assert (f + t)[0] == f[0];
    }
    ParsePlainRoundTrip(f, t);
  }

  /** Decoding an encoded field gives back its text and stops at the separator. */
  lemma FieldRoundTrip(f: string, t: string)
    requires FieldEnd(t)
    ensures ParseField(EscapeText(f) + t) == (f, t)
  {
    if NeedsQuotes(f) {
      QuotedFieldRoundTrip(f, t);
    } else {
      PlainFieldRoundTrip(f, t);
    }
  }

  /** Decoding an encoded record gives back its fields. */
  lemma {:induction false} RecordRoundTrip(fields: seq<string>, t: string)
    requires |fields| >= 1
    requires t == [] || t[0] == '\n'
    ensures ParseRecord(Join(EscapeAll(fields), ",") + t) == (fields, t)
    decreases |fields|
  {
    var enc := EscapeAll(fields);
    if |fields| == 1 {
      assert enc == [EscapeText(fields[0])];
      assert Join(enc, ",") == EscapeText(fields[0]);
      FieldRoundTrip(fields[0], t);
      assert fields == [fields[0]];
    } else {
      var tail := Join(EscapeAll(fields[1..]), ",") + t;
      assert EscapeAll(fields[1..]) == enc[1..];
      assert Join(enc, ",") + t == EscapeText(fields[0]) + ("," + tail);
      FieldRoundTrip(fields[0], "," + tail);
      assert ("," + tail)[1..] == tail;
      RecordRoundTrip(fields[1..], t);
      assert [fields[0]] + fields[1..] == fields;
    }
  }

  /** A header name the encoder can write unquoted and the decoder reads back. */
  predicate PlainName(h: string) {
    !NeedsQuotes(h)
  }

  lemma {:induction false} PlainNamesEscapeToThemselves(hs: seq<string>)
    requires forall i :: 0 <= i < |hs| ==> PlainName(hs[i])
    ensures EscapeAll(hs) == hs
    decreases |hs|
  {
    if hs != [] {
      PlainNamesEscapeToThemselves(hs[1..]);
      assert [hs[0]] + hs[1..] == hs;
    }
  }

  /** The lines an encoder writes for a table of field texts. */
  function EncodedLines(recs: seq<seq<string>>): (lines: seq<string>)
    ensures |lines| == |recs|
    ensures forall i :: 0 <= i < |recs| ==> lines[i] == Join(EscapeAll(recs[i]), ",")
  {
    seq(|recs|, i requires 0 <= i < |recs| => Join(EscapeAll(recs[i]), ","))
  }

  /** Decoding LF-joined encoded records gives back every record. */
  lemma {:induction false} LinesRoundTrip(recs: seq<seq<string>>)
    requires |recs| >= 1
    requires forall i :: 0 <= i < |recs| ==> |recs[i]| >= 1
    ensures ParseCsv(Join(EncodedLines(recs), "\n")) == recs
    decreases |recs|
  {
    var lines := EncodedLines(recs);
    if |recs| == 1 {
      RecordRoundTrip(recs[0], []);
      assert Join(lines, "\n") == lines[0] + [];
    } else {
      assert EncodedLines(recs[1..]) == lines[1..];
      var tail := Join(EncodedLines(recs[1..]), "\n");
      assert Join(lines, "\n") == lines[0] + ("\n" + tail);
      RecordRoundTrip(recs[0], "\n" + tail);
      assert ("\n" + tail)[1..] == tail;
      LinesRoundTrip(recs[1..]);
      assert [recs[0]] + recs[1..] == recs;
    }
  }

  /** The field texts of an export: the header names, then each record's
      texts under those names. */
  function ExportTable(data: seq<Record>): (recs: seq<seq<string>>)
    requires data != []
    ensures |recs| == |data| + 1 && recs[0] == Keys(data[0])
    ensures forall i :: 0 <= i < |data| ==> recs[i + 1] == RowTexts(data[i], Keys(data[0]))
  {
    [Keys(data[0])] + seq(|data|, i requires 0 <= i < |data| => RowTexts(data[i], Keys(data[0])))
  }

  /** With plain header names the export's lines are the encoding of its table. */
  lemma ExportLinesEncodeTable(data: seq<Record>)
    requires data != []
    requires forall i :: 0 <= i < |data[0]| ==> PlainName(data[0][i].0)
    ensures EncodedLines(ExportTable(data)) == CsvLines(data)
  {
    var recs := ExportTable(data);
    PlainNamesEscapeToThemselves(Keys(data[0]));
    forall i | 0 <= i < |recs| ensures EncodedLines(recs)[i] == CsvLines(data)[i] {
      if i > 0 {
        assert recs[(i - 1) + 1] == RowTexts(data[i - 1], Keys(data[0]));
      }
    }
  }

  /** Decoding an export gives back the header names and, for every record,
      the texts of its values under those headers. The header line is written
      without escaping, so the names must need no quotes. */
  lemma CsvRoundTrip(data: seq<Record>)
    requires data != [] && |data[0]| >= 1
    requires forall i :: 0 <= i < |data[0]| ==> PlainName(data[0][i].0)
    ensures ParseCsv(CsvText(data)) == ExportTable(data)
  {
    ExportLinesEncodeTable(data);
    LinesRoundTrip(ExportTable(data));
  }

  /** A field that needs quotes is wrapped in quotes, and decoding the inside
      (a doubled quote standing for one) recovers the original text. */
  lemma QuotedFieldShape(s: string)
    requires NeedsQuotes(s)
    ensures |EscapeText(s)| >= 2 && EscapeText(s)[0] == '"' && EscapeText(s)[|EscapeText(s)| - 1] == '"'
    ensures ParseQuoted(EscapeText(s)[1..]) == (s, [])
  {
    ParseQuotedRoundTrip(s, []);
    assert EscapeText(s)[1..] == DoubleQuotes(s) + "\"" + [];
  }

  // ---------------------------------------------------------------------------
  // Files

  datatype ExportType = Matches | Teams | Groups

  function TypeName(t: ExportType): string {
    match t
    case Matches => "matches"
    case Teams => "teams"
    case Groups => "groups"
  }

  datatype Format = Json | Csv

  /** A download: its file name and MIME type, and for CSV its body. */
  datatype Download = Download(fileName: string, mimeType: string, csvBody: Option<string>)

  /** `data || []`: no data yet counts as an empty list. */
  function OrEmpty(data: Option<seq<Record>>): (r: seq<Record>)
    ensures data.Some? ==> r == data.value
    ensures data.None? ==> r == []
  {
    if data.Some? then data.value else []
  }

  /** `new Date().toISOString().split('T')[0]`, applied to the clock's ISO text. */
  function DateStamp(iso: string): string {
    Before(iso, "T")
  }

  function FileFor(base: string, stamp: string, format: Format, data: seq<Record>): Download {
    match format
    case Json => Download(base + "_backup_" + stamp + ".json", "application/json", None)
    case Csv => Download(base + "_backup_" + stamp + ".csv", "text/csv", Some(CsvText(data)))
  }

  /** `handleExport`: no file for an empty entity, otherwise one file named
      `<type>_backup_<date>.<json|csv>`. */
  function HandleExport(t: ExportType, data: seq<Record>, format: Format, iso: string): (r: Option<Download>)
    ensures data == [] <==> r.None?
    ensures r.Some? ==>
              r.value.fileName == TypeName(t) + "_backup_" + DateStamp(iso) + (if format == Json then ".json" else ".csv")
    ensures r.Some? && format == Csv ==> r.value.csvBody == Some(CsvText(data))
  {
    if data == [] then None else Some(FileFor(TypeName(t), DateStamp(iso), format, data))
  }

  /** `handleExportAll`: JSON gives one `full_backup` file; CSV gives one file
      per non-empty entity, matches then teams then groups. */
  function HandleExportAll(matches: seq<Record>, teams: seq<Record>, groups: seq<Record>,
                           format: Format, iso: string): (r: seq<Download>)
    ensures format == Json ==> |r| == 1 && r[0].fileName == "full_backup_" + DateStamp(iso) + ".json"
    ensures format == Csv ==>
              |r| == (if matches != [] then 1 else 0) + (if teams != [] then 1 else 0) + (if groups != [] then 1 else 0)
    ensures format == Csv ==> forall i :: 0 <= i < |r| ==> r[i].csvBody.Some? && r[i].csvBody.value != ""
  {
    var stamp := DateStamp(iso);
    match format
    case Json => [Download("full_backup_" + stamp + ".json", "application/json", None)]
    case Csv =>
      (if matches != [] then [FileFor("matches", stamp, Csv, matches)] else [])
      + (if teams != [] then [FileFor("teams", stamp, Csv, teams)] else [])
      + (if groups != [] then [FileFor("groups", stamp, Csv, groups)] else [])
  }

  /** The toast `handleExport` shows: an error for an empty entity, and a
      success naming the entity once its file is written. */
  function ExportToast(t: ExportType, data: seq<Record>): (r: Toast)
    ensures r.SuccessToast? <==> data != []
    ensures data == [] ==> r == ErrorToast("No " + TypeName(t) + " data to export")
    ensures data != [] ==> r == SuccessToast(TypeName(t) + " exported successfully!")
  {
    if data == [] then ErrorToast("No " + TypeName(t) + " data to export")
    else SuccessToast(TypeName(t) + " exported successfully!")
  }

  /** A single export reports success exactly when it writes a file. */
  lemma ExportToastMatchesFile(t: ExportType, data: seq<Record>, format: Format, iso: string)
    ensures ExportToast(t, data).SuccessToast? <==> HandleExport(t, data, format, iso).Some?
    ensures ExportToast(t, data).ErrorToast? <==> HandleExport(t, data, format, iso).None?
  {
  }

  /** The toast `handleExportAll` shows after any run, whatever it wrote. */
  const ExportAllToast := SuccessToast("Full backup exported!")

  /** A CSV "export all" with every entity empty writes no file, and the page
      still shows `ExportAllToast`, unlike the single export, which reports
      the empty entity as an error. */
  lemma EmptyCsvBackupWritesNothing(t: ExportType, iso: string)
    ensures HandleExportAll([], [], [], Csv, iso) == []
    ensures ExportAllToast.SuccessToast? && ExportToast(t, []).ErrorToast?
  {
  }

  /** The files of a single-entity export, as a list: none or one. */
  function Files(d: Option<Download>): seq<Download> {
    if d.Some? then [d.value] else []
  }

  /** The CSV files of "export all" are exactly the single-entity exports
      that produce a file, matches first, then teams, then groups. */
  lemma ExportAllOrder(matches: seq<Record>, teams: seq<Record>, groups: seq<Record>, iso: string)
    ensures HandleExportAll(matches, teams, groups, Csv, iso)
              == Files(HandleExport(Matches, matches, Csv, iso))
                 + Files(HandleExport(Teams, teams, Csv, iso))
                 + Files(HandleExport(Groups, groups, Csv, iso))
  {
    var stamp := DateStamp(iso);
    EntityFiles(Matches, matches, iso);
    EntityFiles(Teams, teams, iso);
    EntityFiles(Groups, groups, iso);
    assert HandleExportAll(matches, teams, groups, Csv, iso)
             == (if matches != [] then [FileFor("matches", stamp, Csv, matches)] else [])
                + (if teams != [] then [FileFor("teams", stamp, Csv, teams)] else [])
                + (if groups != [] then [FileFor("groups", stamp, Csv, groups)] else []);
  }

  /** The files of one entity's CSV export, as "export all" writes them. */
  lemma EntityFiles(t: ExportType, data: seq<Record>, iso: string)
    ensures Files(HandleExport(t, data, Csv, iso))
              == if data != [] then [FileFor(TypeName(t), DateStamp(iso), Csv, data)] else []
  {
    if data != [] {
      SingleExportIsFile(t, data, iso);
    }
  }

  /** Where each entity's file sits among the CSV files of "export all". */
  lemma ExportAllPositions(matches: seq<Record>, teams: seq<Record>, groups: seq<Record>, iso: string)
    ensures var r := HandleExportAll(matches, teams, groups, Csv, iso);
            && (matches != [] ==> r[0] == HandleExport(Matches, matches, Csv, iso).value)
            && (teams != [] ==> r[if matches != [] then 1 else 0] == HandleExport(Teams, teams, Csv, iso).value)
            && (groups != [] ==>
                  r[(if matches != [] then 1 else 0) + (if teams != [] then 1 else 0)]
                    == HandleExport(Groups, groups, Csv, iso).value)
  {
    ExportAllOrder(matches, teams, groups, iso);
    var fm := Files(HandleExport(Matches, matches, Csv, iso));
    var ft := Files(HandleExport(Teams, teams, Csv, iso));
    var fg := Files(HandleExport(Groups, groups, Csv, iso));
    assert |fm| == (if matches != [] then 1 else 0) && |ft| == (if teams != [] then 1 else 0);
    if teams != [] {
      assert (fm + ft + fg)[|fm|] == ft[0];
    }
    if groups != [] {
      assert (fm + ft + fg)[|fm| + |ft|] == fg[0];
    }
  }

  lemma SingleExportIsFile(t: ExportType, data: seq<Record>, iso: string)
    requires data != []
    ensures HandleExport(t, data, Csv, iso) == Some(FileFor(TypeName(t), DateStamp(iso), Csv, data))
  {
  }
}
