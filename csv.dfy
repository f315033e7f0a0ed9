/** The CSV text the list and search components export. A content field is
    wrapped in double quotes with every inner double quote doubled; the
    identifier and the type are written bare; rows are joined by a line feed.
    The search exports start with a byte-order mark, the list exports do not. */
module Csv {
  import opened Strings
  import opened Records

  /** `s.replace(/"/g, '""')`: every double quote doubled. */
  function Escape(s: string): (r: string)
    ensures |r| >= |s|
    ensures forall c :: c in r <==> c in s
  {
    if s == [] then []
    else (if s[0] == '"' then "\"\"" else [s[0]]) + Escape(s[1..])
  }

  /** The quoted content field: `"` + escaped content + `"`. */
  function Quote(s: string): (r: string)
    ensures |r| >= 2 && r[0] == '"' && r[|r| - 1] == '"'
    ensures forall c :: c != '"' ==> (c in r <==> c in s)
  {
    "\"" + Escape(s) + "\""
  }

  /** Reading a quoted field body back: each pair of double quotes stands for
      one, and a lone double quote cannot occur in a body `Escape` wrote. */
  function Unescape(s: string): Option<string>
  {
    if s == [] then Some([])
    else if s[0] != '"' then
      match Unescape(s[1..])
      case None => None
      case Some(t) => Some([s[0]] + t)
    else if |s| >= 2 && s[1] == '"' then
      match Unescape(s[2..])
      case None => None
      case Some(t) => Some("\"" + t)
    else None
  }

  /** Strips the outer quotes of a field and halves the inner pairs. */
  function Unquote(s: string): Option<string> {
    if |s| >= 2 && s[0] == '"' && s[|s| - 1] == '"' then Unescape(s[1..|s| - 1]) else None
  }

  lemma {:induction false} UnescapeEscape(s: string)
    ensures Unescape(Escape(s)) == Some(s)
  {
    if s != [] {
      UnescapeEscape(s[1..]);
      var e := Escape(s);
      if s[0] == '"' {
        assert e[2..] == Escape(s[1..]);
      } else {
        assert e[1..] == Escape(s[1..]);
      }
      assert [s[0]] + s[1..] == s;
    }
  }

  /** Stripping the quotes and halving the pairs recovers the content. */
  lemma UnquoteQuote(s: string)
    ensures Unquote(Quote(s)) == Some(s)
  {
    var q := Quote(s);
    assert q[1..|q| - 1] == Escape(s);
    UnescapeEscape(s);
  }

  /** Different contents are exported as different fields. */
  lemma QuoteInjective(a: string, b: string)
    ensures Quote(a) == Quote(b) ==> a == b
  {
    UnquoteQuote(a);
    UnquoteQuote(b);
  }

  predicate NotComma(c: char) { c != ',' }

  /** A text cut at its first comma, or no comma at all. */
  datatype Cut = NoComma | Cut(before: string, after: string)

  /** The text before the first comma and the text after it, if there is one. */
  function CutAtComma(s: string): (r: Cut)
    ensures r.Cut? ==> ',' !in r.before && s == r.before + "," + r.after
    ensures r.NoComma? <==> ',' !in s
  {
    var n := Run(s, 0, NotComma);
    if n == |s| then
      assert forall j :: 0 <= j < |s| ==> s[j] != ',';
      NoComma
    else
      assert s == s[..n] + "," + s[n + 1..];
      Cut(s[..n], s[n + 1..])
  }

  lemma CutAtFirstComma(a: string, b: string)
    requires ',' !in a
    ensures CutAtComma(a + "," + b) == Cut(a, b)
  {
    var s := a + "," + b;
    RunExact(s, 0, NotComma, |a|);
    assert s[..|a|] == a && s[|a| + 1..] == b;
  }

  /** The type name read back from an export. */
  function ParseKind(s: string): Option<Kind> {
    if s == "WFD" then Some(WFD) else if s == "RS" then Some(RS) else if s == "RA" then Some(RA) else None
  }

  /** One row of the list export: `[questionNo, type, quoted content].join(',')`. */
  function ListRow(r: Record): string {
    r.questionNo + "," + KindName(r.kind) + "," + Quote(r.content)
  }

  /** The fields read back from a list-export row. */
  datatype ListFields = ListFields(questionNo: string, kind: Kind, content: string)

  /** Reads a list-export row back into identifier, type and content. */
  function ParseListRow(row: string): Option<ListFields> {
    match CutAtComma(row)
    case NoComma => None
    case Cut(q, rest) =>
      match CutAtComma(rest)
      case NoComma => None
      case Cut(t, field) =>
        match ParseKind(t)
        case None => None
        case Some(k) =>
          match Unquote(field)
          case None => None
          case Some(c) => Some(ListFields(q, k, c))
  }

  /** A row gives back the identifier, the type and the content it was written
      from, as long as the identifier has no comma (the content may hold any). */
  lemma ParseListRowRoundTrip(r: Record)
    requires ',' !in r.questionNo
    ensures ParseListRow(ListRow(r)) == Some(ListFields(r.questionNo, r.kind, r.content))
  {
    var t, field := KindName(r.kind), Quote(r.content);
    CommaAssoc(r.questionNo, t, field);
    CutAtFirstComma(r.questionNo, t + "," + field);
    KindNameRead(r.kind);
    CutAtFirstComma(t, field);
    UnquoteQuote(r.content);
  }

  lemma CommaAssoc(a: string, b: string, c: string)
    ensures a + "," + b + "," + c == a + "," + (b + "," + c)
  {
  }

  /** A type name has no comma and reads back as its type. */
  lemma KindNameRead(k: Kind)
    ensures ',' !in KindName(k) && ParseKind(KindName(k)) == Some(k)
  {
  }

  /** One row of the search export: `[questionNo, quoted content].join(',')`. */
  function SearchRow(r: Record): string {
    r.questionNo + "," + Quote(r.content)
  }

  /** The fields read back from a search-export row. */
  datatype SearchFields = SearchFields(questionNo: string, content: string)

  function ParseSearchRow(row: string): Option<SearchFields> {
    match CutAtComma(row)
    case NoComma => None
    case Cut(q, field) =>
      match Unquote(field)
      case None => None
      case Some(c) => Some(SearchFields(q, c))
  }

  lemma ParseSearchRowRoundTrip(r: Record)
    requires ',' !in r.questionNo
    ensures ParseSearchRow(SearchRow(r)) == Some(SearchFields(r.questionNo, r.content))
  {
    CutAtFirstComma(r.questionNo, Quote(r.content));
    UnquoteQuote(r.content);
  }

  const ListHeader: string := "QuestionNo,Type,Content"
  const SearchHeader: string := "QuestionNo,Content"
  const Bom: char := '\U{FEFF}'

  function ListRows(rs: seq<Record>): (rows: seq<string>)
    ensures |rows| == |rs|
    ensures forall i :: 0 <= i < |rs| ==> rows[i] == ListRow(rs[i])
  {
    seq(|rs|, i requires 0 <= i < |rs| => ListRow(rs[i]))
  }

  function SearchRows(rs: seq<Record>): (rows: seq<string>)
    ensures |rows| == |rs|
    ensures forall i :: 0 <= i < |rs| ==> rows[i] == SearchRow(rs[i])
  {
    seq(|rs|, i requires 0 <= i < |rs| => SearchRow(rs[i]))
  }

  /** The list export (`exportToCSV`): header, then one row per record in the
      order given, joined by line feeds, with no byte-order mark. */
  function ListCsv(rs: seq<Record>): (csv: string)
    ensures |csv| >= |ListHeader| && csv[..|ListHeader|] == ListHeader
  {
    JoinStartsWith(ListHeader, ListRows(rs), '\n');
    Join([ListHeader] + ListRows(rs), '\n')
  }

  /** The search export: a byte-order mark, the header, then one row per found
      record, joined by line feeds. */
  function SearchCsv(rs: seq<Record>): (csv: string)
    ensures |csv| > |SearchHeader| && csv[0] == Bom
    ensures csv[1..|SearchHeader| + 1] == SearchHeader
  {
    JoinStartsWith(SearchHeader, SearchRows(rs), '\n');
    var body := Join([SearchHeader] + SearchRows(rs), '\n');
    assert ([Bom] + body)[1..|SearchHeader| + 1] == body[..|SearchHeader|];
    [Bom] + body
  }

  lemma JoinStartsWith(head: string, rest: seq<string>, sep: char)
    ensures |Join([head] + rest, sep)| >= |head|
    ensures Join([head] + rest, sep)[..|head|] == head
  {
    if rest != [] {
      assert ([head] + rest)[1..] == rest;
    }
  }

  /** No field of the record holds a line feed, so its row is one line. */
  predicate OneLine(r: Record) {
    '\n' !in r.questionNo && '\n' !in r.content
  }

  /** Splitting the list export at line feeds gives the header and then exactly
      one line per record, in order, when no field holds a line feed. */
  lemma ListCsvLines(rs: seq<Record>)
    requires forall i :: 0 <= i < |rs| ==> OneLine(rs[i])
    ensures Split(ListCsv(rs), '\n') == [ListHeader] + ListRows(rs)
  {
    var parts := [ListHeader] + ListRows(rs);
    forall i | 0 <= i < |parts| ensures '\n' !in parts[i] {
      if i > 0 {
        assert parts[i] == ListRows(rs)[i - 1];
        ListRowOneLine(rs[i - 1]);
      }
    }
    SplitJoin(parts, '\n');
  }

  lemma ListRowOneLine(r: Record)
    requires OneLine(r)
    ensures '\n' !in ListRow(r)
  {
    assert '\n' !in Quote(r.content);
  }

  /** The same for the search export, once the byte-order mark is removed. */
  lemma SearchCsvLines(rs: seq<Record>)
    requires forall i :: 0 <= i < |rs| ==> OneLine(rs[i])
    ensures Split(SearchCsv(rs)[1..], '\n') == [SearchHeader] + SearchRows(rs)
  {
    var parts := [SearchHeader] + SearchRows(rs);
    forall i | 0 <= i < |parts| ensures '\n' !in parts[i] {
      if i > 0 {
        assert parts[i] == SearchRows(rs)[i - 1];
        assert '\n' !in Quote(rs[i - 1].content);
      }
    }
    SplitJoin(parts, '\n');
    assert SearchCsv(rs)[1..] == Join(parts, '\n');
  }

  /** The identifier column of the mixed search export: the `WFDNo` of a
      dictation record and the `RSNo` of any other; a missing field is written
      as nothing, as `join` writes `undefined`. */
  function ExportedNo(r: Record): string {
    if r.kind == WFD then r.wfdNo.GetOr([]) else r.rsNo.GetOr([])
  }

  /** The records as the mixed search export writes them: each with its
      `WFDNo` or `RSNo` in place of its `questionNo`. */
  function Relabel(rs: seq<Record>): (r: seq<Record>)
    ensures |r| == |rs|
    ensures forall i :: 0 <= i < |rs| ==> r[i] == rs[i].(questionNo := ExportedNo(rs[i]))
  {
    seq(|rs|, i requires 0 <= i < |rs| => rs[i].(questionNo := ExportedNo(rs[i])))
  }

  /** The mixed search export: the list header, then per found record its
      `WFDNo` or `RSNo`, its type and its quoted content; no byte-order mark. */
  function TypedCsv(rs: seq<Record>): (csv: string)
    ensures |csv| >= |ListHeader| && csv[..|ListHeader|] == ListHeader
  {
    ListCsv(Relabel(rs))
  }

  /** Splitting the mixed export at line feeds gives the header and then one
      line per found record, in order, each reading back as that record's
      `WFDNo` or `RSNo`, type and content. */
  lemma TypedCsvLines(rs: seq<Record>)
    requires forall i :: 0 <= i < |rs| ==> OneLine(rs[i]) && '\n' !in ExportedNo(rs[i]) && ',' !in ExportedNo(rs[i])
    ensures var lines := Split(TypedCsv(rs), '\n');
      && |lines| == |rs| + 1 && lines[0] == ListHeader
      && forall i :: 0 <= i < |rs| ==>
           ParseListRow(lines[i + 1]) == Some(ListFields(ExportedNo(rs[i]), rs[i].kind, rs[i].content))
  {
    var rl := Relabel(rs);
    ListCsvLines(rl);
    forall i | 0 <= i < |rs|
      ensures ParseListRow(ListRows(rl)[i]) == Some(ListFields(ExportedNo(rs[i]), rs[i].kind, rs[i].content))
    {
      ParseListRowRoundTrip(rl[i]);
    }
  }
}
