/**
 Explorer pages as CSV: how rows are printed, and what a reader of RFC 4180 (section 2, with LF
 for the line break) makes of the text.
 */
module Csv {
  import opened Wrappers

  /** A cell, by the kinds the printer tells apart. `iso` and `json` are the runtime's own text. */
  datatype Value =
    | Null | Undefined | Other
    | Date(iso: string)
    | List(items: seq<Item>)
    | Object(json: string)
    | Text(text: string)
    | Number(digits: string)
    | Flag(on: bool)

  datatype Item = Word(word: string) | Encoded(json: string)

  /** A row's own keys in their order, and what it holds under them. */
  datatype Row = Row(keys: seq<string>, cells: map<string, Value>)

  function At(r: Row, column: string): Value {
    if column in r.cells then r.cells[column] else Undefined
  }

  function Join(parts: seq<string>, sep: char): string {
    if |parts| == 0 then "" else if |parts| == 1 then parts[0] else parts[0] + [sep] + Join(parts[1..], sep)
  }

  function Map<S, T>(xs: seq<S>, f: S -> T): seq<T> {
    seq(|xs|, i requires 0 <= i < |xs| => f(xs[i]))
  }

  // ---------------------------------------------------------------------------
  // The printer
  // ---------------------------------------------------------------------------

  predicate Runs(c: char) {
    c in {'=', '+', '-', '@', '\t', '\r'}
  }

  predicate Special(c: char) {
    c in {'"', ',', '\n'}
  }

  predicate Plain(s: string) {
    forall i :: 0 <= i < |s| ==> !Special(s[i])
  }

  function Doubled(s: string): string {
    if s == "" then "" else (if s[0] == '"' then "\"\"" else [s[0]]) + Doubled(s[1..])
  }

  function ItemText(x: Item): string {
    match x case Word(word) => word case Encoded(json) => json
  }

  /** A value's text before anything is done to it. */
  function Raw(v: Value): string {
    match v
    case Null => "" case Undefined => "" case Other => ""
    case Date(iso) => iso
    case List(items) => Join(Map(items, ItemText), ' ')
    case Object(json) => json
    case Text(text) => text
    case Number(digits) => digits
    case Flag(on) => if on then "true" else "false"
  }

  function Neutral(s: string): string {
    if s != "" && Runs(s[0]) then "'" + s else s
  }

  function Quoted(s: string): string {
    if Plain(s) then s else "\"" + Doubled(s) + "\""
  }

  /** What a cell should be read back as. */
  function Field(v: Value): string {
    Neutral(Raw(v))
  }

  function Columns(rows: seq<Row>): seq<string> {
    if rows != [] then rows[0].keys else ["id"]
  }

  function Record(columns: seq<string>, r: Row): seq<string> {
    Map(columns, c => Field(At(r, c)))
  }

  function Records(rows: seq<Row>): seq<seq<string>> {
    Map(rows, r => Record(Columns(rows), r))
  }

  function Line(fields: seq<string>): string {
    Join(Map(fields, Quoted), ',')
  }

  /** The whole text: the header as it is, then a line for each row. */
  function Printed(rows: seq<Row>): string {
    Join([Join(Columns(rows), ',')] + Map(Records(rows), Line), '\n')
  }

  method CsvCell(v: Value) returns (s: string)
    ensures s == Quoted(Field(v))
  {
    match v {
      case Null => s := "";
      case Undefined => s := "";
      case Date(iso) => s := iso;
      case List(items) => s := Join(Map(items, ItemText), ' ');
      case Object(json) => s := json;
      case Text(text) => s := text;
      case Number(digits) => s := digits;
      case Flag(on) => s := if on then "true" else "false";
      case Other => s := "";
    }
    if s != "" && Runs(s[0]) {
      s := "'" + s;
    }
    if !Plain(s) {
      s := "\"" + Doubled(s) + "\"";
    }
  }

  method CsvLine(columns: seq<string>, r: Row) returns (line: string)
    ensures line == Line(Record(columns, r))
  {
    var cells: seq<string> := [];
    for i := 0 to |columns|
      invariant cells == Map(Record(columns, r), Quoted)[..i]
    {
      var cell := CsvCell(At(r, columns[i]));
      cells := cells + [cell];
    }
    assert cells == Map(Record(columns, r), Quoted);
    line := Join(cells, ',');
  }

  method ToCsv(rows: seq<Row>) returns (text: string)
    ensures text == Printed(rows)
  {
    var columns := Columns(rows);
    var lines := [Join(columns, ',')];
    for i := 0 to |rows|
      invariant lines == [Join(columns, ',')] + Map(Records(rows), Line)[..i]
    {
      var line := CsvLine(columns, rows[i]);
      lines := lines + [line];
    }
    assert lines == [Join(columns, ',')] + Map(Records(rows), Line);
    text := Join(lines, '\n');
  }

  // ---------------------------------------------------------------------------
  // The reader
  // ---------------------------------------------------------------------------

  datatype Part<T> = Part(value: T, rest: string)

  /** Where a field may end. */
  predicate Ends(rest: string) {
    rest == "" || rest[0] == ',' || rest[0] == '\n'
  }

  /** How much of the text holds no quote, comma or line break. */
  function PlainLength(s: string): (n: nat)
    ensures n <= |s| && Plain(s[..n]) && (n < |s| ==> Special(s[n]))
  {
    if s == "" || Special(s[0]) then 0 else 1 + PlainLength(s[1..])
  }

  /** The rest of a field whose opening quote has been read. */
  function ReadQuoted(s: string): (part: Option<Part<string>>)
    ensures part.Some? ==> |part.value.rest| < |s| && Ends(part.value.rest)
  {
    if s == "" then None
    else if s[0] != '"' then Put(s[0], ReadQuoted(s[1..]))
    else if |s| > 1 && s[1] == '"' then Put('"', ReadQuoted(s[2..]))
    else if Ends(s[1..]) then Some(Part("", s[1..]))
    else None
  }

  function Put(c: char, part: Option<Part<string>>): Option<Part<string>> {
    if part.Some? then Some(Part([c] + part.value.value, part.value.rest)) else None
  }

  function ReadField(s: string): (part: Option<Part<string>>)
    ensures part.Some? ==> |part.value.rest| <= |s| && Ends(part.value.rest)
  {
    if s != "" && s[0] == '"' then ReadQuoted(s[1..])
    else
      var n := PlainLength(s);
      if Ends(s[n..]) then Some(Part(s[..n], s[n..])) else None
  }

  predicate BreaksOff(rest: string) {
    rest == "" || rest[0] == '\n'
  }

  function ReadRecord(s: string): (part: Option<Part<seq<string>>>)
    ensures part.Some? ==> |part.value.rest| <= |s| && BreaksOff(part.value.rest) && part.value.value != []
    decreases |s|
  {
    var field := ReadField(s);
    if field.None? then None
    else if BreaksOff(field.value.rest) then Some(Part([field.value.value], field.value.rest))
    else
      var others := ReadRecord(field.value.rest[1..]);
      if others.None? then None else Some(Part([field.value.value] + others.value.value, others.value.rest))
  }

  /** The records of a file; a line break at its very end is the last record's own. */
  function ReadFile(s: string): Option<seq<seq<string>>>
    decreases |s|
  {
    var record := ReadRecord(s);
    if record.None? then None
    else if record.value.rest in {"", "\n"} then Some([record.value.value])
    else
      var others := ReadFile(record.value.rest[1..]);
      if others.None? then None else Some([record.value.value] + others.value)
  }

  // ---------------------------------------------------------------------------
  // Reading back what was printed
  // ---------------------------------------------------------------------------

  lemma Regroup(a: string, b: string, c: string, d: string)
    ensures a + b + c + d == a + (b + c + d)
    ensures a + (b + c) + d == a + (b + (c + d))
  {
  }

  lemma OneMoreQuoted(c: char, others: string)
    ensures c != '"' ==> ReadQuoted([c] + others) == Put(c, ReadQuoted(others))
    ensures ReadQuoted("\"\"" + others) == Put('"', ReadQuoted(others))
  {
  }

  lemma {:induction false} QuotedReadsBack(t: string, rest: string)
    requires Ends(rest)
    ensures ReadQuoted(Doubled(t) + "\"" + rest) == Some(Part(t, rest))
  {
    if t == "" {
      assert ("\"" + rest)[1..] == rest;
      assert Doubled(t) + "\"" + rest == "\"" + rest;
    } else {
      var others := Doubled(t[1..]) + "\"" + rest;
      QuotedReadsBack(t[1..], rest);
      OneMoreQuoted(t[0], others);
      Regroup(if t[0] == '"' then "\"\"" else [t[0]], Doubled(t[1..]), "\"", rest);
      assert [t[0]] + t[1..] == t;
    }
  }

  lemma {:induction false} PlainLengthIs(t: string, rest: string)
    requires Plain(t) && Ends(rest)
    ensures PlainLength(t + rest) == |t|
  {
    if t == "" {
      assert t + rest == rest;
    } else {
      assert (t + rest)[1..] == t[1..] + rest;
      PlainLengthIs(t[1..], rest);
    }
  }

  lemma PlainFieldReadsBack(t: string, rest: string)
    requires Plain(t) && Ends(rest)
    ensures ReadField(t + rest) == Some(Part(t, rest))
  {
    PlainLengthIs(t, rest);
    var s := t + rest;
    assert s[..|t|] == t && s[|t|..] == rest;
    assert s == "" || s[0] != '"' by {
      assert s != "" ==> s[0] == if t == "" then rest[0] else t[0];
    }
  }

  lemma FieldReadsBack(t: string, rest: string)
    requires Ends(rest)
    ensures ReadField(Quoted(t) + rest) == Some(Part(t, rest))
  {
    if Plain(t) {
      PlainFieldReadsBack(t, rest);
    } else {
      QuotedReadsBack(t, rest);
      OpensWithQuote(Doubled(t) + "\"" + rest);
      assert Quoted(t) + rest == ['"'] + (Doubled(t) + "\"" + rest);
    }
  }

  lemma OpensWithQuote(others: string)
    ensures ReadField(['"'] + others) == ReadQuoted(others)
  {
    assert (['"'] + others)[1..] == others;
  }

  lemma FirstOf(parts: seq<string>, sep: char)
    requires |parts| > 1
    ensures Join(parts, sep) == parts[0] + ([sep] + Join(parts[1..], sep))
  {
  }

  lemma OneMoreField(s: string, field: string, t: string, others: seq<string>, rest: string)
    requires ReadField(s) == Some(Part(field, [','] + t))
    requires ReadRecord(t) == Some(Part(others, rest))
    ensures ReadRecord(s) == Some(Part([field] + others, rest))
  {
  }

  lemma LineSplits(fields: seq<string>, rest: string)
    requires |fields| > 1
    ensures Line(fields) + rest == Quoted(fields[0]) + ([','] + (Line(fields[1..]) + rest))
  {
    var cells := Map(fields, Quoted);
    FirstOf(cells, ',');
    assert cells[1..] == Map(fields[1..], Quoted);
    Regroup(cells[0], [','], Line(fields[1..]), rest);
  }

  lemma LineOfOne(fields: seq<string>)
    requires |fields| == 1
    ensures Line(fields) == Quoted(fields[0]) && fields == [fields[0]]
  {
  }

  lemma OneFieldReadsBack(field: string, rest: string)
    requires BreaksOff(rest)
    ensures ReadRecord(Quoted(field) + rest) == Some(Part([field], rest))
  {
    FieldReadsBack(field, rest);
  }

  /** A field before others that are read back is read back with them. */
  lemma ManyFieldsReadBack(field: string, others: seq<string>, t: string, rest: string)
    requires ReadRecord(t) == Some(Part(others, rest))
    ensures ReadRecord(Quoted(field) + ([','] + t)) == Some(Part([field] + others, rest))
  {
    FieldReadsBack(field, [','] + t);
    OneMoreField(Quoted(field) + ([','] + t), field, t, others, rest);
  }

  lemma OneMoreReadsBack(fields: seq<string>, rest: string)
    requires |fields| > 1 && ReadRecord(Line(fields[1..]) + rest) == Some(Part(fields[1..], rest))
    ensures ReadRecord(Line(fields) + rest) == Some(Part(fields, rest))
  {
    var field, others := fields[0], fields[1..];
    assert fields == [field] + others;
    LineSplits(fields, rest);
    ManyFieldsReadBack(field, others, Line(others) + rest, rest);
  }

  lemma {:induction false} RecordReadsBack(fields: seq<string>, rest: string)
    requires fields != [] && BreaksOff(rest)
    ensures ReadRecord(Line(fields) + rest) == Some(Part(fields, rest))
    decreases |fields|
  {
    if |fields| == 1 {
      LineOfOne(fields);
      OneFieldReadsBack(fields[0], rest);
    } else {
      RecordReadsBack(fields[1..], rest);
      OneMoreReadsBack(fields, rest);
    }
  }

  /** Only a record of one empty field prints as nothing. */
  lemma EmptyLine(fields: seq<string>)
    requires fields != []
    ensures Line(fields) == "" <==> fields == [""]
  {
    assert Map(fields, Quoted)[0] == Quoted(fields[0]);
  }

  ghost predicate NonEmpty(records: seq<seq<string>>) {
    forall i :: 0 <= i < |records| ==> records[i] != []
  }

  function Kept(records: seq<seq<string>>): seq<seq<string>> {
    if |records| > 1 && records[|records| - 1] == [""] then records[..|records| - 1] else records
  }

  lemma OneMoreRecord(s: string, record: seq<string>, t: string)
    requires ReadRecord(s) == Some(Part(record, ['\n'] + t))
    ensures t == "" ==> ReadFile(s) == Some([record])
    ensures t != "" && ReadFile(t).Some? ==> ReadFile(s) == Some([record] + ReadFile(t).value)
  {
    assert (['\n'] + t)[1..] == t;
    assert t == "" ==> ['\n'] + t == "\n";
  }

  /** Every line is read back, but an empty last one is taken for the end of the line before. */
  lemma {:induction false} FileReadsBack(records: seq<seq<string>>)
    requires records != [] && NonEmpty(records)
    ensures ReadFile(Join(Map(records, Line), '\n')) == Some(Kept(records))
  {
    var lines := Map(records, Line);
    if |records| == 1 {
      assert Line(records[0]) + "" == Line(records[0]);
      RecordReadsBack(records[0], "");
      assert Join(lines, '\n') == Line(records[0]) && [records[0]] == records;
    } else {
      assert lines[1..] == Map(records[1..], Line);
      var others := Join(lines[1..], '\n');
      FirstOf(lines, '\n');
      RecordReadsBack(records[0], ['\n'] + others);
      FileReadsBack(records[1..]);
      NothingLeft(records[1..]);
      OneMoreRecord(Join(lines, '\n'), records[0], others);
      OneMoreKept(records);
    }
  }

  lemma OneMoreKept(records: seq<seq<string>>)
    requires |records| > 1
    ensures Kept(records) == if records[1..] == [[""]] then [records[0]] else [records[0]] + Kept(records[1..])
  {
  }

  lemma NothingLeft(records: seq<seq<string>>)
    requires records != [] && NonEmpty(records)
    ensures Join(Map(records, Line), '\n') == "" <==> records == [[""]]
  {
    EmptyLine(records[0]);
    assert Map(records, Line)[0] == Line(records[0]);
  }

  // --- The header is printed as it is

  /** How many quotes a text begins with. */
  function Quotes(s: string): (n: nat)
    ensures n <= |s| && (n > 0 <==> s != "" && s[0] == '"')
  {
    if s != "" && s[0] == '"' then 1 + Quotes(s[1..]) else 0
  }

  /** A reader makes one of two, so a text beginning with a quote is never read as itself. */
  lemma {:induction false} QuotesHalve(s: string)
    ensures ReadQuoted(s).Some? ==> Quotes(ReadQuoted(s).value.value) == Quotes(s) / 2
    decreases |s|
  {
    if |s| > 1 && s[0] == '"' && s[1] == '"' {
      QuotesHalve(s[2..]);
      assert s[1..][1..] == s[2..];
      if ReadQuoted(s).Some? {
        var v := ReadQuoted(s[2..]).value.value;
        assert (['"'] + v)[1..] == v;
      }
    } else if s != "" && s[0] == '"' {
      assert Quotes(s[1..]) == 0;
    }
  }

  lemma {:induction false} QuotesOfFront(t: string, rest: string)
    requires rest == "" || rest[0] != '"'
    ensures Quotes(t + rest) == Quotes(t)
  {
    if t != "" {
      assert (t + rest)[1..] == t[1..] + rest;
      QuotesOfFront(t[1..], rest);
    } else {
      assert t + rest == rest;
    }
  }

  /** A name is read as itself just if it is plain. */
  lemma NameReadsAsItself(name: string, rest: string)
    requires rest != "" && Ends(rest)
    ensures Plain(name) ==> ReadField(name + rest) == Some(Part(name, rest))
    ensures !Plain(name) ==> ReadField(name + rest).None? || ReadField(name + rest).value.value != name
  {
    var s := name + rest;
    if Plain(name) {
      FieldReadsBack(name, rest);
    } else if name[0] == '"' {
      QuotesOfFront(name, rest);
      QuotesHalve(s[1..]);
    }
  }

  ghost predicate AllPlain(names: seq<string>) {
    forall i :: 0 <= i < |names| ==> Plain(names[i])
  }

  lemma {:induction false} HeaderMisread(names: seq<string>, rest: string)
    requires names != [] && rest != "" && rest[0] == '\n' && !AllPlain(names)
    ensures ReadRecord(Join(names, ',') + rest).None? || ReadRecord(Join(names, ',') + rest).value.value != names
  {
    if |names| == 1 {
      NameReadsAsItself(names[0], rest);
    } else {
      var t := Join(names[1..], ',') + rest;
      FirstOf(names, ',');
      assert Join(names, ',') + rest == names[0] + ([','] + t);
      NameReadsAsItself(names[0], [','] + t);
      if Plain(names[0]) {
        HeaderMisread(names[1..], rest);
        assert ([','] + t)[1..] == t;
      }
    }
  }

  lemma PlainHeader(names: seq<string>)
    requires AllPlain(names)
    ensures Line(names) == Join(names, ',')
  {
    forall i | 0 <= i < |names| ensures Map(names, Quoted)[i] == names[i] {
      assert Quoted(names[i]) == names[i];
    }
    assert Map(names, Quoted) == names;
  }

  /** The header can be read back, and the last row is more than one empty field. */
  ghost predicate Readable(rows: seq<Row>) {
    rows == [] ||
    (Columns(rows) != [] && AllPlain(Columns(rows)) && Record(Columns(rows), rows[|rows| - 1]) != [""])
  }

  /**
   Reading what was printed gives the header and one record for each row, with every cell's neutralised
   text, just if the column names hold no quote, comma or line break and the last row is not one empty field.
   */
  lemma CsvReadsBack(rows: seq<Row>)
    ensures ReadFile(Printed(rows)) == Some([Columns(rows)] + Records(rows)) <==> Readable(rows)
  {
    var columns, records := Columns(rows), Records(rows);
    var text := Printed(rows);
    if AllPlain(columns) && columns != [] {
      PlainHeaderKept(rows);
    } else {
      FirstOf([Join(columns, ',')] + Map(records, Line), '\n');
      var others := Join(Map(records, Line), '\n');
      assert ([Join(columns, ',')] + Map(records, Line))[1..] == Map(records, Line);
      assert text == Join(columns, ',') + (['\n'] + others);
      if columns != [] {
        HeaderMisread(columns, ['\n'] + others);
      }
      FirstRecordRead(text);
    }
  }

  /** With no rows there is still a header. */
  lemma NoRows()
    ensures ReadFile(Printed([])) == Some([["id"]])
  {
    assert Records([]) == [];
    assert [Join(["id"], ',')] + Map(Records([]), Line) == ["id"];
    assert Quoted("id") == "id" && Line(["id"]) == "id";
    assert Map([["id"]], Line) == ["id"];
    FileReadsBack([["id"]]);
  }

  const COMMA_IN_A_NAME := [Row(["a,b"], map["a,b" := Text("c")])]

  /** A column whose name holds a comma is read back as two. */
  lemma OneColumnReadAsTwo()
    ensures ReadFile(Printed(COMMA_IN_A_NAME)) == Some([["a", "b"], ["c"]])
    ensures [Columns(COMMA_IN_A_NAME)] + Records(COMMA_IN_A_NAME) == [["a,b"], ["c"]]
  {
    var lines := [["a", "b"], ["c"]];
    assert Quoted("a") == "a" && Quoted("b") == "b" && Quoted("c") == "c";
    assert Line(["a", "b"]) == "a,b" by {
      assert Map(["a", "b"], Quoted) == ["a", "b"] && ["a", "b"][1..] == ["b"];
    }
    assert Line(["c"]) == "c";
    var r := COMMA_IN_A_NAME[0];
    assert Field(At(r, "a,b")) == "c";
    assert Record(["a,b"], r) == ["c"];
    assert Records(COMMA_IN_A_NAME) == [["c"]];
    assert Map(lines, Line) == ["a,b", "c"] && Map([["c"]], Line) == ["c"];
    FileReadsBack(lines);
  }

  lemma FirstRecordRead(s: string)
    ensures ReadFile(s).Some? ==> ReadFile(s).value != [] && ReadRecord(s).Some? && ReadFile(s).value[0] == ReadRecord(s).value.value
  {
  }

  /** With plain column names nothing is lost but a last row that is one empty field. */
  lemma PlainHeaderKept(rows: seq<Row>)
    requires AllPlain(Columns(rows)) && Columns(rows) != []
    ensures ReadFile(Printed(rows)) == Some(Kept([Columns(rows)] + Records(rows)))
    ensures Kept([Columns(rows)] + Records(rows)) == [Columns(rows)] + Records(rows)
            <==> rows == [] || Record(Columns(rows), rows[|rows| - 1]) != [""]
  {
    var columns, records := Columns(rows), Records(rows);
    LinesWithHeader(columns, records);
    FileReadsBack([columns] + records);
    AllKept(columns, records);
  }

  lemma LinesWithHeader(columns: seq<string>, records: seq<seq<string>>)
    requires AllPlain(columns)
    ensures Map([columns] + records, Line) == [Join(columns, ',')] + Map(records, Line)
  {
    PlainHeader(columns);
  }

  lemma AllKept(columns: seq<string>, records: seq<seq<string>>)
    ensures Kept([columns] + records) == [columns] + records <==> records == [] || records[|records| - 1] != [""]
  {
  }

  // --- A cell's text

  /** Text and numbers are printed as they are; two flags print alike only if they are one; what there is nothing of is blank. */
  lemma TextOfEachKind(t: string, a: bool, b: bool)
    ensures Raw(Text(t)) == t && Raw(Number(t)) == t && Raw(Date(t)) == t && Raw(Object(t)) == t
    ensures Raw(Flag(a)) == Raw(Flag(b)) <==> a == b
    ensures Raw(Null) == Raw(Undefined) == Raw(Other) == Raw(List([])) == ""
  {
    assert |Raw(Flag(true))| != |Raw(Flag(false))|;
  }

  function Split(s: string, sep: char): (parts: seq<string>)
    ensures parts != []
  {
    if s == "" then [""]
    else
      var parts := Split(s[1..], sep);
      if s[0] == sep then [""] + parts else [[s[0]] + parts[0]] + parts[1..]
  }

  lemma {:induction false} SplitFirst(word: string, rest: string, sep: char)
    requires sep !in word && (rest == "" || rest[0] == sep)
    ensures Split(word + rest, sep) == [word] + if rest == "" then [] else Split(rest[1..], sep)
  {
    if word == "" {
      assert word + rest == rest;
    } else {
      assert (word + rest)[1..] == word[1..] + rest;
      SplitFirst(word[1..], rest, sep);
      assert [word[0]] + word[1..] == word;
    }
  }

  lemma {:induction false} SplitsBack(words: seq<string>, sep: char)
    requires words != [] && forall i :: 0 <= i < |words| ==> sep !in words[i]
    ensures Split(Join(words, sep), sep) == words
  {
    if |words| == 1 {
      SplitFirst(words[0], "", sep);
      assert words[0] + "" == words[0];
    } else {
      FirstOf(words, sep);
      SplitsBack(words[1..], sep);
      SplitFirst(words[0], [sep] + Join(words[1..], sep), sep);
    }
  }

  /** A list's text, cut at its blanks, is its items' texts, if none of them holds a blank. */
  lemma ListReadsBack(items: seq<Item>)
    requires items != [] && forall i :: 0 <= i < |items| ==> ' ' !in ItemText(items[i])
    ensures Split(Raw(List(items)), ' ') == Map(items, ItemText)
  {
    SplitsBack(Map(items, ItemText), ' ');
  }

  /** No field starts with a character a spreadsheet runs, and only such a text is changed. */
  lemma NothingRuns(r: Row, columns: seq<string>, i: nat)
    requires i < |columns|
    ensures |Record(columns, r)| == |columns|
    ensures var field, raw := Record(columns, r)[i], Raw(At(r, columns[i]));
            && (field == "" || (forall c :: c in ['=', '+', '-', '@', '\t', '\r'] ==> field[0] != c))
            && (field == raw || (field == "'" + raw && raw != "" && Runs(raw[0])))
  {
  }

  /** A formula and the same formula already neutralised print alike; no other two texts do. */
  lemma SameFieldTwoTexts(a: string, b: string)
    ensures Neutral(a) == Neutral(b) <==>
              a == b || (a != "" && Runs(a[0]) && b == "'" + a) || (b != "" && Runs(b[0]) && a == "'" + b)
  {
    assert ("'" + a)[1..] == a && ("'" + b)[1..] == b;
  }
}
