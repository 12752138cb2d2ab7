/** The CSV file of the export and import buttons: the rows `exportToExcel`
    writes and the products `parseCSV` reads back. */
module Csv {
  import opened Wrappers
  import opened Text
  import opened Sequences
  import opened Products
  import opened CsvHeader

  /** The error a wrong header raises ("invalid CSV file format or headers do not match"). */
  datatype DecodeError = InvalidFormat

  const DefaultCategory: string := "Ambos"
  const DefaultKind: string := "Outros"

  // ---------------------------------------------------------------- encoding

  /** The name column: the name in double quotes with its own double quotes
      doubled. Stripping every quote gives the name stripped of its quotes,
      and no other character is added or lost. */
  function QuoteName(name: string): (r: string)
    ensures |r| >= 2 && r[0] == '"' && r[|r| - 1] == '"'
    ensures RemoveChar(r, '"') == RemoveChar(name, '"')
    ensures forall x :: x != '"' ==> (x in r <==> x in name)
    ensures '"' !in name ==> r == "\"" + name + "\""
  {
    var inner := DoubleQuotes(name);
    RemoveCharAppend("\"" + inner, "\"", '"');
    RemoveCharAppend("\"", inner, '"');
    "\"" + inner + "\""
  }

  /** A field read as a quoted CSV field: between the outer double quotes,
      with every `""` read as one double quote. */
  function UnquoteField(f: string): Option<string> {
    if |f| >= 2 && f[0] == '"' && f[|f| - 1] == '"' then Undouble(f[1..|f| - 1]) else None
  }

  /** The name column is a well-formed quoted CSV field holding exactly the
      name: the quoting doubles every inner double quote. */
  lemma QuoteNameUnquotes(name: string)
    ensures UnquoteField(QuoteName(name)) == Some(name)
  {
    var inner := DoubleQuotes(name);
    var r := QuoteName(name);
    assert r[1..|r| - 1] == inner;
    UndoubleDoubleQuotes(name);
  }

  /** The six columns exported for one product, in header order; an absent
      expiry date is the empty field. */
  function RowFields(p: Product): seq<string> {
    [p.id, QuoteName(p.name), p.category, p.kind, IntToString(p.quantity), p.expiryDate]
  }

  /** One exported row: the columns joined by commas. */
  function EncodeRow(p: Product): string {
    Join(RowFields(p), ',')
  }

  /** The rows of the products, in collection order. */
  function Rows(ps: seq<Product>): (r: seq<string>)
    ensures |r| == |ps| && forall k :: 0 <= k < |ps| ==> r[k] == EncodeRow(ps[k])
  {
    seq(|ps|, k requires 0 <= k < |ps| => EncodeRow(ps[k]))
  }

  /** No exported column of the product holds a line break. */
  predicate SingleLine(p: Product) {
    '\n' !in p.id && '\n' !in p.name && '\n' !in p.category && '\n' !in p.kind
    && '\n' !in p.expiryDate
  }

  /** The file content: the header line, then one line per product. */
  function EncodeCsv(ps: seq<Product>): string {
    Join([HeaderLine] + Rows(ps), '\n')
  }

  /** The exported text starts with the header line. */
  lemma ExportStartsWithHeader(ps: seq<Product>)
    ensures |HeaderLine| <= |EncodeCsv(ps)| && EncodeCsv(ps)[..|HeaderLine|] == HeaderLine
  {
    JoinStartsWithFirst([HeaderLine] + Rows(ps), '\n');
  }

  /** When no column holds a line break, the lines of the exported text are
      exactly the header and the products' rows, in collection order. */
  lemma ExportedLines(ps: seq<Product>)
    ensures (forall k :: 0 <= k < |ps| ==> SingleLine(ps[k])) ==>
      Split(EncodeCsv(ps), '\n') == [HeaderLine] + Rows(ps)
  {
    if forall k :: 0 <= k < |ps| ==> SingleLine(ps[k]) {
      RowsSingleLine(ps);
      HeaderLineSingle();
      SplitJoinLines(HeaderLine, Rows(ps), '\n');
    }
  }

  /** No row of single-line products holds a line break. */
  lemma RowsSingleLine(ps: seq<Product>)
    requires forall k :: 0 <= k < |ps| ==> SingleLine(ps[k])
    ensures forall k :: 0 <= k < |Rows(ps)| ==> '\n' !in Rows(ps)[k]
  {
    forall k | 0 <= k < |ps| ensures '\n' !in EncodeRow(ps[k]) {
      RowSingleLine(ps[k]);
    }
  }

  /** `exportToExcel`: nothing to export for an empty collection (`script.js`
      shows an alert instead), otherwise the file content. */
  function Export(ps: seq<Product>): (r: Option<string>)
    ensures r.None? <==> ps == []
    ensures r.Some? ==> r.value == EncodeCsv(ps)
  {
    if |ps| == 0 then None else Some(EncodeCsv(ps))
  }

  /** The expiry date is the last column of a row, so an absent date leaves
      the row ending with the comma after the quantity. */
  lemma RowEndsWithExpiry(p: Product)
    ensures EncodeRow(p) == Join(RowFields(p)[..5], ',') + "," + p.expiryDate
    ensures p.expiryDate == "" ==> EncodeRow(p)[|EncodeRow(p)| - 1] == ','
  {
    JoinLast(RowFields(p), ',');
  }

  /** A row holds no line break when no column of the product does. */
  lemma RowSingleLine(p: Product)
    requires SingleLine(p)
    ensures '\n' !in EncodeRow(p)
  {
    var quoted := QuoteName(p.name);
    var number := IntToString(p.quantity);
    assert '\n' !in quoted && '\n' !in number;
    NotInSixColumns(p.id, quoted, p.category, p.kind, number, p.expiryDate, '\n');
  }

  /** A character other than the comma that is in none of six columns is not
      in their comma-joined line. */
  lemma NotInSixColumns(c0: string, c1: string, c2: string, c3: string, c4: string, c5: string,
                        x: char)
    requires x != ','
    requires x !in c0 && x !in c1 && x !in c2 && x !in c3 && x !in c4 && x !in c5
    ensures x !in Join([c0, c1, c2, c3, c4, c5], ',')
  {
    var fields := [c0, c1, c2, c3, c4, c5];
    assert forall k :: 0 <= k < |fields| ==> x !in fields[k];
    NotInJoin(fields, ',', x);
  }

  // ---------------------------------------------------------------- decoding

  /** `csvText.trim().split('\n')` */
  function Lines(text: string): (r: seq<string>)
    ensures |r| >= 1
  {
    Split(Trim(text), '\n')
  }

  /** `values[k]`, with the empty string for a missing column (`parseCSV` tests each
      column for truthiness, so `undefined` and `''` read alike). */
  function Field(values: seq<string>, k: nat): string {
    if k < |values| then values[k] else ""
  }

  /** `s || fallback` on strings. */
  function OrDefault(s: string, fallback: string): (r: string)
    ensures r != "" <== fallback != ""
  {
    if s != "" then s else fallback
  }

  /** A line is skipped when it is blank. */
  predicate IsBlank(line: string) {
    Trim(line) == ""
  }

  function NotBlank(): string -> bool {
    (line: string) => !IsBlank(line)
  }

  /** One data row read naively: split on every comma; the name loses every
      double quote; an empty or missing category, type or quantity becomes
      `'Ambos'`, `'Outros'` or 0; the expiry column is taken as it is. */
  function DecodeRow(line: string, id: string): (p: Product)
    ensures p.id == id && '"' !in p.name && p.category != "" && p.kind != ""
  {
    var values := Split(line, ',');
    Product(
      id,
      RemoveChar(Field(values, 1), '"'),
      OrDefault(Field(values, 2), DefaultCategory),
      OrDefault(Field(values, 3), DefaultKind),
      ParseInteger(Field(values, 4)),
      Field(values, 5))
  }

  /** The products of the non-blank data lines, the k-th with id `mint(k)`. */
  function DecodeRows(rows: seq<string>, mint: nat -> string): (r: seq<Product>)
    ensures |r| == |rows|
    ensures forall k :: 0 <= k < |r| ==> r[k] == DecodeRow(rows[k], mint(k))
  {
    seq(|rows|, k requires 0 <= k < |rows| => DecodeRow(rows[k], mint(k)))
  }

  /** The products of the lines of a file: a header that differs in column
      count or in any trimmed title fails the whole import with no products;
      otherwise the blank lines are dropped and every other line after the
      header becomes one product, in file order. */
  function DecodeLines(lines: seq<string>, mint: nat -> string): (r: Result<seq<Product>, DecodeError>)
    requires |lines| >= 1
  {
    if !HeaderOk(lines[0]) then Failure(InvalidFormat)
    else Success(DecodeRows(Filter(NotBlank(), lines[1..]), mint))
  }

  /** `parseCSV(text)` with `mint(k)` as the id of the k-th product read. */
  function Decode(text: string, mint: nat -> string): (r: Result<seq<Product>, DecodeError>) {
    DecodeLines(Lines(text), mint)
  }

  // ---------------------------------------------------------------- properties

  /** The import fails exactly when the trimmed header columns differ from
      the expected titles in number or in any position, and then it yields no
      products but the format error. */
  lemma HeaderRejection(text: string, mint: nat -> string)
    ensures var header := HeaderFields(Lines(text)[0]);
      Decode(text, mint).Failure? <==>
        (|header| != |ExpectedHeaders|
         || exists i :: 0 <= i < |header| && header[i] != ExpectedHeaders[i])
    ensures Decode(text, mint).Failure? ==> Decode(text, mint).error == InvalidFormat
  {
    var header := HeaderFields(Lines(text)[0]);
    if |header| == |ExpectedHeaders| && header != ExpectedHeaders {
      var i :| 0 <= i < |header| && header[i] != ExpectedHeaders[i];
    }
  }

  /** After a valid header the import succeeds with no more products than
      data lines, the k-th with the k-th minted id, and every non-blank data
      line gives a product. The order is fixed by BlankLineSkipped and
      NoBlankLines together: dropping the blank lines one by one leaves a
      file whose k-th data line gives the k-th product. */
  lemma DataLinesDecoded(lines: seq<string>, mint: nat -> string)
    requires |lines| >= 1 && HeaderOk(lines[0])
    ensures var data := lines[1..];
      var products := DecodeLines(lines, mint);
      && products.Success?
      && |products.value| <= |data|
      && (forall k :: 0 <= k < |products.value| ==> products.value[k].id == mint(k))
      && (forall k :: 0 <= k < |data| && !IsBlank(data[k]) ==>
            exists j :: 0 <= j < |products.value| && products.value[j] == DecodeRow(data[k], mint(j)))
  {
    NonBlankRowsKept(lines[1..], mint);
  }

  /** The products of the non-blank lines among `data`: at most one per line,
      the k-th with the k-th minted id, and one for every non-blank line. */
  lemma NonBlankRowsKept(data: seq<string>, mint: nat -> string)
    ensures var products := DecodeRows(Filter(NotBlank(), data), mint);
      && |products| <= |data|
      && (forall k :: 0 <= k < |products| ==> products[k].id == mint(k))
      && (forall k :: 0 <= k < |data| && !IsBlank(data[k]) ==>
            exists j :: 0 <= j < |products| && products[j] == DecodeRow(data[k], mint(j)))
  {
    var rows := Filter(NotBlank(), data);
    var products := DecodeRows(rows, mint);
    FilterSubsequence(NotBlank(), data);
    SubsequenceLength(rows, data);
    DecodedIds(rows, mint);
    forall k | 0 <= k < |data| && !IsBlank(data[k])
      ensures exists j :: 0 <= j < |products| && products[j] == DecodeRow(data[k], mint(j))
    {
      NonBlankRowKept(data, mint, k);
    }
  }

  /** The k-th decoded product carries the k-th minted id. */
  lemma DecodedIds(rows: seq<string>, mint: nat -> string)
    ensures forall k :: 0 <= k < |rows| ==> DecodeRows(rows, mint)[k].id == mint(k)
  {
  }

  /** One non-blank line among `data` gives a product. */
  lemma NonBlankRowKept(data: seq<string>, mint: nat -> string, k: nat)
    requires k < |data| && !IsBlank(data[k])
    ensures var rows := Filter(NotBlank(), data);
      exists j :: 0 <= j < |rows| && DecodeRows(rows, mint)[j] == DecodeRow(data[k], mint(j))
  {
    var rows := Filter(NotBlank(), data);
    FilterKeeps(NotBlank(), data, k);
    var j :| 0 <= j < |rows| && rows[j] == data[k];
    assert DecodeRows(rows, mint)[j] == DecodeRow(rows[j], mint(j));
  }

  /** After a valid header with no blank data line, the k-th data line gives
      the k-th product. */
  lemma NoBlankLines(lines: seq<string>, mint: nat -> string)
    requires |lines| >= 1 && HeaderOk(lines[0])
    requires forall k :: 1 <= k < |lines| ==> !IsBlank(lines[k])
    ensures DecodeLines(lines, mint) == Success(DecodeRows(lines[1..], mint))
  {
    FilterAll(NotBlank(), lines[1..]);
  }

  /** A blank line anywhere after the header changes nothing: the import
      skips it. */
  lemma BlankLineSkipped(header: string, before: seq<string>, blank: string, after: seq<string>,
                         mint: nat -> string)
    requires IsBlank(blank)
    ensures DecodeLines([header] + (before + [blank] + after), mint)
         == DecodeLines([header] + (before + after), mint)
  {
    ConsParts(header, before + [blank] + after);
    ConsParts(header, before + after);
    FilterSkips(NotBlank(), before, blank, after);
  }

  /** What a row written as comma-joined comma-free columns reads back as:
      column 1 without quotes as the name, columns 2 and 3 or their defaults,
      column 4 as a number, column 5 as the expiry date. */
  lemma DecodeRowFields(fields: seq<string>, id: string)
    requires |fields| >= 1
    requires forall k :: 0 <= k < |fields| ==> ',' !in fields[k]
    ensures var p := DecodeRow(Join(fields, ','), id);
      && p.id == id
      && p.name == (if |fields| > 1 then RemoveChar(fields[1], '"') else "")
      && p.category == (if |fields| > 2 && fields[2] != "" then fields[2] else DefaultCategory)
      && p.kind == (if |fields| > 3 && fields[3] != "" then fields[3] else DefaultKind)
      && p.quantity == (if |fields| > 4 then ParseInteger(fields[4]) else 0)
      && (|fields| <= 4 || fields[4] == "" ==> p.quantity == 0)
      && p.expiryDate == (if |fields| > 5 then fields[5] else "")
  {
    SplitJoin(fields, ',');
    DecodeRowOfColumns(Join(fields, ','), fields, id);
  }

  /** The decoded product in terms of the comma-separated columns of its line. */
  lemma DecodeRowOfColumns(line: string, values: seq<string>, id: string)
    requires Split(line, ',') == values
    ensures var p := DecodeRow(line, id);
      && p.id == id
      && p.name == (if |values| > 1 then RemoveChar(values[1], '"') else "")
      && p.category == (if |values| > 2 && values[2] != "" then values[2] else DefaultCategory)
      && p.kind == (if |values| > 3 && values[3] != "" then values[3] else DefaultKind)
      && p.quantity == (if |values| > 4 then ParseInteger(values[4]) else 0)
      && (|values| <= 4 || values[4] == "" ==> p.quantity == 0)
      && p.expiryDate == (if |values| > 5 then values[5] else "")
  {
    assert |values| <= 4 || values[4] == "" ==> ParseInteger(Field(values, 4)) == 0;
  }

  /** A product whose columns survive the naive import: no column holds a
      comma or a line break, and category and type are not empty (the import
      would default them). The last product of the file needs CleanExpiry as
      well, since the import trims the whole text. */
  predicate Exportable(p: Product) {
    && SingleLine(p)
    && ',' !in p.id && ',' !in p.name && ',' !in p.category && ',' !in p.kind
    && ',' !in p.expiryDate
    && p.category != "" && p.kind != ""
  }

  /** The expiry date, the last column of a row, does not end with white space. */
  predicate CleanExpiry(p: Product) {
    p.expiryDate == "" || !IsWhitespace(p.expiryDate[|p.expiryDate| - 1])
  }

  /** A row is never blank: it holds the commas between its columns. */
  lemma RowNotBlank(p: Product)
    ensures !IsBlank(EncodeRow(p))
  {
    var fields := RowFields(p);
    var row := EncodeRow(p);
    JoinLast(fields, ',');
    var front := Join(fields[..5], ',');
    assert row == front + [','] + p.expiryDate;
    assert row[|front|] == ',';
    BlankIffAllWhitespace(row);
  }

  /** A row does not end with white space when the expiry date, its last
      column, does not. */
  lemma RowShape(p: Product)
    requires CleanExpiry(p)
    ensures !IsBlank(EncodeRow(p))
    ensures EndsClean(EncodeRow(p))
  {
    var fields := RowFields(p);
    var row := EncodeRow(p);
    JoinLast(fields, ',');
    var front := Join(fields[..5], ',');
    assert row == front + [','] + p.expiryDate;
    RowNotBlank(p);
  }

  /** The exported text of single-line products whose last row does not end
      with white space is unchanged by the import's trim, so its lines are
      the header and the rows. */
  lemma EncodedLines(ps: seq<Product>)
    requires forall k :: 0 <= k < |ps| ==> SingleLine(ps[k])
    requires ps == [] || EndsClean(EncodeRow(ps[|ps| - 1]))
    ensures Lines(EncodeCsv(ps)) == [HeaderLine] + Rows(ps)
  {
    var text := EncodeCsv(ps);
    EncodeEdges(ps);
    TrimUnchanged(text);
    ExportedLines(ps);
  }

  /** The exported text starts with the header's first letter and ends like
      its last line. */
  lemma EncodeEdges(ps: seq<Product>)
    requires ps == [] || EndsClean(EncodeRow(ps[|ps| - 1]))
    ensures EndsClean(EncodeCsv(ps)) && EncodeCsv(ps)[0] == 'I'
  {
    var rows := Rows(ps);
    if ps != [] {
      var n := |ps| - 1;
      assert |rows| - 1 == n;
      var row := rows[n];
      assert row == EncodeRow(ps[n]);
      assert EndsClean(row);
    }
    HeaderLineShape();
    JoinLinesEdges(HeaderLine, rows, '\n');
  }

  /** One exportable product read back from its row: the id is the minted
      one and the name loses its double quotes; every other column is kept. */
  lemma RowRoundTrip(p: Product, id: string)
    requires Exportable(p)
    ensures DecodeRow(EncodeRow(p), id) == p.(id := id, name := RemoveChar(p.name, '"'))
  {
    var quoted := QuoteName(p.name);
    var number := IntToString(p.quantity);
    var cols := [p.id, quoted, p.category, p.kind, number, p.expiryDate];
    assert ',' !in quoted && ',' !in number;
    SplitSixColumns(p.id, quoted, p.category, p.kind, number, p.expiryDate);
    assert Field(cols, 1) == quoted && Field(cols, 2) == p.category && Field(cols, 3) == p.kind;
    assert Field(cols, 4) == number && Field(cols, 5) == p.expiryDate;
    ParseIntegerOfString(p.quantity);
  }

  /** Six comma-free columns joined by commas split back into themselves. */
  lemma SplitSixColumns(c0: string, c1: string, c2: string, c3: string, c4: string, c5: string)
    requires ',' !in c0 && ',' !in c1 && ',' !in c2 && ',' !in c3 && ',' !in c4 && ',' !in c5
    ensures Split(Join([c0, c1, c2, c3, c4, c5], ','), ',') == [c0, c1, c2, c3, c4, c5]
  {
    var fields := [c0, c1, c2, c3, c4, c5];
    assert forall k :: 0 <= k < |fields| ==> ',' !in fields[k];
    SplitJoin(fields, ',');
  }

  /** Importing the export of single-line products, the last of which has a
      clean expiry date, reads every row, in order: no line is lost or skipped. */
  lemma DecodeOfExport(ps: seq<Product>, mint: nat -> string)
    requires forall k :: 0 <= k < |ps| ==> SingleLine(ps[k])
    requires ps == [] || CleanExpiry(ps[|ps| - 1])
    ensures Decode(EncodeCsv(ps), mint) == Success(DecodeRows(Rows(ps), mint))
  {
    if ps != [] {
      RowShape(ps[|ps| - 1]);
    }
    EncodedLines(ps);
    forall k | 0 <= k < |ps| ensures !IsBlank(Rows(ps)[k]) {
      RowNotBlank(ps[k]);
    }
    HeaderLineAccepted();
    ConsParts(HeaderLine, Rows(ps));
    NoBlankLines([HeaderLine] + Rows(ps), mint);
  }

  /** Round trip: importing an export of exportable products, the last of
      which has a clean expiry date, gives as many products, in the same
      order, with the same category, type, quantity and expiry date; the
      names lose their double quotes; the ids are the newly minted ones. */
  lemma RoundTrip(ps: seq<Product>, mint: nat -> string)
    requires forall k :: 0 <= k < |ps| ==> Exportable(ps[k])
    requires ps == [] || CleanExpiry(ps[|ps| - 1])
    ensures var r := Decode(EncodeCsv(ps), mint);
      && r.Success?
      && |r.value| == |ps|
      && forall k :: 0 <= k < |ps| ==>
           r.value[k] == ps[k].(id := mint(k), name := RemoveChar(ps[k].name, '"'))
  {
    DecodeOfExport(ps, mint);
    forall k | 0 <= k < |ps|
      ensures DecodeRow(Rows(ps)[k], mint(k)) == ps[k].(id := mint(k), name := RemoveChar(ps[k].name, '"'))
    {
      RowRoundTrip(ps[k], mint(k));
    }
  }

  /** With no double quote in any name, the round trip gives every column
      back except the id. */
  lemma RoundTripExact(ps: seq<Product>, mint: nat -> string)
    requires forall k :: 0 <= k < |ps| ==> Exportable(ps[k]) && '"' !in ps[k].name
    requires ps == [] || CleanExpiry(ps[|ps| - 1])
    ensures var r := Decode(EncodeCsv(ps), mint);
      && r.Success?
      && |r.value| == |ps|
      && forall k :: 0 <= k < |ps| ==> r.value[k] == ps[k].(id := mint(k))
  {
    RoundTrip(ps, mint);
    forall k | 0 <= k < |ps| ensures RemoveChar(ps[k].name, '"') == ps[k].name {
    }
  }

  /** The naive split shifts the columns of a name holding a comma: the
      product named `a,b` is read back with name `a`, category `b"`, its
      category as type (or the default type), its type read as the quantity
      and its quantity as the expiry date. */
  lemma CommaInNameShiftsColumns(p: Product, a: string, b: string, mint: nat -> string)
    requires p.name == a + "," + b
    requires '"' !in a && '"' !in b
    requires ',' !in p.id && ',' !in a && ',' !in b && ',' !in p.category && ',' !in p.kind
    requires SingleLine(p) && CleanExpiry(p) && ',' !in p.expiryDate
    ensures Decode(EncodeCsv([p]), mint) == Success([Product(mint(0), a, b + "\"",
      OrDefault(p.category, DefaultKind), ParseInteger(p.kind), IntToString(p.quantity))])
  {
    SingleRow(p, mint);
    CommaNameRow(p, a, b, mint(0));
  }

  /** The export of one single-line product with a clean expiry date reads
      back as the product of its row. */
  lemma SingleRow(p: Product, mint: nat -> string)
    requires SingleLine(p) && CleanExpiry(p)
    ensures Decode(EncodeCsv([p]), mint) == Success([DecodeRow(EncodeRow(p), mint(0))])
  {
    assert [p][0] == p;
    DecodeOfExport([p], mint);
    RowsOfOne(p, mint);
  }

  /** The one row of a one-product collection, read back. */
  lemma RowsOfOne(p: Product, mint: nat -> string)
    ensures DecodeRows(Rows([p]), mint) == [DecodeRow(EncodeRow(p), mint(0))]
  {
    var rows := Rows([p]);
    assert rows == [EncodeRow(p)];
    var decoded := DecodeRows(rows, mint);
    assert |decoded| == 1 && decoded[0] == DecodeRow(EncodeRow(p), mint(0));
  }

  /** The row of a product named `a,b` read back field by field. */
  lemma CommaNameRow(p: Product, a: string, b: string, id: string)
    requires p.name == a + "," + b
    requires '"' !in a && '"' !in b
    requires ',' !in p.id && ',' !in a && ',' !in b && ',' !in p.category && ',' !in p.kind
    requires ',' !in p.expiryDate
    ensures DecodeRow(EncodeRow(p), id) == Product(id, a, b + "\"",
      OrDefault(p.category, DefaultKind), ParseInteger(p.kind), IntToString(p.quantity))
  {
    var x := "\"" + a;
    var y := b + "\"";
    var n := IntToString(p.quantity);
    var cols := [p.id, x, y, p.category, p.kind, n, p.expiryDate];
    CommaNameColumns(p, a, b);
    IntToStringCommaFree(p.quantity);
    SplitSevenColumns(p.id, x, y, p.category, p.kind, n, p.expiryDate);
    assert Field(cols, 1) == x && Field(cols, 2) == y && Field(cols, 3) == p.category;
    assert Field(cols, 4) == p.kind && Field(cols, 5) == n;
    RemoveCharAppend("\"", a, '"');
    assert RemoveChar(x, '"') == a;
  }

  /** The number column never holds a comma. */
  lemma IntToStringCommaFree(n: int)
    ensures ',' !in IntToString(n)
  {
  }

  /** Seven comma-free columns joined by commas split back into themselves. */
  lemma SplitSevenColumns(c0: string, c1: string, c2: string, c3: string, c4: string, c5: string,
                         c6: string)
    requires ',' !in c0 && ',' !in c1 && ',' !in c2 && ',' !in c3 && ',' !in c4 && ',' !in c5
    requires ',' !in c6
    ensures Split(Join([c0, c1, c2, c3, c4, c5, c6], ','), ',') == [c0, c1, c2, c3, c4, c5, c6]
  {
    var fields := [c0, c1, c2, c3, c4, c5, c6];
    assert forall k :: 0 <= k < |fields| ==> ',' !in fields[k];
    SplitJoin(fields, ',');
  }

  /** The row of a product named `a,b` is the join of seven comma-free
      pieces instead of six: the name's comma splits its quoted column. */
  lemma CommaNameColumns(p: Product, a: string, b: string)
    requires p.name == a + "," + b
    requires '"' !in a && '"' !in b
    ensures EncodeRow(p) == Join([p.id, "\"" + a, b + "\"", p.category, p.kind,
                                  IntToString(p.quantity), p.expiryDate], ',')
  {
    QuotedCommaName(a, b);
    SplitSecondColumn(p.id, QuoteName(p.name), p.category, p.kind, IntToString(p.quantity),
                      p.expiryDate, "\"" + a, b + "\"");
  }

  /** Six columns whose second holds a comma join like seven. */
  lemma SplitSecondColumn(c0: string, c1: string, c2: string, c3: string, c4: string, c5: string,
                          x: string, y: string)
    requires c1 == x + [','] + y
    ensures Join([c0, c1, c2, c3, c4, c5], ',') == Join([c0, x, y, c2, c3, c4, c5], ',')
  {
    var tail := [c2, c3, c4, c5];
    assert [c0, c1, c2, c3, c4, c5] == [c0, x + [','] + y] + tail;
    JoinRegroupSecond(c0, x, y, tail, ',');
    assert [c0, x, y] + tail == [c0, x, y, c2, c3, c4, c5];
  }

  /** A quote-free name holding a comma is quoted around both pieces. */
  lemma QuotedCommaName(a: string, b: string)
    requires '"' !in a && '"' !in b
    ensures QuoteName(a + "," + b) == ("\"" + a) + [','] + (b + "\"")
  {
    var name := a + "," + b;
    assert '"' !in name;
    assert "\"" + name + "\"" == ("\"" + a) + [','] + (b + "\"");
  }
}
