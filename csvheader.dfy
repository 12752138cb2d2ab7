/** The header line of the CSV file: the column titles the export writes
    and the import demands. */
module CsvHeader {
  import opened Text

  /** The column titles, in order; the compatibility contract for import. */
  const ExpectedHeaders: seq<string> :=
    ["ID", "Nome do Medicamento", "Categoria", "Tipo", "Quantidade", "Data de Validade"]

  /** The first line of every exported file: the titles joined by commas,
      `ID,Nome do Medicamento,Categoria,Tipo,Quantidade,Data de Validade`. */
  const HeaderLine: string := Join(ExpectedHeaders, ',')

  /** The header line spelled out: the six titles with a comma between each
      two. */
  lemma HeaderLineText()
    ensures HeaderLine == "ID" + "," + ("Nome do Medicamento" + "," + ("Categoria" + ","
      + ("Tipo" + "," + ("Quantidade" + "," + "Data de Validade"))))
  {
    var h := ExpectedHeaders;
    assert h[5..] == ["Data de Validade"];
    assert h[4..] == ["Quantidade"] + h[5..];
    assert h[3..] == ["Tipo"] + h[4..];
    assert h[2..] == ["Categoria"] + h[3..];
    assert h[1..] == ["Nome do Medicamento"] + h[2..];
  }

  /** The header line's columns, each trimmed. */
  function HeaderFields(line: string): (r: seq<string>) {
    var cols := Split(line, ',');
    seq(|cols|, k requires 0 <= k < |cols| => Trim(cols[k]))
  }

  /** The header check of `parseCSV`. */
  predicate HeaderOk(line: string) {
    HeaderFields(line) == ExpectedHeaders
  }

  /** The header line starts and ends with a letter. */
  lemma HeaderLineShape()
    ensures |HeaderLine| > 0 && HeaderLine[0] == 'I' && HeaderLine[|HeaderLine| - 1] == 'e'
    ensures EndsClean(HeaderLine)
  {
    var h := ExpectedHeaders;
    JoinStartsWithFirst(h, ',');
    JoinLast(h, ',');
    var last := HeaderLine[|HeaderLine| - 1];
    assert last == 'e';
    assert !IsWhitespace(last);
  }

  /** The header line is a single line. */
  lemma HeaderLineSingle()
    ensures '\n' !in HeaderLine
  {
    var h := ExpectedHeaders;
    assert forall k :: 0 <= k < |h| ==> '\n' !in h[k];
    NotInJoin(h, ',', '\n');
  }

  /** No title holds a comma. */
  lemma TitlesCommaFree()
    ensures forall k :: 0 <= k < |ExpectedHeaders| ==> ',' !in ExpectedHeaders[k]
  {
  }

  /** Trimming changes none of the titles. */
  lemma TitlesTrimmed()
    ensures forall k :: 0 <= k < |ExpectedHeaders| ==> Trim(ExpectedHeaders[k]) == ExpectedHeaders[k]
  {
    var h := ExpectedHeaders;
    forall k | 0 <= k < |h| ensures Trim(h[k]) == h[k] {
      TrimUnchanged(h[k]);
    }
  }

  /** The exported header line passes the import's header check: its comma
      pieces are the titles, none of which trimming changes. */
  lemma HeaderLineAccepted()
    ensures Split(HeaderLine, ',') == ExpectedHeaders
    ensures HeaderOk(HeaderLine)
  {
    TitlesCommaFree();
    TitlesTrimmed();
    SplitJoin(ExpectedHeaders, ',');
  }
}
