# Medication stock tracker: the data layer

The tracker is a single-page browser application, `script.js`. It keeps a list
of medication stock records and lets the user do four things with it:

- change a stock with the plus and minus buttons;
- add or edit a record through a form;
- filter the list by category tab and by a name search, with an alert colour
  per card;
- export the list as a CSV file and import such a file back in place of the
  whole list.

This project models that data layer in Dafny and proves what it does:

- **Products** (`products.dfy`): the product record, the form's draft, and
  the pure functions that specify the store.
  - `AdjustQuantity` is the clamp of `updateStock`.
  - `EditRecord` is the edit in place of `handleFormSubmit`.
  - `NewProduct` is its append.
- **Store** (`store.dfy`): the class `ProductStore`. Its field `products` is
  `stockData.products`, and its three methods change that field as the
  handlers do.
  - `UpdateStock` is the stock buttons.
  - `SubmitForm` is the form.
  - `ImportFile` is the file-reader callback of the import: parse, then
    confirm, then replace.
- **View** (`view.dfy`): the non-DOM part of `renderProducts`, as pure
  functions with today's date as a parameter.
  - The category filter, with the `'all'` tab.
  - The case-insensitive name search.
  - The expired / critical / normal classification.
  - The "nothing found" case.
  - The module `Dates` in the same file reads the `YYYY-MM-DD` dates of the
    date input and orders them.
- **CsvHeader** (`csvheader.dfy`): the six column titles and the header line
  built from them.
- **Csv** (`csv.dfy`): the row building of `exportToExcel` and the whole of
  `parseCSV`. It holds the properties that relate them: the round trip, the
  strict header check, blank lines being skipped, and the column shift a
  comma in a name causes.
- **Text** and **Sequences** (`text.dfy`, `seqs.dfy`): the JavaScript
  primitives the code relies on, each proved against its own contract.
  - From Text: `trim`, `split`, `join`, `replace(/"/g, …)`, `toLowerCase`,
    `includes`, `String(n)`, and the integer part of `parseFloat`.
  - From Sequences: `Array.prototype.filter`, with the subsequence relation
    that describes its result.

Ids come from the clock and from `Math.random`. They are parameters here:

- `SubmitForm` takes the id of a new product as `freshId`.
- The import takes `mint`, and the k-th product read gets `mint(k)`.

Some behaviour of the code is easy to miss; the model follows the code:

- **Negative stock is possible.** The stock buttons can never make a
  quantity negative (`AdjustKeepsNoNegativeStock`). The form and the import
  store whatever number they are given; `EditKeepsNoNegativeStock` and
  `AddKeepsNoNegativeStock` state exactly when the property survives.
- **No not-found errors.** An unknown id is silently ignored everywhere: in
  `updateStock`, and in the edit path of the form.
  - In the form, `findIndex` gives -1 and the record is written to the
    array's `"-1"` property.
  - No iteration, length or JSON serialisation of the array sees that
    property, so the list is unchanged. `EditRecord` says so.
- **Ids are not unique.** Nothing in the code makes them so, and the model
  claims no uniqueness. `IndexOf` finds the first product with an id, as
  `find` and `findIndex` do.
- **Every double quote is removed.** The import removes every `"` from the
  name column, not just the surrounding pair the export adds. A name with
  quotes in it therefore comes back without them (`RoundTrip`).
- **Commas in a name shift the columns.** The import splits every row on
  every comma, quoted or not. A name with a comma therefore pushes each later
  column one place to the right (`CommaInNameShiftsColumns`). This is the
  behaviour as written; the model does not correct it.
- **The round trip needs one more restriction than the obvious ones.** No
  column may hold a comma or a line break, and category and type must be
  non-empty. In addition, the last product's expiry date must not end with
  white space, because the import trims the whole text (`Exportable`,
  `CleanExpiry`). The date input only ever produces `YYYY-MM-DD` or the empty
  string, so this does not arise from the form.

## Model

| member | source | states |
|---|---|---|
| Products.IndexOf | script.js:122 | The position found is that of a product with the id, and no earlier product has it; None exactly when no product has it. |
| Products.AdjustQuantity | script.js:120-128 | The collection keeps its length. The first product with the id gets quantity `max(0, q + amount)`, which is never negative, and no other field of it changes. Every other product is unchanged. An unknown id changes nothing. |
| Products.AdjustUndo | script.js:124 | A plus by `n` followed by a minus by `n` restores the collection when the stock was not negative. |
| Products.AdjustKeepsNoNegativeStock | script.js:124 | The stock buttons keep every quantity non-negative. |
| Products.AdjustKeepsIds | script.js:122-124 | After a stock change every id is found at the same position as before. |
| Products.IndexOfSameIds | script.js:122 | The position of an id depends only on the ids of the products. |
| Products.Overwrite | script.js:144 | The spread `{ ...old, ...draft }` keeps the old id and takes every other field from the draft. |
| Products.EditRecord | script.js:142-144 | The collection keeps its length, and the first product with the id takes the draft's fields while keeping its id and position. Every other product is unchanged. An id no product has leaves the collection as it was. |
| Products.EditKeepsNoNegativeStock | script.js:137-144 | Editing an existing product keeps every quantity non-negative exactly when the submitted quantity is not negative. |
| Products.NewProduct | script.js:145-147 | The new record has the given id and every field of the draft. |
| Products.AddKeepsNoNegativeStock | script.js:137-147 | Adding keeps every quantity non-negative exactly when the new quantity is not negative. |
| Store.ProductStore.constructor | script.js:8-10 | The store of a first visit holds no product. |
| Store.ProductStore.UpdateStock | script.js:120-128 | The new list is `AdjustQuantity` of the old one. |
| Store.ProductStore.SubmitForm | script.js:142-148 | With an empty id field the new list is the old one plus exactly one new record at the end. Otherwise it is `EditRecord` of the old one. |
| Store.ProductStore.ImportFile | script.js:184-198 | The outcome is a rejection exactly when the parse fails, and then it carries the parse's error. After a successful parse the outcome is a replacement or a refusal, as confirmed, with the number of products read. The list becomes the parsed products only on a confirmed successful parse; otherwise it is unchanged. |
| View.ByCategory | script.js:44-47 | The result is an ordered subsequence of the list. On `'all'` it is the whole list. Otherwise every product kept has the category, and every product of the category is kept, as many times as the list holds it. |
| View.BySearch | script.js:48-50 | The result is an ordered subsequence. An empty term keeps everything. Every product kept has the lower-cased term in its lower-cased name, and every such product is kept, as many times as the list holds it. |
| View.SearchIgnoresCase | script.js:49 | Searching for the lower-case form of a term shows the same products as the term itself. |
| View.VisibleAll | script.js:44-50 | The `'all'` tab with an empty search shows the whole list, in order. |
| View.VisibleCharacterised | script.js:44-50 | The products shown are an ordered subsequence of the list. A product is shown exactly when it is in the list, is on the tab and matches the search, and then as many times as the list holds it. It states what `View.Visible` shows. |
| View.VisibleIdempotent | script.js:44-50 | Filtering the shown products again by the same tab and term changes nothing. |
| View.ClassificationPriority | script.js:64-71 | Expired wins even over an empty stock. Critical means not expired with quantity at most 0. Normal means neither. It states what `View.Classify` gives. |
| View.ExpiryIsFinal | script.js:64-67 | A product is not yet expired on its expiry day. Once expired, it stays expired on every later day. It states how `View.IsExpired` moves with the date. |
| View.Render | script.js:52-71 | The "nothing found" message appears exactly when no product is shown. Otherwise there is one card per shown product, in order, each with that product's classification. |
| Dates.ParseIsoDate | script.js:64 | A parsed date is a valid calendar date: a month from 1 to 12 and a day within that month's length. |
| Dates.DaysInMonth | script.js:64 | A month has 28 to 31 days, and February has 29 exactly in the Gregorian leap years. |
| Dates.ParseFormat | script.js:64 | Every valid date is read back from its `YYYY-MM-DD` form. |
| Dates.BeforeStrictOrder | script.js:67 | The date comparison is irreflexive and transitive. `View.ExpiryIsFinal` rests on it. |
| CsvHeader.HeaderLineText | script.js:161-170 | The header line is `ID,Nome do Medicamento,Categoria,Tipo,Quantidade,Data de Validade`. |
| CsvHeader.HeaderLineShape | script.js:161-170 | The header line starts with `I` and ends with `e`, so trimming leaves it alone. |
| CsvHeader.HeaderLineSingle | script.js:161-170 | The header line holds no line break. |
| CsvHeader.TitlesCommaFree | script.js:207 | No expected title holds a comma. |
| CsvHeader.TitlesTrimmed | script.js:207 | Trimming changes none of the expected titles. |
| CsvHeader.HeaderLineAccepted | script.js:161-170 | The exported header line passes the import's header check. Its comma pieces are exactly the expected titles. |
| CsvHeader.HeaderFields | script.js:205 | The trimmed comma pieces of the first line. `CsvHeader.HeaderLineAccepted` states them for the exported header. |
| CsvHeader.HeaderOk | script.js:207-208 | The header check: as many pieces as titles, each equal to its title. `Csv.HeaderRejection` states when it fails the import. |
| Csv.QuoteName | script.js:164 | The name column starts and ends with `"`. Removing every quote from it gives the name without its quotes, and no other character is added or lost. A quote-free name is simply wrapped in quotes. |
| Csv.QuoteNameUnquotes | script.js:164 | The name column, read as a standard quoted CSV field (`""` standing for one quote), gives exactly the name back. So every inner quote is doubled. |
| Csv.Rows | script.js:162-169 | There is one row per product, in collection order. |
| Csv.RowFields | script.js:163-168 | The six columns of a row. `Csv.RowRoundTrip` and `Csv.RowEndsWithExpiry` state how they read back and end the row. |
| Csv.EncodeRow | script.js:162-169 | One product's row. `Csv.RowSingleLine`, `Csv.RowNotBlank` and `Csv.RowRoundTrip` state its shape and how it reads back. |
| Csv.EncodeCsv | script.js:170 | The header line and the rows joined by line breaks. `Csv.ExportStartsWithHeader`, `Csv.ExportedLines` and `Csv.RoundTrip` state what it holds. |
| Csv.Export | script.js:155-170 | An empty list exports nothing; any other list exports the file content. |
| Csv.ExportStartsWithHeader | script.js:170 | The exported text begins with the header line. |
| Csv.ExportedLines | script.js:162-170 | When no column holds a line break, the lines of the export are the header followed by one row per product, in order. |
| Csv.RowSingleLine | script.js:162-169 | A row holds no line break when no column of the product does. |
| Csv.RowsSingleLine | script.js:162-169 | No row of such products holds a line break. |
| Csv.RowEndsWithExpiry | script.js:168-169 | The expiry date is the last column of a row. An absent date leaves the row ending in the comma after the quantity. |
| Csv.NotInSixColumns | script.js:169 | A character other than the comma that is in none of the six columns is not in the row. |
| Csv.OrDefault | script.js:217-218 | The or-default of a string is never empty when the fallback is not. |
| Csv.DecodeRow | script.js:212-222 | A row read back has the given id and a name without double quotes. Category and type are never empty. |
| Csv.DecodeRowOfColumns | script.js:213-221 | Each field of the product read from a line is the matching comma piece of the line. A missing or empty category, type or quantity gives `Ambos`, `Outros` or 0; a missing expiry gives the empty string. |
| Csv.DecodeRows | script.js:211-223 | There is one product per data line, in order, the k-th with the k-th minted id. |
| Csv.Lines | script.js:204 | The trimmed text split on line breaks. `Text.SplitJoinLines` and `Csv.EncodedLines` state it on an export. |
| Csv.Decode | script.js:203-224 | `parseCSV`. `Csv.HeaderRejection`, `Csv.DataLinesDecoded`, `Csv.BlankLineSkipped` and `Csv.RoundTrip` state what it gives. |
| Csv.DecodeLines | script.js:205-223 | `parseCSV` after the split into lines. `Csv.NoBlankLines` and `Csv.NonBlankRowsKept` state it. |
| Csv.HeaderRejection | script.js:204-210 | The import fails exactly when the trimmed header columns differ from the titles in number or in any position. It then fails with the format error and no products. |
| Csv.DataLinesDecoded | script.js:211-223 | After a valid header the import succeeds. There are no more products than data lines, the k-th product has the k-th minted id, and every non-blank data line gives a product. |
| Csv.NonBlankRowsKept | script.js:211-223 | The same, stated on the data lines alone. |
| Csv.NonBlankRowKept | script.js:212 | One non-blank data line gives a product. |
| Csv.NoBlankLines | script.js:211-223 | With no blank data line, the k-th data line gives the k-th product. |
| Csv.BlankLineSkipped | script.js:212-223 | A blank line anywhere after the header changes nothing. |
| Csv.DecodeRowFields | script.js:213-221 | A row of comma-free columns reads back column by column. The name loses its quotes. An empty or missing category, type, quantity or expiry gives `Ambos`, `Outros`, 0 or the empty string. |
| Csv.RowNotBlank | script.js:162-169 | A row is never blank: it holds the commas between its columns. |
| Csv.RowShape | script.js:162-169 | A row does not end in white space when its expiry date does not. |
| Csv.EncodedLines | script.js:204 | For single-line products whose last row does not end in white space, trimming and splitting the export gives the header and the rows back. |
| Csv.EncodeEdges | script.js:170 | The export starts with the header's first letter. When the list is empty or its last row does not end in white space, the export does not end in white space either. |
| Csv.SplitSixColumns | script.js:213 | Six comma-free columns joined by commas split back into themselves. |
| Csv.RowRoundTrip | script.js:162-169 | An exportable product is read back from its row with the minted id and its name without quotes; every other column is the same. |
| Csv.DecodeOfExport | script.js:203-223 | Importing the export of single-line products reads every row, in order, when the last product's expiry date does not end in white space. |
| Csv.RoundTrip | script.js:203-223 | Importing the export of exportable products, the last of which has an expiry date not ending in white space, gives as many products, in the same order. Category, type, quantity and expiry date are the same, names lose only their double quotes, and ids are the minted ones. |
| Csv.RoundTripExact | script.js:203-223 | With no double quote in any name, everything except the id comes back. |
| Csv.CommaInNameShiftsColumns | script.js:213-219 | A product named `a,b` comes back with name `a` and category `b"`. Its category becomes the type (or the default type), its type is read as the quantity, and its quantity becomes the expiry date. |
| Csv.SingleRow | script.js:203-223 | The export of one such product reads back as the product of its one row. |
| Csv.RowsOfOne | script.js:162-169 | A list of one product has one row. |
| Csv.CommaNameRow | script.js:213-219 | The row of a product named `a,b`, read back column by column. |
| Csv.CommaNameColumns | script.js:164-169 | The row of a product named `a,b` is seven comma-free pieces instead of six. |
| Csv.QuotedCommaName | script.js:164 | A quote-free name with a comma is quoted around both pieces. |
| Csv.SplitSevenColumns | script.js:213 | Seven comma-free columns joined by commas split back into themselves. |
| Text.TrimStart | script.js:204 | The result is the longest suffix that does not start with white space. |
| Text.TrimEnd | script.js:204 | The result is the longest prefix that does not end with white space. |
| Text.BlankIffAllWhitespace | script.js:212 | A line is blank after trimming exactly when all of it is white space. |
| Text.TrimUnchanged | script.js:204-205 | Trimming leaves alone a string that neither starts nor ends with white space. |
| Text.Trim | script.js:204-205 | `trim`. `Text.TrimStart`, `Text.TrimEnd`, `Text.TrimUnchanged` and `Text.BlankIffAllWhitespace` state what it removes. |
| Text.Split | script.js:204-213 | A split has at least one piece, and no piece holds the separator. |
| Text.JoinSplit | script.js:204-213 | Joining the pieces of a split with its separator gives the string back. |
| Text.SplitJoin | script.js:213 | Splitting a join of separator-free parts gives the parts back. |
| Text.SplitJoinLines | script.js:204 | The same for a first line followed by further lines. |
| Text.Join | script.js:169-170 | `join`. `Text.JoinSplit`, `Text.SplitJoin`, `Text.JoinLast` and `Text.NotInJoin` state what it builds. |
| Text.NotInJoin | script.js:169-170 | A character that is not the separator and is in no part is not in the join. |
| Text.JoinLast | script.js:169-170 | A join of two or more parts ends with the separator and the last part. |
| Text.JoinLinesEdges | script.js:170 | A join starts like its first part and ends like its last. |
| Text.RemoveChar | script.js:216 | No occurrence of the character remains, and every other character is kept. |
| Text.RemoveCharAppend | script.js:216 | Removing a character distributes over concatenation. |
| Text.DoubleQuotes | script.js:164 | Doubling the quotes adds or loses no other character. Removing all quotes afterwards gives the same as removing them at once. |
| Text.DoubleQuotesAppend | script.js:164 | Doubling the quotes of a concatenation doubles them in each part. |
| Text.DoubleQuotesChar | script.js:164 | A double quote becomes two double quotes; every other character stays as it is. |
| Text.UndoubleDoubleQuotes | script.js:164 | Reading a quote-doubled text back by the CSV convention gives the original text. |
| Text.LowerChar | script.js:49 | `toLowerCase` on one character. `Text.LowerCharIdempotent` states that lowering twice is lowering once. |
| Text.LowerCharIdempotent | script.js:49 | Lowering a character twice is lowering it once. |
| Text.ToLower | script.js:49 | Lower-casing keeps the length and lowers character by character. |
| Text.ToLowerIdempotent | script.js:49 | Lower-casing twice is lower-casing once. `View.SearchIgnoresCase` rests on it. |
| Text.Contains | script.js:49 | `includes`: the term occurs at some position of the name. `Text.ContainsEmpty` and `View.BySearch` state it. |
| Text.ContainsEmpty | script.js:48-49 | Every name contains the empty search term. |
| Text.NatToString | script.js:167 | The decimal form of a natural number is digits only, with no leading zero; zero is `0`. |
| Text.IntToString | script.js:167 | The decimal form of an integer has a minus sign exactly when the number is negative, followed only by digits, with no leading zero. |
| Text.ParseIntegerOfString | script.js:219 | Reading back the exported quantity gives the quantity. |
| Text.ParseInteger | script.js:219 | The integer part of `parseFloat(s) || 0`. `Text.ParseIntegerOfString` states that it reads back `String(n)`. |
| Text.LeadingDigits | script.js:219 | Gives the length of the leading run of digits. |
| Sequences.Filter | script.js:46-49 | Every element kept passes the test. |
| Sequences.FilterMultiset | script.js:46-49 | A passing element occurs in the result as often as in the input; no other element occurs. |
| Sequences.FilterSelects | script.js:46-49 | The order, the membership and the multiplicity facts together. |
| Sequences.FilterSameTest | script.js:49 | Two tests that agree on every element filter alike. |
| Sequences.FilterSubsequence | script.js:46-49 | Filtering keeps the original order. |
| Sequences.FilterKeeps | script.js:46-49 | Every element that passes is kept. |
| Sequences.FilterIdempotent | script.js:46-49 | Filtering twice by the same test is filtering once. |
| Sequences.FilterCommute | script.js:44-50 | The category and search filters can be applied in either order. |
| Sequences.FilterAll | script.js:223 | A filter that keeps everything changes nothing. |
| Sequences.FilterAppend | script.js:223 | Filtering a concatenation filters each part. |
| Sequences.FilterSkips | script.js:223 | A rejected element leaves no trace wherever it stands. |
| Sequences.SubsequenceTransitive | script.js:44-50 | Two filtering steps keep the original order. |
| Sequences.SubsequenceMembers | script.js:44-50 | Every element of the result is an element of the list. |
| Sequences.SubsequenceLength | script.js:223 | Filtering never lengthens a list. |

## Left out

- DOM construction: cards, tabs, modals, buttons and `event.stopPropagation`. It is presentation, with no state of the data layer (script.js:15-38, 77-118, 225-226).
- Saving and loading through `localStorage` with JSON (script.js:227-231). This is a browser storage API; the store's `products` field is the in-memory list it would save.
- The `FileReader`, the `confirm` prompt and the alerts of the import (script.js:180-201). They are asynchronous browser I/O. `ImportFile` takes the file's text and the user's answer as parameters, and its outcome says which message would be shown.
- The Blob, the byte order mark, the download link and the file name of the export (script.js:171-178). They are browser I/O; `Export` gives the file content.
- Id minting with `Date.getTime()` and `Math.random().toString(36)` (script.js:146, 215). It depends on the clock and on randomness, so ids are parameters. No uniqueness is claimed, because the code guarantees none.
- `toLocaleDateString` (script.js:73-75). It is locale formatting for display only.
- Dates.ParseIsoDate: reads only the `YYYY-MM-DD` form that the date input writes. Other strings are treated as dates that do not compare, like an invalid JavaScript `Date`. The other formats `new Date` accepts are not modelled. A day past the month's length, such as `2023-02-30`, also gives None. Engines differ on such a string: some give an invalid `Date`, which None models, and some roll it over into the next month, which is not modelled.
- View.IsExpired: compares calendar days strictly. `new Date("YYYY-MM-DD")` is midnight UTC while `today` is local midnight, so in time zones west of UTC an expiry date of today already counts as expired. That time-zone shift is not modelled.
- Text.ParseInteger: reads the integer part of `parseFloat(s) || 0`. Fractions, exponents, `Infinity` and the NaN of an empty form field are not modelled, because quantities are integers here.
- Text.IntToString: writes the plain decimal form. JavaScript's exponent notation for magnitudes of 10^21 and more is not modelled.
- Text.LowerChar: lowers ASCII and Latin-1 capitals only, which covers Portuguese text. The rest of Unicode case mapping is not modelled.
- Text.IsWhitespace: the ECMAScript white space and line terminators, as a fixed list of code points. It is not derived from the Unicode database.
