# Bank statement to Tally XML, modelled in Dafny

This project models the conversion core of `src/BankStatementImport.js`, a
React page that turns the text of a bank statement into a Tally voucher
import file. The model covers three parts:

* **`parseBankStatement`**. The text is cut into lines at `\n`. A line
  without a `NN-NN-NNNN` date is dropped. Every dated line becomes a
  transaction with these fields:
  * the date: the first date found in the line;
  * the narration: tokens `1 .. n-4`, joined by single spaces;
  * the deposit: token `n-3`;
  * the withdrawal: token `n-2`.

  Tokens come from splitting at runs of white space, and `n` is the number
  of tokens. The last token, a balance column, is ignored. Amounts have
  their commas stripped and are read as the longest decimal prefix. A token
  that is not a number is worth 0.
* **`parseDate`**: a `d-m-y` date is rewritten as `ymd`.
* **`generateTallyXML` / `createXml`**. With no rows, nothing is produced.
  Otherwise the result is an `ENVELOPE` with a fixed header and request
  description, and one `TALLYMESSAGE` per row, in order. Each message holds
  one `VOUCHER` with:
  * the voucher type (`Payment` when the withdrawal is non-zero, otherwise
    `Receipt`);
  * the rearranged date;
  * the number `index + 1`;
  * the narration;
  * two ledger entries. The first is the contra ledger and the second the
    bank. Their `ISDEEMEDPOSITIVE` flags are opposite, and a minus sign is
    written on the amount of one of them.

Modules, in dependency order:

| file | module | contents |
|---|---|---|
| `Wrappers.dfy` | `Wrappers` | `Option`, `Result` |
| `Text.dfy` | `Text` | ECMAScript `\s`, `split` at one character, `split(/\s+/)`, `join` |
| `Numerals.dfy` | `Numerals` | digit strings and the naturals they denote, `Number#toString` for naturals |
| `Amounts.dfy` | `Amounts` | exact decimal amounts, `replace(/,/g, '')`, the `parseFloat` prefix reading, number rendering |
| `Dates.dfy` | `Dates` | the `\d{2}-\d{2}-\d{4}` search, `parseDate` |
| `StatementParser.dfy` | `StatementParser` | one line's outcome, the whole statement as a specification, the `forEach` loop as a method |
| `Xml.dfy` | `Xml` | DOM elements as values, `textContent`, `getAttribute`, child lookup by tag |
| `TallyXml.dfy` | `TallyXml` | voucher, message and envelope construction, the `forEach` loop of `createXml` as a method, the empty-data guard |

Behaviour of the code that the model keeps, although a reader might expect
otherwise:

* **The last token is a balance.** For the row
  `01-02-2023 Grocery Store 1,200.50 0.00`, the code reads:
  * narration `Grocery`;
  * deposit `Store`, which is worth 0;
  * withdrawal 1200.50.

  The trailing `0.00` is ignored as a balance.
  `StatementParser.TwoWordLineExample` proves exactly this.
* **A short dated line stops the whole parse.** A line with a date but fewer
  than three tokens makes `parts[parts.length - 3]` undefined, and calling
  `.replace` on it throws. The model returns `Failure(TooFewTokens(i))`,
  where `i` is the first such line. No transactions are returned.
* **Negative amounts get a double minus.** A negative withdrawal is written
  as `--x` in the contra entry, and that text does not read back as a number
  (`Amounts.NegatedTextParses`).
* **`parseDate` and missing fields.** On a string with fewer than two dashes,
  the missing fields are the text `undefined`. A parsed transaction's date
  always has the `NN-NN-NNNN` shape, so this case does not arise for parsed
  rows.

## Model

| member | source | states |
|---|---|---|
| StatementParser.ParseBankStatement | src/BankStatementImport.js:32-52 | The loop over the lines returns exactly the specification `ParseLines` of the text split at `\n`: the list of records pushed, or the failure of the first short dated line. |
| StatementParser.ParseLinesFilterMap | src/BankStatementImport.js:33-51 | The parse fails iff some dated line has fewer than three tokens, and it names the first such line. Otherwise the records correspond one to one, in order, to the lines that contain a date (a line's position is kept iff it has a date), and each record is its own line's parse. |
| StatementParser.ParseLineCases | src/BankStatementImport.js:36-49 | A line gives nothing iff it has no date. It fails iff it has a date and fewer than three tokens. Otherwise its record's date is the first date matched in it, which has the `NN-NN-NNNN` shape. |
| StatementParser.ParseLineByPosition | src/BankStatementImport.js:36-47 | For a dated line `first words… deposit withdrawal balance`, with columns separated by any non-empty runs of white space (spaces, tabs, `\r`, …), the record is dated with the first date matched anywhere in the line. The first token may be anything without white space, including a serial number or the empty token that leading white space gives. The narration is the words joined by single spaces. The deposit and withdrawal are the amounts of their tokens, and the balance is ignored. |
| StatementParser.ParseLineThreeTokens | src/BankStatementImport.js:36-47 | A dated line of exactly three tokens has an empty narration. Its first token (empty when the line starts with white space) is read as the deposit and its second as the withdrawal. The record is dated with the first date matched in the line. |
| StatementParser.ParseLineColumns | src/BankStatementImport.js:39-47 | For a line that starts with its date, laid out as `date words… deposit withdrawal balance` with any white-space runs between the columns, the record is dated with that leading date token. The other fields are as `StatementParser.ParseLineByPosition` states. |
| StatementParser.TwoWordLineExample | src/BankStatementImport.js:36-48 | `01-02-2023 Grocery Store 1,200.50 0.00` gives narration `Grocery`, deposit 0 (from `Store`) and withdrawal 1200.50. |
| StatementParser.NarrationTokens | src/BankStatementImport.js:42 | `slice(1, n-3)` has `n-4` tokens, or none when `n <= 4`. |
| StatementParser.CollectFilterMap | src/BankStatementImport.js:35-50 | Folding the per-line outcomes succeeds iff none is a failure. A failure names the first one. A success lists the parsed records of the non-skipped positions, in order. |
| StatementParser.KeptSpec | src/BankStatementImport.js:35-50 | The kept positions are strictly increasing and include every line that was not skipped. |
| StatementParser.CollectFailureSticks | src/BankStatementImport.js:35-50 | Once a prefix of the lines has failed, the later lines do not change the result (the exception leaves the `forEach`). |
| StatementParser.OutcomesAt | src/BankStatementImport.js:35-36 | The outcome at position `i` is the parse of line `i`. |
| Dates.MatchDateSpec | src/BankStatementImport.js:36-38 | `match` finds nothing iff the line holds no date. When it finds one, the match is a `NN-NN-NNNN` substring starting at the leftmost position where a date starts. |
| Dates.FindDateSpec | src/BankStatementImport.js:36 | The search returns a position where a date starts, and no date starts before it. It returns nothing iff no date starts anywhere from the start position on. |
| Dates.DateIsSpaceFree | src/BankStatementImport.js:36-39 | A `NN-NN-NNNN` date contains no white space. This is what lets a leading date stand as a column of its own in `StatementParser.ParseLineColumns`. |
| Dates.ParseDateFields | src/BankStatementImport.js:54-57 | For dash-free `d`, `m`, `y`, `parseDate("d-m-y")` is `y ++ m ++ d`. |
| Dates.ParseDateOfShape | src/BankStatementImport.js:54-57 | For a `NN-NN-NNNN` date the result is year, then month, then day. It is 8 digits long and is a permutation of the date's characters minus the two dashes. |
| Dates.ParseDateRoundTrip | src/BankStatementImport.js:54-57 | Re-inserting the dashes into the `yyyymmdd` result gives the original date back, so no information is lost. |
| Dates.ParseDateExample | src/BankStatementImport.js:54-57 | `15-06-2024` becomes `20240615`. |
| Text.SplitWsSpec | src/BankStatementImport.js:39 | The tokens of `split(/\s+/)` hold no white space. Every inner token is non-empty, and so is the first unless the line starts with white space. |
| Text.SplitWsJoin | src/BankStatementImport.js:39 | Splitting a single-space join of white-space-free tokens (non-empty ones inside) gives the tokens back (the single-space case of `Text.SplitWsInterleave`). |
| Text.SplitWsCons | src/BankStatementImport.js:39 | Splitting `t + g + r`, for a white-space-free `t`, a non-empty white-space run `g` and an `r` that does not start with white space, gives `t` followed by the split of `r`. |
| Text.SplitWsRebuild | src/BankStatementImport.js:39 | The tokens are the pieces of the line: there is one gap fewer than there are tokens, the line is exactly the tokens interleaved with the gaps `SplitWsGaps` returns, and every gap is a non-empty run of white space. |
| Text.SplitWsInterleave | src/BankStatementImport.js:39 | Splitting white-space-free tokens (non-empty ones inside) interleaved with any non-empty white-space runs gives the tokens back. |
| Text.SplitWsGaps | src/BankStatementImport.js:39 | Definition of the runs of white space the split cuts at. Properties in `Text.SplitWsRebuild` and `Text.SplitWsGapsRuns`. |
| Text.SplitWsGapsRuns | src/BankStatementImport.js:39 | Every gap the split cuts at is a non-empty run of white space. |
| Text.JoinWithInterleave | src/BankStatementImport.js:42 | A join with a separator is the interleaving of the pieces with copies of that separator. |
| Text.SplitOnSeparatorFree | src/BankStatementImport.js:55 | No piece of a split at one character contains that character. |
| Text.JoinSplitOn | src/BankStatementImport.js:34 | Joining the pieces of a split with the separator gives the string back. |
| Text.SplitOnJoin | src/BankStatementImport.js:55 | Splitting a join of separator-free pieces gives the pieces back. |
| Amounts.StripCommasSpec | src/BankStatementImport.js:40-41 | `replace(/,/g, '')` leaves no comma and keeps every other character. |
| Amounts.AmountIgnoresCommas | src/BankStatementImport.js:40-41 | A comma anywhere in a token does not change its amount. |
| Amounts.AmountOf | src/BankStatementImport.js:40-47 | A token whose comma-free text does not start with a number is worth 0. Otherwise its amount is the decimal read from the front of that text. |
| Amounts.ParseDecimal | src/BankStatementImport.js:40-41 | The prefix reading fails (NaN) iff the text does not start with an optional sign followed by a digit, or by a point and a digit. |
| Amounts.ReadUnsigned | src/BankStatementImport.js:40-41 | An unsigned reading exists iff the text starts with a digit, or with a point followed by a digit. |
| Amounts.WordAmountExample | src/BankStatementImport.js:40-46 | The token `Store` is worth 0. |
| Amounts.GroupedAmountExample | src/BankStatementImport.js:41-47 | The token `1,200.50` is worth 1200.50. |
| Amounts.RenderParses | src/BankStatementImport.js:123 | Reading back a rendered amount, followed by any text that does not continue a number, gives the amount. |
| Amounts.AmountOfRender | src/BankStatementImport.js:123 | A rendered amount, taken as a token, is worth that amount. |
| Amounts.NormalizeSpec | src/BankStatementImport.js:123-137 | Dropping trailing fraction zeros keeps the value, its sign and whether it is zero. |
| Amounts.NumberToStringParses | src/BankStatementImport.js:123-137 | A number's text reads back as the same value, and it is zero iff the number is. |
| Amounts.NegatedTextParses | src/BankStatementImport.js:123-137 | `-${x}` reads back as the negation of a non-negative `x`. For a negative `x` the text starts with `--` and does not read as a number. |
| Numerals.NatToStringValue | src/BankStatementImport.js:106 | `(index + 1).toString()` is a digit string whose value is `index + 1`. |
| Numerals.NatToStringInjective | src/BankStatementImport.js:106 | Different numbers get different texts. |
| Xml.TextElementContent | src/BankStatementImport.js:97-98 | Reading `textContent` back gives what was set, the empty string included. |
| Xml.AttributeOfAbsent | src/BankStatementImport.js:92-94 | Looking up an attribute fails iff no attribute has that name. |
| TallyXml.VoucherTypeRule | src/BankStatementImport.js:90-103 | `VCHTYPE` equals the `VOUCHERTYPENAME` text. The type is `Payment` iff the withdrawal is non-zero and `Receipt` iff it is zero. `ACTION` is `Create` and `OBJVIEW` is `Accounting Voucher View`. |
| TallyXml.VoucherFields | src/BankStatementImport.js:96-111 | `DATE` is `parseDate` of the row's date (year, month, day for a `NN-NN-NNNN` date). `NARRATION` is the row's narration. `VOUCHERNUMBER` is a digit string whose value is `index + 1`. |
| TallyXml.LedgerEntriesOpposite | src/BankStatementImport.js:113-139 | There are exactly two ledger entries: first the contra ledger, then the bank. Their `ISDEEMEDPOSITIVE` texts are `Yes` and `No` in some order, and the contra entry's is `No` iff the withdrawal is zero. |
| TallyXml.LedgerAmountsOpposite | src/BankStatementImport.js:122-138 | A receipt carries the deposit text on the contra entry and its negation on the bank entry. A payment carries the negated withdrawal on the contra entry and the plain withdrawal on the bank entry. The plain text reads back as the amount's value, and for a non-negative amount the minus-prefixed text reads back as its negation. |
| TallyXml.VoucherNodeAttributes | src/BankStatementImport.js:91-94 | A voucher's three attributes are its type, `Create` and `Accounting Voucher View`. |
| TallyXml.VoucherNodeFields | src/BankStatementImport.js:96-111 | Each text field of a voucher reads back as the text it was built from. |
| TallyXml.VoucherNodeEntries | src/BankStatementImport.js:113-139 | The ledger entries of a voucher hold the ledger names, flags and amounts they were built from, contra first. |
| TallyXml.LedgerEntryLayout | src/BankStatementImport.js:113-125 | A ledger entry's `LEDGERNAME`, `ISDEEMEDPOSITIVE` and `AMOUNT` read back as built. |
| TallyXml.EnvelopeLayout | src/BankStatementImport.js:63-148 | The document is an `ENVELOPE` with `HEADER/TALLYREQUEST` = `Import Data`, `REPORTNAME` = `Vouchers` and `SVCURRENTCOMPANY` = `Your Company Name`. `BODY/IMPORTDATA/REQUESTDATA` holds exactly the messages. |
| TallyXml.MessagesInOrder | src/BankStatementImport.js:88-143 | `REQUESTDATA` holds one `TALLYMESSAGE` per row, in row order. Message `i` holds the voucher of row `i`, numbered `i + 1`. |
| TallyXml.MessageLayout | src/BankStatementImport.js:89-142 | A message is a `TALLYMESSAGE` whose `VOUCHER` child is the row's voucher, and that voucher's number text is `index + 1`. |
| TallyXml.MessagesAt | src/BankStatementImport.js:88-142 | Message `i` is the one the loop body builds for row `i` at index `i`. |
| TallyXml.Messages | src/BankStatementImport.js:88-143 | There are as many messages as rows. |
| TallyXml.VoucherNumbersDistinct | src/BankStatementImport.js:105-106 | Vouchers at different indices get different `VOUCHERNUMBER`s. |
| TallyXml.CreateXml | src/BankStatementImport.js:62-148 | The loop that appends one message per row builds exactly the envelope around `Messages(data)`. |
| TallyXml.GenerateTallyXml | src/BankStatementImport.js:59-62 | Nothing is produced iff there are no rows. Otherwise the result is `createXml`'s document. |
| StatementParser.ParseLine | src/BankStatementImport.js:36-49 | Definition of the `forEach` body for one line. Properties in `StatementParser.ParseLineCases`, `StatementParser.ParseLineByPosition`, `StatementParser.ParseLineThreeTokens` and `StatementParser.ParseLineColumns`. |
| StatementParser.Outcomes | src/BankStatementImport.js:35-36 | Definition of the per-line mapping of the `forEach`: one outcome per line, in line order. Its contract states the length. Properties in `StatementParser.OutcomesAt`. |
| StatementParser.ParseLines | src/BankStatementImport.js:33-51 | Definition of the whole parse over the lines. Properties in `StatementParser.ParseLinesFilterMap`. |
| StatementParser.Collect | src/BankStatementImport.js:35-50 | Definition of the fold of the line outcomes, where the first failure ends the fold. Properties in `StatementParser.CollectFilterMap` and `StatementParser.CollectFailureSticks`. |
| Dates.MatchDate | src/BankStatementImport.js:36-38 | Definition of `line.match(/\d{2}-\d{2}-\d{4}/)[0]`. A match is 10 characters long. Properties in `Dates.MatchDateSpec`. |
| Dates.FindDate | src/BankStatementImport.js:36 | Definition of the leftmost-first search. A position found lies inside the line with room for a date. Properties in `Dates.FindDateSpec`. |
| Dates.ParseDate | src/BankStatementImport.js:54-57 | Definition of `parseDate`, with missing fields written as `undefined`. Properties in `Dates.ParseDateFields`, `Dates.ParseDateOfShape` and `Dates.ParseDateRoundTrip`. |
| Text.SplitWs | src/BankStatementImport.js:39 | Definition of `split(/\s+/)`. It returns at least one token. Properties in `Text.SplitWsSpec`, `Text.SplitWsRebuild` and `Text.SplitWsInterleave`. |
| Text.SplitOn | src/BankStatementImport.js:34 | Definition of `split` at one character (also used at line 55). It returns at least one piece. Properties in `Text.SplitOnSeparatorFree`, `Text.JoinSplitOn` and `Text.SplitOnJoin`. |
| Text.JoinWith | src/BankStatementImport.js:42 | Definition of `join`. Properties in `Text.JoinSplitOn` and `Text.JoinWithInterleave`. |
| Amounts.StripCommas | src/BankStatementImport.js:40-41 | Definition of `replace(/,/g, '')`. It never lengthens the token. Properties in `Amounts.StripCommasSpec` (no comma is left, every other character is kept), `Amounts.StripCommasAppend` (it works piece by piece, so order is kept) and `Amounts.StripCommasUnchanged` (a comma-free token is returned as it is). |
| Amounts.Render | src/BankStatementImport.js:123-137 | Definition of the decimal text of an amount: an optional minus, the integer digits, and the fraction digits after a point when there are any. Properties in `Amounts.RenderParses` and `Amounts.AmountOfRender`. |
| Amounts.Normalize | src/BankStatementImport.js:123-137 | Definition of the removal of trailing fraction zeros that `Number#toString` performs. Its contract states that the scale never grows. Properties in `Amounts.NormalizeSpec`. |
| Amounts.NumberToString | src/BankStatementImport.js:123-137 | Definition of an amount's text in the `AMOUNT` elements. Properties in `Amounts.NumberToStringParses` and `Amounts.NegatedTextParses`. |
| Numerals.NatToString | src/BankStatementImport.js:106 | Definition of `(index + 1).toString()`. It is never empty. Properties in `Numerals.NatToStringValue` and `Numerals.NatToStringInjective`. |
| Xml.TextElement | src/BankStatementImport.js:97-98 | Definition of `createElement` plus setting `textContent`. It gives an element with that tag, no attributes and at most one child. Properties in `Xml.TextElementContent`. |
| TallyXml.VoucherTypeOf | src/BankStatementImport.js:90 | Definition of the voucher type chosen by the truthiness of the withdrawal. Properties in `TallyXml.VoucherTypeRule`. |
| TallyXml.TextsOf | src/BankStatementImport.js:90-137 | Definition of the texts one row's voucher is built from. Properties in `TallyXml.VoucherFields` and `TallyXml.LedgerAmountsOpposite`. |
| TallyXml.LedgerEntry | src/BankStatementImport.js:113-139 | Definition of one `ALLLEDGERENTRIES.LIST` element with its `LEDGERNAME`, `ISDEEMEDPOSITIVE` and `AMOUNT` children, in that order. Properties in `TallyXml.LedgerEntryLayout`. |
| TallyXml.VoucherNode | src/BankStatementImport.js:91-139 | Definition of the `VOUCHER` element built from those texts. Properties in `TallyXml.VoucherNodeAttributes`, `TallyXml.VoucherNodeFields` and `TallyXml.VoucherNodeEntries`. |
| TallyXml.Voucher | src/BankStatementImport.js:91-139 | Definition of the voucher of one row. Properties in `TallyXml.VoucherTypeRule`, `TallyXml.VoucherFields`, `TallyXml.LedgerEntriesOpposite` and `TallyXml.LedgerAmountsOpposite`. |
| TallyXml.TallyMessage | src/BankStatementImport.js:89-142 | Definition of the `forEach` body of `createXml` for one row. Properties in `TallyXml.MessageLayout`. |
| TallyXml.Envelope | src/BankStatementImport.js:63-148 | Definition of the fixed document around the messages. Properties in `TallyXml.EnvelopeLayout`. |

## Left out

- `handleFileUpload` (src/BankStatementImport.js:12-30): reading the PDF with `pdf.js`, `FileReader` and the asynchronous page loop are I/O. `ParseBankStatement` takes the extracted text as its parameter.
- The React state and page (src/BankStatementImport.js:8-10, 159-184): `data`, `bankName` and `ledgerName` are parameters of the model, and the form is not modelled.
- `XMLSerializer`, `Blob` and `saveAs` (src/BankStatementImport.js:150-156): the model stops at the document tree. The serialised text and the download are not modelled.
- The DOM is modelled as immutable tree values. `createDocument`, `createElement` and `appendChild` are not modelled as updates of shared mutable nodes, so aliasing between nodes is not represented. Each element is appended exactly once, in the order the code appends it.
- The regular-expression engine: the two patterns used (`\d{2}-\d{2}-\d{4}` and `\s+`) are written out as direct scans (`Dates.FindDate`, `Text.SplitWs`).
- AmountOf: amounts are exact decimals. The exponent forms (`1e3`), `Infinity` and binary floating-point rounding of `parseFloat` are not modelled.
- ParseDecimal: same limits as `AmountOf`. A sign followed by a number is read, but an exponent part is not.
- NumberToString: renders the exact decimal without trailing fraction zeros. That matches JavaScript's `Number#toString` for ordinary amounts, but the exponent notation JavaScript uses beyond `1e21` or below `1e-6` and float rounding are not modelled.
- Numerals.NatToString: `(index + 1).toString()` is modelled for all naturals. The switch to exponent notation at `1e21` is not modelled.
