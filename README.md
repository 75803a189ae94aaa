# ACC basketball loader: the insert path, in Dafny

This project models how the loader of the ACC basketball database turns the
lines of its data files into SQL `INSERT` statements (`query_funcs.cpp`):

- `sanitizeString` escapes free text for a single-quoted SQL literal by
  doubling every single quote (`sanitize.dfy`, module `Sanitize`);
- `add_state`, `add_color` and `add_team` each take the next id from their own
  function-static counter and splice it, the escaped name and the integers
  into a fixed statement template (`statements.dfy`, module `Statements`, for
  the text; `decimal.dfy`, module `Decimal`, for how `operator<<` writes an
  `int`); `add_player` contributes only its id counter;
- `fillState`, `fillColor` and `fillTeam` read their file line by line and
  call the matching `add_*` for each line, stopping at the first line that
  does not parse; `fillTables` runs them in order (`loader.dfy`, module
  `Loader`).

The four function-static counters become the fields of a `LoaderSession`
object, and the `exec`/`commit` of each statement becomes appending the
statement text to the session's `executed` log. A data file is the sequence of
its lines; reading a line with a string stream is a given partial function
`parse` from a line to a row (`None` where extraction fails).

Each operation is proved against a partner:

- `Escape` is the reference definition of the escaping, and the loop
  `SanitizeString` is proved to compute it. `Unescape` and `ReadLiteral`
  are its inverses, in both directions. `ReadLiteral` is how standard SQL
  reads a literal's body, where a backslash is an ordinary character (as in
  PostgreSQL with `standard_conforming_strings` on); `sanitizeString` leaves
  backslashes alone, so its guarantees rely on that reading.
- `ReadInt` reads back what `IntToDecimal` writes.
- `ParseInsert` reads the values an `INSERT` statement inserts. The
  round-trip lemmas say each generated statement inserts exactly its id, the
  name as it was before escaping, and the integers unchanged.
- `ParsedPrefix` (the rows before the first unparsable line) and `Inserts`
  (the statements of successive calls of one `add_*`) specify the fill loops.

The leading id on each line of a data file never reaches a statement: ids
come only from the counters, so the i-th parsed row of a fresh session gets
id i. The `*InsertsIgnoreFileId` lemmas state this for parsed rows. The
leading token must still parse as an `int`, or loading stops at that line;
that check is part of `parse`.

## Model

| member | source | states |
|---|---|---|
| Sanitize.SanitizeString | query_funcs.cpp:12-21 | the loop returns exactly `Escape(orig)`: each character copied in order, with one extra quote pushed before every quote |
| Sanitize.Escape | query_funcs.cpp:14-19 | the escaped text is longer than the input by exactly its number of quotes |
| Sanitize.EscapeAppend | query_funcs.cpp:14-19 | escaping works character by character: escaping a concatenation is concatenating the escapes |
| Sanitize.EscapeAt | query_funcs.cpp:14-19 | input character i appears unchanged at position i plus the number of earlier quotes, and a quote is followed there by a second quote |
| Sanitize.EscapeOnlyDoublesQuotes | query_funcs.cpp:14-19 | the output has twice as many quotes as the input, and its other characters are the input's, in order |
| Sanitize.EscapeWithoutQuotes | query_funcs.cpp:14-19 | a text without quotes (the empty text included) is returned unchanged |
| Sanitize.UnescapeEscape | query_funcs.cpp:12-21 | collapsing doubled quotes undoes the escaping: `Unescape(Escape(s)) == Some(s)` |
| Sanitize.EscapeUnescape | query_funcs.cpp:12-21 | every text that unescapes to `s` is `Escape(s)`, so escaping is one-to-one |
| Sanitize.EscapeRunsEven | query_funcs.cpp:14-19 | every maximal run of quotes in an escaped text has even length: no lone quote is left to end a literal |
| Sanitize.ReadLiteralEscape | query_funcs.cpp:272 | the literal `'` + escaped name + `'` is read by SQL as exactly the original name, and ends at its closing quote |
| Sanitize.ReadLiteralIsEscape | query_funcs.cpp:272 | conversely, whatever literal body SQL reads as a value is that value escaped, followed by the closing quote |
| Decimal.NatToDecimal | query_funcs.cpp:272 | the text of a natural number is non-empty, all digits, and starts with 0 only for 0 itself |
| Decimal.IntToDecimal | query_funcs.cpp:272 | the text of an `int` starts with a minus sign or a digit |
| Decimal.DecimalValueOfNat | query_funcs.cpp:272 | the digits written for n denote n |
| Decimal.ReadIntDecimal | query_funcs.cpp:245-246 | the text of any `int`, followed by a non-digit, reads back as the same `int` and leaves what followed |
| Statements.ParseRenderedValues | query_funcs.cpp:245-246 | a rendered value list closed by `);` parses back to the same values |
| Statements.StateInsertValues | query_funcs.cpp:264-272 | the template `StateInsert(id, name)` inserts exactly the row (id, name), the name as it was before escaping |
| Statements.ColorInsertValues | query_funcs.cpp:290-298 | the template `ColorInsert(id, name)` inserts exactly the row (id, name) |
| Statements.TeamInsertValues | query_funcs.cpp:237-246 | the template `TeamInsert(id, name, state, color, wins, losses)` inserts exactly those six values, with the integers unchanged |
| Loader.ParsedPrefix | query_funcs.cpp:117-122 | at most one row is read per line |
| Loader.ParsedPrefixRows | query_funcs.cpp:117-122 | the i-th row read is what the i-th line parses to, and the line after the last row, if any, fails to parse |
| Loader.ParsedPrefixIs | query_funcs.cpp:117-122 | conversely, rows that the first lines parse to, followed by the end of the file or an unparsable line, are exactly what is read |
| Loader.ParsedPrefixIgnoresRest | query_funcs.cpp:121-122 | lines after the first unparsable line have no effect |
| Loader.Inserts | query_funcs.cpp:264-266 | successive calls of one `add_*` give one statement per row |
| Loader.InsertsAt | query_funcs.cpp:264-266 | the statement of the i-th call carries the id `last + i + 1`, where `last` is the counter before the first call |
| Loader.InsertsAppend | query_funcs.cpp:264-266 | one more call appends one statement, with the next id |
| Loader.StateInsertsValues | query_funcs.cpp:264-272 | the i-th state statement inserts the counter's id and the i-th row's name |
| Loader.ColorInsertsValues | query_funcs.cpp:290-298 | the i-th color statement inserts the counter's id and the i-th row's name |
| Loader.TeamInsertsValues | query_funcs.cpp:237-246 | the i-th team statement inserts the counter's id and the i-th row's name, references, wins and losses |
| Loader.StateInsertsIgnoreFileId | query_funcs.cpp:119-124 | two sequences of parsed state rows that differ only in `fileId` give the same statements |
| Loader.ColorInsertsIgnoreFileId | query_funcs.cpp:136-141 | two sequences of parsed color rows that differ only in `fileId` give the same statements |
| Loader.TeamInsertsIgnoreFileId | query_funcs.cpp:154-163 | two sequences of parsed team rows that differ only in `fileId` give the same statements |
| Loader.LoaderSession.constructor | query_funcs.cpp:209 | every counter starts at 0, as the function statics at query_funcs.cpp lines 209, 238, 265 and 291 do, and nothing has been executed |
| Loader.LoaderSession.AddState | query_funcs.cpp:264-287 | the state counter goes up by one, the statement uses the new id and the escaped name, it is appended to the log, and nothing else changes |
| Loader.LoaderSession.AddColor | query_funcs.cpp:290-313 | the color counter goes up by one, the statement uses the new id and the escaped name, it is appended to the log, and nothing else changes |
| Loader.LoaderSession.AddTeam | query_funcs.cpp:237-261 | the team counter goes up by one, the statement uses the new id, the escaped name and the integers, it is appended to the log, and nothing else changes |
| Loader.LoaderSession.NextPlayerId | query_funcs.cpp:209-210 | the player counter goes up by one and the new value is the id; no other counter and not the log changes |
| Loader.LoaderSession.FillState | query_funcs.cpp:113-128 | one state statement per line, in order, until the first unparsable line; the state counter advances by that many rows |
| Loader.LoaderSession.FillColor | query_funcs.cpp:130-145 | one color statement per line, in order, until the first unparsable line; the color counter advances by that many rows |
| Loader.LoaderSession.FillTeam | query_funcs.cpp:147-167 | one team statement per line, in order, until the first unparsable line; the team counter advances by that many rows |
| Loader.LoaderSession.FillTables | query_funcs.cpp:196-202 | the state statements, then the color statements, then the team statements, each counter advanced by its own file's rows |
| Loader.FreshSessionLog | query_funcs.cpp:237-272 | in a fresh session the first state, color and team rows each get id 1, the second state row gets id 2, and statements are logged in call order |

## Left out

- `query1` to `query5`: their bodies are empty, so there is nothing to model.
- `createTables`, `dropATable` and `cleanTables`: fixed DDL text with no logic beyond executing it.
- The database: `exec` and `commit` are modelled as appending to `executed`. A failed statement, the error message and `exit(EXIT_FAILURE)` are not modelled.
- `add_player`'s statement text and `fillPlayer`: they print `double` values, and floating-point formatting is not modelled. Only the player id counter (`NextPlayerId`) is kept, and `FillTables` stops after the team file.
- File I/O and `getline`: a file is the sequence of its lines, and a file that cannot be opened is an empty sequence.
- String-stream extraction (`ss >> id >> name ...`) is the given partial function `parse`. Whitespace tokenising and `int` overflow during extraction live inside it.
- The console messages of `fillTables` are not modelled.
- Text is a sequence of Unicode characters, where `sanitizeString` walks the bytes of a `std::string`. For UTF-8 input nothing is lost: the quote byte 0x27 never occurs inside a multi-byte sequence.
- Loader.LoaderSession.AddState: the counter is an unbounded `nat`. The source's `static int` would overflow after 2^31 - 1 calls, which is undefined behaviour in C++.
- Loader.LoaderSession.AddColor: unbounded counter, as for `AddState`.
- Loader.LoaderSession.AddTeam: unbounded counter, as for `AddState`. The integers are unbounded `int`s, where the source's are 32-bit.
- Loader.LoaderSession.NextPlayerId: unbounded counter, as for `AddState`.
- Loader.LoaderSession.constructor: the source's counters are process-wide function statics that start at 0 once per program run. Here they are the fields of one session, so two sessions do not share counters.
