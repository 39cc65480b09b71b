# JavaSqlPlus in Dafny

JavaSqlPlus is a small interactive SQL shell for an Oracle database, in the
style of SQL*Plus. It reads lines from the console and trims each one. It
recognises a few commands (`exit`/`quit`, `cls`/`clear`, `conn?`/`status`,
`conn user/password@host:port:sid`, `help`/`?`). Any other line is SQL text,
which it gathers in a buffer until a trailing `;` or a lone `/` sends the
statement to the database. Queries (`SELECT`, `SHOW`, `WITH`) are printed as
a boxed table, and `DESC`/`DESCRIBE` looks up a table's columns. Any other
statement is executed as an update.

This project models the core of that program:

- `JavaString` (`java_string.dfy`) defines the Java string operations the
  shell relies on. These are `trim`, ASCII case mapping, `startsWith` and
  `endsWith`, `split` on one character (which drops trailing empty pieces)
  and `split("\\s+")`.
- `Session` (`session.dfy`) holds the connection state. A connection handle
  is an identifier, and the set of closed handles is kept, so the model can
  say that at most one connection is open. The module also holds the parser
  of `conn` specs and `handleConn`.
- `Router` (`router.dfy`) models `executeSQL`. It routes a statement to
  nothing, a "not connected" message, describe, query or update. It also
  models how `describeTable` finds the table name.
- `Renderer` (`renderer.dfy`) models `printResultSet`, `printSeparator` and
  `printRow` as methods over arrays, the way the program works. Each is
  proved equal to a specification function. The lemmas about those functions
  state the table's layout:
  - widths are clamped to [5, 40];
  - a long cell is cut to its width with `…` as the last character;
  - a null cell is shown as `(null)`;
  - every separator and data row has the same length.
- `Repl` (`repl.dfy`) models the main loop. `Classify` and `Accumulate` are
  the pure parts, `Step` is one pass of the loop body and `RunFrom` runs a
  whole input. The class `Shell` keeps the buffer and the session as fields
  and runs the loop imperatively. `Shell.HandleLine` and `Shell.Run` are
  proved equal to `Step` and `RunFrom`.

The database driver is not modelled. Wherever the program asks the driver
to connect, the answer is a boolean parameter. A result set is modelled as a
sequence of column descriptions and a sequence of rows of optional strings.

A few behaviours of the program may surprise a reader, and the model keeps
all four:

- `conn u/p@h@` and `conn u/p/@h` are accepted. `String.split` drops
  trailing empty pieces, so the extra `@` or `/` disappears.
- `conn u/@h` is refused, although it has exactly one `/` and one `@`:
  `"u/".split("/")` is the single piece `u`, so the password is missing.
- `DESC` is a plain prefix test, so `DESCX foo` also goes to describe.
- A null cell in a column of width 5 does not show the full `(null)`: it is
  cut to `(nul…` like any other cell that is too long.

## Model

| member | source | states |
|---|---|---|
| JavaString.Trim | JavaSqlPlus.java:67 | The result has no whitespace or control character (code ≤ U+0020) at either end, and it is the input with such characters removed from both ends only. |
| JavaString.TrimOfPadded | JavaSqlPlus.java:67 | Trimming a string with a trimmed core and only whitespace around it gives back that core. |
| JavaString.TrimTrimmed | JavaSqlPlus.java:146 | Trim leaves an already-trimmed string unchanged, so trimming twice is the same as trimming once. |
| JavaString.ToUpper | JavaSqlPlus.java:146 | No contract of its own: String.toUpperCase on ASCII letters. LowerAgreesWithUpper and ClassifyIgnoresCase state what the shell relies on. |
| JavaString.ToLower | JavaSqlPlus.java:96 | No contract of its own: String.toLowerCase on ASCII letters. LowerAgreesWithUpper relates it to ToUpper. |
| JavaString.EqualsIgnoreCase | JavaSqlPlus.java:76-102 | No contract of its own: two strings are equal up to ASCII case. ClassifyIgnoresCase states the consequence for commands. |
| JavaString.LowerAgreesWithUpper | JavaSqlPlus.java:76-105 | Two strings that agree when upper-cased also agree when lower-cased, so the case-insensitive tests are consistent with each other. |
| JavaString.StartsWith | JavaSqlPlus.java:96 | No contract of its own: String.startsWith. ExecuteSql's contract, DescribeIsDesc and TerminatedLineIsSql state what relies on it. |
| JavaString.EndsWith | JavaSqlPlus.java:119 | No contract of its own: String.endsWith. Accumulate's contract and SemicolonSendsStatement state what relies on it. |
| JavaString.Repeat | JavaSqlPlus.java:223 | n copies of the character, as String.repeat gives: the result is n long and every character is the given one. |
| JavaString.SplitTwo | JavaSqlPlus.java:289-295 | When a split gives exactly two pieces, neither holds the delimiter, the second is not empty, and the input was the two pieces joined by the delimiter and followed only by more delimiters. |
| JavaString.FieldsCons | JavaSqlPlus.java:289 | A piece without the delimiter, then the delimiter, then the rest: the first field is that piece and the remaining fields are those of the rest. |
| JavaString.JoinTrailingEmpty | JavaSqlPlus.java:289 | Joining two pieces followed by empty fields gives the two pieces around the delimiter, then one delimiter per empty field. |
| JavaString.Split | JavaSqlPlus.java:289-293 | No contract of its own: String.split on one character, keeping the whole string when the character is absent and dropping trailing empty pieces. SplitTwo, SplitPadded and the ParseSpec lemmas state its behaviour. |
| JavaString.SplitRegexSpace | JavaSqlPlus.java:248 | No contract of its own: String.split on runs of whitespace. DescribeUsageIff and DescribeNamesSecondToken state its behaviour on trimmed statements. |
| Session.Startup | JavaSqlPlus.java:32-51 | At startup the settings are the defaults. A connection is open exactly when the first attempt succeeds, and the session is valid (at most one connection open). |
| Session.CloseConnection | JavaSqlPlus.java:333-340 | Afterwards no connection is current. The previous connection, if any, is added to the closed set. Settings and identifiers are unchanged, and validity is preserved. |
| Session.ParseSpec | JavaSqlPlus.java:288-299 | No contract of its own: exactly two pieces around `@`, then exactly two around `/`. ParseSpecAccepts and ParseSpecShape together characterise the accepted specs, and the ParseSpecRejects lemmas give the refused ones. |
| Session.ParseSpecAccepts | JavaSqlPlus.java:288-299 | Every spec `user/password@rest` is accepted, with any number of trailing `/` after the password and trailing `@` after the rest. The user, the password and the URL scheme followed by the rest come back unchanged. |
| Session.ParseSpecShape | JavaSqlPlus.java:288-299 | Conversely, every accepted spec has that shape, with the parsed user, password and rest, so ParseSpecAccepts and ParseSpecShape together characterise the accepted specs. |
| Session.ParseSpecRejectsEmptyRest | JavaSqlPlus.java:289-291 | A spec with nothing after its `@` (or only more `@`) is rejected. |
| Session.ParseSpecRejectsMissingSlash | JavaSqlPlus.java:293-295 | A spec without a `/` before the `@` is rejected. |
| Session.ParseSpecRejectsSecondSlash | JavaSqlPlus.java:293-295 | A spec with a second non-empty `/`-piece before the `@` is rejected. |
| Session.ParseSpecRejectsEmptyPassword | JavaSqlPlus.java:293-295 | A spec whose `/` (or run of `/`) is followed directly by `@` is refused, because the empty password piece is dropped by the split. |
| Session.SplitPadded | JavaSqlPlus.java:289 | Splitting `a` + delimiter + `b` + any number of trailing delimiters gives exactly `[a, b]`. |
| Session.FieldsRepeat | JavaSqlPlus.java:289 | Trailing delimiters after a piece produce that many empty fields. |
| Session.DropEmpties | JavaSqlPlus.java:289 | Dropping trailing empties removes exactly the appended empty fields. |
| Session.SplitTrailingOnly | JavaSqlPlus.java:293-294 | A piece followed only by delimiters splits into fewer than two pieces, so it never passes the two-piece test. |
| Session.ParseSpecTrailingAtExample | JavaSqlPlus.java:289-299 | `u/p@h@` is accepted as user `u`, password `p`, host `h`. |
| Session.ParseSpecTrailingSlashExample | JavaSqlPlus.java:289-299 | `u/p/@h` is accepted as user `u`, password `p`, host `h`. |
| Session.ParseSpecEmptyHostExample | JavaSqlPlus.java:289-291 | `u/p@` is rejected. |
| Session.ParseSpecNoPasswordExample | JavaSqlPlus.java:293-295 | `u@h` is rejected. |
| Session.ParseSpecEmptyPasswordExample | JavaSqlPlus.java:293-295 | `u/@h` is rejected. |
| Session.HandleConn | JavaSqlPlus.java:284-315 | The old connection is always closed first. A new connection is open exactly when the spec after `conn ` parses and the driver connects. It gets a fresh identifier, and only then are url, user and password replaced. On failure the settings are kept and no connection is open. Validity is preserved. |
| Session.Opened | JavaSqlPlus.java:301-308 | After a successful connect, the new connection has the next fresh identifier, the closed set is unchanged, url, user and password are those parsed, and validity is preserved. |
| Router.ExecuteSql | JavaSqlPlus.java:137-169 | An empty statement is ignored. Without a connection, "not connected" is printed and the driver is not called. Otherwise the trimmed, upper-cased text goes to describe if and only if it starts with `DESC`, to query if and only if it starts with SELECT, SHOW or WITH and not DESC, and to update in all other cases. Query and update carry the statement as given, and the describe outcome is exactly DescribeTable of the statement (so DescribeUsageIff and DescribeNamesSecondToken say which table is looked up). |
| Router.IsQueryPrefix | JavaSqlPlus.java:151-153 | No contract of its own: the five prefixes of the query branch. ExecuteSql's contract states the routing it decides. |
| Router.DescribeIsDesc | JavaSqlPlus.java:151-156 | Every text that starts with `DESCRIBE` also starts with `DESC`, so the DESCRIBE test adds no case. |
| Router.DescribeTable | JavaSqlPlus.java:248-253 | Describe always ends in the usage message or in a lookup of one table name. |
| Router.DescribeUsageIff | JavaSqlPlus.java:248-252 | A trimmed statement gives the usage message if and only if it contains no whitespace, that is, if and only if it is one token. |
| Router.DescribeNamesSecondToken | JavaSqlPlus.java:248-253 | For `keyword whitespace name tail`, the table looked up is `name` upper-cased, whatever follows it. |
| Router.FieldsOfTwoTokens | JavaSqlPlus.java:248 | A string with inner whitespace and none at its ends splits into at least two fields, and the second is not empty. |
| Router.FieldsAfterSeparator | JavaSqlPlus.java:248 | A token, whitespace and a rest split into that token followed by the fields of the rest. |
| Router.FieldsHead | JavaSqlPlus.java:248 | A token followed by nothing or by whitespace is the first field. |
| Renderer.ColumnWidth | JavaSqlPlus.java:190-196 | A column's width lies in [5, 40] and equals the larger of the label length and the display size, clamped to that range. |
| Renderer.CellText | JavaSqlPlus.java:210-211 | No contract of its own: a null value becomes `(null)`. NullCellRendering states how it is shown. |
| Renderer.Cells | JavaSqlPlus.java:208-212 | One text per value of the row. CollectRow is proved to fill its array with exactly these texts. |
| Renderer.Truncate | JavaSqlPlus.java:232-234 | No contract of its own. TruncateFits states its properties. |
| Renderer.PadRight | JavaSqlPlus.java:235 | No contract of its own. PadRightFills states its properties. |
| Renderer.RenderCell | JavaSqlPlus.java:235-239 | No contract of its own. RenderCellLayout and RenderCellWidth state its layout and width. |
| Renderer.Piece | JavaSqlPlus.java:236-240 | No contract of its own: a header cell is wrapped in the bold and reset codes. HeaderRowLength states the resulting length. |
| Renderer.Separator | JavaSqlPlus.java:220-226 | No contract of its own. SeparatorLength states its length and PrintSeparator is proved to build it. |
| Renderer.Row | JavaSqlPlus.java:228-243 | No contract of its own. RowLength, HeaderRowLength and RowsAlignWithSeparator state its length, and PrintRow is proved to build it. |
| Renderer.Table | JavaSqlPlus.java:199-216 | No contract of its own. TableFrame, TableRows and TableAligned state its lines, and PrintResultSet is proved to print it. |
| Renderer.TruncateFits | JavaSqlPlus.java:232-234 | The shown text is exactly min(length, width) characters long. A cell that fits is unchanged. A longer cell keeps its first width−1 characters and ends in `…`. |
| Renderer.PadRightFills | JavaSqlPlus.java:235 | Padding gives at least the requested width and keeps the text as its prefix, with only spaces after it. |
| Renderer.RenderCellLayout | JavaSqlPlus.java:232-239 | A rendered cell is a space, the truncated text padded to the width, then ` \|`. |
| Renderer.RenderCellWidth | JavaSqlPlus.java:232-239 | A rendered cell is exactly width + 3 characters long. |
| Renderer.SeparatorLength | JavaSqlPlus.java:220-226 | A separator is 1 + Σ(width + 3) characters long. |
| Renderer.RowLength | JavaSqlPlus.java:228-243 | A data row is 1 + Σ(width + 3) characters long. |
| Renderer.HeaderRowLength | JavaSqlPlus.java:228-243 | A header row is that length plus the bold and reset codes around each cell. |
| Renderer.RowBodyWidths | JavaSqlPlus.java:230-241 | A row depends only on the widths of the columns it fills. |
| Renderer.RowsAlignWithSeparator | JavaSqlPlus.java:220-243 | A data row and the separator have the same length. |
| Renderer.NullCellRendering | JavaSqlPlus.java:211-239 | A null cell shows `(null)` in any column wider than 5, and `(nul…` in a column of width 5. |
| Renderer.PrintSeparator | JavaSqlPlus.java:220-226 | The loop builds exactly the separator of the given widths. |
| Renderer.PrintRow | JavaSqlPlus.java:228-243 | The loop builds exactly the row of the given cells and widths, with bold codes around each cell of a header row. |
| Renderer.CollectColumns | JavaSqlPlus.java:187-196 | The filled arrays hold the upper-cased labels and the clamped widths of the columns. |
| Renderer.CollectRow | JavaSqlPlus.java:208-212 | The filled array holds each value, or `(null)` in place of a null. |
| Renderer.DataRowsAppend | JavaSqlPlus.java:206-214 | Printing row n after rows 0..n−1 gives the rendering of rows 0..n. |
| Renderer.FrameLines | JavaSqlPlus.java:199-216 | The frame is a blank line, a separator, the header, a separator, the body lines and a closing separator. |
| Renderer.TableFrame | JavaSqlPlus.java:199-216 | A table has rows + 5 lines: a blank line, the separator, the header of upper-cased labels, the separator again, and the same separator as the last line. |
| Renderer.TableRows | JavaSqlPlus.java:205-214 | Line 4 + k of the table is row k of the result, rendered with the column widths. |
| Renderer.TableAligned | JavaSqlPlus.java:199-216 | Every line of the table other than the blank line and the header has the same length, 1 + Σ(width + 3). |
| Renderer.TableLineWidth | JavaSqlPlus.java:199-216 | Any one separator or data line has that common length. |
| Renderer.PrintResultSet | JavaSqlPlus.java:182-218 | The returned count is the number of rows, and the printed lines are exactly the table of the columns and rows. |
| Repl.Classify | JavaSqlPlus.java:72-105 | The result is Skip exactly for the empty line, and a reconnect line is at least `conn ` long. The tests run in the program's order. |
| Repl.Accumulate | JavaSqlPlus.java:107-130 | A statement is sent exactly when the line is `/` with a non-empty buffer, or any other line ending in `;`. On `/` the statement is the buffer trimmed. On `X;` it is the buffer, then X without its `;` trimmed, then a space, all trimmed. A `/` on an empty buffer changes nothing and sends nothing. The buffer is empty after a send. Any other line appends the line and a space to the buffer. |
| Repl.Step | JavaSqlPlus.java:67-130 | The command is the classification of the trimmed line. Only SQL lines change the buffer or send, and they do exactly what Accumulate does with the trimmed line. A send empties the buffer. Only exit, which closes the connection, and conn, which does exactly what HandleConn does with the trimmed line, change the session. Validity of the session is preserved. |
| Repl.RunFrom | JavaSqlPlus.java:58-131 | The session stays valid over any run. A run that ended by exit has no open connection, and a run that did not end contains no exit line. |
| Repl.Sent | JavaSqlPlus.java:110-130 | A pass of the loop sends at most one statement. |
| Repl.RunFromCons | JavaSqlPlus.java:58-131 | A run is the first line's step followed by the run of the remaining lines, and it stops at exit. |
| Repl.Appended | JavaSqlPlus.java:124 | No contract of its own: each line trimmed, then a space. NoTerminatorNeverDispatches, RunSplit, SlashSendsStatement and SemicolonSendsStatement state what it is used for. |
| Repl.BlankOrLoneSlashIsNoOp | JavaSqlPlus.java:72-116 | A blank line, or `/` with nothing buffered, changes nothing and sends nothing. |
| Repl.PlainSqlAppends | JavaSqlPlus.java:119-130 | An SQL line without a terminator appends the trimmed line and a space, and sends nothing. |
| Repl.NoTerminatorNeverDispatches | JavaSqlPlus.java:58-131 | Any run of unterminated SQL lines sends nothing and leaves the session alone. The buffer grows by exactly those lines, each followed by a space. |
| Repl.RunSplit | JavaSqlPlus.java:58-131 | Unterminated SQL lines followed by any further input only add to the buffer, and the run continues from there with the session unchanged. |
| Repl.SlashSendsStatement | JavaSqlPlus.java:107-116 | Any buffer, any number of unterminated SQL lines, then a line `/`: exactly one statement is sent, the whole buffer trimmed, routed with the current connection, and the buffer ends empty. With nothing buffered, nothing is sent. |
| Repl.SemicolonSendsStatement | JavaSqlPlus.java:118-130 | Any buffer, any number of unterminated SQL lines, then an SQL line `X;`: exactly one statement is sent, the buffer plus X without its `;` trimmed plus a space, all trimmed, and the buffer ends empty. |
| Repl.SlashIsSql | JavaSqlPlus.java:76-110 | The terminator `/` is not a command word, so it reaches the accumulator. |
| Repl.SemicolonSameAsSlash | JavaSqlPlus.java:110-130 | On an empty buffer, the accumulator sends the same statement for `X;` as for `X` followed by `/`: X trimmed. This holds for SQL text only. When X is a command word, the line X is that command, while `X;` is SQL (ExitWithSemicolonIsSql). |
| Repl.CommandKeepsBuffer | JavaSqlPlus.java:72-105 | A command line leaves the half-built statement alone and sends nothing. |
| Repl.ClassifyIgnoresCase | JavaSqlPlus.java:76-105 | Two lines that differ only in letter case are the same command. |
| Repl.TerminatedLineIsSql | JavaSqlPlus.java:76-122 | A line ending in `;` that does not start with `conn ` is SQL text. |
| Repl.ExitWithSemicolonIsSql | JavaSqlPlus.java:76-128 | `exit;` is not the exit command. It is sent to the database as SQL. |
| Repl.Shell.constructor | JavaSqlPlus.java:40-56 | A new shell starts with an empty buffer and the startup session. |
| Repl.Shell.HandleLine | JavaSqlPlus.java:67-130 | One pass of the loop body, run imperatively. The new buffer, the new session, the command and the statement sent are exactly those of Step. |
| Repl.Shell.Run | JavaSqlPlus.java:58-131 | The loop over the input, run imperatively. The final buffer and session, the routing of every statement sent (in order) and whether it ended by exit are exactly those of RunFrom. |

## Left out

- Console I/O is not modelled: the prompt, the banner, the help text, clearing the screen and the messages printed in colour. Input is a finite sequence of lines, so end of input is not modelled. Output is modelled only as the lines of a result table. The bold and reset codes around header cells are kept because they change the header's length.
- Repl.Shell.Run: stops when the input runs out as well as at `exit`. At end of input the program's own `nextLine` would throw instead.
- The JDBC driver is not modelled: connecting, statements, result sets, metadata and `SQLException`. A connection attempt's success is a boolean parameter. A query's result is given as columns and rows, and the affected-row count of an update is not modelled.
- Router.ExecuteSql: the result names the call that would be made. A failure inside the driver, which the program prints as `ERROR: …`, is not modelled. Neither is the `createStatement` call the program makes before routing a describe.
- Router.DescribeTable: the metadata lookup and the printing of its rows are left out. The model stops at the table name looked up.
- `showStatus` is not modelled; it only prints the current settings.
- Session.CloseConnection: an exception thrown by `close` is swallowed by the program, and the model treats every close as successful.
- Renderer.PrintResultSet: the result set is given as a sequence of rows. The program reads it row by row from the driver. The model requires every row to have one value per column; the driver guarantees this.
- Renderer.PrintResultSet: the row count is unbounded. In the program it is a Java `int`, which wraps around after 2^31 − 1 rows; that overflow is not modelled.
- Renderer.PrintRow: requires at least as many widths as cells. The program would throw otherwise, and its only caller always passes equal lengths.
- JavaString.ToUpper and JavaString.ToLower map only ASCII letters, the same way in every locale. Java's `toUpperCase` and `toLowerCase` use the default locale, and their mapping of non-ASCII characters is not modelled. In a Turkic default locale (Turkish, Azerbaijani) Java also maps ASCII `i` to `İ` and `I` to `ı`. There a `WITH` statement goes to update rather than query, and describe table names and header labels containing `i` differ from the model's.
- JavaString.EqualsIgnoreCase compares ASCII case only. Java's `equalsIgnoreCase` also matches some non-ASCII letters to ASCII ones (`ı` to `i`, `ſ` to `s`), so `exıt` is the exit command in Java but SQL text in the model.
- A Dafny `char` is a Unicode scalar value, while a Java `char` is a UTF-16 code unit. A character outside the Basic Multilingual Plane counts once here but twice in Java's `length()`. So for such text, cell truncation, `%-ws` padding and label-based column widths differ from the program's, and a lone surrogate cannot be written at all. The display width of wide characters is not modelled either.
