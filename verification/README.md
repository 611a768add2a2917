# mini-sql in Dafny

A model of the core of mini-sql, a small SQL database written in Rust. The model covers:

- **Both front ends.** Each has a tokenizer and a parser:
  - the first generation is `src/tokenizer.rs` and `src/parser.rs`. It reads only
    `SELECT <columns> FROM <table>`;
  - the second generation is `src/sql/tokenizer.rs`, `src/sql/parser.rs` and the statement tree
    in `src/sql/mod.rs`. It adds `INSERT INTO <table> VALUES <literals>`, string literals and
    comparison operators.
- **The in-memory table** (`src/table.rs`): fixed-width rows kept in insertion order.
- **The table layouts** (`src/schema.rs`): column sizes, row size, column offsets, and the
  name-to-layout map of a database.
- **The page cache** (`src/pager.rs`): a file of 4096-byte pages and up to 100 cached pages
  shared through handles, with the write-back `flush`.

Modules follow the source files:

| module | file | models |
|---|---|---|
| `Ascii`, `Bytes`, `Optional` | `ascii.dfy`, `bytes.dfy`, `optional.dfy` | shared vocabulary |
| `Tokens` | `tokens.dfy` | token kinds and spans |
| `Lexing` | `lexing.dfy` | the recognisers both tokenizers share |
| `LegacyTokenizer` | `legacy_tokenizer.dfy` | `src/tokenizer.rs` |
| `SqlTokenizer` | `sql_tokenizer.dfy` | `src/sql/tokenizer.rs` |
| `TokenizerExamples` | `tokenizer_examples.dfy` | the tokenizers' own test inputs, and `SELECT FROM users` from text to a hanging parser |
| `Grammar` | `grammar.dfy` | the keyword matchers, `table_name` and the comma-list loop both parsers share |
| `LegacyParser` | `legacy_parser.dfy` | `src/parser.rs` |
| `SqlParser` | `sql_parser.dfy` | `src/sql/parser.rs` |
| `SqlAst` | `sql_ast.dfy` | `src/sql/mod.rs` |
| `Schema` | `schema.dfy` | `src/schema.rs` |
| `Tables` | `table.dfy` | `src/table.rs` |
| `Paging` | `pager.dfy` | `src/pager.rs` |

How the source's behaviour is represented:

- **Outcomes.** A recogniser either matches, declines, or aborts the process (`expect` on an
  oversized number). A parser yields the rest of the slice and a value, fails with
  `Error::NoMatch`, or never returns.
- **Loops that never end.** The list loops of `columns` and `values` spin forever on some
  inputs. The model records that outcome as `Diverges`/`Hangs` and characterises exactly
  when it happens.
- **Panics.** The pager's and `Row::new`'s panics are outcomes carrying the panic message.
- **The second tokenizer's whitespace.** `take_while` in the second-generation tokenizer
  consumes the first character it rejects. As a result, `whitespace` matches everywhere.
  That tokenizer is modelled twice:
  - as written, `SqlTokenizer.Tokenize`;
  - with the maximal-run whitespace recogniser the file keeps as commented-out code,
    `SqlTokenizer.TokenizeCorrected`. This version produces the stream `test_tokenize_keyword`
    expects (see Findings); the file's other tests are not stated as lemmas.

## Model

| member | source | states |
|---|---|---|
| Ascii.DecimalRoundTrip | src/sql/tokenizer.rs:449-481 | the decimal spelling of any number reads back as that number, which is what the number recogniser's `parse` relies on |
| Lexing.ScanIdentifier | src/tokenizer.rs:218-248 | a single-quoted name matches exactly when the input starts with a quote that is closed later; the span covers both quotes and the name keeps only letters and `.` |
| Lexing.ScanNumber | src/tokenizer.rs:250-279 | a leading non-digit is declined; otherwise the maximal digit run is consumed and its value is the token's; it aborts with the source's `expect` message exactly when the input is empty or the digit run's value exceeds `u32::MAX` |
| Lexing.NumberAbortsAboveMax | src/tokenizer.rs:273 | the decimal spelling of any number above `u32::MAX`, followed by a non-digit or nothing, makes `number` abort |
| Lexing.NumberReadsDecimal | src/sql/tokenizer.rs:449-481 | the decimal spelling of every `u32` followed by a non-digit is read back as that integer, consuming exactly the spelling |
| Lexing.ScanKeyword | src/sql/tokenizer.rs:164-244 | a keyword matches when its text is a case-insensitive prefix of the input, with no word-boundary test; every candidate that is such a prefix is the one reported; otherwise the error is `UnknownKeyword("idk")` |
| Lexing.KeywordMatchUnique | src/tokenizer.rs:100-154 | no keyword's text is a prefix of another's, so at most one keyword can match a position |
| Lexing.KeywordStartsWithLetter | src/tokenizer.rs:100-154 | the keyword recogniser only ever matches at a letter |
| Lexing.ScanWhitespaceRun | src/tokenizer.rs:156-187 | declines unless the first character is whitespace; otherwise consumes the maximal whitespace run, so the character after it is not whitespace |
| LegacyTokenizer.ScanSpecial | src/tokenizer.rs:189-216 | `,` `=` `;` become one-character tokens of their kind; everything else is declined with `NoMatch` |
| LegacyTokenizer.Next | src/tokenizer.rs:49-98 | one loop iteration consumes a non-empty prefix whose text its token describes; the token is whitespace exactly when the input starts with whitespace; it only produces kinds this generation knows |
| LegacyTokenizer.Run | src/tokenizer.rs:49-98 | the tokens a run collects tile the input from its start without gaps or overlaps; a run panics only with the number message and only if some loop iteration from its start on aborts |
| LegacyTokenizer.RunPanicsIff | src/tokenizer.rs:49-98 | a run panics exactly when the loop, taking token after token, gets to a position where the iteration aborts on an overflowing number |
| LegacyTokenizer.RunStops | src/tokenizer.rs:49-98 | a run that returns stops at the end of the input or at a position where every recogniser declines |
| LegacyTokenizer.RunDescribes | src/tokenizer.rs:49-98 | each token of a run lies within the input and its kind describes the text under its span |
| LegacyTokenizer.RunNoAdjacentWhitespace | src/tokenizer.rs:49-98 | a run never emits two whitespace tokens in a row, and starts with one exactly when it starts at whitespace |
| LegacyTokenizer.Tokenize | src/tokenizer.rs:49-98 | `parse` tiles the input from 0 up to the first position nothing recognises, each token describing its text and no two whitespace tokens adjacent; it aborts with the number message exactly when the loop gets to an iteration that aborts |
| LegacyTokenizer.SpansContiguous | src/tokenizer.rs:49-98 | the spans `parse` hands out follow its running offset: the first starts at 0, each starts where the previous ended, none reaches past the input |
| LegacyTokenizer.StopsAtUnsupported | src/tokenizer.rs:49-98 | at `"`, `<` or `>` every recogniser of this generation declines, and the last error is `UnknownKeyword("idk")` |
| LegacyTokenizer.RunEndsAtUnsupported | src/tokenizer.rs:83-95 | a run that reaches `"`, `<` or `>` yields nothing from there on and does not fail |
| SqlTokenizer.Tag | src/sql/tokenizer.rs:13-27 | `tag(lit)` succeeds exactly when `lit` is a prefix of the input and consumes it; short input is `InputEnded` and a mismatch is `NoMatch` |
| SqlTokenizer.TakeWhile | src/sql/tokenizer.rs:29-50 | `take_while` never fails; it keeps the maximal accepted run and also consumes the first rejected character when there is one |
| SqlTokenizer.ScanWhitespace | src/sql/tokenizer.rs:246-257 | the as-written `whitespace` always matches, consuming the leading whitespace run plus one more character when one follows |
| SqlTokenizer.ScanPunctuation | src/sql/tokenizer.rs:291-329 | the `,` `=` `;` alternatives of `special` match exactly those characters and consume one |
| SqlTokenizer.ScanComparison | src/sql/tokenizer.rs:330-381 | the comparison alternatives match exactly at `>` or `<`, taking two characters for `>=` and `<=` and one otherwise |
| SqlTokenizer.ScanSpecial | src/sql/tokenizer.rs:290-383 | `special` matches exactly at `, = ; > <`, the two-character operators winning over their one-character prefixes; the token describes the consumed text |
| SqlTokenizer.ScanString | src/sql/tokenizer.rs:417-447 | a double-quoted literal matches exactly when the input starts with `"` that is closed later, and its text is exactly what lies between the quotes |
| SqlTokenizer.Next | src/sql/tokenizer.rs:105-162 | as written, every loop iteration yields a whitespace token over a non-empty prefix |
| SqlTokenizer.Run | src/sql/tokenizer.rs:105-162 | as written, a run covers the whole rest of the input with whitespace tokens only |
| SqlTokenizer.Tokenize | src/sql/tokenizer.rs:105-162 | as written, `parse` never aborts or stops early and every token it returns is whitespace; together they tile the input |
| SqlTokenizer.KeywordTestFailsAsWritten | src/sql/tokenizer.rs:496-521 | as written, `parse` does not return the stream `test_tokenize_keyword` expects for `SELECT INSERT` |
| SqlTokenizer.NextCorrected | src/sql/tokenizer.rs:258-287 | with the maximal-run whitespace, one iteration consumes a prefix its token describes, whitespace exactly at whitespace and never followed by more |
| SqlTokenizer.RunCorrected | src/sql/tokenizer.rs:105-162 | the corrected run's tokens tile the input from its start; it panics only with the number message and only if some iteration from its start on aborts |
| SqlTokenizer.RunCorrectedPanicsIff | src/sql/tokenizer.rs:105-162 | a corrected run panics exactly when the loop, taking token after token, gets to a position where the iteration aborts on an overflowing number |
| SqlTokenizer.RunCorrectedStops | src/sql/tokenizer.rs:147-158 | a corrected run that returns stops at the end or where every recogniser declines (`dbg!` then `break`) |
| SqlTokenizer.RunCorrectedDescribes | src/sql/tokenizer.rs:105-162 | each token of a corrected run describes the text under its span |
| SqlTokenizer.RunCorrectedNoAdjacentWhitespace | src/sql/tokenizer.rs:105-162 | a corrected run never emits two whitespace tokens in a row |
| SqlTokenizer.TokenizeCorrected | src/sql/tokenizer.rs:105-162 | corrected `parse` tiles the input up to the first unrecognised position, each token describing its text, no two whitespace tokens adjacent; it aborts with the number message exactly when the loop gets to an iteration that aborts |
| SqlTokenizer.CorrectedSpansContiguous | src/sql/tokenizer.rs:105-162 | the corrected `parse` hands out spans that follow its running offset: the first starts at 0, each starts where the previous ended, none reaches past the input |
| TokenizerExamples.LegacyTakesWhitespace | src/tokenizer.rs:55-60 | the first generation tries whitespace first, so a whitespace character always starts a whitespace token |
| TokenizerExamples.LegacyDeclinesWord | src/tokenizer.rs:55-95 | at a letter every recogniser before the keyword one declines, so the keyword recogniser decides |
| TokenizerExamples.LegacyIdentifierTest | src/tokenizer.rs:335-358 | `Select   'id'` tokenizes to `Select` 0-6, whitespace 6-9 and identifier `id` 9-13, as `test_tokenize_iden` expects |
| TokenizerExamples.LegacyRunOfSteps | src/tokenizer.rs:49-98 | the loop returns exactly the tokens its successive iterations take, when the last one declines or the input ends |
| TokenizerExamples.CorrectedRunOfSteps | src/sql/tokenizer.rs:105-162 | the corrected loop returns exactly the tokens its successive iterations take, when the last one declines or the input ends |
| TokenizerExamples.SelectFromUsersEndToEnd | src/parser.rs:100-160 | both tokenizers turn `SELECT FROM users` into `SELECT` 0-6, a space 6-7, `FROM` 7-11 and a space 11-12, stopping at the unquoted `users`; on those tokens both parsers loop forever |
| TokenizerExamples.CorrectedKeywordTest | src/sql/tokenizer.rs:496-521 | with the maximal-run whitespace, `SELECT INSERT` tokenizes to `Select` 0-6, whitespace 6-7 and `Insert` 7-13, as `test_tokenize_keyword` expects |
| Grammar.KeywordFirst | src/parser.rs:75-98 | `select_keyword`/`from_keyword` succeed exactly when the very first token is the keyword, consuming only it |
| Grammar.TableName | src/sql/parser.rs:140-166 | `table_name` skips at most one whitespace token, succeeds exactly on an identifier, returns its name and drops at most one whitespace token after it |
| Grammar.ListLoop | src/sql/parser.rs:267-309 | the comma-list loop, when it ends, leaves a suffix of the slice that is empty or starts with a token that is neither whitespace nor a comma |
| Grammar.ListLoopConsumes | src/sql/parser.rs:267-309 | tokens whose non-whitespace kinds alternate items and commas are consumed without stopping, collecting exactly their items |
| Grammar.ListLoopEndsIff | src/sql/parser.rs:267-309 | the loop ends with rest `r` and items `xs` exactly when the tokens before `r` alternate items and commas, `xs` are their items, and `r` starts where no item is expected |
| Grammar.ListLoopStuckIff | src/sql/parser.rs:267-309 | the loop never ends exactly when, after an alternating prefix that expects an item, it meets a token that is neither whitespace nor an item |
| Grammar.ListLoopEmptyIff | src/sql/parser.rs:267-313 | the loop ends with nothing collected exactly when the slice holds only whitespace |
| Grammar.ListLoopStuckAtStart | src/sql/parser.rs:267-309 | when the first non-whitespace token is not an item, the loop never ends |
| Grammar.ListedAlternates | src/sql/parser.rs:267-309 | items written with separating commas alternate, give the items back, and leave no item expected at the end |
| Grammar.Columns | src/parser.rs:100-160 | `columns` yields a non-empty name list and leaves a suffix that is empty or starts with a token that is neither whitespace nor a comma |
| Grammar.ColumnsReadsList | src/parser.rs:100-160 | identifiers written as a comma list with any whitespace in between read back as the same names, leaving the following token |
| Grammar.ColumnsAcceptsDanglingComma | src/parser.rs:100-160 | a comma after the last identifier at the end of the slice is accepted |
| Grammar.ColumnsNoMatchIff | src/parser.rs:105-151 | `columns` is `NoMatch` exactly when the slice holds only whitespace |
| Grammar.ColumnsDivergesIff | src/parser.rs:105-147 | `columns` never returns exactly when, where a column is expected, a token is neither whitespace nor an identifier |
| LegacyParser.SelectStatementOf | src/parser.rs:39-51 | a statement is read only after a leading `SELECT` and has at least one column; it never returns only when the column loop never does |
| LegacyParser.Parse | src/parser.rs:31-37 | `parse` succeeds or hangs only on a slice starting with `SELECT` |
| LegacyParser.OnlySelect | src/parser.rs:31-51 | any slice not starting with `SELECT` is `NoMatch` |
| LegacyParser.SelectRoundTrip | src/parser.rs:31-160 | `SELECT`, a comma list of identifiers with any whitespace, `FROM`, an optional whitespace token and a table identifier parse to those columns of that table, whatever follows |
| LegacyParser.SecondGenerationAgrees | src/parser.rs:39-51 | the first and second generations' `select_statement` agree on every slice: same outcome, same table, same columns as alias-free selections |
| LegacyParser.SelectFromUsersHangs | src/parser.rs:100-160 | the tokens of `SELECT FROM users` (`SELECT`, a space, `FROM`, a space; the tokenizer stops at the unquoted `users`) make `parse` loop forever |
| SqlParser.KeywordAfterSpace | src/sql/parser.rs:52-116 | `insert_keyword`, `into_keyword` and `values_keyword` skip at most one whitespace token and succeed exactly when the keyword follows |
| SqlParser.Values | src/sql/parser.rs:192-260 | `values` yields a non-empty literal list and leaves a suffix that is empty or starts with a token that is neither whitespace nor a comma |
| SqlParser.SelectStatement | src/sql/parser.rs:118-138 | a `SELECT` statement needs `SELECT` as first token, has at least one selection and no condition or pagination; it hangs only when the column loop does |
| SqlParser.InsertStatement | src/sql/parser.rs:35-50 | an `INSERT` statement needs `INSERT` after at most one whitespace token, has no column list and at least one value |
| SqlParser.Parse | src/sql/parser.rs:21-33 | `parse` yields a select only on a slice starting with `SELECT`, and an insert only when that is no select and `INSERT` leads |
| SqlParser.TableNameReads | src/sql/parser.rs:140-166 | an identifier after an optional whitespace token is read as the table name |
| SqlParser.ParseFallsToInsert | src/sql/parser.rs:21-33 | when no `SELECT` statement matches, `parse` reports exactly what `insert_statement` finds |
| SqlParser.SelectRoundTrip | src/sql/parser.rs:118-138 | `SELECT`, a comma list of identifiers with any whitespace, `FROM`, an optional gap and a table identifier parse to alias-free selections of those columns from that table |
| SqlParser.SelectWithoutColumnsHangs | src/sql/parser.rs:262-322 | `SELECT` followed by a non-whitespace token that is not an identifier makes `parse` loop forever |
| SqlParser.SelectFromUsersHangs | src/sql/parser.rs:262-322 | the tokens of `SELECT FROM users` (`SELECT`, a space, `FROM`, a space; the tokenizer stops at the unquoted `users`) make `parse` loop forever |
| SqlParser.InsertHead | src/sql/parser.rs:35-50 | `INSERT`, `INTO` and a table identifier, each after an optional gap, hand `parse` over to `VALUES` and the value list |
| SqlParser.InsertRoundTrip | src/sql/parser.rs:35-50 | `INSERT INTO t VALUES` with literals written as a comma list, keywords after optional gaps, parse to an insert of exactly those values into `t` with no column list |
| SqlParser.ValuesReadsList | src/sql/parser.rs:192-260 | literals written as a comma list with any whitespace read back as the same values |
| SqlParser.ValuesNoMatchIff | src/sql/parser.rs:197-257 | `values` is `NoMatch` exactly when only whitespace follows |
| SqlParser.ValuesHangIff | src/sql/parser.rs:197-253 | `values` never returns exactly when, where a value is expected, a token is neither whitespace nor a literal |
| SqlParser.InsertWithoutValuesFails | src/sql/parser.rs:35-50 | an `INSERT` statement with nothing but whitespace after `VALUES` makes `parse` fail with `NoMatch` |
| Schema.ColumnSize | src/schema.rs:125-132 | `Column::size`: an integer column takes 4 bytes and a text column its declared length; `Schema.Size` and `Schema.Offset` sum these values |
| Schema.Size | src/schema.rs:87-89 | a row is at least as large as each of its columns |
| Schema.SizeOfAppend | src/schema.rs:87-89 | the size of columns laid back to back is additive over concatenation |
| Schema.ColumnWithin | src/schema.rs:72-89 | a column starting after the columns before it ends within the row |
| Schema.Offset | src/schema.rs:72-85 | `offset` is `None` exactly when no column has the name; otherwise it is the total size of the columns before the first one that does |
| Schema.OffsetWithinSize | src/schema.rs:72-89 | a present column's offset plus its size stays within the row size |
| Schema.EveryColumnHasOffset | src/schema.rs:72-85 | every column's name has an offset, that of its first occurrence when names repeat |
| Schema.GetTableSchema | src/schema.rs:44-46 | a layout is found exactly for a registered name, and it is the registered one |
| Schema.AddTable | src/schema.rs:40-42 | adding a table registers exactly one more name, or none when it was there |
| Schema.GetAfterAdd | src/schema.rs:40-46 | after adding, the name maps to the new layout, replacing any earlier one, and every other name keeps its layout |
| Schema.ListTables | src/schema.rs:48-50 | the listed names are exactly the registered names, each once |
| Tables.NewRow | src/table.rs:33-58 | `Row::new` panics exactly when a text exceeds 128 bytes, the username checked first; otherwise the id is kept and each text sits at the front of a zero-filled 128-byte buffer |
| Tables.NewRowRoundTrip | src/table.rs:33-58 | text that fits builds a row, and text without a zero byte is recovered by reading its buffer up to the first zero |
| Tables.NewTable | src/table.rs:8-10 | a new table holds no rows |
| Tables.Insert | src/table.rs:12-14 | `insert` appends the row at the end and leaves the earlier rows unchanged |
| Tables.InsertAllAppends | src/table.rs:12-14 | inserting a series of rows appends exactly those rows in order |
| Tables.FromEmpty | src/table.rs:3-14 | a new table after a series of inserts holds exactly those rows in insertion order |
| Paging.Open | src/pager.rs:45-71 | opening an existing file for reading and writing keeps its bytes, can read them back, and starts with every cache slot empty |
| Paging.CreateAsWritten | src/pager.rs:53-62 | as written, a missing file is created with 100 zeroed pages of 4096 bytes and every cache slot empty, through a handle that cannot read |
| Paging.Create | src/pager.rs:53-62 | corrected: the same zeroed file and empty slots, through a handle that can read (the as-written creation with only that changed) |
| Paging.Load | src/pager.rs:84-100 | reading page `i` succeeds exactly when the handle can read and the file holds the whole page; the page becomes a fresh shared object in slot `i` holding the file's bytes there; a write-only handle panics with the operating system's "Bad file descriptor", a short file as `read_exact` does |
| Paging.CreatedPagerCannotRead | src/pager.rs:53-62 | every `get_page` below 100 on a pager that created its file panics at `read_exact`, while the corrected creation reads every such page |
| Paging.GetPageAsWritten | src/pager.rs:73-101 | as written, "Index too large" exactly for indices above 100; index 100 still panics, but elsewhere; a cached page comes back unchanged; an uncached page panics exactly when the handle cannot read or the file is too short, and otherwise is read into its slot |
| Paging.GuardAdmitsOnePastEnd | src/pager.rs:73-101 | as written, `get_page(100)` passes the index guard and then panics elsewhere, not with "Index too large" |
| Paging.GetPage | src/pager.rs:73-101 | with the corrected guard, an index without a slot panics "Index too large"; a cached page is returned as is; an uncached one is read into its slot, changing nothing else |
| Paging.GetPageAgreesBelowMax | src/pager.rs:74-76 | below 100 the corrected guard behaves exactly as written |
| Paging.Store | src/pager.rs:32-36 | writing through a handle changes that page object only, leaving the file and the slots alone |
| Paging.FlushUpTo | src/pager.rs:104-121 | after the loop has visited the first `n` slots, the pages of those slots hold their written-back bytes and the rest of the file is unchanged |
| Paging.Flush | src/pager.rs:103-124 | `flush` writes every cached page at its place in the file, leaves every other byte and the cache untouched, and keeps the file's length |
| Paging.FlushIdempotent | src/pager.rs:103-124 | a second flush with no write in between changes nothing |
| Paging.FlushWritesPage | src/pager.rs:103-124 | after a flush, the file's page at a cached slot is exactly that slot's page object |
| Paging.WriteVisibleThroughAlias | src/pager.rs:73-124 | two `get_page(i)` calls return the same shared page, so a write through the first is seen by the second and reaches the file on `flush` |

## Left out

- `src/main.rs`, the REPL and the command dispatch: console I/O outside the core.
- `DatabaseSchema::load`/`save` and `TableSchema::load`: JSON serialisation and file I/O through serde.
- The `Display` and `Debug` impls: output formatting only.
- Real file I/O and locking. The file is a byte sequence. Each `Arc<Mutex<Page>>` is a handle into a heap of page contents, and locking is not modelled.
- `Paging.Open`: `Pager::new` on a file that exists keeps its bytes. Any error other than `NotFound` panics with "idk", and `unwrap` on failed writes aborts. Both come from the operating system and are not modelled.
- Offsets converted to `u64` (`expect("Cant convert offset")`): they cannot fail for offsets below 100 pages.
- The on-disk row codec (serialising a `Row` into a page): no such code exists in the modelled files.
- `Iterator::next` for the second-generation `Tokenizer`: its body is `todo!()`.
- The `Delete`, `Update`, `WHERE` and pagination variants of the statement tree: nothing builds them. They are declared in `SqlAst` as data only.
- The `Tokenizer::parse` members `dbg!` their last error before `break`: the model keeps the error value but not the debug output.
- Non-ASCII input: `Tokenize` and `TokenizeCorrected` require ASCII. The recognisers slice one byte per character, which panics inside a multi-byte UTF-8 character, and that byte-level panic is not modelled.
- Schema.Size: the `usize` sum of column sizes may overflow in Rust; sizes here are unbounded naturals.
- Schema.Offset: accumulates the same `usize` sum of column sizes (src/schema.rs:72-85), which may overflow in Rust; offsets here are unbounded naturals.
- Schema.ListTables: `HashMap` iteration order is unspecified; the contract states only the set of names and that each appears once.
- The first generation's `Keyword::Values`: declared, but its tokenizer never tries it.

## Findings

| source | as written | input that shows it | evidently intended | confidence | as-written member | corrected member |
|---|---|---|---|---|---|---|
| src/sql/tokenizer.rs:29-50 | `take_while` advances past each character before testing it, so it also consumes the first rejected character and never fails; `whitespace` (246-257) therefore matches everywhere and `parse` returns only whitespace tokens | `SELECT INSERT` from `test_tokenize_keyword` (496-521): the first token is a whitespace token spanning `S` | the maximal whitespace run, declined at a non-whitespace character, as the commented-out `whitespace` body (258-287) and `test_tokenize_keyword` expect | not executed | SqlTokenizer.KeywordTestFailsAsWritten | TokenizerExamples.CorrectedKeywordTest |
| src/pager.rs:53-62 | a missing file is created with `File::create`, which opens it for writing only, and the pager keeps that handle; the first `get_page` of any uncached page then fails at `read_exact(..).unwrap()` (line 92) | `Pager::new` on a path that does not exist, then `get_page(0)`: panics with "Bad file descriptor" | create the file through a handle opened for reading as well as writing, as the existing-file branch does | not executed | Paging.CreatedPagerCannotRead | Paging.Create |
| src/pager.rs:74-76 | the guard panics only when `page_index > MAX_PAGES` | `get_page(100)`: the guard passes, then `read_exact` fails or `self.pages[100]` is out of bounds | reject every index without a slot (`>= MAX_PAGES`) with "Index too large" | not executed | Paging.GuardAdmitsOnePastEnd | Paging.GetPage |
