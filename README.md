# Banco de Galicia import — a Dafny model

This project models the Banco de Galicia import adapter of a personal-finance
ledger (`BancoDeGaliciaImport`, a subclass of the generic `Import`). The bank's
CSV export starts with five metadata lines. Its money sits in two columns,
`Débito` and `Crédito`, and its descriptions span several lines. The adapter:

- drops the preamble and parses the rest with `;` as separator, memoising the parse (`csv_rows`);
- collapses the debit/credit pair into one signed amount string. In the ledger a positive amount is an outflow and a negative one an inflow;
- cleans the `Movimiento` description to one line, falling back to the default row name;
- replaces the staged rows as a whole (`generate_rows_from_csv`);
- commits one ledger entry per staged row (`import!`), to the fixed account when one is set;
- configures itself on creation (`set_mappings`), with the mapping steps and column keys depending on whether an account is fixed.

Files:

- `wrappers.dfy` — `Option`, standing for Ruby's nil.
- `text.dfy` — module `Text`:
  - `String#lines` (`Lines`, `Concat`), `lines.drop(k).join` (`DropLines`, and `StripPreamble` for k = 5) and a character-level reference for it (`SkipLines`);
  - `gsub(/\s+/, " ")` (`CollapseSpaces`) with an independent character-by-character reading of it (`Squeeze`), `strip` (`StripLeft`, `StripRight`, `Strip`), the description cleaning (`Clean`), the characters `strip` keeps (`Visible`) and Rails' `blank?` (`IsBlank`).
- `amount.dfy` — module `Amount`:
  - the literal presence test (`Present`) and the debit/credit collapse (`CombineDebitCredit`);
  - the string sign toggle (`ToggleSign`);
  - a decimal-numeral semantics (`IsDecimal`, `Value`) that gives the amount strings a meaning;
  - a reference sanitizer for the `1.234,56` format (`SanitizeDotComma`).
- `galicia_import.dfy` — module `BancoDeGalicia`:
  - the staged-row hash (`BuildRow`, with `Description` and `RowName`) and the staging of all CSV rows (`StageAll`);
  - the entry built for a staged row (`EntryAccount`, `ResolveTags`, `BuildEntry`) and for all of them (`AllAccountsResolve`, `Entries`);
  - the class `BancoDeGaliciaImport`, whose fields are the import's attributes (the six `*_col_label` attributes the staged rows are read through are one `ColumnLabels` record), the `@csv_rows` memo, the staged rows and the entries;
  - two client methods: staging twice, and create → load → stage → publish to a fixed account.

Collaborators that live outside this file are parameters: the CSV parser, `sanitize_number`, the mapping lookups, the generic row's readers (`tags_list`, `date_iso`, `signed_amount`), and the default currency and row name.

Where the code and the design intent differ, the model follows the code:

- A debit is not always turned into a positive outflow. The code toggles the sign string, so a positive debit (as in the CSV template, `13.900,00`) becomes `"-13900.00"`.
- "Present" is a literal test: a non-blank string other than `"0,00"`. So `"0"` is present.
- A credit is prefixed with `-` unconditionally. A negative credit therefore gives a string starting with `"--"`, which is not a numeral.
- A text with five lines or fewer is not an error: the parser simply receives `""`.
- Tags are staged as the raw column text (`to_s`); splitting them is the generic row's `tags_list`.
- Updating `raw_file_str` does not clear the memo, so a later `csv_rows` on the same object returns the earlier parse. The model keeps this.

## Model

| member | source | states |
|---|---|---|
| `Text.ConcatLines` | app/models/banco_de_galicia_import.rb:16 | Re-joining the lines of a text gives the text back. |
| `Text.LinesShape` | app/models/banco_de_galicia_import.rb:16 | Every line is non-empty with a newline only at its end; every line but the last ends with a newline. |
| `Text.DropLinesIsSkipLines` | app/models/banco_de_galicia_import.rb:16-17 | `lines.drop(k).join` equals skipping everything up to and including the k-th newline, character by character. |
| `Text.LinesOfDropLines` | app/models/banco_de_galicia_import.rb:16-17 | The text after dropping k lines splits into exactly the remaining lines. |
| `Text.DropLinesSplit` | app/models/banco_de_galicia_import.rb:16-17 | The text is its first min(k, #lines) lines followed by what is kept. |
| `Text.PreambleDropped` | app/models/banco_de_galicia_import.rb:16-17 | The parser's input has exactly the first min(5, #lines) lines removed. It is a suffix of the raw text and is empty iff the raw text has at most 5 lines. |
| `Text.StripLeft` | app/models/banco_de_galicia_import.rb:49 | `lstrip` removes exactly the leading whitespace/NUL run. |
| `Text.StripRight` | app/models/banco_de_galicia_import.rb:49 | `rstrip` removes exactly the trailing whitespace/NUL run. |
| `Text.CollapseSpaces` | app/models/banco_de_galicia_import.rb:49 | After `gsub(/\s+/, " ")`, every `\s` is one plain space not followed by another. Empty iff the input is empty. The first character is kept, or becomes a space. |
| `Text.CollapseIsSqueeze` | app/models/banco_de_galicia_import.rb:49 | On every input, collapsing equals the character-by-character reading: a non-`\s` is kept, the first `\s` of a run becomes one space, the rest of the run is dropped. |
| `Text.CollapseRun` | app/models/banco_de_galicia_import.rb:49 | A whole run of `\s` between `a` and `b` becomes exactly one space in its place: collapsing `a + run + b` is collapsing `a`, a space, and collapsing `b`. |
| `Text.CollapseNoSpace` | app/models/banco_de_galicia_import.rb:49 | Text without `\s` is left unchanged. |
| `Text.VisibleCollapse` | app/models/banco_de_galicia_import.rb:49 | Collapsing keeps every non-whitespace character, in order. |
| `Text.CleanShape` | app/models/banco_de_galicia_import.rb:49 | The cleaned description is the stripped character-by-character collapse of the input. It has no LF or CR, no two consecutive `\s` characters and no `\s` or NUL at either edge. It keeps every visible character in order. |
| `Text.CleanJoinsWords` | app/models/banco_de_galicia_import.rb:49 | Two words separated by any run of `\s`, such as a line break plus indentation, clean to the two words joined by one space. |
| `Text.CleanEmpty` | app/models/banco_de_galicia_import.rb:49 | The cleaned description is empty iff the input held only `\s` characters and NULs. |
| `Text.CleanIdempotent` | app/models/banco_de_galicia_import.rb:49 | Cleaning twice equals cleaning once. |
| `Amount.ToggleSignNegates` | app/models/banco_de_galicia_import.rb:43 | Toggling the sign of a decimal numeral gives a numeral that denotes the negated number. |
| `Amount.ToggleSignInvolution` | app/models/banco_de_galicia_import.rb:43 | Toggling twice returns the string iff it does not start with `--`. |
| `Amount.CreditTakesPrecedence` | app/models/banco_de_galicia_import.rb:37-38 | A present credit gives `"-" + sanitize(credit)` whatever the debit holds. That is the negated, non-positive number for an unsigned credit, and a `--` non-numeral for a negative one. |
| `Amount.DebitSignToggled` | app/models/banco_de_galicia_import.rb:39-43 | With no present credit, a present debit gives its sanitized value with the sign toggled. When the sanitized debit is a decimal numeral, the result denotes the negated number. |
| `Amount.ZeroWhenNeitherPresent` | app/models/banco_de_galicia_import.rb:44-45 | With neither column present the amount is exactly `"0"`, the numeral for zero. |
| `Amount.PresenceExamples` | app/models/banco_de_galicia_import.rb:37-39 | `"0"`, `"0,0"` and `"13.900,00"` are present. nil, `""`, blank and `"0,00"` are not. |
| `Amount.SanitizeDotCommaMatchesTests` | test/models/banco_de_galicia_import_test.rb:98-120 | The reference `1.234,56` sanitizer maps the tested inputs to `-13900.00`, `287756.65`, `-1465950.00` and `-9000.00`. |
| `Amount.TestAmounts` | test/models/banco_de_galicia_import_test.rb:50-61 | For any sanitizer meeting the tested pairs, the tests' rows give `13900.00`, `-287756.65`, `1465950.00` and `9000.00`. |
| `Amount.TemplateDebitTurnsNegative` | app/models/banco_de_galicia_import.rb:111-115 | For any sanitizer that reads `13.900,00` as `13900.00`, the template's positive debit gives `-13900.00`. |
| `Amount.SanitizeTemplateSample` | app/models/banco_de_galicia_import.rb:111-115 | The reference `1.234,56` sanitizer reads the template's `13.900,00` as `13900.00`. |
| `BancoDeGalicia.StageOne` | app/models/banco_de_galicia_import.rb:27-61 | One CSV row stages to exactly the hash built from it. |
| `BancoDeGalicia.StageAllAppend` | app/models/banco_de_galicia_import.rb:27-61 | Staging a concatenation of CSV rows is staging each part, in order. |
| `BancoDeGalicia.MissingColumns` | app/models/banco_de_galicia_import.rb:51-60 | Unconfigured or absent columns read as `""`. The currency falls back to the default unless its column is configured and present. For account, date, category, tags and notes, a configured column present in the row is copied verbatim. |
| `BancoDeGalicia.RowNameShape` | app/models/banco_de_galicia_import.rb:49-56 | The name is the cleaned description, or the default name when that is blank. A non-default name is non-empty, has no LF, is single-spaced in `\s`, and has no `\s` or NUL at either edge. The name is never empty when the default is not. |
| `BancoDeGalicia.AmountFromDebitAndCredit` | app/models/banco_de_galicia_import.rb:31-46 | The amount depends only on the `Débito` and `Crédito` columns, not on the configuration or defaults. |
| `BancoDeGalicia.TestDebitRowStaged` | test/models/banco_de_galicia_import_test.rb:50-55 | The tests' debit row stages with date `06/10/2025`, amount `13900.00`, currency `USD`, and empty account and notes. |
| `BancoDeGalicia.TestCreditRowStaged` | test/models/banco_de_galicia_import_test.rb:57-61 | The tests' credit row stages with date `03/10/2025`, amount `-287756.65` and currency `USD`. |
| `BancoDeGalicia.ResolveTags` | app/models/banco_de_galicia_import.rb:78 | There are exactly as many resolved tags as labels with a tag mapping, counted with repetition, and so at most as many as labels. |
| `BancoDeGalicia.ResolveTagsMembers` | app/models/banco_de_galicia_import.rb:78 | A tag is resolved iff some label maps to it. All labels mapped keeps the count; none mapped gives no tags. |
| `BancoDeGalicia.ResolveTagsOne` | app/models/banco_de_galicia_import.rb:78 | One label gives its tag, or nothing when it is unmapped. |
| `BancoDeGalicia.ResolveTagsAppend` | app/models/banco_de_galicia_import.rb:78 | Resolving a concatenation of labels is resolving each part, in order. |
| `BancoDeGalicia.EntryAccounts` | app/models/banco_de_galicia_import.rb:70-89 | With a fixed account every row resolves and every entry goes to it. Without one, rows resolve iff every account label is mapped, and each entry goes to its row's mapping. Name, currency, notes and amount come from the row. |
| `BancoDeGalicia.BancoDeGaliciaImport.constructor` | app/models/banco_de_galicia_import.rb:1-2 | A new import has no raw text, memo, rows or entries, and carries the configuration `set_mappings` gives it on creation. |
| `BancoDeGalicia.BancoDeGaliciaImport.SetMappings` | app/models/banco_de_galicia_import.rb:122-136 | It sets `inflows_negative`, `;`, `1.234,56`, `%d/%m/%Y`, `Fecha`, `Movimiento`, `amount`, nil currency, nil category and tags, and `Comentarios`. The account column becomes `account` only without a fixed account. |
| `BancoDeGalicia.BancoDeGaliciaImport.CsvRows` | app/models/banco_de_galicia_import.rb:5-22 | The first call parses the preamble-stripped raw text with `;` and memoises it. Later calls return the memo. The memo always equals the parse of the text it came from. |
| `BancoDeGalicia.BancoDeGaliciaImport.GenerateRowsFromCsv` | app/models/banco_de_galicia_import.rb:24-64 | Afterwards the staged rows are exactly the row-wise staging of the memoised CSV rows: no earlier row remains, and the memo is reused if present. |
| `BancoDeGalicia.BancoDeGaliciaImport.Import` | app/models/banco_de_galicia_import.rb:66-92 | Succeeds iff every row's account resolves. Then one entry per staged row is appended in order; otherwise no entry is added. |
| `BancoDeGalicia.BancoDeGaliciaImport.MappingSteps` | app/models/banco_de_galicia_import.rb:94-98 | Category then tag, with account appended last iff no account is fixed. |
| `BancoDeGalicia.BancoDeGaliciaImport.ColumnKeys` | app/models/banco_de_galicia_import.rb:104-109 | Date then name, with account prepended iff no account is fixed. |
| `BancoDeGalicia.RequiredKeysAreColumnKeys` | app/models/banco_de_galicia_import.rb:100-109 | Every required column key is one of the column keys. |
| `BancoDeGalicia.AccountStepAgreesWithColumns` | app/models/banco_de_galicia_import.rb:71-109 | The account mapping step exists iff the account column key does, iff `import!` reads the row's account mapping rather than the fixed account. |
| `BancoDeGalicia.StageTwice` | app/models/banco_de_galicia_import.rb:6-27 | Staging twice on an unchanged import gives the same rows: one per memoised CSV row. |
| `BancoDeGalicia.PublishToFixedAccount` | test/models/banco_de_galicia_import_test.rb:64-96 | Create with a fixed account, load, stage and publish always succeed. The result is one entry per staged row, all on that account. |

## Left out

- CSV parsing (`parse_csv_str`) belongs to the generic import and to Ruby's CSV library: quoted and multi-line fields (RFC 4180 section 2). It is an abstract function from text and separator to rows. A row with more fields than the header has labels is not modelled. The parser keys such extra fields under nil, so `row[nil]` would read them; here a nil label always reads as nil.
- `sanitize_number` lives in the generic `Import` class, which is not part of this model. It is a parameter fixed at construction. `number_format`, which the real one reads, stays `1.234,56` after `set_mappings` in every modelled operation, as do `signage_convention` (read by `signed_amount`), `col_sep` and `date_format`; the model records these attributes but never reads them. `Amount.SanitizeDotComma` is a reference for the `1.234,56` format. It shows the sanitizer assumptions satisfiable. The example lemmas hold for any sanitizer that maps the pinned inputs as the reference does.
- ActiveRecord: `destroy_all`, `insert_all!`, `save!`, `reload`, `after_create` and the database `transaction`. Staged rows and entries are sequence fields. The only rollback modelled is the one a missing account causes; entry validation failures in `save!` are not modelled.
- `mappings.each(&:create_mappable!)` creates entities through mapping classes that are not part of this model. The mappings after creation are given as lookup functions.
- `row.tags_list`, `row.date_iso`, `row.signed_amount`, `default_currency` and `default_row_name` belong to classes that are not part of this model. They are parameters.
- The entry's back-reference to the import (`import: self`): entries are kept in the import's own `entries` field instead.
- Attribute values before `set_mappings` runs are taken to be nil.
- `csv_template` is sample data only; only its positive debit is used, by `Amount.TemplateDebitTurnsNegative`.
- Date parsing and the tests' floating-point `to_f` comparisons: amounts stay strings, and their meaning is given by exact decimal `Value`.
- The multi-line descriptions of the tests are not cleaned as concrete strings (the tests check only `include?`). `Text.CleanJoinsWords` states the pattern they rely on: two words split by a line break and indentation become the two words joined by one space. `Text.CleanShape` and `BancoDeGalicia.RowNameShape` state the general shape.
- Unicode spaces and separators (U+00A0, U+0085, U+2028 and the like) are not `\s` and not stripped, as in Ruby: they survive `gsub(/\s+/, " ")` and `strip`, so a cleaned description may still contain or start with them. Only `blank?` treats them as whitespace, so they give the default name only when the description holds nothing else.
- `strip` is modelled as removing ASCII whitespace and NUL from both ends, as current Ruby does; older Ruby versions differ on a leading NUL.
- A parser that raises: `generate_rows_from_csv` destroys the staged rows before `csv_rows` runs. If the parser raised there, the rows would be gone, no memo would be set and the error would propagate. The parser here is a total function, so this path is not modelled.
