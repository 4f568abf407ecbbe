# Personal-data import formatter: table normalisation

This project models, in Dafny, the normalisation step of a Streamlit tool.
The tool turns an arbitrary table of people or organisations into a
fixed-schema table for bulk import. The step is implemented in `app.py` and has four parts:

- **Document cleaner** (`clean_document`). It removes every non-digit from a CPF/CNPJ cell.
  It classifies 11 digits as `"F"` (person), 14 digits as `"J"` (company) and
  anything else as `""`. Digits of other lengths are kept.
- **Column resolver** (`map_source_columns`). For each canonical field of `COLUMN_MAPPINGS`,
  in declared order, it takes the first source header whose lower-cased text
  contains one of the field's lower-cased synonyms. A field with no match
  gets a column of empty strings. Headers are not consumed, so one header can feed several fields.
- **Record assembler** (body of `process_data`). It splits the cleaned
  document column into `cpf` and `tipo_pessoa`. It then projects the columns onto
  `TARGET_COLUMNS`, with `""` for the targets no field feeds (`codigo`,
  `complemento`, `observacoes`).
- **Deduplicator** (`drop_duplicates(subset=['cpf'], keep='first')`). It keeps the
  first row for each distinct `cpf` value in the original order. All rows
  with an empty `cpf` collapse into one.

Modules, one per component:

- `Text`: the digit class, Python whitespace, `lower`, the substring test.
- `Frames`: the source table, with rows of optional text cells, `astype(str)`, and columns.
- `Documents`: `clean_document`.
- `Columns`: the two constants and `map_source_columns`.
- `Dedup`: `drop_duplicates`.
- `Pipeline`: `process_data` from its emptiness check to the returned frame.

`map_source_columns` is a nested loop. It is modelled as the method `Columns.MapSourceColumns`, proved equal to the function `Columns.Resolved`.
The deduplication is a single library call, `drop_duplicates(subset=['cpf'], keep='first')`. It is modelled as a loop over the rows with a set of seen keys (`Dedup.DropDuplicates`), proved equal to the function `Dedup.Deduplicated`.
The dictionary that `process_data` overwrites in place is a local `map` that the method `ProcessData` reassigns.

The code does none of the following, so the model does not either:

- The code strips no accents and cleans no sentinel values.
  So the header "Razão Social" does not match the synonym `razao social` (`Columns.AccentedHeaderUnmatched`).
- The code reconstructs no names.
- The code does not truncate `uf`.
- The code has no trade-name rule for companies.
- The code does not pick the most complete record. Deduplication keeps the first record.

## Model

| member | source | states |
|---|---|---|
| `Text.IsDigit` | app.py:41 | the characters `\D` does not match: the ASCII digits `0`-`9` (the Unicode digits Python adds are listed under Left out) |
| `Text.Digits` | app.py:41 | `re.sub(r'\D', '', s)`: the result is no longer than the input and holds only digits |
| `Text.DigitsCount` | app.py:41 | every digit of the input occurs in the result as often as in the input, and no non-digit occurs |
| `Text.DigitsOfConcat` | app.py:41 | filtering distributes over concatenation, so the digits keep their original order |
| `Text.DigitsOfDigitString` | app.py:41 | a text made of digits only is returned unchanged |
| `Text.DigitsOfNonDigits` | app.py:41 | a text with no digits becomes empty |
| `Text.DigitsOfBlank` | app.py:38-41 | a whitespace-only text has no digits |
| `Text.DigitsAcrossSeparator` | app.py:41 | a run of digits followed by a separator contributes exactly that run |
| `Text.IsSpace` | app.py:38 | the characters Python's `str.isspace` accepts, which `strip` removes: space, `\t` to `\r`, U+1C to U+1F, U+85, U+A0, U+1680, U+2000 to U+200A, U+2028, U+2029, U+202F, U+205F and U+3000 |
| `Text.StripLeading` | app.py:38 | the leading part of `strip`: a suffix of the text that does not start with whitespace, and everything removed is whitespace |
| `Text.StripTrailing` | app.py:38 | the trailing part of `strip`: a prefix of the text that does not end with whitespace, and everything removed is whitespace |
| `Text.Strip` | app.py:38 | `s.strip()`: the leading-stripped text cut after its last non-whitespace character, so the result neither starts nor ends with whitespace and only whitespace is removed |
| `Text.IsBlank` | app.py:38 | `str(doc).strip() == ""` holds exactly when every character of the text is whitespace |
| `Text.LowerChar` | app.py:78 | `lower` adds 32 to the code of an ASCII or Latin-1 capital and leaves every other character alone; the result is never a capital |
| `Text.Lower` | app.py:78 | `str.lower`, also applied to the target names at app.py line 118, lower-cases each character in place, so the length is kept and no capital is left |
| `Text.LowerIdempotent` | app.py:78 | lower-casing twice gives the same text as lower-casing once |
| `Text.LowerOfLowercase` | app.py:118 | lower-casing a text with no capitals leaves it unchanged |
| `Text.Contains` | app.py:78 | the `in` test on text: the empty needle is always contained, and a contained needle is no longer than the text |
| `Text.ContainsIff` | app.py:78 | the substring scan succeeds exactly when the needle occurs at some position of the text |
| `Frames.AsText` | app.py:79 | `str` of a cell: a present cell is its own text and a missing one is `"nan"`, which `Documents.MissingCellAsText` shows is cleaned like a missing cell |
| `Frames.Column` | app.py:79 | `df[src_col].astype(str)` has one entry per row, the text of that row's cell |
| `Frames.Blank` | app.py:82 | the fallback column has one empty string per row |
| `Documents.CleanDocument` | app.py:36-46 | a missing or blank cell gives `("", "")`; for any present cell the document is the digits of its text; the type is `"F"` exactly for 11 digits, `"J"` exactly for 14, `""` otherwise, and other lengths keep their digits |
| `Documents.CleanDocumentDigitsOnly` | app.py:41 | the returned document holds only digits |
| `Documents.BlankGuardRedundant` | app.py:38-46 | a present cell gives the digits of its text and the type their count gives, exactly as if the blank test at line 38 were absent |
| `Documents.CleanDocumentIdempotent` | app.py:41-46 | cleaning the returned digits again gives the same pair |
| `Documents.MissingCellAsText` | app.py:38-39 | a missing cell and its `astype(str)` text `"nan"` are classified alike |
| `Documents.CpfExample` | app.py:41-43 | `"123.456.789-09"` cleans to `("12345678909", "F")` |
| `Documents.NoDigitsExample` | app.py:41-46 | `"abc"` cleans to `("", "")` |
| `Columns.HeaderMatches` | app.py:78 | a header matches a field exactly when its lower-cased text contains the lower-cased form of some synonym |
| `Columns.SynonymOrderIrrelevant` | app.py:18 | two synonym lists with the same members match the same headers, so reordering the `cpf` synonyms to put `cpf` first changes no match: the scan is header by header, and an earlier `CNPJ` header still wins over a later `CPF` one |
| `Columns.FirstMatch` | app.py:77-80 | the found header matches and no earlier header matches; nothing is found exactly when no header matches |
| `Columns.ResolveColumn` | app.py:77-82 | a field's column has one entry per row |
| `Columns.MapSourceColumns` | app.py:72-83 | the nested loop with `break` and `for…else` builds exactly the dictionary of resolved fields, over any list of mappings |
| `Columns.ResolvedSnoc` | app.py:75-82 | resolving one more mapping adds exactly that field's resolved column to the dictionary |
| `Columns.Resolved` | app.py:74-83 | the dictionary defines every field of the mappings and no other key, each column as long as the table; `Columns.ResolvedLookup` gives each field's column |
| `Columns.ResolvedLookup` | app.py:75-82 | with distinct field names, each field holds the column resolved from its own synonyms |
| `Columns.ColumnMappingsDistinct` | app.py:15-27 | the eleven field names of `COLUMN_MAPPINGS` are distinct |
| `Columns.DocumentKeyAlwaysMapped` | app.py:102-104 | `cpf` is always a key with one entry per row, so the missing-document-column error can never be raised |
| `Columns.ResolveColumnFirstMatch` | app.py:77-80 | a field takes the column of the first header that matches any of its synonyms |
| `Columns.ResolveColumnUnmatched` | app.py:81-82 | when no header matches, every entry of the field's column is empty |
| `Columns.MatchesAt` | app.py:78 | a header matches a synonym list when the first synonym occurs in its lower-cased text |
| `Columns.HeaderFeedsSeveralFields` | app.py:75-80 | a single header "Nome Fantasia" feeds both `razao_social` and `fantasia` |
| `Columns.AbsentCharNotContained` | app.py:78 | a synonym holding a character the header lacks does not match |
| `Columns.AccentedHeaderUnmatched` | app.py:16 | "Razão Social" matches none of the `razao_social` synonyms, because lower-casing folds no accents |
| `Dedup.IsFirst` | app.py:125 | the `keep='first'` test: no earlier row carries the same key |
| `Dedup.Deduplicated` | app.py:123-126 | the kept rows are no more than the input rows, and all have the key column |
| `Dedup.DropDuplicates` | app.py:123-126 | the loop with a growing set of seen keys returns exactly the rows `Deduplicated` keeps |
| `Dedup.DeduplicatedKeepsFirstOccurrences` | app.py:123-126 | the kept rows are exactly the first rows with their key, at strictly increasing positions |
| `Dedup.DeduplicatedKeysDistinct` | app.py:123-126 | no two kept rows share a key |
| `Dedup.DeduplicatedKeepsEveryKey` | app.py:123-126 | every key of the input, the empty one included, is still present |
| `Dedup.FirstWithKey` | app.py:123-126 | every row has a first row with its key, at or before it |
| `Pipeline.CleanDocuments` | app.py:110 | one pair per document cell: the cell's digits, and `"F"` exactly for 11 of them, `"J"` exactly for 14, `""` otherwise |
| `Pipeline.WithDocuments` | app.py:110-114 | the keys gain `tipo_pessoa` and `razao_social`; row `i` of `cpf` and `tipo_pessoa` is `clean_document` of the old `cpf` entry; every other field is unchanged; an absent `razao_social` becomes `"NÃO INFORMADO"` in every row |
| `Pipeline.Numbers` | app.py:111 | the first half of `zip(*documents)`: one entry per pair, its cleaned number |
| `Pipeline.PersonTypes` | app.py:111 | the second half of `zip(*documents)`: one entry per pair, its person type |
| `Pipeline.CellOf` | app.py:118 | `mapped.get(name, [""] * n)[i]`: the entry of row `i` under `name`, or `""` when `name` is not a key; `Pipeline.AssembledCell` states it for every cell |
| `Pipeline.Assemble` | app.py:117-120 | the frame has one row per entry and one cell per target column |
| `Pipeline.Assembled` | app.py:117-120 | `output_df` before deduplication; `Pipeline.AssembledShape` gives one record per input row, each with the 15 target cells |
| `Pipeline.FinalColumns` | app.py:110-114 | after the document split and the name default, every column still has one entry per row |
| `Pipeline.DocumentsAligned` | app.py:110-114 | splitting the document column keeps every column as long as the table |
| `Pipeline.AssembledShape` | app.py:117-120 | the assembled table has one record per input row, each with exactly the target columns |
| `Pipeline.TargetColumnsLowercase` | app.py:118 | `col.lower()` is each target name itself |
| `Pipeline.UnmappedTargets` | app.py:29-33 | `codigo`, `complemento`, `observacoes` and `tipo_pessoa` are not fields of `COLUMN_MAPPINGS` |
| `Pipeline.FinalColumnsKeys` | app.py:110-114 | the dictionary holds the eleven fields plus `tipo_pessoa` and nothing else, so the `razao_social` default is never used |
| `Pipeline.AssembledCell` | app.py:118 | each cell is the entry of the column named by its target, or `""` |
| `Pipeline.AssembledUnmappedEmpty` | app.py:117-120 | `codigo`, `complemento` and `observacoes` are empty in every record |
| `Pipeline.ResolvedDocuments` | app.py:110 | `mapped_data['cpf']` is the column resolved from the synonyms of the `cpf` mapping |
| `Pipeline.AssembledDocument` | app.py:110-111 | `cpf` and `tipo_pessoa` of a record are `clean_document` of its document cell |
| `Pipeline.AssembledMappedField` | app.py:114-120 | every other target that a field feeds holds that field's resolved cell, `razao_social` included |
| `Pipeline.Process` | app.py:93-128 | failure exactly for no rows or no columns; a success has the target columns and a `cpf` cell in every row; `Pipeline.ProcessShape`, `Pipeline.ProcessRecords`, `Pipeline.ProcessDocumentsUnique` and `Pipeline.ProcessKeepsFirstRecords` state the rest |
| `Pipeline.ProcessData` | app.py:93-128 | the method's result equals `Process`: an empty frame gives the error, otherwise the deduplicated assembled frame |
| `Pipeline.ProcessShape` | app.py:93-128 | failure exactly for no rows or no columns; otherwise the target columns, between one row and the input row count, full-width rows |
| `Pipeline.ProcessRecords` | app.py:110-120 | every output record has empty unmapped targets, a digits-only `cpf` and the person type its length gives |
| `Pipeline.ProcessDocumentsUnique` | app.py:123-126 | output `cpf` values are pairwise distinct, and the set of them equals the set of assembled `cpf` values, so each one appears exactly once |
| `Pipeline.ProcessKeepsFirstRecords` | app.py:123-126 | each output record is the first assembled record with its `cpf`, records keep input order, and every first occurrence is output |

## Left out

- `read_uploaded_file` (app.py:48-70) is not modelled. It does CSV encoding and delimiter detection and Excel parsing through pandas. The model starts from the table it returns. The `df is None` case at app.py:93 belongs with it.
- The Streamlit page, spinners, preview, Excel download and help text (app.py:8-12, 87-88, 135-191) are not modelled. They are presentation and I/O.
- `st.error` reporting and the `except` branches (app.py:68-70, 130-132) are not modelled. For a rectangular table with at least one row and one column, nothing in lines 110-126 raises. The one error modelled is the empty-frame check (app.py:93-95).
- Pandas text conversion is reduced to one rule: a present cell is its text and a missing cell is `"nan"`. Numeric cells rendered as `"123.0"` and `None` rendered as `"None"` are not modelled. Non-string headers passed through `str()` are not modelled either.
- Duplicate header names are not modelled. Headers are addressed by position, whereas pandas would return a sub-frame for a repeated name.
- Series index alignment in `pd.DataFrame` is not modelled. All columns are taken to share the reader's 0..n-1 index.
- `Text.IsDigit`: ASCII `0`-`9` only. Python's `\D` also treats other Unicode decimal digits as digits.
- `Text.LowerChar`: lower-cases ASCII and Latin-1 capitals only. Python's `str.lower` also covers the rest of Unicode. No header or synonym outside Latin-1 is modelled.
- Accent stripping, sentinel cleaning, name reconstruction, the `uf` truncation, the trade-name rule and "most complete record" deduplication are absent from this code, so they are not modelled.
