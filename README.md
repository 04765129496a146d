# FinViz screener core in Dafny

This project models the deterministic core of a small stock screener (`main.py`).
The screener reads a ticker's quote page and extracts the snapshot table into an
attribute dict. From that dict it derives a numeric vector of the "important"
attributes. It also collects the sector screener links of the page. Two consumers
use a list of screened tickers: a matrix builder for learning and a per-attribute
collector for a distribution plot. The HTTP and HTML layers are replaced by
abstract inputs. The snapshot table is a sequence of rows; each row is a sequence
of cells, and each cell is the sequence of its child texts. The page's `tab-link`
anchors are `(text, href)` pairs, and the href may be absent.

Modules:

- `Text`: Python's `str.strip`, `str.upper` (on ASCII) and `in` on strings.
- `Dicts`: Python's insertion-ordered `dict`. It is a key sequence plus a map. A
  write to an existing key keeps that key's position, and a write to a new key
  appends it. The module proves that every write keeps the keys unique and equal
  to the stored keys, that the last write wins and that keys keep the order in
  which they were first written.
- `Coercion`: `float(s)` on the finite decimal forms Python accepts, given as an
  exact `real`. It includes `is_number` and the retry of `get_data_values` that
  drops the last character. The retry (`Resolve`) and the consumers take the
  parser as a parameter (`Parser`), so their properties hold for any parser;
  the worked examples instantiate it with `ParseFloat`.
- `Extraction`: the snapshot-table reading of `get_data`, as functions.
- `Vector`: the numeric-vector derivation of `get_data_values`, as functions.
- `SectorLinks`: the link selection of `compare_to_market`, as functions.
- `Volume`: `setup_volume_options`.
- `Ticker`: the `FinViz` class. Its methods update `data`, `data_values_list` and
  `data_type_list` with loops, and each method is proved against the functions
  above.
- `Comparison`: the `MachineLearning` class, whose matrix is an `array2` filled row
  by row, and the `CompareFinViz` class with the data loop of `visualise`.

Python exceptions become values of `Errors.Error`: a missing table, a short row,
an anchor without `href`, a ticker lacking the attribute, an empty object list,
or a value list that does not fit a matrix row. Each one is returned as a
`Result`/`Option` error instead of being excluded by a precondition.

Behaviour of the code worth noting, all of which the model follows:

- The matrix is allocated as `len(objects) × len(objects[0].data_values_list)`.
  Each row is then assigned with numpy, which copies a list of exactly that
  length and broadcasts a list of length 1 over the row. Any other length
  raises ValueError. An empty first vector therefore gives a matrix with no
  columns, without error, as long as every other vector has length 0 or 1; a
  vector of length 2 or more still raises ValueError (`MatrixMismatch`).
- The plot collection reads `ticker.data[attribute]`, which raises KeyError
  for a ticker without the attribute. It also drops a figure of exactly zero,
  since `if attribute_value:` is false for 0.0.
- `get_data` raises IndexError on the first row with fewer than 12 cells. By
  then it has already written the earlier rows and the complete column pairs
  of that row into `data`; `GetData` states this partial state.
- `float` skips the ASCII whitespace (space and tab to carriage return) and
  the non-ASCII whitespace around its text, while `str.strip` also removes the
  separator controls U+001C to U+001F. A stored value such as "5", U+001C, "%"
  therefore resolves to nothing (`SeparatorNotSkippedExample`), and so does
  "5", U+001C, U+00A0, "%" (`SeparatorMixedExample`).

## Model

| member | source | states |
|---|---|---|
| `Text.StripSpec` | main.py:73 | `strip()` keeps a contiguous piece of the text, everything around it is whitespace, and the result neither starts nor ends with whitespace |
| `Text.StripUnspaced` | main.py:73 | a value with no whitespace at either end is stored unchanged |
| `Text.StripIdempotent` | main.py:73 | stripping a stored value again changes nothing |
| `Text.Upper` | main.py:13 | the upper-cased ticker has the same length and no lower-case ASCII letter; each lower-case letter becomes its capital and every other character is kept |
| `Text.UpperIdempotent` | main.py:13 | upper-casing an upper-cased ticker changes nothing |
| `Text.Contains` | main.py:88 | `'screener' in href` holds exactly when the marker occurs at some position of the href |
| `Dicts.PutValid` | main.py:73 | `d[k] = v` keeps the keys unique and equal to the stored keys; afterwards `k` maps to `v` and every other key keeps its value |
| `Dicts.PutAllValid` | main.py:73 | any sequence of assignments keeps the dict well formed |
| `Dicts.LastWriteWins` | main.py:73 | after a sequence of assignments, each key holds its last written value, or its old value when it was not written |
| `Dicts.PutAllKeys` | main.py:73 | starting from `{}`, the dict's keys are the written keys in first-write order, without repeats |
| `Dicts.PutAllDistinct` | main.py:198-200 | writes to pairwise different keys list the keys in write order, each holding its own value |
| `Coercion.FloatTextUnspaced` | main.py:179-184 | `float` reads a text with no whitespace at either end as it stands |
| `Coercion.FloatTextKeepsLast` | main.py:179-184 | the text `float` reads from a value ending in a non-space character still ends in that character |
| `Coercion.SeparatorNotNumber` | main.py:179-184 | `is_number` is false for "5" followed by U+001C |
| `Coercion.SeparatorNotSkippedExample` | main.py:42-52 | "5", U+001C, "%" resolves to nothing, because `float` does not skip U+001C |
| `Coercion.SeparatorMixedExample` | main.py:42-52 | "5", U+001C, U+00A0, "%" resolves to nothing: only the non-ASCII space is skipped, U+001C is kept |
| `Coercion.DropLast` | main.py:49 | `s[0:len(s) - 1]` removes exactly the last character, and the empty string stays empty |
| `Coercion.ResolveEmpty` | main.py:42-53 | the empty string never resolves |
| `Coercion.UnitSuffixNotNumber` | main.py:179-184 | `is_number` is false for any text ending in a unit or percent sign |
| `Coercion.SignOnlyNotNumber` | main.py:179-184 | a lone sign, such as the "-" placeholder, is not a number |
| `Coercion.ParseShowNat` | main.py:179-184 | `float(str(n)) == n` for every natural number |
| `Coercion.ParseDecimal` | main.py:179-184 | `float("<digits>.<digits>")` is the exact decimal those digits denote |
| `Coercion.ResolveWithUnit` | main.py:48-50 | a whole number followed by a unit resolves to the bare number, with no unit scaling |
| `Coercion.ResolveDecimalWithUnit` | main.py:48-50 | a decimal followed by a unit resolves to the bare decimal, with no unit scaling |
| `Coercion.ResolvePercentExample` | main.py:42-53 | "12.5%" resolves to 12.5 |
| `Coercion.ResolveMagnitudeExample` | main.py:42-53 | "3.2B" resolves to 3.2, not 3.2 billion |
| `Coercion.ResolvePlaceholderExample` | main.py:42-53 | "-" resolves to nothing, so it is recorded as unresolved |
| `Extraction.ZipWrites` | main.py:72-73 | one column pair writes as many entries as the shorter of its two cells has children |
| `Extraction.ZipAt` | main.py:72-73 | write `t` of a column pair stores the stripped value child `t` under label child `t` |
| `Extraction.PairStep` | main.py:69-73 | reading one more column pair into the dict is the earlier pairs' writes followed by that pair's zip |
| `Extraction.ExtractError` | main.py:63-72 | a missing table fails with MissingTable; otherwise extraction fails iff some row has fewer than 12 cells |
| `Extraction.FullRowWrites` | main.py:69-73 | a row of at least 12 cells writes all six column pairs |
| `Extraction.ShortRowWrites` | main.py:69-72 | a short row writes only its complete column pairs before the index error |
| `Extraction.GridWritesFull` | main.py:66-73 | with no short row, extraction succeeds and every row is written |
| `Extraction.GridWritesShort` | main.py:66-72 | the first short row is the one reported, after all earlier rows and its complete pairs are written |
| `Extraction.RowWritesOrigin` | main.py:69-73 | every write of a row comes from child `t` of a label column 0, 2, …, 10 and the same child of the next column, and every such child pair is written |
| `Extraction.ExtraColumnsIgnored` | main.py:69 | cells after the twelfth are never read |
| `Extraction.EmptyPairsWriteNothing` | main.py:72 | column pairs whose cells are empty write nothing |
| `Extraction.ExtractLastWriteWins` | main.py:66-73 | a label maps to the stripped value of its last occurrence in row, pair and child order |
| `Extraction.ExtractKeyOrder` | main.py:66-73 | the attribute dict lists labels in the order of their first occurrence |
| `Extraction.DuplicateLabelExample` | main.py:66-73 | "P/E" = "10" then "P/E" = "20" yields one key "P/E" holding "20" |
| `Vector.DerivePrefix` | main.py:57 | the names list and the values list have equal length after every step, including when nothing resolves |
| `Vector.DeriveNext` | main.py:40-53 | each dict item is skipped when not important, appended to both lists when it resolves, and otherwise added to the unresolved set |
| `Vector.DeriveTypes` | main.py:40-50 | the names list is the dict's keys, in insertion order, filtered to the important and resolving ones |
| `Vector.DeriveValues` | main.py:44-50 | each value at position i is what the value stored under name i resolves to |
| `Vector.DeriveMissing` | main.py:39-53 | the unresolved set is exactly the important, present attributes whose value does not resolve |
| `Vector.DeriveDistinct` | main.py:40-46 | no name is listed twice |
| `Vector.DerivePartition` | main.py:41-53 | an important attribute present in the dict is either listed or unresolved, never both |
| `Vector.DeriveIgnores` | main.py:41 | an attribute that is not important is in neither output |
| `Vector.EmptyValueMissing` | main.py:48-52 | an important attribute with an empty value is unresolved |
| `Vector.KeptListed` | main.py:44-50 | every important attribute whose value resolves is listed |
| `Vector.UnitValueKept` | main.py:48-50 | an important "<n><unit>" value is listed with the value n |
| `SectorLinks.LinkWrites` | main.py:84-95 | the link loop performs at most one write per anchor |
| `SectorLinks.UrlParts` | main.py:91-95 | the URL is the site root, then the href, then `,min_volume` exactly when `min_volume` is truthy |
| `SectorLinks.RelatedLinksError` | main.py:86 | selection fails iff some anchor has no href, and it reports the first such anchor |
| `SectorLinks.LinkWritesOrigin` | main.py:84-95 | a write happens exactly for each anchor whose href contains "screener", with its text and URL |
| `SectorLinks.RelatedKeys` | main.py:84-95 | the keys of the link dict are exactly the texts of the screener anchors |
| `SectorLinks.LastLinkWrite` | main.py:93-95 | the last screener anchor with a given text decides that text's URL |
| `SectorLinks.RelatedValue` | main.py:84-95 | a repeated sector text maps to the URL of its last screener anchor |
| `Volume.WritesDistinct` | main.py:198-200 | distinct options give distinct option names |
| `Volume.SelectionTable` | main.py:196-202 | from distinct options, the dict has one key per option, in option order, each holding its filter code |
| `Volume.SelectionValueFromKey` | main.py:200 | every key `over_N` holds `sh_avgvol_oN` |
| `Volume.SetupVolumeOptionsTable` | main.py:194-202 | the table is a well-formed dict with exactly 9 keys, `over_50` … `over_2000` in order, each mapped to `sh_avgvol_o` and the same threshold, and no other key has an entry |
| `Ticker.FinViz.constructor` | main.py:11-24 | the ticker is upper-cased, the important attributes become a set, and `data` and both lists start empty |
| `Ticker.FinViz.ReadPair` | main.py:72-73 | the zip loop writes each label child with its stripped value child, in order |
| `Ticker.FinViz.ReadRow` | main.py:69-73 | the column-pair loop writes the row's pairs, and reports a row shorter than 12 cells after its complete pairs |
| `Ticker.FinViz.GetData` | main.py:59-73 | `data` becomes the old dict after all writes made before stopping, and stays a well-formed dict; the error is MissingTable, the first short row, or none |
| `Ticker.FinViz.GetDataValues` | main.py:35-57 | both lists are extended by the derived names and values, the returned set is the unresolved attributes, and the lists keep equal length |
| `Ticker.FinViz.CompareToMarket` | main.py:81-95 | the link dict is the selection of screener anchors, or the KeyError of the first anchor without an href |
| `Ticker.FinViz.Create` | main.py:11-33 | construction fails iff extraction fails or, when comparing, link selection fails, and the error is extraction's (MissingTable or the first short row) or else link selection's (the first anchor without an href); the errors of fetching the related tickers are not modelled; otherwise data, names, values and unresolved set are the extraction and derivation results |
| `Comparison.FillRow` | main.py:176 | the assigned row has the matrix width |
| `Comparison.MatrixShape` | main.py:173-176 | a matrix has one row per object, each as wide as the first object's list; a full-length list is copied and a one-element list is broadcast |
| `Comparison.MatrixIsLists` | main.py:173-176 | the matrix equals the objects' lists iff there is an object and all lists have the first one's length |
| `Comparison.MatrixNoObjects` | main.py:173 | assembly fails with NoObjects iff the object list is empty |
| `Comparison.MatrixMismatch` | main.py:175-176 | assembly fails at object i iff its length is neither the first one's nor 1 and every earlier list fits |
| `Comparison.MatrixEntriesFromObjects` | main.py:176 | every matrix entry is a number of its row's object |
| `Comparison.AssignRow` | main.py:176 | `x_data[i] = values` sets row `i` to the copied or broadcast list and leaves every other row as it was |
| `Comparison.MatrixStop` | main.py:175-176 | when the loop meets a list that does not fit, the assembly reports that object and the rows written so far are the matrix of the earlier lists |
| `Comparison.MatrixDone` | main.py:173-176 | when every list fits, the assembly succeeds and the written rows are the matrix |
| `Comparison.MachineLearning.constructor` | main.py:163-166 | holds the objects, with no matrix yet |
| `Comparison.MachineLearning.ConvertAttributesToArray` | main.py:168-176 | a fresh n × m array whose rows read back as the matrix; on a mismatch, the rows before it are already written; an empty list leaves `x_data` unset |
| `Comparison.CollectMembers` | main.py:147-151 | the collected figures are exactly the non-zero numbers of the tickers' texts |
| `Comparison.CollectLength` | main.py:147-151 | one figure per contributing ticker, none merged or duplicated |
| `Comparison.CollectAll` | main.py:147-151 | when every ticker contributes, the figures are all of them, in ticker order |
| `Comparison.CollectError` | main.py:149 | collection fails iff some ticker lacks the attribute, and reports the first one |
| `Comparison.ZeroDropped` | main.py:150 | "0" parses but is not collected |
| `Comparison.UnitDropped` | main.py:149 | a figure with a unit is not collected, although the vector derivation resolves it |
| `Comparison.CompareFinViz.constructor` | main.py:132-134 | holds the tickers to compare |
| `Comparison.CompareFinViz.Visualise` | main.py:144-151 | the loop collects the non-zero numeric figures in ticker order, or returns the KeyError of the first ticker without the attribute |

## Left out

- Fetching pages with `requests.get` (main.py:17, main.py:107) is network I/O. The page reaches the model as its snapshot table and its anchors.
- BeautifulSoup parsing and DOM queries (main.py:18, 63-64, 81) are replaced by those abstract inputs. A table row is its `<td>` cells, and a cell is the texts of its child nodes. Each label key is the child's text, while the source uses the child node itself as the key.
- `get_related_tickers` (main.py:100-127) and the loop that fills `related_tickers` (main.py:97-98) are left out. They fetch each sector page, take child 6 of its results table and construct new `FinViz` objects. Those children are built without `compare_to_markets`, so the expansion is one level deep. `Create` checks the link selection but stores no related tickers.
- Ticker.FinViz.Create: its "fails iff" leaves out the errors of that expansion. The source raises AttributeError when the screener-content div or its table is missing (main.py:109-117). It raises TypeError when the results table has fewer than 7 children, so that `related_ticker_links` stays None (main.py:114, 117-122). It also raises whatever constructing a child ticker raises (main.py:124-125).
- Plotting in `visualise` (main.py:152-158) is UI. The `axvline` of the main ticker's value is left out with it.
- `save_ticker_data` (main.py:187-191) is file output, and `main` (main.py:205-255) is driver configuration.
- The `print` of the unresolved set (main.py:54-55) is console output. `GetDataValues` returns the set instead.
- `float` is modelled on finite decimal text with optional sign, point and exponent, and its value is an exact `real`. The model has no IEEE rounding, `inf`/`nan`, underscores or non-ASCII digits. Around its text it skips the ASCII whitespace and the non-ASCII characters of `Text.IsSpace` (which `float` first turns into spaces), as `Coercion.IsFloatSpace` lists them; the model's list of Unicode whitespace is the one in `Text.IsSpace`. Matrix entries and figures are exact reals.
- `Text.Upper` upper-cases ASCII letters only. Python's `str.upper` also maps other scripts.
- The numpy array of `x_data` is an `array2<real>`. `np.empty` leaves unwritten entries undefined, and the model states nothing about the rows after a mismatch.
- `CompareFinViz` and `MachineLearning` read only `data` and `data_values_list` of the objects they hold. Their contracts refer to those fields.
