# dev_qa_compare in Dafny

`dev_qa_compare.py` compares the deployment image tag of every service
between the `dev` and `qa` environments. For each service it finds the
`.yaml` values files present in both environments. It reads `image.tag` from
each side, classifies the pair as `Match`, `Dev > QA` or `Dev < QA`, and
writes a spreadsheet. That spreadsheet fills the filename and compare cells
green, yellow or red.

This project models the decision core of that script. Files, YAML parsing,
pandas and openpyxl are replaced by values: a directory model, parsed
documents and a worksheet array.

- `lexorder.dfy` (`LexOrder`): Python's `<` on `str`, lexicographic by code
  point. It is proved to be a strict total order and equal to the
  first-difference definition. Dafny 4's `char` is a Unicode scalar value;
  a Python `str` can also hold lone surrogates (U+D800 to U+DFFF), which
  Dafny's `char` cannot represent. Dafny's own `<` on sequences means "proper prefix",
  so it is not used here.
- `extract.dfy` (`Extract`): the parsed document (`Node`), the outcome of
  opening and parsing a file (`Load`), and `get_image_tag` with its three
  outcomes: the tag, `"Not Found"` and `"Error"`.
- `discovery.dfy` (`Discovery`): the filesystem as a map from paths to
  listings and from paths to parsed files, and the paths of lines 30-31.
  It also holds the set intersection of lines 36-40 and the two nested
  loops that append rows (lines 28-52, as `CollectRows`,
  `AppendServiceRows` and `AppendMatchingRows`). A Python set has no
  defined iteration order, so the inner loop takes an arbitrary remaining
  name. A ghost sequence of per-service blocks records the order that was
  taken.
- `compare.dfy` (`Compare`): the `compare` column. `get_image_tag` can
  return a non-string (a mapping or `None`). Python's `>` then raises
  `TypeError` when the two values are unequal. This is modelled as `None`,
  meaning the run stops.
- `report.dfy` (`Report`): the worksheet as an array of rows with five
  cells. Each cell has a value and a fill. The file also holds the colour
  loop of lines 78-91, which computes the classification a second time from
  cells C and D. It is proved to agree with the `compare` column. `Run`
  chains everything, from the directory model to the coloured sheet.

The code and the console legend disagree. Lines 84-91 fill `Dev > QA`
yellow and `Dev < QA` red. Lines 101-102 print the opposite meanings. The
model follows the code.
`Report.LegendSwapsRedAndYellow` records the disagreement. Which of the two
the authors intended cannot be told from the code, so the model does not
call either one a bug.

## Model

| member | source | states |
|---|---|---|
| `LexOrder.Less` | dev_qa_compare.py:58 | Python's `<` on `str`, the order `>` uses at lines 58 and 86; its properties are stated by `LessIrreflexive`, `LessAsymmetric`, `LessTransitive`, `LessConnected` and `LessIffFirstDifference` |
| `LexOrder.LessIrreflexive` | dev_qa_compare.py:58 | no string is less than itself |
| `LexOrder.LessAsymmetric` | dev_qa_compare.py:58 | `a < b` excludes `b < a` |
| `LexOrder.LessTransitive` | dev_qa_compare.py:58 | `a < b` and `b < c` give `a < c` |
| `LexOrder.LessConnected` | dev_qa_compare.py:58 | two distinct strings are ordered one way or the other |
| `LexOrder.Trichotomy` | dev_qa_compare.py:57-59 | exactly one of `==`, `<`, `>` holds between two strings |
| `LexOrder.LessHasFirstDifference` | dev_qa_compare.py:58 | `a < b` means `a` is a proper prefix of `b`, or `a` has the smaller character at the first difference |
| `LexOrder.FirstDifferenceIsLess` | dev_qa_compare.py:58 | the converse: a proper prefix, or a smaller character at the first difference, gives `a < b` |
| `LexOrder.LessIffFirstDifference` | dev_qa_compare.py:58 | the recursive order and the first-difference definition agree in both directions |
| `LexOrder.VersionExamples` | dev_qa_compare.py:58 | `"v10" < "v2"` and `"v1.10.0" < "v1.2.0"`: the order is not numeric |
| `LexOrder.SentinelExamples` | dev_qa_compare.py:58 | the sentinels are ordered as ordinary strings, e.g. `"Error" < "v3"` |
| `Discovery.Open` | dev_qa_compare.py:15-16 | the parsed document at a path, or a read failure when no file is there; its use is stated through `Extract.GetImageTag` and `Discovery.RowFor` |
| `Extract.GetImageTag` | dev_qa_compare.py:13-20 | returns the stored `image.tag` when present; returns `"Not Found"` when `image` or `tag` is missing; returns `"Error"` on an open/parse failure, a non-mapping document or a non-mapping `image` |
| `Extract.OutcomesPartition` | dev_qa_compare.py:14-20 | the lookup never raises to its caller: the result is `"Error"`, `"Not Found"` or the stored `image.tag`, and a result that is neither sentinel is the stored tag |
| `Extract.SentinelOrigins` | dev_qa_compare.py:17-20 | `"Error"` comes only from a failed lookup or a tag whose text is `"Error"`; `"Not Found"` likewise |
| `Extract.FoundTagExample` | dev_qa_compare.py:17 | a string tag is returned unchanged, whatever other keys the document has |
| `Extract.LookupExamples` | dev_qa_compare.py:14-20 | empty document, missing tag, null document, scalar document, null or scalar `image`, and unreadable file, each with its sentinel |
| `Discovery.BaseDev` | dev_qa_compare.py:9 | `base_path_dev` as path segments; `DevQaPathsDifferOnlyInEnv` uses that it equals `BaseQa` |
| `Discovery.BaseQa` | dev_qa_compare.py:10 | `base_path_qa`, the same root as `BaseDev` |
| `Discovery.EnvPath` | dev_qa_compare.py:30-31 | `os.path.join(base, service, 'centralus', env, 'mrtn2')` as path segments; its properties are stated by `DevQaPathsDifferOnlyInEnv` |
| `Discovery.DevPath` | dev_qa_compare.py:30 | `os.path.join(base_path_dev, service, 'centralus', 'dev', 'mrtn2')` as path segments; its properties are stated by `DevQaPathsDifferOnlyInEnv` |
| `Discovery.QaPath` | dev_qa_compare.py:31 | `os.path.join(base_path_qa, service, 'centralus', 'qa', 'mrtn2')` as path segments; its properties are stated by `DevQaPathsDifferOnlyInEnv` |
| `Discovery.DevQaPathsDifferOnlyInEnv` | dev_qa_compare.py:30-31 | the dev and qa directories of a service have the same length and equal segments, except the environment segment (`dev` vs `qa`); each path determines its service |
| `Discovery.Subdirectories` | dev_qa_compare.py:26 | keeps exactly the listed names that are directories under the root, no more names than were listed, in listing order (a subsequence of the listing), and no name twice when the listing has none twice |
| `Discovery.ServiceNames` | dev_qa_compare.py:26 | defined iff the root directory exists; then holds exactly the root's entries that are directories, in listing order, each once when the root listing has no repeats |
| `Discovery.SubsequenceExamples` | dev_qa_compare.py:26 | the order clause of `Subdirectories` excludes reorderings: `["a","c"]` is kept from `["a","b","c"]`, `["c","a"]` is not |
| `Discovery.EndsWithYaml` | dev_qa_compare.py:36-37 | `f.endswith('.yaml')`: the last five characters are `.yaml`; used in the membership clauses of `CommonYamlNames` and `Matching` |
| `Discovery.YamlNames` | dev_qa_compare.py:36-37 | the set of a listing's `.yaml` names; `CommonYamlNames` states membership of their intersection |
| `Discovery.CommonYamlNames` | dev_qa_compare.py:36-40 | a name is common iff it ends in `.yaml` and is listed on both sides |
| `Discovery.Matching` | dev_qa_compare.py:34-40 | a name matches iff both directories exist, it ends in `.yaml` and it is in both listings; so a skipped service has no matches |
| `Discovery.OneSidedFileExcluded` | dev_qa_compare.py:36-40 | a file listed only under dev never matches |
| `Discovery.RowFor` | dev_qa_compare.py:43-52 | the row of a service and file name, both tags read with `GetImageTag` from that name under dev and under qa; `CollectRows` and `FlattenSound` state that every table row is one |
| `Discovery.EnumeratedBlock` | dev_qa_compare.py:42-52 | a service's block holds only its matching names, with the tags read for each name, and has a row for each matching name |
| `Discovery.FlattenCount` | dev_qa_compare.py:28-52 | the table has as many rows as the services' match sets have members in total |
| `Discovery.FlattenSound` | dev_qa_compare.py:28-52 | every table row belongs to a listed service and one of its matching names, and carries the tags read for that name |
| `Discovery.FlattenComplete` | dev_qa_compare.py:28-52 | every matching name of every listed service has its row in the table |
| `Discovery.FlattenDistinct` | dev_qa_compare.py:28-52 | for distinct services, no row occurs twice in the table |
| `Discovery.AppendMatchingRows` | dev_qa_compare.py:42-52 | appends one row per name of the set, each name once, in some order, and leaves the earlier rows as they were |
| `Discovery.AppendServiceRows` | dev_qa_compare.py:34-52 | appends exactly the block of the service's matching names, which is nothing when either directory is missing |
| `Discovery.CollectRows` | dev_qa_compare.py:28-52 | the table is the per-service blocks in service order. Its row count is the sum of the intersection sizes. A row exists iff its service is listed and its name matches, and each row's two tags come from the same file name on each side. For distinct services no row occurs twice |
| `Compare.Label` | dev_qa_compare.py:57-59 | the three verdict texts are `Match`, `Dev > QA`, `Dev < QA`, one per verdict |
| `Compare.PyGreater` | dev_qa_compare.py:58 | `>` is defined exactly on two strings, where it is the string order; otherwise it raises |
| `Compare.Classify` | dev_qa_compare.py:57-59 | `Match` iff the tags are equal, `Dev > QA` iff dev is greater, `Dev < QA` iff dev is less |
| `Compare.CompareTags` | dev_qa_compare.py:56-60 | equal values give `Match`; two strings give their `Classify` verdict; the lambda raises iff the values are unequal and not both strings |
| `Compare.CompareColumn` | dev_qa_compare.py:56-60 | the column exists iff every row can be compared; it then has one verdict per row, the one `CompareTags` gives that row |
| `Compare.ClassifySwap` | dev_qa_compare.py:57-59 | swapping dev and qa keeps `Match` and exchanges `Dev > QA` and `Dev < QA` |
| `Compare.StringTagsCompare` | dev_qa_compare.py:56-60 | a table of string tags always gets a column, whose verdicts are the `Classify` results |
| `Compare.ClassifyExamples` | dev_qa_compare.py:57-59 | `v1.2.0`/`v1.2.0` is `Match`, `v2`/`v10` is `Dev > QA`, `v3`/`Error` is `Dev > QA`, `Error`/`Not Found` is `Dev < QA` |
| `Compare.NullTagExamples` | dev_qa_compare.py:57-58 | two null tags match; a null tag against a string raises |
| `Report.ColourOf` | dev_qa_compare.py:83-91 | `Match` is green, `Dev > QA` yellow, `Dev < QA` red, and each colour belongs to one verdict only |
| `Report.Header` | dev_qa_compare.py:67 | the header row `to_excel` writes; `Render` states it is row 1 of the sheet |
| `Report.DataRow` | dev_qa_compare.py:67 | one written data row: service, filename, the two tags and the label, unfilled; `PaintedLayoutReports` states its painted form |
| `Report.Layout` | dev_qa_compare.py:67 | the written sheet has the header and one row per table row |
| `Report.Painted` | dev_qa_compare.py:79-91 | one iteration of the fill loop; `PaintedOnlyFillsBAndE` states what it changes and `ApplyFills` is specified by it |
| `Report.PaintedOnlyFillsBAndE` | dev_qa_compare.py:78-91 | painting changes only the fills of B and E, gives both the same colour, green iff the tags are equal; for string tags yellow iff dev > qa and red iff dev < qa |
| `Report.FillAgreesWithCompare` | dev_qa_compare.py:78-91 | on the sheet written from a table and its compare column, every data row can be painted, B and E get the colour of that row's verdict, and E holds its label |
| `Report.PrintedLegend` | dev_qa_compare.py:101-103 | the meaning the console legend gives each colour; `LegendSwapsRedAndYellow` compares it with the fill code |
| `Report.LegendSwapsRedAndYellow` | dev_qa_compare.py:101-103 | the printed legend gives yellow and red swapped meanings relative to the colours the code applies |
| `Report.ApplyFills` | dev_qa_compare.py:78-91 | leaves the header row alone. On success every data row is painted, and success happens iff every row's C and D can be compared. On a raise, the rows before the failing one are painted and the rest are unchanged |
| `Report.PaintedLayoutReports` | dev_qa_compare.py:67-91 | painting every data row of the written sheet gives service, filename, tags and label in A-E, with B and E in the verdict's colour |
| `Report.Render` | dev_qa_compare.py:55-93 | a sheet results iff every row can be compared; it then holds the header, and each data row holds the row's values with B and E coloured by its verdict |
| `Report.Run` | dev_qa_compare.py:23-93 | stops when the root is missing. Otherwise the table has exactly the rows of the listed services' matching names, with their tags, each once when the root listing has no repeats, and the sheet is as `Render` states |

## Left out

- Filesystem calls (`os.chdir`, `os.listdir`, `os.path.exists`, `os.path.isdir`, `open`) are replaced by the `Fs` value. A path that exists but is a regular file, for which `os.listdir` would raise, is not modelled: an existing path is a directory with a listing.
- `yaml.safe_load` is not modelled. Its result is the `Load` value. YAML numbers, booleans, dates and timestamps (an unquoted `tag: 2024-01-01` loads as a `datetime.date`, which `==` and `>` treat differently from a string), sequences and non-string mapping keys are not part of `Node`.
- The diagnostic line printed when a file cannot be read (line 19) and the unused `pdfkit` import are not modelled. The console summary (lines 99-103) is not modelled except the legend text (`Report.PrintedLegend`).
- `pd.DataFrame`, `to_excel`, `load_workbook`, `workbook.save` and `to_csv` are library calls. The worksheet handed to the colour pass is the layout `to_excel` writes (`Report.Layout`). Values are assumed to read back unchanged, and `Report.FillAgreesWithCompare` and `Report.Render` rely on that. One case where they do not: an empty-string tag is written as an empty cell and reads back as `None` at lines 79-80. A row with tags `""` and `"v1"` then gets `Dev < QA` at line 56, but `None > 'v1'` raises at line 86 and the sheet is not painted. The model does not capture this. Writing a mapping-valued tag to Excel, which openpyxl refuses, is not modelled either.
- Report.Layout: states only the sheet's length; the cell contents are given by the function body and used through `Report.FillAgreesWithCompare` and `Report.PaintedLayoutReports`.
- The empty table: pandas then builds a DataFrame without columns. `apply(axis=1)` on it returns an empty DataFrame, and assigning that to `df['compare']` at line 56 raises `ValueError` in pandas 2, so the script stops and writes no sheet. The model instead renders a header-only sheet.
- Failures while writing the output files are not modelled.
- Names containing lone surrogate code points are not modelled. `os.listdir` can return them for undecodable filename bytes, and YAML tags could also hold them, but Dafny's `char` cannot represent them.
- Row order: services follow the listing order (`Discovery.Subdirectories` states the service names are a subsequence of the listing, and `CollectRows` appends blocks in service order). Within a service the order is whatever the Python set yields; the model records it but does not fix it.
