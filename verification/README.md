# ash-williams: DOI extraction, retraction lookup and reports, in Dafny

ash-williams finds the DOIs cited in a paper and checks them against the
Retraction Watch dataset. A cited DOI that has been retracted is a
"zombie". This project models the pure core of that tool and proves
properties of the model:

- **DOI grammar and extraction** (`ash/doi.py`, duplicated in `ash/ash.py`):
  - `clean`: the exact-match fix table, then stripping `.`, space and `/` from both ends;
  - `text_to_dois`: every pattern of the Crossref list run with `findall`, matches concatenated in pattern order and then cleaned;
  - `validate_collection` / `validate_dois`.
- **The retraction table** (`RetractionDatabase` in `ash/ash.py`): dataset rows grouped by the cleaned DOI of the paper they retract, built lazily on first access.
- **Reports** (`Paper.report`, `Paper.json_report`): the printed verdicts and notices as a list of lines, and the JSON membership map.
- **Log helpers** (`ash/config.py`): `trim` and `log_inputs`.

Files:

| file | module | what it holds |
|---|---|---|
| `wrappers.dfy` | `Wrappers` | `Option` and `Result` |
| `strings.dfy` | `Strings` | Python's `str.strip` and `s[:k]`, with declarative meanings |
| `patterns.dfy` | `DoiPatterns` | scanners for the generic and Wiley patterns; declarative regex semantics and `findall` |
| `doi.dfy` | `Doi` | `clean`, the pattern list, `text_to_dois`, `validate_collection` |
| `doi_examples.dfy` | `DoiExamples` | what extraction yields on the texts the repository's tests use |
| `retractions.dfy` | `Retractions` | the lookup table and the lazily built database |
| `papers.dfy` | `Papers` | `report` and `json_report` |
| `config.dfy` | `Config` | `trim` and `log_inputs` |

Modelling choices:

- **One definition for the duplicated code.** `ash/ash.py` repeats, up to names, the pattern list (lines 28-39), `BAD_DOIS` and `DOI_FIXES` (40-43), `clean_doi` (46-48) and `Paper.text_to_dois` (131-136) of `ash/doi.py`: its `MY_DUMB_PATTERNS` is `ADDITIONAL_PATTERNS` and its `clean_doi` is `clean`, with the same bodies. Both copies are modelled by the one definition in module `Doi`.
- **Two patterns are scanned concretely.** `10.\d{4,9}/[-._;()/:A-Z0-9]+` and `10.1002/[^\s]+`, both compiled `IGNORECASE`, are hand-written scanners. `DoiPatterns.MatchAtIsMatch` and `DoiPatterns.SpansAreFindAll` prove them equal to a declarative reading of the regex and of `findall`. Under `IGNORECASE`, Python lets `A-Z` match U+0130, U+0131, U+017F and U+212A besides the ASCII letters, and the model includes them.
- **Three patterns are parameters.** The SICI, ACS and Erlbaum patterns are function values (`Doi.OpaquePatterns`). Where a lemma needs to know something about them, it assumes `Doi.Anchored`:
  - each pattern needs a certain piece of text before it can match: `/` followed by a digit for SICI, `1021/` for ACS, `1207/` for Erlbaum;
  - each pattern's results start with a digit. SICI's `findall` returns its `(\d+)` group.
- **Rows are already parsed.** A dataset row is a string-to-string map, so `str()` of a key or value is the identity.
- **Output is returned, not printed.** `report` returns its printed lines as a sequence of `Papers.ReportLine`, with the database afterwards and the keys `validate_dois` warned about. A `KeyError` on a record without a notice column is a `Papers.Aborted` naming the first missing column in the order the line reads them; it still carries the database with the table cached and the warnings, because the table was built before the exception.
- **The lazy build.** `random.choice` over the values of an empty table raises `IndexError`. `Retractions.Data` therefore fails with `EmptyDatabase` when no row has a usable DOI, and the cache stays empty.
- **`clean` is not idempotent on `"10.1177/ 0020720920940575."`.** Stripping turns that string into a fix-table key, and a second clean repairs it (`Doi.CleanNotIdempotentOnKeyWithDot`). Every input whose clean form is not a fix-table key is cleaned once and for all (`Doi.CleanIdempotent`).

## Model

| member | source | states |
|---|---|---|
| Strings.Strip | ash/doi.py:36 | `s.strip(cs)` is a contiguous slice of `s`; everything cut from either end is in `cs`; the result neither starts nor ends with a character of `cs` |
| Strings.StrippedUnique | ash/doi.py:36 | that description determines the stripped string: a string meets it exactly when it is `Strip(s, cs)` |
| Strings.StripUnstrippable | ash/doi.py:36 | a string whose ends are not in `cs` is its own stripped form |
| Strings.StripIdempotent | ash/doi.py:36 | stripping twice is stripping once |
| Strings.PrefixSlice | ash/config.py:68 | Python's `s[:k]` is a prefix of `s`: `k` characters when `0 <= k <= len(s)`; for negative `k`, all but the last `-k`, or nothing |
| Doi.CleanSpec | ash/doi.py:22-36 | contract of `Doi.Clean` (`clean`): `clean` replaces the input by its fix-table value only when the whole input is a key; otherwise it strips the input itself. Either way only `.`, space and `/` are cut from the ends, and the result has none of them at either end |
| Doi.CleanIdempotent | ash/doi.py:34-36 | cleaning a clean DOI changes nothing, unless the clean form is itself a fix-table key |
| Doi.CleanKeeps | ash/doi.py:34-36 | a string that is no fix-table key and has clean ends is its own clean form |
| Doi.FixValuesStable | ash/doi.py:22-24 | every repaired value in the fix table is already clean |
| Doi.CleanNotIdempotentOnKeyWithDot | ash/doi.py:22-36 | `"10.1177/ 0020720920940575."` cleans to the fix-table key, and cleaning that again gives the repaired DOI |
| Doi.CleanKeepsLeadingDigit | ash/doi.py:34-36 | cleaning a string that starts with a digit leaves a non-empty string that starts with a digit |
| DoiPatterns.Run | ash/doi.py:10-11 | the length of the longest run of characters with property `p` from `j`: all of them have it, and the run stops at the end or at a character without it |
| DoiPatterns.MatchAtIsMatch | ash/doi.py:10-20 | contract of `DoiPatterns.MatchAt` (one match attempt at `i`): the scanner reports a match `t[i..e]` at `i` exactly when the regex matches greedily there: `10`, a non-newline character, then 4-9 digits and `/` (generic) or `1002/` (Wiley), then a maximal non-empty run of tail characters |
| DoiPatterns.MatchAtSound | ash/doi.py:10-11 | every match the scanner reports is a greedy regex match |
| DoiPatterns.MatchAtComplete | ash/doi.py:10-11 | every greedy regex match is found by the scanner |
| DoiPatterns.Spans | ash/doi.py:28 | `findall`'s spans from `i` are matches in left-to-right order, do not overlap, and leave no uncovered position where a match starts |
| DoiPatterns.ScanUnique | ash/doi.py:28 | only one list of spans has those properties: the leftmost, non-overlapping scan |
| DoiPatterns.SpansAreFindAll | ash/doi.py:10-28 | contract of `DoiPatterns.FindAll` (`findall`, the strings at these spans): a span list is the scanner's exactly when every span is a regex match, the spans are ordered and disjoint, and no regex match starts at an uncovered position |
| DoiPatterns.FindAllShaped | ash/doi.py:10-11 | contract of `DoiPatterns.FindAll`, per string: every string `findall` returns has the pattern's shape: head, then a non-empty run of tail characters |
| DoiPatterns.MatchNeedsTen | ash/doi.py:10-11 | a match can only start at a `1` followed by `0` |
| DoiPatterns.MatchNeedsSlash | ash/doi.py:10-11 | a match at `i` needs a `/` somewhere from `i + 3` on; a Wiley match has `1002/` right after its first three characters |
| DoiPatterns.FindAllNoSlash | ash/doi.py:10-11 | a text without `/` has no match |
| DoiPatterns.FindAllSole | ash/doi.py:10-28 | a match with no `1` anywhere outside it is the only string `findall` returns |
| DoiPatterns.ShapedEmbed | ash/doi.py:10-11 | a string of the pattern's shape, placed in a text before a character that cannot extend its tail, is the greedy match at its position |
| Doi.AllMatchesAt | ash/doi.py:27-29 | the `j`-th match of pattern `i` comes after all matches of earlier patterns, at position "matches of patterns before `i`" + `j` |
| Doi.TextToDoisAt | ash/doi.py:27-31 | contract of `Doi.TextToDois` (`text_to_dois`): `text_to_dois` has one entry per match of every pattern, and the `j`-th match of pattern `i`, cleaned, sits after all the earlier patterns' matches |
| Doi.TextToDoisAppend | ash/doi.py:27-31 | extraction over a split pattern list is the concatenation of the two extractions; nothing is deduplicated |
| Doi.PatternsMatches | ash/doi.py:9-29 | with the Crossref list, the matches are the generic, Wiley, SICI, ACS and Erlbaum matches, in that order |
| Doi.CollectMatches | ash/doi.py:28-29 | the comprehension-and-`chain` loop collects exactly every pattern's matches in list order |
| Doi.CleanEach | ash/doi.py:30 | `[clean(doi) for doi in dois]` has one entry per match, each the clean form of its match |
| Doi.ExtractDois | ash/doi.py:27-31 | the loop form of `text_to_dois` computes the model's extraction |
| Doi.AllMatchesLeadDigits | ash/doi.py:10-29 | every match of every pattern starts with a digit |
| Doi.AnyTruthyIffFound | ash/doi.py:41 | `any(text_to_dois(d))` holds exactly when some DOI is found, because no match cleans to the empty string |
| Doi.Unmatched | ash/doi.py:39-43 | the entries warned about are exactly the entries on which `any(text_to_dois(d))` is false; there are never more of them than entries |
| Doi.UnmatchedIffNoDoi | ash/doi.py:39-43 | an entry is warned about exactly when `text_to_dois` finds nothing in it |
| Doi.ValidateCollection | ash/doi.py:39-43 | the loop warns, in collection order, for exactly the entries no pattern matches |
| DoiExamples.NoSlashYieldsNothing | ash/doi.py:27-31 | a text without `/` yields no DOI |
| DoiExamples.NumberYieldsNothing | ash/doi.py:27-31 | `"12356.23"` yields no DOI |
| DoiExamples.SoleGenericDoi | ash/doi.py:27-31 | a generic DOI that no other pattern claims, standing between text without `1` or `/`, is extracted once, cleaned |
| DoiExamples.WileyDoiTwice | ash/doi.py:10-31 | a Wiley DOI on its own is matched by the generic and by the Wiley pattern, so it is emitted twice |
| DoiExamples.JossSentence | ash/doi.py:27-31 | `"A DOI here 10.21105/joss.03440 and that's all for now."` yields exactly `["10.21105/joss.03440"]` |
| DoiExamples.ScienceDoi | ash/doi.py:27-31 | `"10.1126/science.aax5705"` yields exactly itself |
| DoiExamples.ValidateTestCollection | ash/doi.py:39-43 | of `"12356.23"` and `"10.1126/science.aax5705"`, only the number draws a warning |
| Retractions.Under | ash/ash.py:77-83 | reference definition: a row appears under `doi` exactly when it is filed under `doi` |
| Retractions.GroupSpec | ash/ash.py:77-83 | contract of `Retractions.Group` and its step `Retractions.AddEntry`: the row loop's table holds a key exactly when some row is filed under it, and then exactly those rows, in order; nothing is overwritten |
| Retractions.RowsFor | ash/ash.py:77-83 | the rows filed under `doi` are exactly the dataset rows whose cleaned DOI is `doi` and not bad |
| Retractions.BuildTableSpec | ash/ash.py:72-83 | contract of `Retractions.BuildTable` (`_build_data`): `_build_data` keeps a key exactly when some row is filed under it, with exactly that key's rows, in dataset order |
| Retractions.TableKeys | ash/ash.py:77-83 | every key is the cleaned DOI of some row and never a bad DOI; every record under it is a dataset row filed there, unchanged |
| Retractions.RowKeySome | ash/ash.py:78-81 | contract of `Retractions.RowKey` (one turn's `clean_doi` and `BAD_DOIS` test): a row is filed under a key only when the key is its cleaned DOI and not a bad one |
| Retractions.MissingColumnSkipped | ash/ash.py:78-81 | contract of `Retractions.RowKey` on a short row: a row without `OriginalPaperDOI` is read as `""` and skipped |
| Retractions.Kept | ash/ash.py:80-81 | reference definition: the entries with a key, in order |
| Retractions.LoadRows | ash/ash.py:77-83 | the row loop, one row at a time into a `defaultdict(list)`, builds the model's table |
| Retractions.DataOnOpen | ash/ash.py:61-87 | contract of `Retractions.Data` on first access: the first access fails exactly when no row has a usable DOI; otherwise it returns and caches the built table and warns about exactly the keys no pattern matches |
| Retractions.DataCached | ash/ash.py:61-66 | contract of `Retractions.Data` on later accesses: once the table is built, every later access returns it unchanged, without rebuilding or warning again |
| Retractions.DataIsBuildTable | ash/ash.py:61-66 | an access only ever fills the cache with the table built from the dataset |
| Retractions.Dois | ash/ash.py:68-70 | `dois` succeeds exactly when `data` does, and is then its key set |
| Retractions.DoisOnOpen | ash/ash.py:61-83 | contract of `Retractions.Dois` on first access: the key set is exactly the cleaned, not bad DOIs of the dataset's rows, and it fails exactly when no row has one |
| Retractions.ValidateDois | ash/ash.py:89-93 | the loop warns for exactly the DOIs in which no pattern finds a DOI |
| Retractions.WarningsAreValidateDois | ash/ash.py:89-93 | the keys warned about during a build are those `validate_dois` warns about, whatever order the set of keys is listed in |
| Papers.NoticeOf | ash/ash.py:148-157 | a notice succeeds exactly when the record has the three columns. It then carries the nature, the date and `https://doi.org/` + `RetractionDOI`; otherwise it names the first missing column |
| Papers.Comments | ash/ash.py:147-158 | a zombie's comments succeed exactly when every record is complete, and are then one notice per record, in record order |
| Papers.Zombies | ash/ash.py:139-146 | a DOI is a zombie exactly when it is one of the paper's DOIs and is in the table; there are never more zombies than DOIs |
| Papers.BodySucceeds | ash/ash.py:140-158 | the main loop succeeds exactly when every zombie's records are complete |
| Papers.ReportSucceeds | ash/ash.py:138-161 | contract of `Papers.Report`, when it succeeds: `report` succeeds exactly when the paper has no DOI, or the table loads and every record of every zombie is complete |
| Papers.ReportContents | ash/ash.py:138-161 | contract of `Papers.Report`, its lines: a successful report prints, DOI by DOI in paper order, the verdict and, directly under a zombie's verdict, the notices of its records; then each zombie's record list. Read by kind, that is one verdict per DOI, the notices zombie by zombie, and the record lists last |
| Papers.BodyBlocks | ash/ash.py:140-158 | the main loop prints, DOI by DOI in paper order, the DOI's verdict and, directly under it for a zombie, one notice per record in record order |
| Papers.ReportState | ash/ash.py:138-161 | contract of `Papers.Report`, the database: a report without DOIs touches nothing; otherwise, success or `KeyError`, it leaves the table cached by the first lookup and carries that lookup's warnings; a table that cannot load leaves the database as it was |
| Papers.ReportVerdicts | ash/ash.py:140-143 | the verdict lines are one per DOI, in paper order, marked as zombie exactly when the DOI is in the table |
| Papers.EmptyPaperReport | ash/ash.py:138-164 | a paper without DOIs prints nothing, maps nothing, and never loads the table |
| Papers.JsonReportSpec | ash/ash.py:163-164 | contract of `Papers.JsonReport` (`json_report`): `json_report` fails only when the table cannot be loaded; otherwise its keys are exactly the paper's DOIs, each mapped to whether it is in the table |
| Papers.JsonAgreesWithReport | ash/ash.py:141-164 | the JSON value of every DOI is `true` exactly when its printed verdict marks it a zombie |
| Papers.VerdictTextRoundTrip | ash/ash.py:142-143 | a printed verdict line gives back both the DOI and the verdict |
| Papers.CommentTextEnds | ash/ash.py:148-157 | a printed notice line starts with its indent and mark and ends with `see ` and the notice's resolver link |
| Config.Trim | ash/config.py:64-68 | `trim` keeps the representation when `maxlen` is 0 or the representation fits. Otherwise it keeps a prefix and appends `...`; with `maxlen >= 3` the result is exactly `maxlen` long |
| Config.TrimWithinBudget | ash/config.py:64-68 | with `maxlen >= 3`, the result never exceeds `maxlen` |
| Config.TrimIdempotent | ash/config.py:64-68 | with `maxlen >= 3`, trimming twice is trimming once |
| Config.TrimTinyBudgetGrows | ash/config.py:68 | with `maxlen` 1 or 2, Python's negative slice drops only one or two characters, so the result is `maxlen` characters longer than the representation |
| Config.TrimNegativeBudget | ash/config.py:66-68 | a negative `maxlen` keeps all but the last `3 - maxlen` characters (none if there are fewer) and still appends the three-character ellipsis |
| Config.Join | ash/config.py:61 | `sep.join(parts)` is empty for no parts, and otherwise as long as the parts plus one separator between each two |
| Config.LogInputs | ash/config.py:60-61 | `log_inputs` is at most two trimmed parts and a separator long, and empty when both `args` and `kwargs` are empty |
| Config.LogInputsParts | ash/config.py:60-61 | an empty `args` or `kwargs` is dropped; with both present the line is the trimmed `args`, `", "`, then the trimmed `kwargs` |
| Config.LogInputsEmpty | ash/config.py:60-61 | the line is empty exactly when both `args` and `kwargs` are empty |

## Left out

- PDF text extraction, `Paper.from_path` and file opening: a paper is built from already-extracted text (`Papers.FromText`).
- CSV reading and byte decoding. The dataset is a sequence of already-parsed rows, each a string-to-string map, so the `str()` conversion of keys and values is the identity. The CSV reader's `None` values for short rows are not modelled.
- Printing and logging. `report`'s lines are returned as data (`Papers.ReportLine`). The text of a record-list line is Python's `repr` of a list of dicts, which is not modelled: a `Dump` line carries the records themselves. The progress messages and the field-name print of `_build_data` are not modelled.
- `random.choice` in `_build_data`: only whether it raises is modelled, not which record it prints.
- Papers.Report: the lines printed before a `KeyError` are not part of the modelled failure. A failed report carries the missing column, the database and the warnings, but not the verdicts and notices already printed.
- The SICI, ACS and Erlbaum patterns are not scanned concretely. Backtracking, SICI's capturing group and ACS's possessive `++` are not modelled. Lemmas about their output assume `Doi.Anchored`.
- `\d` is read as the ASCII digits. Python's `str` patterns also accept other Unicode decimal digits. The same reading underlies `Doi.Anchored`: SICI's `\d`-led group returns a string starting with an ASCII digit only when `\d` is ASCII, so the real SICI pattern meets `Doi.Anchored` under that reading only.
- `validate_dois` iterates over a set, in an order Python does not fix. The warnings of a build are therefore a set (`Retractions.Warnings`), and `Retractions.WarningsAreValidateDois` relates them to the loop for any order.
- `Papers.FromText`: has no contract of its own; what it extracts is stated by the `Doi` lemmas about `Doi.TextToDois`.
- TOML configuration persistence and the logging decorator of `ash/config.py`: file I/O and side effects.
- The command-line interface, the web upload app, the nox sessions, `notes.py` and `run_cli`: glue around the core.
- The `DOI` class, `path_to_mime_type`, MIME-dispatching `Paper(...)` and `ash.main`, which the tests mention: they are not part of this model.
