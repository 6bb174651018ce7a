# Piano test suite: verified model of its deterministic core

The repository is a Selenium/pytest suite that plays notes on an online piano
and checks that the page URL shows the matching query flag. Around the browser
glue there are four pieces of plain string and map logic. This project models
them in Dafny and proves what they do:

- `runner.py`, module `Runner`. `_to_marker_expr` turns a friendly test
  selection into a pytest `-m` marker expression. Examples are `"all"`,
  `"1,3,7"`, `"scenario10"` or marker words. `main` then assembles the pytest
  argument list.
- `pages/piano_page.py`, module `Piano`, class `PianoPage`. It has four jobs:
  - the lazily filled cache that indexes the notes table by trimmed,
    lower-cased note name;
  - note resolution;
  - normalisation and validation of the URL flag in `send_keys_piano`;
  - the call order of `digit_note`.
- `pages/base_page.py`, module `BasePage`. It holds the click rule of
  `_ensure_mark_active` and the query-token matcher `has_query_flag`.
- `utils/test_data.py`, module `TestData`. `get_scenario_notes` runs over an
  already parsed JSON value.

Two more modules support these:

- `Text` holds the Python string operations the code relies on: `strip`,
  `lower`, `lstrip("?")`, `split("&")`, `join`, `startswith`, and the prefix
  and suffix around a character. Whitespace is modelled on ASCII.
- `Wrappers` holds `Option`, `Result` and `Outcome`.

How the Python is modelled:

- **Loops become methods.** The token loop of `_to_marker_expr` and the
  indexing loop of `_ensure_notes_loaded` are methods with loops. Each is
  proved equal to a specification function (`ScenarioNames` and `OtherTokens`,
  and `Index`), and the properties are proved as lemmas about those functions.
  The argument assembly of `main` has no loop. `BuildPytestArgs` states its
  list outright, for every selection and both flags.
- **Falsy values.** `None` and `""` are both falsy wherever the code tests
  them. So the local `expr` of `_to_marker_expr` is a string, with `""`
  standing for `None`.
- **Browser actions.** A log of actions stands for the browser: clicking the
  mark button, typing a key, and clicking the reset button.
- **Page attributes.** The attribute value the page would report for the
  mark button is a parameter.
- **The notes file.** The parsed items of `notes_map.json` are given to the
  constructor. They come as a sequence of `(flag, entry)` in dictionary
  order.

Where the code and the way the project is described differ, the model follows
the code:

- **runner.py:9.** The selection comment says other text such as
  `e2e and smoke` is used verbatim as the `-m` expression. The code splits it
  into tokens and joins them with `and`, which gives `e2e and and and smoke`.
  `Runner.ExampleAdvancedTextIsNotVerbatim` proves this.
- **Error class.** An unknown note name raises `ValueError`, not a
  lookup-class error.
- **Flags at indexing time.** The index does not filter entries on their
  flag. A table entry whose flag is blank is stored, and it fails only later,
  in `send_keys_piano`.
- **Scenario files.** `get_scenario_notes` expects a top-level `scenarios`
  list indexed by position. The end-to-end tests (tests/test_e2e_scenario1.py
  and tests/test_e2e_scenario3.py) instead read a single `scenario` object
  and do not call `get_scenario_notes`. So the two disagree on the shape of a
  scenario file. The model follows `get_scenario_notes`.

## Model

| member | source | states |
|---|---|---|
| Text.Strip | runner.py:24 | The result is the infix of the input that starts at its first non-whitespace character. Everything after it is whitespace, and it neither starts nor ends with whitespace. It is empty exactly when the input is all whitespace. |
| Text.StripIdempotent | runner.py:24 | Stripping twice gives the same as stripping once. |
| Text.StripNoSpace | runner.py:24 | A string without whitespace is its own strip. |
| Text.Lower | runner.py:34 | Lower-casing keeps the length and lowers each character on its own (ASCII letters only). |
| Text.LowerIdempotent | runner.py:34 | Lower-casing twice is lower-casing once. |
| Text.LowerKeepsClasses | runner.py:34 | Lower-casing keeps every whitespace and digit position, and leaves a digit string unchanged. |
| Text.StripLowerStripped | pages/piano_page.py:37 | A stripped, lower-cased string is already stripped. |
| Text.LStripChar | pages/piano_page.py:51 | `lstrip(c)` returns a suffix of its input. Every removed character is `c`, and the result does not start with `c`. |
| Text.Split | pages/base_page.py:88 | `split(sep)` gives at least one piece. No piece holds `sep`, and joining the pieces with `sep` gives back the input. |
| Text.BeforeFirst | pages/base_page.py:85 | The prefix before the first `c` holds no `c`, and it is followed by `c` or by the end of the input. |
| Text.AfterFirst | pages/base_page.py:85 | The input is the part before the first `c`, then `c`, then the result. |
| Runner.SplitOnSeparators | runner.py:29 | `re.split(r"[,\s]+", s)` yields at least one piece, and no piece holds a comma or whitespace. |
| Runner.Words | runner.py:29 | The reference tokenisation: the maximal runs of non-separator characters. Each run is non-empty and separator-free. |
| Runner.StrippedNonEmpty | runner.py:29 | Definition: the comprehension `[t.strip() for t in pieces if t.strip()]`. Each piece is stripped, the empty results are dropped, and the order is kept. |
| Runner.Tokens | runner.py:29 | Definition: the `re.split` pieces of the stripped selection, passed through `StrippedNonEmpty`. `TokensAreWords` proves this equals `Words`. |
| Runner.TokensAreWords | runner.py:29 | After strip-and-filter, the split pieces are exactly the maximal separator-free runs, in order. So empty tokens never survive. |
| Runner.WordsAtSeparator | runner.py:29 | A separator between two texts splits their tokens: `tokens(a,b) = tokens(a) ++ tokens(b)`. |
| Runner.WordsOfSeparators | runner.py:29 | A text made only of separators has no tokens. |
| Runner.IsScenarioName | runner.py:40 | Definition: what `re.fullmatch(r"scenario(\d+)", s)` accepts, which is `scenario` followed by one or more digits. |
| Runner.Classify | runner.py:34-45 | Definition: one pass of the loop body on a token. If its lower-case form is all digits `N`, it is the scenario `scenarioN`. If its lower-case form is a `scenarioN`, it is that scenario. Any other token goes to the others. |
| Runner.ScenarioNames | runner.py:33-43 | Definition: the list `scenarios` after the loop. It holds the names of the scenario tokens, appended in token order. |
| Runner.OtherTokens | runner.py:33-45 | Definition: the list `others` after the loop. It holds the tokens that are not scenarios, in token order and original case. |
| Runner.ClassifyMeaning | runner.py:33-45 | A token is a scenario exactly when it is all digits or, lower-cased, is `scenario` followed by digits. A digit token `N` becomes `scenarioN`. A `scenarioN` token becomes its lower-case form. Every name produced is a `scenarioN`. |
| Runner.PartitionTokens | runner.py:33-45 | The loop splits the tokens without loss. The scenario names are exactly the names of the scenario tokens, and each is a `scenarioN`. Every token that is not a scenario is among the other tokens in its original case, and every other token is such an input token. The two counts add up to the token count. |
| Runner.ScenarioNamesMembers | runner.py:33-43 | A name is collected exactly when some token classifies as a scenario with that name. |
| Runner.OtherTokensMembers | runner.py:33-45 | Every token that is not a scenario is collected among the other tokens. |
| Runner.OneTokenParts | runner.py:34-45 | A single token adds its scenario name to the scenarios or itself to the others, as `Classify` decides, and nothing else. |
| Runner.ScenarioNamesAppend | runner.py:33-43 | The scenario names of `a + b` are those of `a` followed by those of `b`. With `OneTokenParts`, this fixes their order and their multiplicities. |
| Runner.OtherTokensAppend | runner.py:33-45 | The other tokens of `a + b` are those of `a` followed by those of `b`. With `OneTokenParts`, this fixes their order and their multiplicities. |
| Runner.DigitTokensBecomeScenarios | runner.py:36-37 | Digit-only tokens `N` become `scenarioN`, one for one and in order, and leave no other token. |
| Runner.OtherTokensAllOthers | runner.py:45 | When no token is a scenario, the other tokens are all tokens, in their original case and order. |
| Runner.LexLess | runner.py:51 | Definition: Python's `<` on strings. It is code-point lexicographic order, with a proper prefix first. |
| Runner.KeyLess | runner.py:51 | Definition: the order of the keys `(len(x), x)`. The shorter string comes first, and strings of equal length are ordered by `LexLess`. |
| Runner.KeyLessStrictTotal | runner.py:51 | The key `(len(x), x)` is a strict total order on strings (irreflexive, transitive, total). |
| Runner.Insert | runner.py:51 | Inserting the next element keeps the list strictly sorted by `(len, text)`, with the element set extended by the new one. |
| Runner.SortedUnique | runner.py:51 | `sorted(set(xs), key=(len, x))` is strictly sorted under that key and has exactly the elements of `xs`. Duplicates are removed. |
| Runner.StrictlySortedUnique | runner.py:51 | Two strictly sorted lists with the same elements are equal, so the sorted group is uniquely determined. |
| Runner.SortedUniqueDependsOnSetOnly | runner.py:51 | The group depends only on the set of scenario names, not on their order or repetitions. |
| Runner.ShorterNameFirst | runner.py:51 | `scenario2` precedes `scenario10` under the key, although it follows it lexicographically. |
| Runner.MentionsE2E | runner.py:60 | Definition: the `any(...)` test, which holds when some other token, lower-cased, equals `e2e` or starts with `e2e `. |
| Runner.MentionsE2EOnlyByEquality | runner.py:60 | For separator-free tokens, the `e2e` test holds exactly when some token lower-cases to `e2e`. The `startswith("e2e ")` alternative never decides. |
| Runner.SelectsEverything | runner.py:22-26 | Definition: the two early `return None` cases. These are no selection, an empty or all-whitespace selection, and one whose strip lower-cases to `all`. |
| Runner.Expression | runner.py:47-64 | Definition: the expression built from the stripped selection `s`, the scenario names and the other tokens. With no tokens it is `s`, and with no scenario it is the other tokens joined by ` and `. Otherwise it is `(group)`, where the group is the deduplicated names sorted by `KeyLess` and joined by ` or `. This is preceded by `others and ` when there are others. The whole is prefixed by `e2e and ` unless `MentionsE2E` holds. |
| Runner.MarkerExpr | runner.py:19-64 | Definition: `None` when `SelectsEverything` holds. Otherwise it is the `Expression` of the stripped selection, with the `ScenarioNames` and `OtherTokens` of its `Tokens`. |
| Runner.ToMarkerExpr | runner.py:19-64 | The method, with its token loop, returns exactly `MarkerExpr`. |
| Runner.ClassifyTokens | runner.py:33-45 | The token loop leaves exactly the scenario names and the other tokens of the tokens, in token order. |
| Runner.CombineParts | runner.py:47-64 | The group, the joined other tokens and the `e2e` prefix put together give the expression `Expression`, and the stripped selection when nothing was built. |
| Runner.NoExpressionIffEverything | runner.py:22-26 | There is no expression exactly for `None`, an empty or whitespace-only selection, or `all` in any letter case. |
| Runner.ExampleAllInCapitals | runner.py:25 | `" ALL "` selects everything. |
| Runner.SeparatorsOnlyGiveInput | runner.py:64 | A selection made only of separators returns the stripped selection itself. |
| Runner.ExampleCommasOnly | runner.py:64 | `",,,"` returns `",,,"`. |
| Runner.NoScenarioGivesConjunction | runner.py:55-57 | With no scenario token, the expression is all tokens joined by ` and `, with no parentheses and no prefix. |
| Runner.PrefixRule | runner.py:49-61 | With scenarios, the expression is an optional `others and ` part followed by `(s1 or s2 ...)`, the sorted unique group. It is prefixed by `e2e and ` exactly when no other token equals `e2e` in any case. |
| Runner.ExampleOneThreeSeven | runner.py:8 | `"1,3,7"` gives `e2e and (scenario1 or scenario3 or scenario7)`. |
| Runner.ExampleAdvancedTextIsNotVerbatim | runner.py:9 | `"e2e and smoke"` gives `e2e and and and smoke`, not the verbatim text the comment promises. |
| Runner.ExampleDedupAndOrder | runner.py:49-61 | `"10,SCENARIO2,2"` gives `e2e and (scenario2 or scenario10)`: deduplicated, lower-cased, shortest first. |
| Runner.MarkerExprNonEmpty | runner.py:64 | When there is an expression, it is never the empty string. |
| Runner.MarkerArgs | runner.py:70-72 | The test `if expr:` passes exactly when the selection does not select everything. |
| Runner.BuildPytestArgs | runner.py:68-78 | The argument list is, in order: `-m` and the expression only when the selection yields one; `--headless` only when that setting is on; `--always-screenshot` only when that setting is on. |
| Runner.ShippedSettings | runner.py:10-16 | With the shipped settings (`"all"`, headless, no forced screenshot), no `-m` filter is passed. |
| BasePage.Query | pages/base_page.py:85 | The query holds no `#`. It is what follows the first `?` of the URL before its fragment, or empty when there is no `?`. |
| BasePage.HasQueryFlag | pages/base_page.py:86-87 | An empty query never matches. |
| BasePage.HasQueryFlagMeaning | pages/base_page.py:80-89 | The result is true exactly when the query is non-empty and holds `flag` as a token: `&`-free, with `&` or the end of the query on both sides. |
| BasePage.TokenOfJoin | pages/base_page.py:88-89 | For `&`-free pieces, `flag` is one of the pieces exactly when it is a delimited token of their `&`-join. |
| BasePage.SplitAtSeparator | pages/base_page.py:88 | `a&b`, for `&`-free `a` and `b`, splits into exactly `[a, b]`. |
| BasePage.ExampleKeylessQuery | pages/base_page.py:82-85 | The keyless query of `https://www.musicca.com/es/piano?1g` carries `1g`. |
| BasePage.ExampleSecondToken | pages/base_page.py:82-83 | `?a&1g` carries `1g`. |
| BasePage.ExamplePrefixIsNoMatch | pages/base_page.py:89 | `?1gx` does not carry `1g`: the comparison is exact. |
| Piano.NormalizeNote | pages/piano_page.py:37 | Definition: `strip().lower()`, the normal form of a note name. |
| Piano.NormalizeNoteIdempotent | pages/piano_page.py:37 | Trimming and lower-casing a normalised name changes nothing. |
| Piano.NoteKey | pages/piano_page.py:37 | Definition: the entry's `note`, or `""` when it is missing, normalised. |
| Piano.Indexable | pages/piano_page.py:38-39 | Definition: the guard `if note and key`. It holds for a non-empty note key and a truthy key. |
| Piano.Slot | pages/piano_page.py:36-40 | Definition: what one loop pass stores for the item `(flag, entry)`. An indexable entry is stored as `{key, flag}` under its note key, and any other entry stores nothing. |
| Piano.Index | pages/piano_page.py:35-40 | Definition: the cache built by storing the `Slot` of each item in iteration order. A later entry overwrites an earlier one under the same key. |
| Piano.StoredKeys | pages/piano_page.py:35-40 | Storing the items in turn gives a map whose keys are exactly the keys some item stores under. |
| Piano.StoredLastWins | pages/piano_page.py:40 | The value under a key is the one of the last item that stores under it. |
| Piano.StoredFromSlots | pages/piano_page.py:35-40 | Every stored pair was stored by some item. |
| Piano.IndexKeys | pages/piano_page.py:36-40 | The cache holds exactly the trimmed, lower-cased notes of the entries with a non-blank note and a truthy key. |
| Piano.IndexLastWins | pages/piano_page.py:40 | Under a note key, the cache stores `{key, flag}` of the last such entry in iteration order. |
| Piano.SlotWellFormed | pages/piano_page.py:37-40 | An entry is stored exactly when it is indexable. It is then stored under a non-empty normalised note, with a non-empty key and its own table flag. |
| Piano.IndexWellFormed | pages/piano_page.py:36-40 | Every cached note key is non-empty and normalised, and every cached key is non-empty. |
| Piano.Resolve | pages/piano_page.py:44-48 | Definition: resolution against a loaded cache. The name, with `None` read as `""`, is normalised. If the result is a key of the cache, the stored `(key, flag)` is returned. Otherwise it is a `ValueError` whose message is the fixed prefix and the name as given. |
| Piano.ResolveMeaning | pages/piano_page.py:44-46 | A name resolves exactly when some indexable entry has its trimmed, lower-cased form (`None` read as `""`). Otherwise the `ValueError` message is the fixed prefix followed by the name as given. |
| Piano.ResolveLastEntry | pages/piano_page.py:47-48 | A resolved name returns exactly the key and flag of the last entry stored under its note key. |
| Piano.ResolveIgnoresCaseAndBlanks | pages/piano_page.py:44 | Names that agree after trimming and lower-casing resolve alike. |
| Piano.ExampleSpacedUpperCase | pages/piano_page.py:44 | `" C4 "` and `"c4"` have the same note key. |
| Piano.BlankNameFails | pages/piano_page.py:44-46 | `None` or a blank name never resolves. |
| Piano.ChosenFlag | pages/piano_page.py:51 | Definition: `expected_flag or expected_case or ""`, the first truthy argument, or `""` when neither is truthy. |
| Piano.ExpectedFlag | pages/piano_page.py:51 | Definition: `ChosenFlag`, stripped, with its leading `?` characters removed. |
| Piano.ExpectedFlagMeaning | pages/piano_page.py:51 | The flag is a suffix of the trimmed first truthy argument. What was removed is only `?`, and the flag never starts with `?`. It is empty when no argument is truthy. |
| Piano.FlagArgumentWins | pages/piano_page.py:51-53 | A truthy `expected_flag` decides alone. When it is only whitespace, the flag is empty even if `expected_case` is valid. |
| Piano.ExampleQuestionMarkFlag | pages/piano_page.py:51 | `"?1g"` normalises to `1g`. |
| Piano.ExampleBlankedFlag | pages/piano_page.py:51 | `" 1g "` normalises to `1g`. |
| Piano.PianoPage.constructor | pages/piano_page.py:20-22 | A new page starts with no cache and nothing done. |
| Piano.PianoPage.EnsureNotesLoaded | pages/piano_page.py:30-40 | The indexing loop leaves the cache equal to the index of the table. It reads the table only when the cache is unset, so an already set cache stays as it was. The table is read at most once per page, and nothing is sent to the browser. |
| Piano.PianoPage.ResolveNote | pages/piano_page.py:42-48 | The cache is loaded, and the result is the resolution of the name against the indexed table. |
| Piano.PianoPage.SendKeysPiano | pages/piano_page.py:50-62 | An empty normalised flag raises `ValueError` with the fixed message before anything is typed. Otherwise the key is typed and then the reset button clicked. The URL wait and the assertion between those two steps are not stated. The cache is untouched. |
| Piano.PianoPage.TypeWithFlag | pages/piano_page.py:52-62 | With an empty flag, the `ValueError` with the fixed message is raised and nothing is typed. Otherwise the key is typed and then the reset button is clicked. The URL wait and the assertion between those two steps are not stated. |
| BasePage.NeedsMarkClick | pages/base_page.py:74 | Definition: the click test `classes != "mark active"`. A missing class attribute (`None`) also needs the click. |
| Piano.PianoPage.EnsureMarkActive | pages/base_page.py:71-78 | The mark is clicked exactly when its class is not `mark active`, so an active mark is left alone. |
| Piano.PianoPage.DigitNote | pages/piano_page.py:65-70 | The mark is activated first. An unresolvable name then fails with its `ValueError` before any key is typed. A resolved name has its key typed exactly when its stored flag normalises to a non-empty flag. |
| TestData.ScenarioNotes | utils/test_data.py:43-52 | Each of these gives `[]`: data that is not a dictionary, a missing or non-list `scenarios`, and an index below 0 or from the list length on. |
| TestData.ScenarioNotesOfEntry | utils/test_data.py:49-52 | Without a selected entry, or with a non-object entry, the result is `[]`. For an object entry it is the entry's `notes` value unchanged, or `[]` when absent. |
| TestData.ScenarioNotesLocal | utils/test_data.py:43-52 | The result depends only on `data["scenarios"][scenario_index]`. |
| TestData.UpdateOtherScenario | utils/test_data.py:43-52 | Replacing another scenario leaves the selected scenario's notes unchanged. |
| TestData.ExampleTwoScenarios | utils/test_data.py:49-52 | In a two-scenario file, index 1 gives the second scenario's notes, and indices 2 and -1 give `[]`. |

## Left out

- **Browser interaction.** These are foreign calls with timing:
  - `visit`, `click`, `type_text`, `type_keys` and `click_if_visible`;
  - element look-ups and attribute reads;
  - the `WebDriverWait` polls and the `assert` on the current URL in `send_keys_piano` (pages/piano_page.py:57-63), which wait on and read live browser state.

  Their effect is reduced to the action log. Selenium's `TimeoutException` from a wait, or an `AssertionError` from the URL check, is not modelled.
- Piano.PianoPage.SendKeysPiano: its contract ends once the reset click is issued. It does not state the URL wait and assertion before that click (pages/piano_page.py:57-60), or the wait after it (pages/piano_page.py:63). These depend on the live page, and either of the first two can raise before the click.
- Piano.PianoPage.TypeWithFlag: the same holds for the typing and reset click it performs for `SendKeysPiano`. The URL wait and assertion between them, and their exceptions, are not stated.
- **File loading.** `load_json_from_resources` and `_resources_dir` (utils/test_data.py:6-30) are filesystem access and `json.load`. Their result is a parameter: the parsed notes table for `PianoPage`, and the JSON value for `ScenarioNotes`.
- **Malformed notes tables.** The notes table is assumed to parse to an object of objects with string `note`/`key` fields (or none). A non-string note or key, on which the code would crash or test other truthiness, is not modelled.
- **Unicode.** Non-ASCII whitespace, digits and case mappings (Python's `str.strip`, `\s`, `\d` and `str.lower` on Unicode) are not modelled. Whitespace is the ASCII set `strip` uses, digits are `0`-`9`, and only `A`-`Z` are lowered.
- **URL parsing.** `urlsplit` is modelled only as far as `.query` goes: the text after the first `?` of the part before the first `#`. Scheme and netloc parsing are not modelled. Several behaviours of CPython's `urlsplit` are therefore missing, among them the following. It first deletes every tab, carriage return and newline from the URL, whereas the model keeps them: for `/p?1<TAB>g` the model's query is `1<TAB>g`, not `1g`, and `has_query_flag` with `1g` is false where Python gives true. It also raises `ValueError` in cases where the model never fails: an unbalanced `[` or `]` in the network location; in recent versions, a bracketed host that is not a valid IPv6 or IPvFuture address (`http://[x]/p?1g`, where `has_query_flag` with `1g` is true in the model); and a non-ASCII network location whose NFKC form contains one of `/?#@:`.
- **`pytest.main`.** The `pytest.main` call and the process exit code in runner.py are not modelled, nor is the selected tests' execution.
- **Logging.** Logging calls everywhere are not modelled.
- **Other code.** utils/driver_factory.py, conftest.py and tests/*.py are browser bootstrap and scenario playback with `sleep` pacing. They hold no logic beyond the calls above and are not part of this model.
- **`PianoPage` and `BasePage`.** Inheritance is not represented. `_ensure_mark_active`, inherited from `BasePage`, is the method `EnsureMarkActive` of `PianoPage`, with the rule itself defined as `BasePage.NeedsMarkClick`.
