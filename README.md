# LeetCode C++ solution fetcher: a Dafny model

`script.py` walks a fixed list of LeetCode problem numbers. For each number it
performs four steps:

1. It looks the problem up in the bulk catalog, getting the slug, title and difficulty.
2. It fetches the problem's C++ starter snippet and content.
3. It asks a chat-completion service to finish the snippet.
4. It strips Markdown fences from the reply and saves it as
   `Leetcode/<difficulty>/<number>-<sanitised title>.cpp`, under a two-line header.

After each save of a problem other than the last, it pauses ten seconds.

This project models the deterministic rules inside that plumbing and proves what they guarantee:

- **`PyStr`**: the Python string built-ins the script relies on:
  - `strip`, with Python's exact Unicode whitespace set;
  - `startswith` and `endswith`;
  - the position of the first newline, where `split('\n', 1)` cuts;
  - `lower` and `isalnum`, both for ASCII;
  - `str(int)`, with its inverse.
- **`Sanitize`**: `sanitize_filename`.
- **`Catalog`**: the difficulty map and the linear catalog search.
  - `GetSlugTitleDifficulty` is the search loop, proved against the recursive specification `Lookup`.
- **`Snippets`**: the selection part of `get_cpp_snippet`: the three skip reasons, and the first "C++" snippet.
- **`Completion`**: the post-processing of the completion reply.
  - An opening fence with no line break raises inside the `try`, so the error text is returned.
- **`Persistence`**: `save_solution`: directory, file name, header and content, and the effect of one save on a file tree.
  - The header's URL is built from the lower-cased sanitised title, not from the slug. "Sort Colors" gives `.../problems/sortcolors/`, while its slug is `sort-colors`. The model reproduces this as written.
- **`Pipeline`**: the loop of `main`, as the method `ProcessAll`.
  - It runs over a list of requests. Each request is a problem number together with what the three services answered for it.
  - It produces a log of `Saved` and `Paused` events.
  - Lemmas over the log prove:
    - the saves follow the order of the list;
    - a pause follows every save except the log's last event, every pause comes right after a save, and the log ends in a save exactly when the last problem was saved;
    - distinct problem numbers never write the same file;
    - for distinct problem numbers, the final tree holds every saved file's header and code (`RunWrites`); otherwise the last write to a path wins (`ApplySavesOverrides`);
    - re-running with the same answers leaves the tree unchanged.

A skipped problem gets no pause: each skip path `continue`s before the sleep, so the script sleeps only after saving a problem other than the last (script.py:117-135).

## Model

| member | source | states |
|---|---|---|
| PyStr.IsSpace | script.py:83 | the code points `str.isspace` accepts, which `strip()` removes; `StripUnique` characterises `strip()` by it |
| PyStr.Strip | script.py:83 | `strip()` leaves no whitespace at either end and never lengthens the text |
| PyStr.FirstNonSpace | script.py:83 | the leading part `strip()` removes is all whitespace, and it stops at a non-whitespace character or the end |
| PyStr.EndOfNonSpace | script.py:83 | the trailing part `strip()` removes is all whitespace, and it stops after a non-whitespace character or at the start |
| PyStr.StripIsSlice | script.py:83 | the result is the slice of the input between a whitespace-only prefix and a whitespace-only suffix |
| PyStr.StripUnique | script.py:83 | `strip()` is characterised: whitespace-only borders around a stripped middle give exactly that middle |
| PyStr.StripIdempotent | script.py:91 | stripping an already stripped text changes nothing |
| PyStr.StripPadded | script.py:83 | whitespace added around a text does not change its strip |
| PyStr.IsAlnum | script.py:97 | `c.isalnum()` for ASCII letters and digits; `SanitizeCharacters` proves the sanitised name holds exactly those characters of the title, with '-' and '_' |
| PyStr.LowerChar | script.py:107 | `lower()` on one character of ASCII text: a capital becomes the letter 32 code points later, anything else is kept |
| PyStr.Lower | script.py:107 | `lower()` on ASCII text keeps the length and maps each character to its lower case |
| PyStr.IndexOf | script.py:87 | the first '\n', where `split('\n', 1)` cuts: absent exactly when there is no newline, and otherwise the first one |
| PyStr.StartsWith | script.py:86 | the `startswith` test, used by `HasOpener` and by the error-prefix guard of `ProcessItem`; `OpenerLine` and `UnfencedReply` prove both outcomes |
| PyStr.EndsWith | script.py:88 | the `endswith` test, used by `CutClosingFence`, whose contract gives the cut exactly when it holds |
| PyStr.IntRoundTrip | script.py:101 | `str(n)` is an integer literal that parses back to `n` |
| PyStr.IntToDecimal | script.py:101-106 | `{problem_number}` is `str(n)`: `IntRoundTrip` proves it a literal that parses back to `n`, `DecimalSign` that it starts with '-' iff `n` is negative |
| PyStr.DecimalSign | script.py:101 | `str(n)` is never empty and starts with '-' iff `n` is negative |
| PyStr.DecimalDashSplit | script.py:101 | `str(n) + "-" + rest` determines both `n` and `rest` |
| Sanitize.PassesFilter | script.py:97 | the comprehension's test `c.isalnum() or c in "-_ "`; `KeepFiltered` keeps only characters that pass it, and `SanitizeIsSafeChars` proves the whole sanitiser keeps exactly the safe ones, in order |
| Sanitize.KeepFiltered | script.py:97 | the comprehension keeps only input characters that are alphanumeric or one of `-_ ` |
| Sanitize.RemoveSpaces | script.py:97 | `replace(" ", "")` keeps only input characters and no space |
| Sanitize.SanitizeFilename | script.py:96-97 | every character of a sanitised name is alphanumeric, `-` or `_` |
| Sanitize.SafeCharsConcat | script.py:97 | the safe-character filter of a concatenation is the concatenation of the filtered parts |
| Sanitize.SafeChars | script.py:97 | reference filter: keeps exactly the safe characters of the input, never lengthening it |
| Sanitize.SanitizeIsSafeChars | script.py:97 | filtering on `-_ ` and then deleting spaces is the single safe-character filter |
| Sanitize.SanitizeCharacters | script.py:97 | a character is in the sanitised name iff it is a safe character of the title; no space survives; never longer than the title |
| Sanitize.SanitizeIdempotent | script.py:97 | sanitising twice equals sanitising once |
| Sanitize.SanitizeSubsequence | script.py:97 | the sanitised name is a subsequence of the title, keeping its order |
| Sanitize.SanitizeConcat | script.py:97 | sanitising a concatenation sanitises each part |
| Sanitize.SanitizeOfSafe | script.py:97 | a name made only of safe characters is unchanged |
| Catalog.DifficultyMap | script.py:26 | `difficulty_map`: `DifficultyOf` proves the three levels it names and the "Unknown" default |
| Catalog.DifficultyOf | script.py:26-27 | level 1, 2, 3 give "Easy", "Medium", "Hard", each iff that level; any other level gives "Unknown"; never a '/' |
| Catalog.MetadataOf | script.py:23-28 | the returned `(slug, title, difficulty)`: `LookupFindsFirst` proves the search returns it for the first matching entry |
| Catalog.Lookup | script.py:21-29 | `None` (the `(None, None, None)` return) iff no entry has the requested id; a hit carries a known difficulty name |
| Catalog.LookupFindsFirst | script.py:21-28 | the result is the first matching entry's slug, title and mapped difficulty, whatever matches follow |
| Catalog.GetSlugTitleDifficulty | script.py:19-29 | the early-return search loop returns exactly `Lookup` |
| Snippets.FirstCppCode | script.py:60 | `next(...)` gives `None` when no snippet is in "C++" |
| Snippets.FirstCppCodeIsFirst | script.py:60 | `next(...)` gives the code of the first "C++" snippet |
| Snippets.SelectSnippet | script.py:50-66 | skips for a missing question iff it is missing, and for no snippets iff the list is empty; a selection is the first C++ code, non-empty, with the content defaulting to "" |
| Snippets.ContentOf | script.py:65 | `question_data.get("content", "")`: `SelectSnippet` proves a selection carries this content |
| Snippets.SelectFirstCpp | script.py:60-66 | with snippets present, the first "C++" snippet alone decides: its non-empty code is selected, otherwise the problem is skipped |
| Snippets.SelectNoCpp | script.py:60-63 | snippets all in other languages are skipped for lack of C++ |
| Completion.AfterFirstLine | script.py:87 | `split('\n', 1)[1]` fails iff there is no newline, and otherwise is the text after the first newline |
| Completion.RemoveFences | script.py:86-91 | fails (raises) iff the text has an opener and no newline; otherwise the result is stripped |
| Completion.HasOpener | script.py:86 | the opening-fence test: `OpenerWithoutNewline` and `OpenerLine` prove that with it the first line is dropped, or the error text returned when there is no newline; `UnfencedReply` that without it nothing is dropped |
| Completion.OpenerLine | script.py:86-91 | with an opener and a newline, the whole first line goes, whatever follows, and a final "```" is then cut and the rest stripped |
| Completion.TruncatedReply | script.py:86-91 | a reply with an opening fence and no closing fence, such as one cut off by the token limit, gives back the text after the first line, unchanged when that text has no surrounding whitespace |
| Completion.CutClosingFence | script.py:88-89 | a text ending in "```" is the result followed by "```"; any other text is kept unchanged |
| Completion.GenerateSolution | script.py:76-94 | the result is always stripped; a raised call gives "// OpenAI API error." |
| Completion.UnfencedReply | script.py:83-91 | a reply with no fences comes back merely stripped |
| Completion.OpenerWithoutNewline | script.py:86-94 | an opener with no newline yields the error text |
| Completion.FencedReply | script.py:83-91 | a reply fenced by "```cpp" or "```c++" (with any rest of the opening line) and "```", padded with whitespace, gives the inner code stripped |
| Completion.FencedCppReply | script.py:83-91 | the common "```cpp\n<code>\n```" reply gives the code stripped |
| Completion.ClosingFenceOnly | script.py:88-91 | with only a closing fence, the text before the final "```" is returned stripped |
| Completion.RemoveClosingFence | script.py:86-91 | without an opener, a text ending in "```" loses exactly those three characters and is stripped |
| Persistence.UrlSlug | script.py:107 | the URL segment has only lower-case letters, digits, `-` and `_` |
| Persistence.SaveSolution | script.py:99-108 | the file is `Leetcode/<difficulty>/<file name>`; its text is the header followed by the code unchanged |
| Persistence.SolutionFileName | script.py:101 | `f"{problem_number}-{sanitized_title}.cpp"`: `FileNameHasNoSeparator` proves it has no '/' and ends in ".cpp", `SolutionFileNameInjective` that it determines the number and sanitised title |
| Persistence.SolutionDir | script.py:102 | `Path(SAVE_DIR) / difficulty`: `SaveSolution` proves it is the directory written to |
| Persistence.SolutionPath | script.py:102-104 | the file path: `SolutionPathInjective` proves that, for difficulties without a "/", equal paths mean equal numbers, difficulties and sanitised titles; `SolutionPathShape` that it lies under `SAVE_DIR` |
| Persistence.ProblemLine | script.py:106 | the first header line: `NoNewlineInProblemLine` proves it has no line break for a one-line title |
| Persistence.UrlLine | script.py:107 | the second header line: `NoNewlineInUrlLine` proves it has no line break |
| Persistence.Header | script.py:106-107 | the two header lines and the blank line: `HeaderLines` proves exactly three line breaks, ending in a blank line |
| Persistence.FileNameHasNoSeparator | script.py:101 | the file name has no '/' and ends in ".cpp" |
| Persistence.SolutionFileNameInjective | script.py:101 | the file name determines the number and the sanitised title |
| Persistence.SolutionPathInjective | script.py:100-104 | equal paths mean equal numbers, difficulties and sanitised titles |
| Persistence.HeaderLines | script.py:106-107 | for a one-line title the header has exactly three line breaks and ends in a blank line |
| Persistence.Persist | script.py:102-108 | a save adds the root and difficulty directories and replaces that one file's text; other files keep theirs |
| Sanitize.SanitizeSortColors | script.py:97 | "Sort Colors" sanitises to "SortColors" |
| Persistence.SortColorsExample | script.py:100-107 | problem 75 "Sort Colors" at "Medium" goes to Leetcode/Medium/75-SortColors.cpp, and its URL names "sortcolors", not the slug "sort-colors" |
| Pipeline.ProcessItem | script.py:116-131 | a catalog miss, a snippet skip or a raised completion means no save; a save carries the number, the catalog title and difficulty, and the post-processed completion, which is neither blank nor the error text |
| Pipeline.SkipsUnknownProblem | script.py:116-119 | a number the catalog lacks, or whose slug is empty, is skipped |
| Pipeline.SkipsMissingSnippet | script.py:121-124 | a snippet skip, an empty snippet or empty content means a skip, whatever the catalog said |
| Pipeline.SkipsBadCompletion | script.py:126-129 | a blank completion, or one starting with "// OpenAI API error", is skipped |
| Pipeline.SavesWhenGuardsPass | script.py:116-131 | past the three guards, the problem is saved with its number, the catalog title and difficulty, and the completion |
| Pipeline.SavesFencedReply | script.py:116-131 | a found problem with a snippet and content, whose completion is fenced "```cpp", is saved with the stripped inner code |
| Pipeline.ProcessAll | script.py:112-135 | the loop with its `continue` guards produces exactly the log `RunLog`: per problem, nothing, a save, or a save and then a pause unless it is the last |
| Pipeline.StepEvents | script.py:131-135 | one iteration's events: `StepEventsCounts` proves it logs the save, if any, and a pause only after a save of a non-last problem |
| Pipeline.LogUpTo | script.py:113-135 | the log after the first iterations: `LogSavesUpTo`, `PausesUpTo`, `PausesFollowSavesUpTo` and `SavesFollowedUpTo` prove its saves, pause count and ordering |
| Pipeline.RunLog | script.py:113-135 | the log of a whole run: `ProcessAll` computes it; `LogSaves`, `PauseAfterEverySaveButLast`, `RunPausesFollowSaves` and `RunSavesThenPause` prove its properties |
| Pipeline.StepEventsCounts | script.py:131-135 | one iteration logs its save, if any, and a pause only after a save of a non-last problem |
| Pipeline.LogSaves | script.py:113-131 | the saves in the log are exactly the passing problems' saves, in list order |
| Pipeline.PauseAfterEverySaveButLast | script.py:131-135 | pauses number the saves, less one when the last problem was saved |
| Pipeline.RunPausesFollowSaves | script.py:131-135 | every pause comes right after a save |
| Pipeline.RunSavesThenPause | script.py:131-135 | every save that is not the log's last event is followed by a pause, and the log ends in a save exactly when the last problem was saved |
| Pipeline.ProblemNumbersDistinct | script.py:16 | the problem list has no repeated number |
| Pipeline.SavedCallsFromRequests | script.py:113-131 | every save is for a requested number and has a known difficulty |
| Pipeline.SavedNumbersDistinct | script.py:113-131 | with distinct requested numbers, no number is saved twice |
| Pipeline.PathsDiffer | script.py:99-104 | saves of two different numbers with known difficulties write different paths |
| Pipeline.WriteOf | script.py:131 | the file the `save_solution` call writes: `PathsDiffer` proves two calls for different numbers, with difficulties from `DifficultyOf`, write different paths |
| Pipeline.Writes | script.py:131 | the writes of a run's saves, one per save and in order |
| Pipeline.SavedPathsDistinct | script.py:99-104 | saves for distinct numbers write distinct files |
| Pipeline.ApplySaves | script.py:102-108 | the tree after the writes, one `save_solution` after another: `ApplySavesOverrides`, `RerunIsIdempotent` and `ApplySavesFiles` prove what it holds |
| Pipeline.ApplySavesOverrides | script.py:102-108 | the saves add their directories and override the files they write, the last write winning; nothing else changes |
| Pipeline.RerunIsIdempotent | script.py:102-108 | applying the same saves again leaves the tree unchanged |
| Pipeline.ApplySavesFiles | script.py:102-108 | when no two saves share a path, each saved file holds its own header and code, and untouched files keep their text |
| Pipeline.RunWrites | script.py:112-135 | a run over distinct numbers saves in list order, each number at most once, and leaves each saved file with its header and code |
| Pipeline.ScriptRun | script.py:113-131 | the script's own run never writes the same file twice |

## Left out

- Network I/O is not modelled: the catalog download, the GraphQL request and its query text, and JSON decoding (script.py:20, 32-49). What they return is an input of the model (`Pipeline.Upstream`), one per problem.
- The completion call, its parameters and the prompt text (script.py:69-82) are not modelled: they only feed a foreign service. Whether the call raised or returned text is an input (`Completion.Reply`). Any exception inside the `try` is the `Raised` case or a failing `split`.
- Filesystem effects are reduced to paths and text: directory creation and file writing (script.py:103-108) appear as the `FileTree` update, with no encoding or I/O errors.
- `time.sleep`, `print`, `load_dotenv`, the API key globals and the unused `BeautifulSoup` import are not modelled. A sleep appears only as a `Paused` event; printing has no effect on state.
- Crashes that end the whole script are not modelled. These include a failed HTTP call, a null `data` object, a snippet before or at the first "C++" one that has no `lang`, a first "C++" snippet with no `code`, and a null title of a problem that reaches `save_solution`: each raises outside any `try`.
- PyStr.IsAlnum, Sanitize.SanitizeFilename: `isalnum` is taken as ASCII letters and digits. Python also accepts non-ASCII letters and digits, which the model drops.
- PyStr.LowerChar, PyStr.Lower, Persistence.UrlSlug: `lower` maps ASCII capitals only; Python also lowers other capitals, and a few of them to two characters. Under the ASCII `isalnum`, a sanitised name holds no other letters, so nothing is lost there.
- Snippets.SelectSnippet: an empty `question` object `{}` is falsy in Python and takes the "could not fetch" branch. The model gives it the "no snippets" reason; both skip the problem with no other effect.
- Snippets.SelectSnippet: a JSON null `content` is read as "". Both the null and the empty string fail the `not content` guard in `main`, so the outcome is the same.
- Pipeline.ProcessAll: the loop runs over any list of requests. The script's own list is `ProblemNumbers`, and `ScriptRun` states the property for that list.
