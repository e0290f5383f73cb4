# Rosetta Code page parser — a Dafny model

`parse.py` turns the wikitext of one Rosetta Code task page into a cleaned
task description and the solution code for each of four accepted
languages (Python, C, C++ and JavaScript).

- A state machine (`parse_rosettacode`) reads the page line by line.
  - It collects the task text and one raw section per accepted language label.
  - It then cleans each section with `clean_solution`.
  - It keeps the sections whose cleaned text has at least 60 characters.
- `clean_solution` picks the longest `<syntaxhighlight …>…</syntaxhighlight>` block (`extract_syntaxhighlight`).
- `clean_task` flattens the task text: it folds wiki and external links, removes category tags and drops some leading boilerplate.
- `language_lookup` decides which labels are accepted.

The project is organised in these modules:

| file | module | what it holds |
|---|---|---|
| `wrappers.dfy` | `Wrappers` | `Option` and `Result` |
| `pystr.dfy` | `PyStr` | the Python `str` operations the parser uses, with Python's edge cases |
| `languages.dfy` | `Languages` | `language_lookup`, the whitelist and `min_solution_len` |
| `code_blocks.dfy` | `CodeBlocks` | `extract_syntaxhighlight` (a specification plus the source's loop, proved equal) and `clean_solution` |
| `task_text.dfy` | `TaskText` | `strip_links`, `remove_categories` and `clean_task` |
| `segmenter.dfy` | `Segmenter` | `parse_rosettacode` |

`parse_rosettacode` has three layers:
- the functions `Step`, `Run` and `Parse`;
- the methods `Feed`, `Segment`, `Filter` and `ParseRosettaCode`, which follow the source's loops and are proved equal to those functions;
- lemmas about the functions.

Each regular-expression substitution is written as a left-to-right scan that reproduces what the regex engine does:
- greedy `.*` backtracks to the last `|` on the line after which the rest of the pattern matches;
- lazy `.*?` stops at the first `]]`;
- `.` does not match a newline;
- `[^]]` does match a newline.

Where the program can fail, the model returns a `Failure` value:
- `HeaderLanguageMissing`: a `{{trans` line before any header makes the source concatenate `None`.
- `TransFieldsMissing`: a `{{trans` line without a `|` field makes the source index out of range.
- `NeverReturns`: a `<syntaxhighlight` with no `>` after it. `find` answers -1, the index returns to 0 and the scan never ends.

Some behaviour of the code differs from how the parser is usually described. The model follows the code:
- `clean_task` is not idempotent. `";;x"` becomes `";x"` and then `"x"` (`CleanTaskNotIdempotent`).
- Only the exact prefixes `Task:` and `task:` are dropped, with any whitespace after them or none. After a dropped `;`, whitespace is not stripped.
- Unmarked lines are stored with a trailing `"\n"`, and `clean_task` strips only on the left. So the cleaned task keeps a trailing newline unless cleaning empties it: the task `Compute the sum` comes out as `Compute the sum\n` (`TrailingNewlineExample`).
- `{{incorrect` lines are caught by the `{{in` output test first. They close the open section instead of being skipped (`IncorrectMarkerEndsSection`).
- `{{trans` takes the field after `trans`, and a run can abort on it (see above). No other operation fails.
- `sections` holds only accepted labels. The output is keyed by the raw label (`C++11`, `Python 3`), not by the whitelist entry.
- The output is produced even when the task text is empty. Dropping such pages is the driver's job.
- The emptiness test in `clean_task` comes before the boilerplate is dropped. A task that is only `Task:` is not empty when tested, yet cleans to `""` (`TaskLabelOnlyEmpties`).
- `clean_solution` falls back to the whole section when the best block is empty. This includes the case where a block exists but has empty content (`CleanSolutionEmptyBlocks`).

## Model

| member | source | states |
|---|---|---|
| Languages.Lookup | parse.py:82-88 | result is None or a whitelist entry; exact entries map to themselves; otherwise the answer is a non-`C` entry the label starts with; None exactly when no non-`C` entry prefixes a non-whitelisted label |
| Languages.FirstPrefix | parse.py:85-88 | the answer is in the list, prefixes the label and is not `C`; None iff no non-`C` entry prefixes the label |
| Languages.FirstPrefixIsEarliest | parse.py:85-87 | the prefix search answers the earliest matching entry in list order |
| Languages.PrefixCandidatesExclusive | parse.py:80-87 | no label is prefixed by two non-`C` entries, so the whitelist's order never decides the answer |
| Languages.LookupCFamily | parse.py:82-88 | `C` maps to `C`; `C++11` maps to `C++`, never to `C` |
| Languages.LookupRejects | parse.py:85-88 | `C#` and `Cobol` are rejected: `C` takes no part in prefix matching |
| Languages.LookupLongLabels | parse.py:85-87 | `JavaScript from Python` maps to `JavaScript`, `Python 3` to `Python` |
| CodeBlocks.Pick | parse.py:63-65 | the kept text is the old best, or strictly longer than it and no longer than the input |
| CodeBlocks.Extracted | parse.py:45-70 | the extracted text is never longer than the input |
| CodeBlocks.ExtractSyntaxHighlight | parse.py:45-70 | the source's scanning loop, with its stack and its strict `>` comparison, returns exactly `Extracted(s)`, and None when it would loop forever |
| CodeBlocks.ExtractedIsFirstLongest | parse.py:55-70 | the result is "" or the content `s[start..stop]` of a matched pair; no matched pair is longer; every pair whose end tag comes earlier is strictly shorter (ties go to the first) |
| CodeBlocks.PickFirstLongest | parse.py:63-65 | the strict `>` keeps the first pair of greatest length |
| CodeBlocks.PairsWellFormed | parse.py:56-63 | every matched pair starts one past the `>` of a start tag and stops at a later end tag inside the input |
| CodeBlocks.MatchIgnoresTrailingOpen | parse.py:56-59 | a start tag after the last tag of the input contributes no pair |
| CodeBlocks.TokensOpensAbove | parse.py:55-59 | the scan meets start tags at increasing positions, all at or after where it resumed |
| CodeBlocks.MatchAvoidsUnclosed | parse.py:56-63 | no pair the matching produces starts at a start tag that is still on the stack when the tags run out |
| CodeBlocks.UnclosedContributeNothing | parse.py:56-66 | over a whole input, every start tag left unclosed at the end contributes no pair |
| CodeBlocks.ExtractTerminates | parse.py:55-59 | the scan ends exactly when every start tag in the input has a `>` somewhere after it |
| CodeBlocks.TokensDefinedIff | parse.py:55-68 | a scan resumed at `i` ends exactly when every start tag from `i` on has a later `>` |
| CodeBlocks.ExtractedWithoutStartTag | parse.py:51-70 | without any start tag, end tags are ignored and the result is "" |
| CodeBlocks.CleanSolution | parse.py:72-76 | None exactly when extraction never returns; otherwise no longer than the input and without leading whitespace |
| CodeBlocks.CleanSolutionFallback | parse.py:73-76 | text without tags and without `pre` markers comes back left-stripped |
| CodeBlocks.CleanSolutionUsesBlock | parse.py:73-76 | a non-empty block without `pre` markers is the solution, left-stripped |
| CodeBlocks.CleanSolutionStripsPre | parse.py:73-76 | text without `<` wrapped in `<pre>`…`</pre>` comes back with both markers deleted and left-stripped |
| CodeBlocks.CleanSolutionEmptyBlocks | parse.py:73-76 | when every matched block is empty, the whole section is the solution, left-stripped |
| PyStr.FindFrom | parse.py:57 | `find` answers the first occurrence at or after the start, or -1 when there is none |
| PyStr.PySlice | parse.py:63 | Python slicing with clamped and negative bounds; it agrees with the plain slice on in-range bounds |
| PyStr.LStrip | parse.py:76 | `lstrip` drops exactly the leading whitespace: the result is a suffix, starts with a non-space, and everything dropped is space |
| PyStr.Remove | parse.py:75 | `replace(pat, '')` never lengthens the text |
| PyStr.RemoveAbsent | parse.py:75 | removing a pattern that does not occur changes nothing |
| PyStr.RemoveAtHead | parse.py:75 | an occurrence at the start is deleted and the scan goes on after it |
| PyStr.RemovePlainPrefix | parse.py:75 | text in front that does not hold the pattern's first character is kept unchanged |
| PyStr.Lower | parse.py:132 | lower-casing keeps the length and maps each character through ASCII lower-casing |
| PyStr.Split | parse.py:112 | `split` gives at least one piece, none containing the separator |
| PyStr.SplitJoin | parse.py:112 | joining the pieces of a split gives back the text |
| PyStr.JoinSplit | parse.py:112 | splitting a join of separator-free parts gives back the parts |
| TaskText.LastBar | parse.py:8 | the greedy `.*` settles on a `\|` below the bound after which `([^]]+)\]\]` matches |
| TaskText.LastBarIsLast | parse.py:8 | no matching `\|` lies between the answer and the bound; None exactly when no `\|` below the bound matches |
| TaskText.LastBarSettles | parse.py:8 | when a matching `\|` at `b` has no `\|` between it and the bound, the answer is `b` |
| TaskText.FoldWikiLinks | parse.py:8-10 | the substitution never lengthens the text |
| TaskText.FoldWikiLinksPlainPrefix | parse.py:8-10 | text without `[` in front of the rest passes through unchanged |
| TaskText.WikiLinkEndsLine | parse.py:8-10 | `[[x\|d]]` at the start, ending its line, folds to `d` and scanning resumes after it |
| TaskText.WikiLinkInText | parse.py:8-10 | in `a[[x\|d]]b`, with no `[` in `a` and `b` empty or starting a new line, the link folds to `d` and the rest is folded on |
| TaskText.WikiLinkKeepsLastField | parse.py:8-10 | `[[x\|d]]` on one line folds to `d` when `d` has no `\|` or `]` |
| TaskText.WikiLinkExample | parse.py:7-14 | `[[Foo\|Bar baz]]` becomes `Bar baz` |
| TaskText.ChainedWikiLinksExample | parse.py:7-14 | `[[a\|b]] x [[c\|d]]` becomes `d`: the greedy `.*` swallows the first link |
| TaskText.FoldWikiLinksLoneBracket | parse.py:8-10 | a lone `[` is not a link |
| TaskText.ExternalLinkKeepsText | parse.py:12-13 | `[http… text]` with no space in the URL folds to its text |
| TaskText.FoldExternalLinks | parse.py:12-13 | the substitution never lengthens the text |
| TaskText.FoldExternalLinksPlainPrefix | parse.py:12-13 | text without `[` in front of the rest passes through unchanged |
| TaskText.ExternalLinkThen | parse.py:12-13 | `[http… text]` at the start folds to its text and scanning resumes after it, whatever follows |
| TaskText.ExternalLinkInText | parse.py:12-13 | in `a[http… text]b`, with no `[` in `a`, the link folds to its text and the rest is folded on |
| TaskText.ExternalLinkExample | parse.py:7-14 | `[http://x.example Click here]` becomes `Click here` |
| TaskText.StripLinks | parse.py:7-14 | link stripping never lengthens the text |
| TaskText.StripLinksPlain | parse.py:7-14 | text without `[` is unchanged |
| TaskText.RemoveCategories | parse.py:20-23 | category removal never lengthens the text |
| TaskText.RemoveCategoriesDropsTag | parse.py:21-22 | a `[[Category:…]]` tag on one line is deleted whole, and scanning resumes after it |
| TaskText.RemoveCategoriesPlainPrefix | parse.py:20-23 | text without `[` in front of the rest passes through unchanged |
| TaskText.RemoveCategoriesExample | parse.py:20-23 | `abc[[Category:Sorting]]def` becomes `abcdef` |
| TaskText.StripBoilerplate | parse.py:32-40 | the result is a suffix of the left-stripped text with its category tags removed |
| TaskText.DropCaption | parse.py:34-35 | the result is a suffix of the input |
| TaskText.DropCaptionStep | parse.py:34-35 | `right` and two newlines go, with all the whitespace after them |
| TaskText.DropDefinitionMarker | parse.py:37-38 | the result is a suffix of the input |
| TaskText.DropTaskLabel | parse.py:39-40 | the result is a suffix of the input |
| TaskText.DropTaskLabelStep | parse.py:39-40 | `Task:` or `task:` goes with all the whitespace after it |
| TaskText.CleanTask | parse.py:25-43 | "" when the flattened text is empty; otherwise a suffix of that text once its category tags are removed and it is left-stripped |
| TaskText.FlattenedPlain | parse.py:26-28 | plain bracket-free text starting with a non-space survives the flattening steps unchanged when `strip_html` and `unidecode` leave it unchanged |
| TaskText.CleanTaskDropsTaskLabel | parse.py:25-43 | a leading `Task:`/`task:` and the whitespace after it are dropped, for any `strip_html` and `unidecode` that leave the text unchanged |
| TaskText.CleanTaskDropsDefinitionMarker | parse.py:37-38 | a leading `;` is dropped, and nothing after it, for any `strip_html` and `unidecode` that leave the text unchanged |
| TaskText.DefinitionMarkerSteps | parse.py:34-40 | on `;` and text not starting with a task label, the caption, `;` and task-label steps leave exactly the text after the `;` |
| TaskText.TaskLabelExample | parse.py:39-40 | `Task:  Do it` becomes `Do it` |
| TaskText.DefinitionMarkerExample | parse.py:37-38 | `;Do it` becomes `Do it`; `;  Do it` keeps its spaces |
| TaskText.CleanTaskNotIdempotent | parse.py:37-38 | cleaning twice strips more than cleaning once |
| TaskText.CleanTaskKeepsPlain | parse.py:25-43 | bracket-free text that starts with a non-space and with none of `r`, `;`, `T`, `t`, and that `strip_html` and `unidecode` leave alone, is cleaned to itself |
| TaskText.TrailingNewlineExample | parse.py:25-43 | `Compute the sum\n` is cleaned to itself, its newline included |
| TaskText.TaskLabelOnlyEmpties | parse.py:29-40 | `Task:` alone has non-empty flattened text, yet cleans to `""` |
| Segmenter.Enter | parse.py:101-107 | an accepted label sets its section to `""` (reset when it exists) and is appended to the keys only when new; a rejected label sends the machine idle and leaves the sections and keys unchanged; the invariant holds |
| Segmenter.Absorb | parse.py:135-142 | appending an unmarked line keeps the invariant, the keys and the mode |
| Segmenter.Step | parse.py:96-144 | one line keeps the invariant: every key is accepted, keys are distinct and in step with the sections, and state 2 implies that the language is a key. It fails only on a `{{trans` line, with `HeaderLanguageMissing` exactly when no header has been seen. Only a header changes the header language; only a task marker or state 1 changes the task |
| Segmenter.Run | parse.py:96-146 | the invariant holds after any prefix; a failure needs a `{{trans` line |
| Segmenter.Feed | parse.py:97-144 | the body of the source's loop equals `Step` |
| Segmenter.Segment | parse.py:91-146 | the source's line loop equals `Run` from the initial state |
| Segmenter.UnmarkedLinesAppend | parse.py:135-142 | unmarked lines append their text and a newline each to the task or the open section, or are dropped while idle |
| Segmenter.TaskCollectsFollowingLines | parse.py:97-99 | a task marker replaces the task with what follows the first `}}`, then the following lines are appended |
| Segmenter.HeaderOpens | parse.py:100-105 | the effect of an accepted header on every variable |
| Segmenter.SectionCollectsFollowingLines | parse.py:100-105 | an accepted header resets its section to "" and the following lines become its text; a new label is appended to the keys, a repeated one keeps its place |
| Segmenter.RejectedHeaderDropsFollowingLines | parse.py:100-107 | after a rejected header the following lines go nowhere; only the header language and the label change |
| Segmenter.ClosingMarkerDropsFollowingLines | parse.py:108-109 | after an output, input or `{{libheader` marker the following lines go nowhere |
| Segmenter.IncorrectMarkerEndsSection | parse.py:108-109 | a `{{incorrect` line is an advisory marker, yet the `{{in` test sends the machine idle |
| Segmenter.SkippedLineChangesNothing | parse.py:132-134 | a skipped advisory line can be deleted from the page without changing the run |
| Segmenter.HeaderLabel | parse.py:101 | the label is the text from index 11 up to the first `}}`; with no `}}`, Python's `-1` bound drops the line's last character |
| Segmenter.TemplateFields | parse.py:112 | at least one field, none containing `\|` |
| Segmenter.HeadingLabel | parse.py:100-101 | in `=={{header\|L}}…` the label read from index 11 up to the first `}}` is `L` |
| Segmenter.TemplateRoundTrip | parse.py:112 | the fields of `{{f0\|f1\|…}}` are read back as written |
| Segmenter.WorksWithStep | parse.py:110-121 | a works-with line with two or more fields enters the label built from them |
| Segmenter.WorksWithVersion | parse.py:110-121 | `{{works with\|L\|V}}` enters the label `L V` |
| Segmenter.TransStep | parse.py:122-129 | a `{{trans` line fails without a header language, and otherwise enters `H from L` |
| Segmenter.TransSource | parse.py:122-129 | `{{trans\|L}}` fails without a header and enters `H from L` after header `H` |
| Segmenter.HeaderLanguageStaysSet | parse.py:102 | once a header is seen, a missing header language never fails the run |
| Segmenter.HeaderLanguageMissingIff | parse.py:122-124 | from the start, the run fails for want of a header language exactly when a `{{trans` line comes before any header |
| Segmenter.Keep | parse.py:148-154 | the filter keeps no more solutions than there are keys, each at least 60 characters long; it fails only with `NeverReturns` |
| Segmenter.KeepFails | parse.py:148-149 | the filter fails exactly when some section's cleaning never returns |
| Segmenter.KeepSound | parse.py:149-154 | every kept solution is a section's cleaned text under its own label, and long enough |
| Segmenter.KeepComplete | parse.py:150-154 | every section whose cleaned text is long enough is kept |
| Segmenter.KeepDistinct | parse.py:148-154 | no label is output twice |
| Segmenter.Filter | parse.py:148-154 | the source's filter loop equals `Collect` |
| Segmenter.CollectOutput | parse.py:147-155 | the output is exactly the long enough cleaned sections, each label once |
| Segmenter.CollectNeverReturnsIff | parse.py:148-149 | the filter never returns exactly when some section holds a start tag with no later `>` |
| Segmenter.Parse | parse.py:90-155 | a successful parse segments without error, and each of its solutions is at least 60 characters long |
| Segmenter.ParseOutput | parse.py:90-155 | the task is the cleaned task text; the solutions are exactly the long enough cleaned sections, each under an accepted label and each label once |
| Segmenter.ParseNeverReturnsIff | parse.py:90-155 | the parse never returns exactly when segmentation succeeds and some section has an unterminated start tag |
| Segmenter.ParseRosettaCode | parse.py:90-155 | the whole procedure (segmenting loop, task cleaning, filter loop) equals `Parse` |

## Left out

- The driver (parse.py:157 onward) is not modelled: file reading and writing, JSON, per-language counters and progress output. That is I/O and bookkeeping. The page arrives as its sequence of lines.
- `strip_html` (BeautifulSoup) and `unidecode.unidecode` are library code. `CleanTask`, `Parse` and `ParseRosettaCode` take them as function parameters, and nothing is assumed about them.
- The `print` warnings (parse.py:114, 137, 141, 144, 152) are left out. They change no value.
- The `state == 3` branch (parse.py:143-144) is left out, because nothing ever sets state 3. `Mode` has three values.
- Exceptions and non-termination are not modelled as such. They become the `Failure` values `HeaderLanguageMissing`, `TransFieldsMissing` and `NeverReturns`.
- The output dictionary is modelled as a sequence of solutions in `sections` insertion order, which `keys` records. Python dictionaries iterate in that order.
- PyStr.Lower: only ASCII letters are lower-cased. The one test that uses `lower()` compares against the ASCII `{{omit from`, but full Unicode case mapping could in principle map a non-ASCII letter onto those characters, and the model does not capture that.
- PyStr.Remove: the contract states only that the text never grows. `RemoveAbsent`, `RemoveAtHead` and `RemovePlainPrefix` state the deletion for an absent pattern, a match at the head, and a prefix without the pattern's first character. A text whose first character equals the pattern's first character but does not start a full match is covered by the definition alone.
- TaskText.StripLinks, TaskText.FoldWikiLinks, TaskText.FoldExternalLinks and TaskText.RemoveCategories: the contracts state length bounds. Their behaviour is stated by the lemmas for a link or tag in running text (`WikiLinkInText`, `ExternalLinkInText`, `RemoveCategoriesDropsTag`) and for plain text, not for every input. `WikiLinkInText` covers a link that ends its line; a link followed by more text on its line is governed by the greedy `.*` (`ChainedWikiLinksExample`).
- TaskText.CleanTask: the contract ties the result to the flattened text (empty, or a suffix of it after category removal and left-strip). The boilerplate steps are stated by `DropCaptionStep`, `CleanTaskDropsDefinitionMarker`, `DropTaskLabelStep`, `CleanTaskKeepsPlain` and the examples.
- The three `re.sub` patterns (two in `strip_links`, one in `remove_categories`) are modelled by scans written for those patterns alone; there is no general regex engine.
