# subdivx-dl: the string and list layer, in Dafny

subdivx-dl is a command-line client for the subdivx.com subtitle site. This project
models its deterministic core: the code that handles strings and lists once the HTML has
been reduced to text. Three versions of that code exist side by side: the package
`subdivx_dl/`, the older `src/` tree and the first script `subdivx.py`. The project models
these functions, in each version that has them:

- **Listing assembly.** `getDataPage` builds six lists from the already-extracted texts of
  a search page: titles, descriptions, urls, download counts, users and dates. Module
  `PageData` models the two later versions (one method, with the ban list as a parameter)
  and the `subdivx.py` version.
- **The three fixed regular expressions.** The date, the download count and the
  `__version__` declaration are hand-coded matchers, as is the lazy season/episode pattern
  `(.*?)[.\s][sS](\d{1,2})[eE](\d{1,3}).*`. They live in module `Matchers`. Each is proved
  to find the leftmost match the regular expression would find, with `\d` read as the ASCII
  digits `0`-`9` (see "Left out").
- **The description word-wrapper.** `printSelectDescription` lives in module `Description`.
- **Subtitle naming and the selection menu.** `tvShowSubtitles`, `movieSubtitle`,
  `renameFile` and `moveFiles` are in module `Renaming`. `printMenuContentDir` is in module
  `Menu`. A directory listing is a `seq<string>`, and each `os.rename` becomes a planned
  `Move(source, target)`.
- **`positive_number`.** The `--lines` validator is in module `Helper`.
- **`VersionChecker`.** It is in module `Version`. The HTTP response is a parameter.

Two support modules model the Python built-ins the code relies on:

- `Python`: negative indexing, slices, `endswith`, `isdigit`, `isspace`, `strip`, `split`,
  `splitlines()[0]`, `replace`, string `<` and list filtering.
- `PyInt`: `int()` and `str()` on integers.

Python raises an exception in several places: `AttributeError` on `None`,
`UnboundLocalError`, `IndexError`, `EOFError`, and the `TypeError` of `os.path.join` on the
`None` the menu can return. The model turns each such crash into an explicit error value
(`Err`, an `Outcome` constructor, or `PickedNone`). It does not exclude those inputs
with a precondition.

Where the code and its comments or stated intent disagree, the model follows the code:

- In the two later `getDataPage`s, a data block with no number in its first 20
  characters does not get the `'-'` the code appears to intend. The `else` branch calls
  `append` on `None` and raises. This is `ScrapeError.NoCount`.
- In `subdivx.py`, the guards `date != 'null'` and `downloadCount != 'null'` compare a
  match object with a string. They are therefore always true, and a missing date or count
  fails on `.group()`.
- `check_version` compares versions as strings, so `2024.9.1` counts as newer than
  `2024.12.24`.

## Model

| member | source | states |
|---|---|---|
| PageData.Title | subdivx_dl/utils.py:231-234 | the title is the link text with its first 14 characters dropped, whether or not they are the prefix: its length is `max(0, n-14)` and character i is character i+14 of the text |
| PageData.TitleDropsSeparator | src/utils.py:159-162 | a link text that does start with `Subtitulos de ` gives exactly the rest as its title |
| PageData.Titles | subdivx.py:57-60 | one title per link, in page order, each the `Title` of its link text |
| PageData.Described | subdivx_dl/utils.py:236-241 | a stored description is never empty, and a non-empty text is kept as it is |
| PageData.Descriptions | src/utils.py:164-169 | one description per detail div, in order, an empty one replaced by `Whitout description` |
| PageData.LegacyDescriptions | subdivx.py:62-64 | the descriptions are the div texts verbatim, empty ones included |
| PageData.Urls | subdivx_dl/utils.py:243-244 | one url per title link, in order: its `href`, or `None` when it has none |
| PageData.DateMatch | subdivx_dl/utils.py:247-254 | the date search finds nothing exactly when no substring is `\d+/\d+/\d+`; what it finds is such a substring |
| PageData.DateField | src/utils.py:180-184 | the date entry is `'-'` exactly when the block has no date, and otherwise is the date found |
| PageData.CountField | subdivx_dl/utils.py:246-262 | the count search, on the block's first 20 characters only, fails exactly when none of them is a digit; what it finds has the form `\d+(,\d+)?` |
| PageData.ScanSucceeds | subdivx_dl/utils.py:249-264 | the block loop of the later versions succeeds exactly when every block has a count in its first 20 characters |
| PageData.ScanFailure | subdivx_dl/utils.py:258-264 | a failed block loop names the first block with no count, because the `'-'` fallback calls `append` on `None` |
| PageData.ScanValues | src/utils.py:177-192 | a successful block loop gives one date (or `'-'`) and one count per block, in block order |
| PageData.LegacyScanSucceeds | subdivx.py:72-83 | the loop of subdivx.py succeeds exactly when every block has both a date and a count |
| PageData.LegacyScanFailure | subdivx.py:75-83 | a failure names the first block that lacks a date or a count; it is a date failure exactly when that block has no date |
| PageData.LegacyScanValues | subdivx.py:75-83 | on success, each block gives exactly one date and one count, in order |
| PageData.ScanErrorStays | subdivx_dl/utils.py:249-264 | once a prefix of the blocks fails, the blocks after it change nothing |
| PageData.LegacyScanErrorStays | subdivx.py:72-83 | the same for the loop of subdivx.py |
| PageData.ReadBlocks | subdivx_dl/utils.py:249-264 | the block loop computes exactly the dates and counts (or the error) that `Scan` specifies |
| PageData.LegacyReadBlocks | subdivx.py:72-83 | the block loop of subdivx.py computes exactly what `LegacyScan` specifies |
| PageData.UnbannedCount | subdivx_dl/utils.py:266-270 | the user list removes exactly the ban-list names: each other name occurs as often as on the page, and a banned name never occurs |
| PageData.UnbannedAppend | src/utils.py:194-198 | the user filter keeps page order: filtering a page split in two filters each part |
| PageData.Users | subdivx.py:85-89 | the user loop builds exactly the order-preserving filter of the link texts against the ban list |
| PageData.GetDataPage | subdivx_dl/utils.py:219-272 | no detail div gives `Subtitles not found` and nothing else does; a block without a count fails; otherwise the six lists are those above, and no description is empty |
| PageData.DlGetDataPage | subdivx_dl/utils.py:196-272 | `getDataPage` of this file: the outcomes of `GetDataPage`, with users filtered against the ban list of line 266 as it stands in the file |
| PageData.SrcGetDataPage | src/utils.py:124-200 | `getDataPage` of this file: the outcomes of `GetDataPage`, with users filtered against the ban list of line 194 |
| PageData.LegacyGetDataPage | subdivx.py:46-91 | no detail div gives `No suitable subtitles`; a block without a date or count fails; otherwise titles, verbatim descriptions, urls, one date and one count per block, and the users filtered against the ban list of that file |
| Description.WrapWords | subdivx_dl/utils.py:298-311 | the loop, with `count <= 10` as the test that keeps a word on the current row, builds exactly the rows `WrapFrom(words, 0)` |
| Description.WrapFromCount | subdivx_dl/utils.py:302-309 | there is one row per twelve words and one more: with n rows, 12(n-1) <= number of words < 12n |
| Description.WrapFromRows | src/utils.py:230-238 | every row but the last is the space-prefixed run of the twelve words from position 12k on |
| Description.WrapFromLast | subdivx_dl/utils.py:311 | the last row, appended after the loop, is the space-prefixed run of the words after the full rows, `""` when none remain |
| Description.WrapConcat | src/utils.py:230-239 | the rows, concatenated, are `" " + w1 + " " + ... + wn` |
| Description.WrapRowWords | subdivx.py:102-110 | split back into words, a full row holds exactly its 12 words |
| Description.WrapLastWords | subdivx.py:111 | split back into words, the last row holds the words left over, fewer than 12 |
| Description.SplitSpaced | subdivx_dl/utils.py:296 | `split()` of space-joined words gives the words back |
| Description.SelectedWords | subdivx_dl/utils.py:295-296 | only the first line of the chosen description is used; an index out of range and an empty description each raise `IndexError` |
| Description.HeaderOverRows | src/utils.py:222-239 | the `Description` header over the wrapped rows, one single-cell row each, is a one-column table whose column below the header is the wrapped rows |
| Description.DescriptionTable | src/utils.py:221-239 | the table is the `Description` header followed by one single-cell row per wrapped row, or the `IndexError` of the selection |
| Description.DescriptionRows | subdivx.py:93-111 | the rows are the wrapped rows `WrapFrom(words, 0)` with no header, or the `IndexError` of the selection |
| Menu.IsSrtEndsWith | subdivx_dl/utils.py:76 | the character-wise `.srt` test is `endswith('.srt')` |
| Menu.SrtSuffix | subdivx_dl/utils.py:136 | a name built by appending `.srt` passes the `.srt` test |
| Menu.SrtFilesSnoc | subdivx_dl/utils.py:75-82 | one more listing entry adds itself to the `.srt` entries exactly when its name ends in `.srt` |
| Menu.ListSrt | subdivx_dl/utils.py:73-82 | rows are numbered 1..k consecutively over the `.srt` entries, in listing order |
| Menu.NameColumn | subdivx_dl/utils.py:68-79 | the second column of the table is the header followed by the file names of the rows |
| Menu.MenuStep | subdivx_dl/utils.py:94-121 | a non-number re-prompts with `Input only numbers`; a number outside the Python indices of the table re-prompts with `Input valid numbers`; one from -(k+1) to -1 re-prompts with `Input only positive numbers`; 0 exits; n in 1..k picks the n-th `.srt` name |
| Menu.Prompt | subdivx_dl/utils.py:85-121 | the prompt loop consumes the lines that re-prompt and stops at the first that exits or picks, or when the input ends |
| Menu.Fallback | subdivx_dl/utils.py:122-126 | the first of `files[0]`, `files[1]` that ends in `.srt`; nothing if neither does; an `IndexError` when the listing is too short |
| Menu.PrintMenuContentDir | subdivx_dl/utils.py:67-126 | with two or more `.srt` entries, input 0 exits and input n in 1..k returns the n-th `.srt` entry; with fewer, the fallback pick, without reading any input |
| Renaming.EpisodeFile | subdivx_dl/utils.py:164-169 | `serie + ' - ' + season + episode + '.srt'` is a `.srt` name |
| Renaming.EpisodeName | subdivx_dl/utils.py:157-169 | an episode name, when there is one, is a `.srt` name |
| Renaming.EpisodeNameNone | src/utils.py:99-111 | a name gets an episode name exactly when `[.\s][sS]\d{1,2}[eE]\d{1,3}` occurs in it |
| Renaming.EpisodeNameOneLine | subdivx_dl/utils.py:149-169 | on a one-line name where the tail `[.\s][sS](\d{1,2})[eE](\d{1,3})` first occurs at position p with groups s and e, the new name is the text before p with `.` turned into spaces, then ` - S<s>E<e>.srt`, with the digits copied unpadded |
| Renaming.EpisodeNamePlain | src/utils.py:93-111 | `<show>.S<s>E<e>.srt`, for a show name with no separator in it, becomes `<show> - S<s>E<e>.srt` |
| Renaming.EpisodeExample | subdivx_dl/utils.py:168-169 | `Show.S01E01.srt` becomes `Show - S01E01.srt` |
| Renaming.NotesNoEpisode | src/utils.py:112-114 | `notes.srt` has no episode name |
| Renaming.SeasonMove | subdivx_dl/utils.py:156-184 | one `.srt` entry is moved to its episode name when renaming is on and the pattern matches, and keeps its name otherwise |
| Renaming.TvShowSubtitlesBy | subdivx_dl/utils.py:153-185 | the loop plans one move per `.srt` entry, and none for other entries, in listing order, each the `SeasonMove` of that entry, for any name matcher |
| Renaming.TvShowSubtitles | subdivx_dl/utils.py:149-185 | the same plan with the episode-name matcher of the season pattern |
| Renaming.SeasonPlan | subdivx_dl/utils.py:168-184 | in that plan every move keeps its source, sends a `.srt` entry to a `.srt` name, keeps the name under `--no-rename` or when the pattern does not match, and otherwise uses the episode name |
| Renaming.MovieSubtitle | subdivx_dl/utils.py:133-142 | the picked file is moved to `<SEARCH>.srt`, or keeps its name under `--no-rename` |
| Renaming.MovieOutcome | subdivx_dl/utils.py:128-142 | a picked file is moved as `MovieSubtitle` says; the menu's `None` becomes the `TypeError` of `os.path.join`; an exit or a crash of the menu ends `movieSubtitle` with it |
| Renaming.MovieSubtitleRun | subdivx_dl/utils.py:128-142 | over a listing and the lines typed: with fewer than two `.srt` entries the fallback's pick is moved, or `TypeError` when neither of the first two entries is one; with more, input n in 1..k moves the n-th `.srt` entry, input 0 exits |
| Renaming.PickedNoneListing | subdivx_dl/utils.py:122-130 | the listing `a.zip`, `b.txt`, `x.srt` has one `.srt` entry and neither of the first two is it, so the fallback returns `None` |
| Renaming.VersionedNamesDistinct | src/utils.py:76-85 | different counts give different names |
| Renaming.VersionedNameShape | src/utils.py:77-82 | every versioned name ends in `.srt` and starts with the new name |
| Renaming.RenameFile | src/utils.py:65-86 | one move per `.srt` entry, in order, and none for other entries; the k-th goes to `<newName>.srt` for k = 0 and to `<newName>-V<k>.srt` after that; no two targets are equal |
| Renaming.LastRenamedBound | src/utils.py:111 | once some entry has matched, `new_name` stays bound |
| Renaming.MovePlanErr | src/utils.py:112-121 | `moveFiles` fails exactly when the first `.srt` entry does not match, and then at that entry, because `new_name` is unbound |
| Renaming.MovePlanOk | src/utils.py:97-122 | a run that goes through moves every `.srt` entry, in order, to the name of the most recent match up to and including it |
| Renaming.MovePlanErrStays | src/utils.py:97-122 | once the run has failed, later entries change nothing |
| Renaming.MovePlanStale | src/utils.py:112-121 | an entry that does not match, right after one that does, is moved to the same target |
| Renaming.MoveFilesBy | src/utils.py:88-122 | the loop computes exactly the plan or the error that `MovePlan` specifies over the `.srt` entries, for any name matcher |
| Renaming.MoveFiles | src/utils.py:88-122 | the same with the episode-name matcher of the season pattern |
| Renaming.MoveFilesStaleName | src/utils.py:112-121 | the listing `Show.S01E01.srt`, `notes.srt` sends both files to `Show - S01E01.srt` |
| Matchers.SearchDate | subdivx_dl/utils.py:247-252 | leftmost-match semantics of `\d+/\d+/\d+`: none exactly when no substring matches; otherwise a match that starts at the earliest possible place and ends where digits end |
| Matchers.SearchCount | subdivx_dl/utils.py:246-259 | leftmost-match semantics of `\d+(?:,\d+)?`: none exactly when there is no digit; otherwise a match at the first digit, greedy over the digits and the optional `,\d+` |
| Matchers.SearchDecl | subdivx_dl/version.py:16-17 | the search scans start positions left to right: it finds nothing exactly when no position starts a declaration, and otherwise the first position that does, with the end of its group |
| Matchers.SearchDeclSpec | subdivx_dl/version.py:16-17 | none exactly when no substring is `__version__ = '<d>.<d>.<d>'`; otherwise the leftmost such declaration |
| Matchers.SearchDeclGroup | subdivx_dl/version.py:17-19 | the captured group is a `\d+\.\d+\.\d+` and belongs to the first declaration in the text |
| Matchers.SearchDeclOwn | subdivx_dl/version.py:5 | the declaration line of a version is found at its start, with its group spanning the version |
| Matchers.TailAt | subdivx_dl/utils.py:149 | the tail `[.\s][sS](\d{1,2})[eE](\d{1,3})` matched at a position gives 1-2 season and 1-3 episode digits, copied from their place, with the digit runs maximal |
| Matchers.TailAtComplete | subdivx_dl/utils.py:149 | every placement of the tail at a position, with greedy episode digits, is what the matcher returns there |
| Matchers.TailAtNone | subdivx_dl/utils.py:149 | the matcher finds nothing at a position exactly when the tail cannot be placed there |
| Matchers.SearchEpisode | subdivx_dl/utils.py:149-157 | `re.search` of the lazy pattern: none exactly when no start position has a lazy match; otherwise the leftmost start |
| Matchers.SearchEpisodeNone | src/utils.py:93-99 | the pattern matches nowhere exactly when its tail completes at no position |
| Matchers.SearchEpisodeNoTail | subdivx_dl/utils.py:149-157 | `re.search` of the pattern finds nothing exactly when the tail `[.\s][sS](\d{1,2})[eE](\d{1,3})` occurs nowhere in the name |
| Matchers.SearchEpisodeTail | subdivx_dl/utils.py:149-162 | the group-1 end is the first position after the start where the tail completes, with no newline before it on that line, and no earlier start has a match on its line |
| Matchers.SearchEpisodeOneLine | src/utils.py:93-104 | on a one-line name the match starts at 0 and group 1 ends at the first position where the tail completes |
| Matchers.NoSeasonNumber | subdivx_dl/utils.py:157-160 | a name where no separator and `s`/`S` is followed by a digit does not match |
| Matchers.PlainEpisodeTail | subdivx_dl/utils.py:149 | in `<show>.S<s>E<e>.srt` the tail completes right after the show name, with groups `s` and `e` |
| Helper.PositiveNumber | subdivx_dl/helper.py:46-53 | the `must be a numeric value` error exactly when `int()` rejects the text; the `should be greater than zero` error exactly when it parses to an integer that is at most 0; otherwise the parsed integer, and it is positive |
| Helper.PositiveNumberAccepts | subdivx_dl/helper.py:53 | every positive integer, written out, is accepted as itself |
| Helper.PositiveNumberRefuses | subdivx_dl/helper.py:51-52 | zero and every negative integer, written out, are refused by the sign check, and not as non-numeric |
| PyInt.IntOfStr | subdivx_dl/helper.py:48 | `int(str(n)) == n` for every integer |
| Version.LatestVersion | subdivx_dl/version.py:11-20 | `None` exactly when the status is not 200 or no declaration occurs; otherwise a `\d+\.\d+\.\d+` that is the group of the first declaration |
| Version.LatestVersionOwn | subdivx_dl/version.py:14-19 | a 200 response whose body is the published declaration gives its version back |
| Version.CheckVersion | subdivx_dl/version.py:22-27 | `New version available: X` exactly when a latest version X was found and X is greater than the installed version as a string; `Using the latest version` otherwise |
| Version.CheckVersionNotNewer | subdivx_dl/version.py:26-27 | an equal or older latest version gives `Using the latest version` |
| Version.CheckVersionOwn | subdivx_dl/version.py:24 | against a body that is one declaration, the answer depends only on the string comparison of the two versions |
| Version.CheckVersionLexicographic | subdivx_dl/version.py:24 | `2024.9.1` is announced as newer than the installed `2024.12.24` |
| Version.InstalledFoundAgain | subdivx_dl/version.py:5-27 | the installed version's own declaration is found again, and nothing is announced |

## Left out

- HTTP and HTML: the `urllib3` request, BeautifulSoup parsing and `find_all` are foreign
  library calls. `getDataPage` starts from the `get_text()` of the elements found, and from
  the `href` of each link.
- The network fetch of `get_latest_version` is I/O. The `requests.get` response (status
  code and text) is a parameter.
- The file system: `os.listdir` is the input listing and `os.rename` a planned `Move`.
  A `Move` holds bare names: the directories that `os.path.join` puts in front of them are
  left out, and so is `os.path.basename`, which gives back the bare name of an entry.
  `shutil.rmtree` and `exit(0)` after input 0 are the `Exited` outcome.
- Renaming.MovieSubtitle: the target is `<SEARCH>.srt` with `SEARCH` used as given. A
  `SEARCH` holding `/` names a file in a sub-directory of the destination, where
  `os.rename` fails when that directory does not exist, and an absolute `SEARCH` makes
  `os.path.join` drop the destination. The model records the target name and does not
  capture where the file lands or that the rename fails.
- Renaming.RenameFile: the same holds for `<newName>.srt` and `<newName>-V<k>.srt`, which
  use the `SEARCH` text as given.
- The terminal: `tabulate`, `clear()`, `print`, `time.sleep` and logging are output only.
  `input()` is the sequence of lines typed.
- Menu.PrintMenuContentDir: the reuse of the `data` buffer (append, copy, clear) is not
  modelled. Each row is built directly as a value.
- `printSearchResult` (subdivx_dl/utils.py:274-291, src/utils.py:202-219) renders a table.
  Its loop runs over `titleList` and reads `downloadList`, `dateList` and `userList` at the
  same index. So it raises `IndexError` when one of those is shorter than `titleList`. It is
  enough that a user name is on the ban list, or that there are fewer data blocks than
  title links. This length condition is not modelled: `GetDataPage` returns the lists
  without relating their lengths.
- The interactive loops of `subdivx_dl/main.py` and `subdivx.py` (lines 152-187),
  `getSubtitle`, `wget`, `unrar` and `zipfile` are downloads and subprocesses.
- argparse: the parser definitions, `DumpConfigAction`, the translations and `setup.py` are
  configuration.
- The version checkers of `subdivx_dl/__init__.py` and `subdivx_dl/verchk.py` are a network
  fetch plus `print`. They use the regex of `Version`, but fail differently. Both compare
  with a bare `latest_version > self.version`, without the `latest_version and` test of
  `subdivx_dl/version.py:24`.
  - In `verchk.py`, a status other than 200 returns `None`, and `None > str` raises
    `TypeError`. A body with no declaration raises `AttributeError` at `match.group(1)`.
  - In `__init__.py` (lines 18-27), both of those cases print a message and `sys.exit(1)`.
  - In those cases `Version.CheckVersion` answers `Using the latest version`. These two
    checkers are not modelled.
- Matchers.SearchDate, Matchers.SearchCount, Matchers.SearchDecl, Matchers.TailAt and
  Matchers.SearchEpisode read `\d` as the ASCII digits `0`-`9` (Python.IsDigit). On a str
  pattern, Python's `\d` also matches every other Unicode decimal digit (category Nd). So
  a count written `١٢٣`, or a season written with full-width digits, is found by
  `re.search` but not by the model, and PageData.CountField, PageData.DateField,
  Version.LatestVersion and Renaming.EpisodeName inherit that.
- PyInt.Int: digits are ASCII only. It leaves out Unicode decimal digits and the
  4300-digit limit of `int()`.
- Python.IsSpace, Python.Split and Python.FirstLine use Python's white-space and line-break
  sets on code points. Byte-level decoding of the page is not modelled.
- Renaming.EpisodeName: its contract states only that the result is a `.srt` name. What the
  name is, is stated by Renaming.EpisodeNameOneLine for one-line names and by
  Renaming.EpisodeNameNone for when there is one. A file name containing a newline, where
  `(.*?)` cannot cross the line, is covered only by Matchers.SearchEpisodeTail.

## Findings

| source | as written | input that shows it | evidently intended | confidence | as-written member | corrected member |
|---|---|---|---|---|---|---|
| src/utils.py:112-121 | when the season pattern does not match, the exception is logged and the file is still moved to `new_name`, which is left over from the previous match | the listing `Show.S01E01.srt`, `notes.srt`: both are moved to `Show - S01E01.srt`, so `notes.srt` overwrites the episode; with `notes.srt` first, `new_name` is unbound and the loop raises | a file that does not match keeps its own name, as `tvShowSubtitles` of subdivx_dl/utils.py:170-174 later does | not executed | Renaming.MoveFilesStaleName | Renaming.TvShowSubtitles |
