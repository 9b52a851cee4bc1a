# link-browser worker, modelled in Dafny

`worker.py` watches a directory for new `.html`/`.htm` files that are
one-link redirect pages. It checks each file's content against a fixed
regular expression and takes the anchor text as a URL. It opens the URL in
a browser tab and, when a history file is configured, puts a line
`url|seconds` on top of that file.

This project models that pipeline. The modules follow the program's
structure.

- `base.dfy`, module `Base`: `Option`, `Result`, and the exceptions that
  escape the worker (`Fault`). It also holds the character notions the
  regular expressions use: ASCII case folding and newline-freedom.
- `template.dfy`, module `Template`: a backtracking regular-expression
  matcher for the fragment `CONTENT_REGEX` uses. That fragment has
  literals, greedy `.*`, greedy `c?` and one capturing `(.*)`.
  - `Match` is the executable engine. It tries `.*` longest first and `c?`
    present first, the way Python's `re` does.
  - `Decomposes` is the declarative reading: the text splits into pieces,
    one per template item.
  - Soundness, completeness and greedy priority connect the two. The
    matcher's choice is the unique lexicographically longest decomposition.
  - `Search` and `FindAll` model `re.search` and `re.findall`.
- `link_file.dfy`, module `LinkFile`: `HtmlHandler`'s decisions. It covers
  the name filter `NAME_REGEX`, the constant `CONTENT_REGEX` as a
  template, `__is_correct_file`, `__extract_url` and `on_created`.
- `history.dfy`, module `History`: the history file.
  - The line format, `str` of a non-negative integer, and Python's
    line-by-line file iteration.
  - `__write_to_file`, as a method with a copy loop and as a function.
  - Parsing the file back, so that the properties are stated about
    entries rather than raw text.
- `worker.dfy`, module `Worker`: the handler wired to
  `UrlProcessor.process`, one file-system event at a time. It also covers
  runs over event sequences and the command-line defaults.

The machine is reduced to a map from path to file content and the list of
URLs opened in browser tabs. These are passed in as parameters:

- The clock reading at each event, in whole seconds.
- `validators.url`, as a predicate.
- Whether the name filter ignores letter case.

## Model

| member | source | states |
|---|---|---|
| Base.NoNewlineRespectsFold | worker.py:46 | case-insensitive comparison never turns a newline into another character or back |
| Template.MatchSound | worker.py:17-18 | whatever the matcher returns splits the text into pieces that each fit their template item |
| Template.MatchComplete | worker.py:48 | if any split of the text from position i fits the template, the matcher succeeds there |
| Template.MatchGreedy | worker.py:17-18 | no fitting split has a lexicographically longer vector of piece lengths than the matcher's: every `.*` and `/?` is as long as the rest of the pattern allows, leftmost first |
| Template.PreferredUnique | worker.py:17-18 | there is at most one greedy-preferred split, so the captured text is determined by the content |
| Template.MatchIsPreferred | worker.py:48 | the anchored match succeeds exactly when some split fits, and then returns the one preferred split |
| Template.Search | worker.py:39 | the search finds the leftmost position at which the template matches, and none exists when it fails |
| Template.FindAllStartsWithAnchoredMatch | worker.py:48-51 | when the template matches at the start, the first capture `findall` reports is that match's group |
| Template.FindAllNonEmpty | worker.py:51 | `findall` reports at least one capture whenever the template matches anywhere |
| Template.MatchIgnoresTrailing | worker.py:48 | the match is anchored only at the start: text after a match does not undo it |
| Template.MatchIgnoresCase | worker.py:46 | two texts equal up to letter case match or fail together |
| Template.MatchWithinOneLine | worker.py:17-18 | with newline-free literals, no piece of a match and no matched text contains a newline, because `.` stops at one |
| Template.CaptureWithinOneLine | worker.py:17-18 | the captured anchor text never contains a newline |
| LinkFile.ContentTemplateShaped | worker.py:17-18 | `CONTENT_REGEX` has seventeen items, its only group is item 15 (the anchor text), its literals hold no newline and it starts with a non-empty literal |
| LinkFile.LooksLikeIffMatch | worker.py:48 | `test.match(content)` succeeds exactly when the content, from its first character, has the shape of a link file |
| LinkFile.NameAcceptedIsPattern | worker.py:16 | the name filter accepts exactly the paths `NAME_REGEX` matches: a newline-free stem, the extension, then the end or one final newline |
| LinkFile.NamesRejected | worker.py:16 | `b.txt` and `a.html.bak` never pass the name filter |
| LinkFile.NamesAccepted | worker.py:16 | `D/a.html` and `D/a.htm` pass the name filter |
| LinkFile.NameLetterCase | worker.py:16 | `D/a.HTML` passes only when the filter ignores letter case |
| LinkFile.AnchoredMatchFacts | worker.py:48-51 | after a successful anchored match, `findall` reports at least one capture, the first being the match's anchor text, on one line |
| LinkFile.IsCorrectFile | worker.py:43-56 | non-matching content gives False; a match with two or more captures raises the unpacking error with their count; True exactly when the content matches, there is one capture and it passes the URL check |
| LinkFile.ExtractUrl | worker.py:34-41 | the single capture is returned, otherwise the unpacking error with the capture count; for a link-file content the URL is the anchor text of the match at the start |
| LinkFile.OnCreated | worker.py:27-32 | the URL is found exactly when the content matches, `findall` gives one capture and it passes the URL check; an exception escapes exactly when the content matches and there are two or more captures |
| LinkFile.FoundUrlIsPreferredCapture | worker.py:39-41 | the URL handed on is the anchor text of the greedy-preferred split of the content |
| LinkFile.TrailingTextAllowed | worker.py:48 | appending text after `</html>` keeps a link file a link file |
| LinkFile.LetterCaseIgnored | worker.py:46 | letter case in the content never decides whether it is a link file |
| LinkFile.TwoLinkLinesRaise | worker.py:51 | content whose first line and some later line both match gives at least two captures and makes `on_created` raise |
| History.DecimalRoundTrip | worker.py:102 | the written timestamp reads back as the number written |
| History.Line | worker.py:102 | a history line ends in its newline and has no other newline when the URL has none |
| History.ParseLineRoundTrip | worker.py:102 | a written line reads back, split at the last bar, as the URL and timestamp that were written |
| History.JoinLines | worker.py:105-106 | writing out the lines of a file one after another gives back the file |
| History.PrependOnly | worker.py:101-106 | a write only adds a line on top: dropping the first line gives back the previous history, whose lines follow unchanged |
| History.WriteToFile | worker.py:98-110 | the copy loop produces the new line followed by the previous file; a missing history file raises and nothing is written; it is the same write as `History.Write` |
| History.Write | worker.py:98-110 | a write fails exactly when the history file is missing, and otherwise makes the file longer |
| History.PrependParses | worker.py:101-106 | after a write the history reads as the new entry above the old entries |
| History.ReplayNewestFirst | worker.py:98-110 | a sequence of writes leaves the entries newest first, on top of the earlier history |
| History.ReplayAppend | worker.py:98-110 | writing one batch of visits and then another is the same as writing both in order |
| History.ReplayStacksLines | worker.py:101-106 | whatever the previous file held, parseable or not, a sequence of writes leaves one line per visit, newest first, followed by the previous text unchanged |
| History.ReplayLinesOnTop | worker.py:101-106 | read line by line, the history after a sequence of writes is one line per visit, newest first, followed by the previous file's lines |
| History.WritesMakeLines | worker.py:98-110 | n writes into an empty history leave exactly n lines, reading as the entries in reverse order |
| History.NewestOnTop | worker.py:102-106 | when the clock does not go back, the timestamps never increase from the top of the file down |
| Worker.NewHtmlHandler | worker.py:20-25 | the handler uses `CONTENT_REGEX`, and the callback is a no-op when none is given |
| Worker.ProcessUrl | worker.py:86-96 | the tab is always opened; with history off no file changes; a missing history file raises and leaves the files alone; otherwise only the history file changes, and it grows |
| Worker.ProcessPrepends | worker.py:86-110 | whatever the history file holds, `process` puts exactly the new line on top of it; dropping that line gives back the previous file, whose lines follow unchanged |
| Worker.ProcessWritesOnTop | worker.py:86-110 | when the history file reads as history lines, a processed URL is the new top entry above the previous entries |
| Worker.HandleEvent | worker.py:27-32 | only creations are handled; the callback fires at most once, with a newline-free URL; when it is `process`, the effects are those of `process`; without a call or with the default callback nothing changes |
| Worker.CallbackFiresIff | worker.py:27-32 | the callback fires exactly once when the name passes the filter, the content matches, `findall` gives one capture and it passes the URL check, and then it gets that capture; rejected names change nothing |
| Worker.OtherExtensionIgnored | worker.py:16 | creating `b.txt` has no effect |
| Worker.Run | worker.py:120-122 | a run calls back at most once per event, and with the default callback it changes nothing |
| Worker.RunOpensCallbackTabs | worker.py:85-86 | with `process` as the callback, history on, off or missing, a run opens exactly the callback URLs in order |
| Worker.RunStacksVisits | worker.py:86-110 | over any run with a history file present, whatever it held, the file becomes its previous text with the visits written on top, and no other file changes |
| Worker.RunHistoryText | worker.py:86-110 | after any run with a history file present, its text is one line per visit, newest first, then the previous text unchanged, line by line too, and the tabs are the visits in order |
| Worker.RunRecordsVisits | worker.py:86-110 | over any run whose history file exists and reads as history lines, the tabs opened are the callback URLs in order, and the history reads as those visits newest first on top of the previous entries |
| Worker.RunWithoutHistory | worker.py:89-90 | with history off, a run changes no file and opens exactly the callback URLs in order |
| Worker.ParseArgs | worker.py:114-115 | the watch directory is `argv[1]` or `.`; history is on exactly when `argv[2]` is given, and it names the file |
| Worker.ArgsPositional | worker.py:114-115 | arguments after the second are ignored, and history is off exactly when fewer than two arguments are given |
| Worker.Wire | worker.py:117-120 | the program's handler uses `CONTENT_REGEX`, and its callback processes URLs with the history path from the arguments |
| Worker.NoHistoryWithoutArgument | worker.py:114-120 | started without a second argument, the program never changes a file over any run and only opens tabs |

## Left out

- `LinkObserver` (worker.py:59-78), the observer thread, `start`/`stop`/`join` and the sleep loop of lines 122-128 are left out. Events are instead handed to `Worker.Run` one at a time, in order.
- Worker.Run: stops at the first exception. The watchdog library's dispatch loop is not part of this model. The model assumes an exception escaping `on_created` ends the observer thread, so later events are not handled.
- The lock (worker.py:92-96) is left out. Writes are sequential in the model, so the lock's serialisation is what the model takes for granted.
- `webbrowser.open_new_tab` is modelled only as appending the URL to the list of opened tabs. Whether a browser actually launches is outside the model.
- LinkFile.IsCorrectFile: `validators.url` is a predicate parameter. The validators library is not part of this model.
- History.WriteToFile: the temporary file name from `token_bytes`, the temporary file itself, and the removal and rename are left out. The model gives only the file contents the history path holds afterwards. In particular, the model does not show the temporary file left behind when the history file is missing.
- `time.time()` is a whole number of seconds passed in with each event. Clock skew and negative times are left out.
- Base.Fold: case folding is ASCII only. Python's `re.IGNORECASE` on `str` also folds some non-ASCII letters, which the model does not cover.
- Text-mode newline translation (`\r\n` and `\r` read as `\n`, and `\n` written as the platform separator) is left out. Files are taken to use `\n`.
- Worker.HandleEvent: every file is taken to decode as text. The source reads the created file and the history file in the locale's encoding, and a byte sequence that does not decode raises `UnicodeDecodeError`, which would end event handling like any other escaping exception. The model's files are strings, so it cannot represent such a file.
- Worker.HandleEvent: the created file is read once. The source opens it twice, once in `__is_correct_file` and once in `__extract_url`, so a file changing between the two reads is left out. A file missing at read time raises `LinkFileMissing`.
- Directory-creation events whose name passes the filter are left out. The source would fail to open such a path.
- Worker.NewHtmlHandler: the name filter ignores letter case. This is the watchdog event handler's default, and that library is not part of this model. `LinkFile.NameAccepted` takes the choice as a parameter.
- Template.FindAll: after an empty match it resumes one position later. The link-file template cannot match empty text, so the details of Python's empty-match rule never matter here. Templates with more than one group, where `findall` returns tuples, are not modelled.
- The matcher covers only the regular-expression features `CONTENT_REGEX` and `NAME_REGEX` use. `NAME_REGEX` is modelled directly as a predicate on paths, not through the template matcher.
