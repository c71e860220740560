# Joplin `ls` command and path utilities, in Dafny

This project models two pieces of Joplin:

- The pure logic of the terminal client's `ls` command
  (`packages/app-cli/app/command-ls.ts`), which covers three steps:
  - how the command-line options become a note query: limit, sort field,
    `--reverse`, `--type` letters and the title pattern;
  - how the command chooses between listing every notebook and listing the
    notes of the current notebook;
  - how the fetched items become table rows: the long-format columns, the
    to-do checkbox column, and the short id appended to a title that is
    empty or already shown.
- The string helpers for paths that `packages/utils/path.test.ts`
  exercises:
  - `quotePath` and `unquotePath`: shell quoting of a path;
  - `extractExecutablePath`: the first token of a command line;
  - `toFileProtocolPath`: the `file://` URL of a native path on Windows and
    on Linux.

Files:

- `wrappers.dfy`: `Option` and `Result`.
- `command_ls.dfy` (module `CommandLs`): the `ls` command.
- `path.dfy` (module `PathUtils`): the path helpers and their general
  properties. This includes the quote/unquote round trip for every path and
  the decode/encode round trip of the URL escapes.
- `path_cases.dfy` (module `PathCases`): every row of the test tables in
  `path.test.ts`, each as a lemma.

Everything the command reaches outside its own file is a parameter of the
model:

- the database (`Folder.all`, `Note.previews`, `Folder.noteCount`);
- the settings (`uncompletedTodosOnTop`);
- the application state (the current notebook);
- the helpers `BaseModel.shortId` and `time.formatMsToLocal`.

Options the source tests for JavaScript truthiness (`limit`, `sort`, `type`,
the pattern) are `Option<string>`, and they count as given when present and
non-empty (`CommandLs.Given`).

The implementation file `packages/utils/path.ts` is not part of this model. The
four path functions are defined so that they agree with every case the test
file tabulates:

- A path is quoted when it holds a space or a double quote: the test row
  `/my/weird"path` (`path.test.ts:9`) holds no space and is quoted. Inner
  double quotes are escaped with a backslash.
- Unquoting drops the first and last character when the first is a double
  quote, then turns each `\"` back into `"`.
- An executable path is either a leading double-quoted token, quotes
  included, or everything up to the first space.
- A Windows path gets its backslashes turned into slashes and the prefix
  `file:///`. Any other platform gets `file://`.
- The URL escapes only space, `+` and `'`, as `%20`, `%2B` and `%27`.

## Model

| member | source | states |
|---|---|---|
| CommandLs.Reversed | packages/app-cli/app/command-ls.ts:47 | an absent direction becomes 'ASC', and a present direction always changes to the other one |
| CommandLs.ReverseTwiceRestores | packages/app-cli/app/command-ls.ts:47 | applying the `--reverse` toggle twice to a present direction gives that direction back |
| CommandLs.ItemTypesOf | packages/app-cli/app/command-ls.ts:49-53 | 'note' is selected iff the `--type` text contains `n`, and 'todo' iff it contains `t`; no type is listed twice, and 'note' comes before 'todo' |
| CommandLs.BuildQueryOptions | packages/app-cli/app/command-ls.ts:41-55 | limit, sort field and title pattern are copied only when given; the direction is 'ASC' with a sort field and is absent without one; it is 'DESC' iff a sort field and `--reverse` are both given; the search ignores case; item types exist iff `--type` was given; they are exactly the types its letters select, without repeats, 'note' before 'todo'; the setting is copied; conflicts are not included |
| CommandLs.ReverseFlipsSortDirection | packages/app-cli/app/command-ls.ts:43-47 | with a sort field, `--reverse` changes only the direction of the query, from 'ASC' to 'DESC' |
| CommandLs.ItemTypeLettersExamples | packages/app-cli/app/command-ls.ts:30 | the help text's examples: `-tnt` (the value `nt`) selects notes then to-dos, and `-tt` (the value `t`) selects only to-dos; `tn` and the repeated `tnt` select the same as `nt`; a letter other than `n` or `t` selects nothing |
| CommandLs.SelectSource | packages/app-cli/app/command-ls.ts:57-66 | notebooks are listed iff the pattern is `/` or no notebook is selected, and then conflicts are included; otherwise the notes of the selected notebook are listed with the query unchanged; the "select a notebook" error is never raised |
| CommandLs.FindTodo | packages/app-cli/app/command-ls.ts:71-78 | the scan reports a to-do iff some listed item is a to-do |
| CommandLs.BuildRows | packages/app-cli/app/command-ls.ts:80-116 | one row per item. In long format a row starts with the short id, then the note count for a notebook, then the date. A checkbox column follows iff some item is a to-do: `[X]` when completed, `[ ]` when not, blank for a note. The title is last, and gets the short id appended iff the format is short and the title is empty or belongs to an earlier item. In long format every row ends with the item's own title, because the id column is filled before the title test |
| CommandLs.EachTitleShownPlainOnce | packages/app-cli/app/command-ls.ts:98-103 | in short format every non-empty title is shown without a short id on at least one row (its first), and no two rows shown without a short id carry the same title |
| CommandLs.Action | packages/app-cli/app/command-ls.ts:36-120 | the command never fails; it outputs JSON iff the format is `json`, and then gives exactly the listed items; otherwise it gives one row per listed item, each the row `BuildRows` promises, with notebook columns iff notebooks were listed |
| PathUtils.EscapeQuotes | packages/utils/path.test.ts:9 | a text without double quotes is unchanged, and a lone double quote becomes backslash-quote |
| PathUtils.UnescapeQuotes | packages/utils/path.test.ts:17 | unescaping never lengthens a text, and leaves a text without double quotes unchanged; it undoes `EscapeQuotes` (see `PathUtils.UnescapeEscape`) |
| PathUtils.QuotePath | packages/utils/path.test.ts:5-12 | the empty path stays empty; a path with neither a space nor a double quote is unchanged; any other path comes out between double quotes, and a spaced path without double quotes is only wrapped |
| PathUtils.EscapeQuotesAppend | packages/utils/path.test.ts:9 | escaping works piece by piece: escaping a concatenation concatenates the escaped parts |
| PathUtils.UnquotePath | packages/utils/path.test.ts:17 | unquoting never lengthens a path, and leaves a path without double quotes unchanged |
| PathUtils.UnescapeEscape | packages/utils/path.test.ts:9 | removing the backslash escapes undoes adding them, for every text, backslashes included |
| PathUtils.QuoteUnquoteRoundTrip | packages/utils/path.test.ts:14-18 | unquoting the quoted form of ANY path gives the path back, native Windows paths included |
| PathUtils.PrefixBefore | packages/utils/path.test.ts:24 | the result is the longest prefix of the text that avoids the stop character: a prefix without it, followed by the stop character or the end |
| PathUtils.PrefixBeforeIs | packages/utils/path.test.ts:24-27 | that prefix is the one of length `n` whenever the first `n` characters avoid the stop character and it (or the end) comes next |
| PathUtils.ExtractExecutablePath | packages/utils/path.test.ts:21-35 | the token is a prefix of the command, and is empty for an empty command. Unquoted, it holds no space and ends at the first space or the end. Quoted, it is a double-quoted token with its closing quote and no quote inside, or, with no closing quote, the whole command |
| PathUtils.PercentEncode | packages/utils/path.test.ts:39-46 | a text without space, `+` or `'` is left as it is |
| PathUtils.PercentEncodeClean | packages/utils/path.test.ts:39-46 | the encoded text holds no space, `+` or `'`, and encoding adds no backslash |
| PathUtils.PercentEncodeAppend | packages/utils/path.test.ts:39-46 | encoding works piece by piece |
| PathUtils.EncodeAround | packages/utils/path.test.ts:39-40 | in a text whose only reserved character sits between two plain stretches, only that character is replaced by its escape |
| PathUtils.EncodeAroundTwo | packages/utils/path.test.ts:41 | the same holds with two reserved characters |
| PathUtils.DecodeEncode | packages/utils/path.test.ts:39-46 | decoding the three escapes gives back any text that held no `%` |
| PathUtils.ForwardSlashes | packages/utils/path.test.ts:39-41 | the converted path has the same length and holds no backslash; `PathUtils.ForwardSlashesAt` and `PathUtils.ForwardSlashesIs` pin every character |
| PathUtils.ForwardSlashesAt | packages/utils/path.test.ts:39-41 | converting separators turns each backslash into a slash and keeps every other character in place |
| PathUtils.ForwardSlashesIs | packages/utils/path.test.ts:39-41 | the converted path is the only text of the same length that agrees with that rule at every index |
| PathUtils.ToFileProtocolPath | packages/utils/path.test.ts:37-57 | every URL starts with `file://`; the other properties are the lemmas `PathUtils.FileUrlShape` (no reserved character, Windows third slash, no backslash), `PathUtils.FileUrlOfPlainPath` (plain paths only gain the prefix) and `PathUtils.FileUrlDecodes` (the URL tail decodes back to the path) |
| PathUtils.FileUrlShape | packages/utils/path.test.ts:37-57 | every URL starts with `file://` and holds no space, `+` or `'`; a Windows URL has a third slash and no backslash |
| PathUtils.FileUrlOfPlainPath | packages/utils/path.test.ts:37-57 | a path without reserved characters only gains the prefix, and on Windows has its separators converted |
| PathUtils.FileUrlDecodes | packages/utils/path.test.ts:37-57 | decoding the URL after its prefix gives back the path on Linux, and the slash-converted path on Windows |
| PathCases.QuoteEmptyPath | packages/utils/path.test.ts:6 | `''` quotes to `''` |
| PathCases.QuotePlainPath | packages/utils/path.test.ts:7 | `/my/path` is left unquoted |
| PathCases.QuotePathWithSpaces | packages/utils/path.test.ts:8 | `/my/path with spaces` is wrapped in double quotes |
| PathCases.QuotePathWithQuote | packages/utils/path.test.ts:9 | `/my/weird"path` is wrapped, and its quote escaped as `\"` |
| PathCases.QuoteWindowsPath | packages/utils/path.test.ts:10 | `c:\Windows\test.dll` is left unquoted, backslashes untouched |
| PathCases.QuoteWindowsPathWithSpace | packages/utils/path.test.ts:11 | `c:\Windows\test test.dll` is wrapped in double quotes, backslashes untouched |
| PathCases.ExtractFromEmptyCommand | packages/utils/path.test.ts:23 | the empty command gives the empty path |
| PathCases.ExtractUnquotedExecutable | packages/utils/path.test.ts:24 | `/my/cmd -some -args` gives `/my/cmd` |
| PathCases.ExtractQuotedExecutable | packages/utils/path.test.ts:25 | `"/my/cmd" -some -args` gives `"/my/cmd"`, quotes kept |
| PathCases.ExtractQuotedExecutableAlone | packages/utils/path.test.ts:26 | `"/my/cmd"` alone gives itself |
| PathCases.ExtractQuotedExecutableWithSpaces | packages/utils/path.test.ts:27 | a quoted token keeps its inner spaces: `"/my/cmd and space"` |
| PathCases.ExtractEmptyQuotedExecutable | packages/utils/path.test.ts:28 | `"" -some -flags` gives the two-character `""`, not the empty string |
| PathCases.FileUrlWithSpaceOnWindows | packages/utils/path.test.ts:39 | `C:\handle\space test` on win32 gives `file:///C:/handle/space%20test` |
| PathCases.FileUrlWithPlusOnWindows | packages/utils/path.test.ts:40 | `C:\escapeplus\+` on win32 gives `file:///C:/escapeplus/%2B` |
| PathCases.FileUrlWithSingleQuoteOnWindows | packages/utils/path.test.ts:41 | `C:\handle\single quote'` on win32 gives `file:///C:/handle/single%20quote%27` |
| PathCases.FileUrlWithSpaceOnLinux | packages/utils/path.test.ts:44 | `/handle/space test` on linux gives `file:///handle/space%20test` |
| PathCases.FileUrlWithPlusOnLinux | packages/utils/path.test.ts:45 | `/escapeplus/+` on linux gives `file:///escapeplus/%2B` |
| PathCases.FileUrlWithSingleQuoteOnLinux | packages/utils/path.test.ts:46 | `/handle/single quote'` on linux gives `file:///handle/single%20quote%27` |

## Left out

- Database and application state. `Folder.all`, `Note.previews`, `Folder.noteCount`, `Setting.value` and `app().currentFolder()` are function or value parameters. Their own behaviour (sorting, limits, pattern matching) belongs to other modules.
- Output. `JSON.stringify`, `cliUtils.printArray` and `this.stdout` are replaced by the `Output` datatype, which holds the listed items or the rows. The column layout of the printed table is not modelled.
- Localisation and formatting. `_()` messages are kept as plain English strings. `sprintf('[%s]', …)` is written out as the three checkbox strings. `time.formatMsToLocal` and `BaseModel.shortId` are opaque parameters.
- The command's metadata (`usage`, `description`, `enabled`, `options`) is not modelled. It declares the interface and computes nothing; only the `--type` examples in the help text are stated, as `CommandLs.ItemTypeLettersExamples`.
- Asynchrony. The `await`ed calls are modelled as ordinary calls, in the source's order.
- CommandLs.SelectSource: the error branch for "no notebook selected" is kept, but the contract proves it unreachable. The source's second test of `currentFolder()` repeats the first one, so `Action` never fails.
- The implementation file `packages/utils/path.ts` is not part of this model. The four path functions are the simplest definitions that meet the test tables. Behaviour the tests do not pin down may differ from that file, for example:
  - a single-quoted executable;
  - a tab in a path;
  - characters other than space, `+` and `'` in a URL;
  - a Windows path that already starts with a slash.
- PathUtils.ExtractExecutablePath: only the double quote opens a quoted token; no test quotes with `'`.
- PathUtils.PercentEncode: only space, `+` and `'` are escaped, which are the characters the tests use. Full `encodeURI` escaping is not modelled.
- PathUtils.PercentDecode: only decodes the three escapes `PercentEncode` produces, which is all its round-trip lemma needs.
- Platform names: every platform other than `win32` is treated like `linux`.
