# vault-dashboard core, modelled in Dafny

This project models the logic of the vault dashboard (`app.js`). The dashboard
is a browser front end over a GitHub repository that holds an Obsidian vault.
The model covers:

- the GitHub client `VaultAPI`:
  - the 90-second response cache of `req`;
  - the base64/UTF-8 codec of `readFile` and `writeFile`, and the percent-encoded contents path;
  - the listing calls `getTree` and `getMdFiles`;
  - `getStats`, `getTodos`, `getProjects`, `search`, `healthCheck` and `clearCache`.
- The retry schedule of `GeminiAPI.ask`.
- The state of `VaultApp` as a class:
  - the TODO cache and the TODO handlers (`addTodo`, `toggleTodo`, `deleteTodo`) with the list filter;
  - the memo pad (`loadMemos`, `addMemo`, `deleteMemo`);
  - pins, the notification centre, the AI chat history and the command palette.
- The relative times of the timeline and the per-day counts and levels of the contribution graph.

Whatever the browser or the network supplies enters as a parameter:

- a `fetch` reply becomes a `Response` value;
- the clock becomes `now`/`arrival` numbers or a `Clock` record;
- `localStorage` values become constructor arguments and fields;
- the files `readFile` returns become a map from path to text.

A handler's write to GitHub is returned as a `Todos.Write` (path, content, commit message).

Modules:

- `Text`: the JavaScript string operations the code relies on.
- `Base64`, `Utf8`, `Uri`, `ContentCodec`: the contents API codec.
- `Listing`, `Grouping`, `Projects`, `Health`, `Search`, `Todos`, `Memos`: the vault queries and edits.
- `VaultApi`: the client class and its cache.
- `Gemini`: the retry loop.
- `Palette`: the command palette.
- `Timeline`: relative times and the contribution graph.
- `App`: the `VaultApp` class.
- `TodoFindings`: the two `toggleTodo` findings below.

Where the code does something other than what it evidently means to do, the
model keeps the code as written beside a corrected version; `App` uses the
corrected one. See "## Findings".

## Model

| member | source | states |
|---|---|---|
| Text.RemoveSpace | app.js:77 | `replace(/\s/g, '')` leaves no white space |
| Text.RemoveSpaceAppend | app.js:77 | stripping white space distributes over concatenation |
| Text.RemoveSpaceOfSpace | app.js:77 | an all-space string strips to empty |
| Text.RemoveSpaceOfNoSpace | app.js:77 | a string without white space is unchanged |
| Text.IndexOfFrom | app.js:166 | the first occurrence of a pattern at or after a position, or none at all |
| Text.IndexOf | app.js:166 | `includes`/`indexOf`: some occurrence exists iff one is found, and it is the first |
| Text.Substitution | app.js:1404-1409 | the `$` patterns of a `String.replace` replacement; a replacement without `$` is inserted as is |
| Text.SubstitutionOfPlain | app.js:1404-1409 | a `$`-free prefix of a replacement passes through substitution unchanged |
| Text.ReplaceFirstWithoutDollar | app.js:1404-1409 | `replace(string, string)` with a `$`-free replacement is a literal first-occurrence replace |
| Text.TrimStartSpec | app.js:137 | the leading-space cut removes exactly an all-space prefix and stops at a non-space |
| Text.TrimEndSpec | app.js:137 | the trailing-space cut removes exactly an all-space suffix and stops at a non-space |
| Text.TrimEnds | app.js:137 | `trim()` gives empty or a string with non-space ends |
| Text.TrimSlice | app.js:137 | `trim()` is a slice with all-space margins on both sides |
| Text.TrimOfUntrimmed | app.js:137 | a string with non-space ends is its own trim |
| Text.TrimIdempotent | app.js:137 | trimming twice is trimming once |
| Text.TrimOfPadded | app.js:137 | trimming spaces around a text gives the text |
| Text.TrimAllSpace | app.js:137 | an all-space string trims to empty |
| Text.TrimMargins | app.js:137 | the slice bounds of `trim()`, with non-space first and last characters when non-empty |
| Text.TrimConsSpace | app.js:137 | a leading space does not change the trim |
| Text.TrimSnocSpace | app.js:137 | a trailing space does not change the trim |
| Text.Filter | app.js:128-130 | `Array.filter`: no longer than the input, and it holds exactly the input's kept elements |
| Text.FilterAppend | app.js:981-985 | filtering distributes over concatenation |
| Text.FilterSnoc | app.js:981-985 | filtering a list with one more element appends it iff it is kept |
| Text.FilterAllKept | app.js:981-985 | a filter that keeps every element is the identity |
| Text.FilterOnlyAt | app.js:981-985 | a filter that keeps one element gives just that element |
| Text.FilterNoneKept | app.js:981-985 | a filter that keeps nothing gives the empty list |
| Text.FilterFilter | app.js:981-985 | two filters in a row are one filter by the conjunction |
| Text.FilterSame | app.js:981-985 | filters by equal predicates agree |
| Text.FilterDrops | app.js:1440-1446 | a filter keeps the length iff it keeps every element, which is `deleteTodo`'s "not found" test |
| Text.CountComplement | app.js:1031 | the elements kept by a predicate and by its negation add up to the list |
| Text.LastIndexOfChar | app.js:166 | the last occurrence of a character, present iff the character is |
| Text.Split | app.js:136 | `split(d)` gives at least one piece and no piece holds `d` |
| Text.SplitAppendLine | app.js:1049 | appending `d` and a line without `d` adds exactly that piece |
| Text.JoinSplit | app.js:1448 | joining the pieces of a split restores the string |
| Text.SplitJoin | app.js:1448 | splitting a join of `d`-free pieces restores the pieces |
| Text.SplitAtLast | app.js:136 | the pieces of a string split at its last delimiter |
| Text.SplitJoinAppend | app.js:683 | a join followed by `d` and a `d`-free line splits into the pieces and the line |
| Text.SplitConcat | app.js:136 | splitting `a + d + b` is splitting `a`, then `b` |
| Text.SplitSnoc | app.js:136 | a non-delimiter appended goes into the last piece |
| Text.SplitCons | app.js:136 | a non-delimiter prepended goes into the first piece |
| Text.Prefix | app.js:1416 | `substring(0, n)`: a prefix of length at most `n`, the whole string when shorter |
| Text.NatToString | app.js:1315 | a number's decimal digits |
| Text.NatToStringValue | app.js:1315 | the digits read back as the number |
| Base64.SymbolValue | app.js:78 | a base64 symbol's 6-bit value |
| Base64.SymbolRoundTrip | app.js:78 | symbol and value are inverse |
| Base64.EncodeGroup | app.js:87 | three bytes become four symbols |
| Base64.EncodeUnpadded | app.js:87 | `btoa` before padding: all symbols, with length fixed by the byte count mod 3 |
| Base64.Encode | app.js:87 | `btoa` output length is a multiple of four |
| Base64.RemoveAsciiSpace | app.js:78 | `atob` drops ASCII white space |
| Base64.RemoveAsciiSpaceAppend | app.js:78 | dropping ASCII white space distributes over concatenation |
| Base64.GroupArithmetic | app.js:78 | the bit arithmetic of a group undoes the encoding of three bytes |
| Base64.DecodeGroup | app.js:78 | an encoded group decodes to its three bytes |
| Base64.DecodeUnpadded | app.js:78 | unpadded symbols decode back to the bytes |
| Base64.DecodeOneByte | app.js:78 | a one-byte tail decodes back |
| Base64.DecodeTwoBytes | app.js:78 | a two-byte tail decodes back |
| Base64.EncodeHasNoSpace | app.js:87 | `btoa` output holds no white space |
| Base64.StripPaddingOfEncode | app.js:87 | removing the padding of `btoa` gives the unpadded symbols |
| Base64.DecodeEncode | app.js:78-87 | `atob(btoa(b)) == b` |
| Base64.DecodeIgnoresSpace | app.js:77-78 | white space anywhere in the content does not change what `atob` gives |
| Utf8.EncodeChar | app.js:87 | one code point becomes one to four bytes |
| Utf8.Encode | app.js:87 | `unescape(encodeURIComponent(s))` gives between one and four bytes per code point |
| Utf8.EncodeAppend | app.js:87 | encoding distributes over concatenation |
| Utf8.DecodeFirst | app.js:79 | the first well-formed sequence is one to four bytes long |
| Utf8.DecodeFirstOfEncodeChar | app.js:79 | an encoded code point decodes first to itself |
| Utf8.DecodeFirstOfTwo | app.js:79 | the two-byte case of that |
| Utf8.DecodeFirstOfThree | app.js:79 | the three-byte case of that |
| Utf8.DecodeFirstOfFour | app.js:79 | the four-byte case of that |
| Utf8.DecodeEncode | app.js:79-87 | decoding the encoding of a string gives the string |
| Utf8.EncodeCharOfDecodeFirst | app.js:79 | a decoded code point re-encodes to exactly the bytes it came from |
| Utf8.EncodeDecode | app.js:79-87 | bytes that decode re-encode to themselves |
| Utf8.EncodeAscii | app.js:87 | ASCII text encodes byte for byte |
| Uri.HexDigit | app.js:60 | an escape's hex digit is never `%` |
| Uri.HexValue | app.js:60 | a hex digit's value is below 16 |
| Uri.RestoreSlashesOfEncoding | app.js:60 | `encodeURIComponent(path).replace(/%2F/g, '/')` is percent-encoding that leaves `/` |
| Uri.RestoreSlashesOfEscape | app.js:60 | restoring slashes works escape by escape |
| Uri.RestoreSlashesKeepsChar | app.js:60 | an unescaped character passes through |
| Uri.RestoreSlashesKeepsEscape | app.js:60 | an escape other than `%2F` passes through |
| Uri.EscapeByteKeepSlashDecodes | app.js:60 | one escaped byte percent-decodes back |
| Uri.PercentDecodeKeepSlash | app.js:60 | the encoded path percent-decodes back to its bytes |
| Uri.ContentsPathNamesFile | app.js:60 | `contents/` + the encoded path names exactly the file `path` |
| ContentCodec.ByteString | app.js:82 | the `atob` fallback gives one character per byte |
| ContentCodec.ReadAfterWrite | app.js:76-87 | what `writeFile` encodes, `readFile` decodes to the same text |
| ContentCodec.SpaceInsensitive | app.js:77 | white space inserted in the base64 content does not change the text read |
| ContentCodec.WriteAfterRead | app.js:79-87 | text read through UTF-8 writes back as the same bytes |
| ContentCodec.FallbackWriteBackGrows | app.js:80-87 | text read through the Latin-1 fallback writes back as more bytes than it was |
| ContentCodec.EncodeDecodeAscii | app.js:79-82 | on ASCII bytes the UTF-8 read and the fallback agree |
| ContentCodec.EncodeLongerWithHighChar | app.js:87 | a character at or above U+0080 makes the encoding longer than the text |
| VaultApi.Fetched | app.js:36-45 | a reply is a result iff it is `ok`; otherwise it is an HTTP error with its status |
| VaultApi.Serve | app.js:30-46 | a fresh cached entry is served for a plain GET; anything else is fetched; only a successful plain GET is stored |
| VaultApi.StoredEntryServedWhileFresh | app.js:33 | a stored reply is served iff it is younger than 90 000 ms |
| VaultApi.OptionsBypassCache | app.js:33-44 | a request with options neither reads nor writes the cache |
| VaultApi.ClearedCacheMisses | app.js:207 | after `clearCache` every request goes to the network |
| VaultApi.OtherEntriesUnchanged | app.js:44 | a request touches only its own URL's entry |
| VaultApi.ReadResult | app.js:76-82 | a failed request stays a failure; decodable content gives its text |
| VaultApi.ProbedSha | app.js:90-101 | the SHA is sent iff the probe is `ok` and has a non-empty `sha` |
| VaultApi.CommitMessage | app.js:103 | an empty message becomes `Update <path>` |
| VaultApi.WriteBodyCarriesText | app.js:87-104 | the PUT body's content decodes to the text written |
| VaultApi.ReadBackWrittenText | app.js:76-87 | a document holding the written content reads back as that text |
| VaultApi.Client.constructor | app.js:23-28 | the base URL is the API root plus the repository, and the cache is empty |
| VaultApi.Client.Req | app.js:30-46 | the result and the new cache are `Serve`'s |
| VaultApi.Client.ClearCache | app.js:207 | the cache becomes empty |
| VaultApi.Client.ReadFile | app.js:59-83 | a fresh read bypasses the cache and leaves it unchanged; a plain read goes through `req` |
| VaultApi.Client.WriteFile | app.js:85-109 | the body sent is the encoded text with the probed SHA; the cache is unchanged |
| VaultApi.Client.GetTree | app.js:48-51 | the blobs of the tree reply, through the cache |
| VaultApi.Client.GetMdFiles | app.js:53-57 | the notes of the tree reply, through the cache |
| Listing.Blobs | app.js:50 | exactly the blob entries, in order |
| Listing.MdFiles | app.js:55-56 | exactly the `.md` entries outside the skipped folders, in order |
| Listing.CountPrefix | app.js:119-122 | a category count is at most the number of notes |
| Listing.GetStats | app.js:115-125 | the total and size of all notes; the four categories together count no more than the total |
| Listing.CategoriesDisjoint | app.js:119-122 | no note is counted in two categories |
| Listing.SegmentsOfJoin | app.js:135 | `split('/')[k]` of a joined path is its `k`-th part |
| Grouping.Distinct | app.js:196 | `[...new Set(keys)]`: the same keys, each once |
| Grouping.Occurrences | app.js:202 | how often a key occurs; zero iff absent |
| Grouping.CountEqualOfDistinct | app.js:196 | a key occurs once in a list without duplicates iff it is in it |
| Grouping.SumOccurrencesAppendKey | app.js:202 | one more key adds one to its own count |
| Grouping.OccurrencesSum | app.js:202 | the per-key counts over the distinct keys add up to the number of keys |
| Projects.ProjectFiles | app.js:153 | exactly the notes under `Projects/`, in order |
| Projects.Names | app.js:154 | each file's project name is its second path part |
| Projects.GroupsFor | app.js:155-157 | one group per name, holding that project's files and size |
| Projects.Insert | app.js:159 | one insertion step of the sort adds one element |
| Projects.SortByFileCount | app.js:159 | the sort keeps the number of projects |
| Projects.GetProjects | app.js:150-160 | the loop's result is the grouped projects sorted by file count |
| Projects.AddFile | app.js:154-157 | one file added keeps the accumulation invariant |
| Projects.ValuesInOrder | app.js:159 | `Object.values` in insertion order |
| Projects.ValuesAreGroups | app.js:159 | the map's values in order are the groups |
| Projects.AccumulateStep | app.js:155-157 | the map update for one file |
| Projects.GroupsStep | app.js:155-157 | after the update every group holds its files so far |
| Projects.GroupStep | app.js:155-157 | one more file changes only its own project's group |
| Projects.UnseenGroupEmpty | app.js:155 | a project not yet seen has no files and size 0 |
| Projects.InsertSorted | app.js:159 | insertion keeps the order by descending file count |
| Projects.InsertPermutes | app.js:159 | insertion adds exactly the element |
| Projects.InsertWithCount | app.js:159 | insertion keeps the order of equal counts, which makes the sort stable |
| Projects.InsertTotal | app.js:159 | insertion adds the element's files to the total |
| Projects.SortByFileCountCorrect | app.js:159 | the result is sorted descending, a permutation, stable and has the same total |
| Projects.PathsCountOccurrences | app.js:156 | a project's file list is as long as its name's occurrences |
| Projects.TotalFilesAppend | app.js:156 | file totals add up over concatenation |
| Projects.TotalFilesOfGroups | app.js:156 | the groups' file totals are the name occurrences |
| Projects.ProjectsAccountForEveryFile | app.js:150-160 | every project file is in exactly one group, and the list is sorted |
| Projects.PathsOfMembers | app.js:156 | a group holds exactly the paths of its project's files |
| Health.SmallFiles | app.js:194 | exactly the notes under 10 bytes |
| Health.Clamp | app.js:204 | `max(0, min(100, score))` lies in 0..100 and keeps in-range scores |
| Health.FolderKeys | app.js:203 | each note's first path part |
| Health.CountsFor | app.js:203 | each folder with its count |
| Health.Entries | app.js:203 | the folder map read in key order |
| Health.HealthCheck | app.js:185-205 | the score is 100 minus the deductions, clamped; the issues, stats and folder counts are as specified |
| Health.NoteChecks | app.js:189-195 | the daily, Home and empty-file issues and their deductions |
| Health.CheckTopFiles | app.js:196-200 | one issue per project folder without its top file, 3 points each |
| Health.CountFolders | app.js:202-203 | the loop's folder counts |
| Health.EntriesOfCounted | app.js:203 | the counted map read in first-seen order |
| Health.CountStep | app.js:203 | one note increments its own folder |
| Health.MissingTopStep | app.js:197-199 | one more folder adds its issue iff its top file is missing |
| Health.SumCountsFor | app.js:203 | folder counts sum to the occurrences |
| Health.FolderCountsSumToTotal | app.js:202-203 | the folder counts add up to the number of notes |
| Health.MissingTopIssuesMembers | app.js:196-200 | an issue names a project folder iff that folder lacks `Projects/p/p.md` |
| Health.FullScoreIffOnlyNoteCountIssue | app.js:185-205 | the score is 100 iff the only issue is the informational note count |
| Search.NameHits | app.js:165-170 | file-name hits preview their own path |
| Search.InListingSnoc | app.js:172 | a path is listed iff it was before or is the new hit |
| Search.NameHitsExact | app.js:165-170 | a file is a name hit iff it is a note whose name, minus `.md`, contains the keyword |
| Search.FirstLineWith | app.js:176 | the first line containing the keyword, or empty when none does |
| Search.ContentHit | app.js:176-177 | a content hit names the file and previews at most 100 characters |
| Search.FileNameHits | app.js:165-170 | the loop gives the name hits |
| Search.SearchNotes | app.js:162-183 | the loop gives the specified results |
| Search.ContentScanExtends | app.js:171-181 | the content scan only appends to the name hits |
| Search.ContentScanBound | app.js:171 | the scan stops adding at 20 results |
| Search.ContentHitsSound | app.js:171-181 | each content hit is an unlisted note, among the first 40, whose text contains the keyword |
| Search.ContentScanComplete | app.js:171-181 | below 20 results, every readable matching note among the first 40 is listed |
| Search.SearchShape | app.js:162-183 | name hits come first, and content hits stop at 20 |
| Search.NameHitsDistinct | app.js:166-170 | over a listing with distinct paths, each note has at most one file-name hit |
| Search.NextDistinct | app.js:173 | a note already listed is skipped, so a content hit never repeats a result |
| Search.ContentScanDistinct | app.js:171-181 | the content scan keeps the results free of repeated notes |
| Search.SearchNoRepeats | app.js:162-183 | over a listing with distinct paths, no note appears twice in the results |
| Todos.ParseLine | app.js:137-142 | a line is a TODO iff its trim starts with one of the three markers; done iff `- [x]`; the task is trimmed |
| Todos.ParseMarkedLine | app.js:137-142 | a marker followed by a trimmed task parses to that task |
| Todos.Scanned | app.js:128-132 | at most 20 files, each a TODO target |
| Todos.LineTodos | app.js:136-143 | at most one TODO per line |
| Todos.ParseTodos | app.js:136-143 | the loop gives the TODOs of the lines |
| Todos.GetTodos | app.js:127-148 | the loop gives the TODO list |
| Todos.ReadTodos | app.js:134-144 | one file's TODOs, none when the read fails |
| Todos.CollectStep | app.js:132 | one more file appends its TODOs |
| Todos.LineTodosFrom | app.js:135-141 | every TODO carries its file and project |
| Todos.CollectTodosFrom | app.js:132-144 | every TODO comes from a readable scanned file |
| Todos.TodoListSound | app.js:127-148 | every TODO comes from a target file and names its project |
| Todos.AddTodo | app.js:1035-1058 | empty and unconnected are rejected; the write goes to the project's file and ends with the new line |
| Todos.AppendTodoLine | app.js:1049 | the appended line parses as one more open TODO |
| Todos.TodoPathProject | app.js:1046 | the file `addTodo` writes is read back under the first segment of the typed project, which is the project itself when it has no `/` |
| Todos.NestedSegment | app.js:136 | the project of `Projects/<a>/<b>` is the first segment of `a` |
| Todos.AddTodoAppends | app.js:1035-1058 | `addTodo` writes to the path of the typed project, `Home` when the field is empty; the file then lists its old TODOs plus the new open one, under the project that path names |
| Todos.FilterTodosExact | app.js:981-985 | the status and project filters keep exactly the shown TODOs |
| Todos.OpenAndDoneCountAll | app.js:1031 | open and done counts add up to all TODOs |
| Todos.DeleteTodoNotFound | app.js:1439-1446 | `deleteTodo` fails iff no line is the TODO |
| Todos.DeleteTodoKeepsOtherLines | app.js:1439-1448 | every other line is kept in order and no line of the TODO remains |
| Todos.ReplaceMarkerChanges | app.js:1404-1409 | replacing a marker that is present changes the content |
| Todos.ReplaceMarkerOneChar | app.js:1404-1409 | that replace changes just the marker character of the first match |
| Todos.ToggleAsWrittenNotFound | app.js:1402-1411 | as written, the toggle fails iff no marker plus task occurs |
| Todos.ToggleAsWrittenOneChar | app.js:1402-1411 | as written, the toggle flips the marker of the first occurrence |
| Todos.FindLine | app.js:1404-1409 | the first line whose trim is the target, or none |
| Todos.LineParts | app.js:137 | a line is its leading space, its trim and its trailing space |
| Todos.RetagParses | app.js:1404-1409 | a re-marked line parses to the same task with the new state |
| Todos.RetagShape | app.js:1404-1409 | re-marking keeps the line's indentation and trailing space |
| Todos.ToggleNotFound | app.js:1410-1413 | the corrected toggle fails iff no line is this TODO |
| Todos.ToggleFlipsOwnLine | app.js:1395-1428 | the corrected toggle flips exactly the TODO's own line |
| Todos.FlipsAt | app.js:1404-1409 | re-marking line `k` flips that line only |
| Todos.RetagKeepsLines | app.js:1404-1409 | re-marking one line keeps the line structure |
| Todos.ToggleFound | app.js:1404-1409 | the line the corrected toggle re-marks |
| Todos.LeadTrailOfPadded | app.js:1404-1409 | re-marking keeps the white space around a line's text |
| Todos.RetagBack | app.js:1404-1409 | marking an open line done and then open again gives back the line |
| Todos.FindFlipped | app.js:1404-1409 | the re-marked line is the first line of its new state when no other line was |
| Todos.ToggleRoundTrip | app.js:1395-1428 | toggling an open TODO twice restores the file when no done line of the same task exists |
| TodoFindings.ToggleAsWrittenMarksOtherTask | app.js:1407 | as written, toggling `t` marks a longer task that starts with `t` |
| TodoFindings.ToggleMarksOwnTask | app.js:1407 | corrected, toggling `t` marks `t`'s own line |
| TodoFindings.ToggleAsWrittenRewritesDollars | app.js:1405-1408 | as written, `$$` in a task becomes `$` when it is toggled |
| TodoFindings.ToggleKeepsTask | app.js:1405-1408 | corrected, the task text is kept |
| Memos.MatchFrom | app.js:645 | the lazy `(.+?)` match from a given length: the shortest stamp that fits |
| Memos.MatchMemo | app.js:645-647 | `/^- \*\*(.+?)\*\* — (.+)$/` splits a line into stamp and text |
| Memos.PadStart2OfNat | app.js:673 | `padStart(2, '0')` of a number below 100 is its two digits |
| Memos.StampParses | app.js:673 | a time stamp's fields read back |
| Memos.TimestampFields | app.js:673 | the stamp holds the year, the 1-based month, the day, the hour and the minute |
| Memos.TimestampPlain | app.js:673 | the stamp holds no `*` and no line break |
| Memos.MatchFromMemoLine | app.js:645-674 | a new memo line matches with its own stamp |
| Memos.DisplayMemoLine | app.js:645-674 | a new memo line is shown as its stamp and text |
| Memos.AddMemo | app.js:666-692 | empty and unconnected are rejected; the write goes to `Memos.md` with the message `Bot: memo - ` and 30 characters |
| Memos.MemoLineListed | app.js:636 | a memo line is listed |
| Memos.MemoLineFacts | app.js:636-674 | a memo line is listed, one line, not `---`, and shown as written |
| Memos.NewMemoLine | app.js:668-674 | the line `addMemo` writes is listed and shown as entered |
| Memos.AppendMemoLine | app.js:683 | appending a memo line lists one more memo |
| Memos.AddMemoAppends | app.js:666-692 | after `addMemo` the file lists its old memos plus the new one |
| Memos.IndexOfLine | app.js:636 | the first index of a line |
| Memos.HeaderUnlisted | app.js:681 | no header line except the tag line is listed |
| Memos.HeaderTagListed | app.js:681 | the header's tag line `  - type/ボス` is listed as a memo |
| Memos.HeaderListed | app.js:681 | the header lists exactly its tag line |
| Memos.HeaderBody | app.js:681 | the header's front matter ends at line 3, and nothing after it is listed |
| Memos.HeaderThenMemo | app.js:681-683 | header plus memo lists the tag line and the memo |
| Memos.HeaderThenMemoOutsideFrontMatter | app.js:681-683 | outside the front matter it lists just the memo |
| Memos.AddMemoToMissingFile | app.js:679-683 | `addMemo` to a missing file lists the tag line as a memo |
| Memos.AddMemoToMissingFileOutsideFrontMatter | app.js:679-683 | outside the front matter the new file lists just the new memo |
| Memos.NoFrontMatterSameMemos | app.js:636 | without front matter both listings agree |
| Memos.AppendMemoLineOutsideFrontMatter | app.js:683 | appending a memo line lists one more memo outside the front matter |
| Memos.AddMemoAppendsOutsideFrontMatter | app.js:666-692 | so does `addMemo` |
| Memos.LeadingBreaks | app.js:700 | the length of a run of line breaks |
| Memos.ThreeBreaksAt | app.js:700 | where `\n\n\n` occurs |
| Memos.CollapseNoThreeBreaks | app.js:700 | `replace(/\n\n\n+/g, '\n\n')` leaves no three breaks in a row |
| Memos.CollapseOfNoThreeBreaks | app.js:700 | it changes nothing when there are none |
| Memos.CollapseIdempotent | app.js:700 | collapsing twice is collapsing once |
| Memos.CollapseKeepsText | app.js:700 | it removes only line breaks |
| Memos.TrimmedEnding | app.js:701 | `trim() + '\n'` of collapsed text is tidy |
| Memos.Tidy | app.js:700-701 | the written content is tidy |
| Memos.DeleteMemo | app.js:694-708 | as written: a write iff connected, loaded and the index names a non-empty line; the message is `Bot: memo done` |
| Memos.TrimmedMemosAppend | app.js:636 | the listing distributes over concatenation |
| Memos.TrimmedMemosOfMemoLines | app.js:636 | the memos are the listed lines, trimmed |
| Memos.BreaksBetween | app.js:700 | line breaks between two parts add no memo |
| Memos.CollapseKeepsMemos | app.js:700 | collapsing blank lines keeps the memos |
| Memos.SnocBreakKeepsMemos | app.js:701 | a trailing break adds no memo |
| Memos.TrimEndKeepsMemos | app.js:701 | trimming the end keeps the memos |
| Memos.TrimStartKeepsMemos | app.js:701 | trimming the start keeps the memos |
| Memos.TidyKeepsMemos | app.js:700-701 | the whole tidy-up keeps the memos |
| Memos.MemoPosition | app.js:696 | the line of the `idx`-th memo |
| Memos.MemoPositionSplits | app.js:696 | removing that line removes exactly that memo |
| Memos.DeleteMemoLine | app.js:694-708 | corrected: a write iff connected, loaded and `idx` names a memo |
| Memos.DeleteMemoLineRemoves | app.js:694-708 | corrected, the file loses exactly the `idx`-th memo |
| Memos.DeleteMemoHitsEarlierLine | app.js:700 | as written, deleting a memo that is the prefix of an earlier one cuts the earlier one |
| Memos.DeleteMemoLineKeepsEarlierLine | app.js:700 | corrected, the earlier memo is kept |
| Gemini.Verdict | app.js:245-247 | not `ok` is an HTTP error with its status; otherwise the text, or `応答なし` when there is none |
| Gemini.Backoff | app.js:221-239 | one wait per retry |
| Gemini.BackoffAt | app.js:221-239 | the `i`-th wait is 2000 × 2^i ms |
| Gemini.BackoffDoubles | app.js:221-239 | the first wait is 2000 ms and each wait doubles |
| Gemini.BackoffSchedule | app.js:220-239 | the waits are 2000, 4000 and 8000 ms |
| Gemini.Settled | app.js:222-243 | the attempt that ends the loop: all earlier ones were 429 |
| Gemini.SettledFromIs | app.js:222-243 | those facts determine the attempt |
| Gemini.Ask | app.js:216-250 | as written: missing key, else the settling answer's verdict after the backoff; never the rate-limit error |
| Gemini.AskWithLimit | app.js:216-250 | corrected: the rate-limit error iff all four attempts were 429 |
| Gemini.AlwaysBusyIsHttpError | app.js:236-249 | four 429 answers end in `Gemini API Error: 429` |
| Palette.Lower | app.js:1583 | `toLowerCase` on ASCII letters, character by character |
| Palette.MatchesMembers | app.js:1583-1584 | an empty query lists all pages; otherwise a page is listed iff its lower-cased name or its action contains the query |
| Palette.LabelFindsPage | app.js:1566-1584 | typing a page's name lists that page |
| Palette.Choose | app.js:1601-1609 | an entry exists iff the index is in range; `clearCache` clears, `notifications` toggles the panel, `syncNow` syncs, and any other action navigates |
| Timeline.RelativeTime | app.js:1309-1322 | each bucket covers exactly its age range and shows the floored count |
| Timeline.AgoText | app.js:1314-1321 | the text shown; none for the locale date |
| Timeline.RelativeTimeMonotone | app.js:1309-1322 | an older commit never gets a finer bucket or a smaller count |
| Timeline.DaysOf | app.js:1675 | each commit's day is its date's first ten characters |
| Timeline.CountPerDay | app.js:1672-1676 | a day is a key iff it has a commit, and maps to its commit count |
| Timeline.ContributionLevel | app.js:1687 | the level is 0 to 4: 0 iff no commit, 4 iff eight or more |
| Timeline.ContributionLevelMonotone | app.js:1687 | more commits never give a lighter cell |
| Timeline.CellLevel | app.js:1686-1687 | a cell is blank iff its day has no commit |
| App.Capped | app.js:1708-1709 | `unshift` and truncate to 50: the new entry first, then the old ones in order |
| App.KeptHistory | app.js:801 | a history over 20 turns is cut to its last 16 |
| App.ReplyText | app.js:797 | the reply, or `応答を取得できませんでした` when there is none |
| App.ExchangeKept | app.js:799-801 | the question and answer close the cut history |
| App.UserLabel | app.js:1463 | ` (name)` for a signed-in user, empty otherwise |
| App.SpliceStart | app.js:1303 | the start of `splice(i, 1)` |
| App.Clamp | app.js:1586 | the highlight is pulled down to the last entry |
| App.VaultApp.constructor | app.js:257-268 | the pins and notifications come from storage, and the caches and the history start empty |
| App.VaultApp.AddNotification | app.js:1706-1711 | the list is `Capped` at 50 |
| App.VaultApp.Notify | app.js:1461-1464 | the entry's title carries the user label |
| App.VaultApp.AddPin | app.js:1276-1285 | a non-empty trimmed input becomes the first pin; otherwise nothing changes |
| App.VaultApp.RemovePin | app.js:1302-1306 | `splice(i, 1)`, negative indices included |
| App.VaultApp.LoadTodos | app.js:948-955 | with a client and a successful listing, the cache becomes the listed TODOs; otherwise it is unchanged |
| App.VaultApp.AddTodo | app.js:1035-1058 | the write `Todos.AddTodo` gives, logged on success |
| App.VaultApp.ToggleMessage | app.js:1414-1418 | the commit message starts with the user tag |
| App.VaultApp.ToggleTodo | app.js:1395-1428 | a write iff the TODO exists and its line is found; the notification says reopened or done |
| App.VaultApp.DeleteTodo | app.js:1430-1455 | a write iff the TODO exists and a line of it is found; logged as deleted |
| App.VaultApp.LoadMemos | app.js:629-664 | a successful read is kept and its memo lines are shown |
| App.VaultApp.AddMemo | app.js:666-692 | the write `Memos.AddMemo` gives, logged on success |
| App.VaultApp.DeleteMemo | app.js:694-708 | a write iff the index names a loaded memo; it removes exactly that memo |
| App.VaultApp.SendAiChat | app.js:724-810 | no input or key changes nothing; a failed request keeps only the question; an answer adds both turns and cuts the history |
| App.VaultApp.ClearAiChat | app.js:825-826 | the history becomes empty |
| App.VaultApp.RenderCmdResults | app.js:1563-1599 | the matching pages, with the highlight clamped onto them |
| App.VaultApp.OpenCmd | app.js:1548-1557 | the matching pages, with the first one highlighted |
| App.VaultApp.ExecCmdItem | app.js:1601-1609 | the effect of the chosen entry |
| App.VaultApp.HandleCmdKey | app.js:1611-1625 | the arrows move and clamp the highlight, Enter runs it, and other keys change nothing |

## Left out

- Network, DOM and browser:
  - `fetch` is a `Response` parameter, so nothing about real HTTP, headers or JSON parsing is modelled. A JSON parse failure is not modelled.
  - DOM rendering, toasts, `confirm` dialogs and HTML escaping are left out. So are the HTML of the memo cards and their reversed order.
  - The webhook POST of `notifyWebhook` is left out. Only its notification-centre half is modelled (`App.VaultApp.Notify`).
  - The `?t=` cache-busting query of fresh reads is left out, because the server is a parameter.
  - `localStorage` and `sessionStorage` are constructor arguments and fields, not persistent storage.
- Time:
  - Clocks are parameters (`now`, `arrival`, `Clock`).
  - The sleeps of `GeminiAPI.ask` are returned as a list of waits.
  - `Date` parsing, including the NaN path of an invalid date, is left out.
  - The locale date `relativeTime` shows for anything 30 days old or more is `OnDate`, without its text.
  - The calendar arithmetic that picks the 84 days of the contribution grid is left out. Its counts and levels are modelled.
- Strings:
  - `toLowerCase` is a parameter `lower` in `Search`. In `Palette` it is ASCII-only `Lower`, which agrees on the fixed page names and actions except for letters outside ASCII.
  - Strings are sequences of Unicode scalar values. `substring` and lengths count code points, not UTF-16 units.
  - `escape`/`decodeURIComponent` and `unescape`/`encodeURIComponent` are modelled together as UTF-8 decoding and encoding.
  - Floating point is not involved except in `Math.floor`, which on an integer age is Dafny's `/` by a positive divisor. A negative age (a commit dated in the future) is modelled and gives `JustNow`, as in the source.
- Outside the core: `getCommits`, `renderMarkdown` and `renderAiMarkdown`, the Gemini request body and its system prompts, and the vault context `sendAiChat` gathers.
- `Health.Entries`: `folders` is a plain object, so its entries list integer-like keys (a top-level folder named `2024`) first, in ascending order, before the others. The model keeps the order of first appearance for every key.
- `Health.CountFolders`: same key-order simplification as `Health.Entries`.
- `Health.EntriesOfCounted`: same key-order simplification as `Health.Entries`.
- `Health.HealthCheck`: same key-order simplification for `folders`. Folder names that `Object.prototype` already defines (`constructor`, `toString`, `__proto__`) are counted as ordinary keys. In the source, `folders[d] || 0` reads the inherited member, so the count becomes a string or the key is lost.
- `Projects.GetProjects`: a project folder named after an `Object.prototype` member (`constructor`, `toString`) is grouped like any other name. In the source, `p[name]` is the inherited function, so the `files.push` on the next line throws. Projects with equal file counts keep the key order, so they are subject to `Projects.ValuesInOrder` below.
- `Projects.ValuesInOrder`: `Object.values` orders integer-like keys (a project folder named `2024`) before the others; the model uses insertion order for all keys.
- The reload after each write is left out (`loadTodos`, `loadMemos`, `clearCache`).
- `App.VaultApp.AddTodo`, `App.VaultApp.ToggleTodo`, `App.VaultApp.DeleteTodo` and `App.VaultApp.AddMemo` log their notification on the prepared write; a `writeFile` that throws would skip it.
- `App.VaultApp.ToggleTodo` and `App.VaultApp.DeleteMemo` use the corrected toggle and memo deletion of "## Findings". The code as written is `Todos.ToggleAsWritten` and `Memos.DeleteMemo`.
- `App.VaultApp.LoadMemos` shows `MemoLines`, the listing as written, which includes the header's tag line (see `Memos.AddMemoToMissingFile`).
- `App.VaultApp.constructor` starts `_cmdIdx` at 0. The source leaves it undefined until `openCmd`.
- `closeCmd` and the Escape key only hide the overlay, a DOM effect.
- The earlier `relativeTime` definition (app.js:857-867) is replaced by the later one of the same class. Only the later one is modelled.
- `Todos.AddTodoAppends`: stated for a task without a line break (an `<input>` value has none), and for a file that was read (`existing` present). When the read fails, the source starts from the project header, which the lemma does not cover.
- `Todos.ToggleAsWrittenOneChar`: stated for a task without `$`; the `$` case is the second finding.
- `Memos.AddMemoAppends`: stated for input without line terminators (an `<input>` value has none).
- `App.VaultApp.DeleteMemo`: no lemma relates it to `Memos.DeleteMemo` when the first textual occurrence is the memo's own line. Even then the two contents differ, because the source's `replace` leaves an empty line where the memo was, and `Tidy` collapses only runs of three or more line breaks.

## Findings

| source | as written | input that shows it | evidently intended | confidence | as-written member | corrected member |
|---|---|---|---|---|---|---|
| app.js:1404-1409 | `toggleTodo` replaces the first occurrence of marker plus task anywhere in the file | open TODOs `- [ ] ab` and then `- [ ] a`; toggling `a` marks `ab` | mark the line that is this TODO | not executed | TodoFindings.ToggleAsWrittenMarksOtherTask | TodoFindings.ToggleMarksOwnTask |
| app.js:1404-1409 | the replacement string goes through `String.replace`'s `$` patterns | the task `a$$` becomes `a$` when toggled | keep the task text | not executed | TodoFindings.ToggleAsWrittenRewritesDollars | TodoFindings.ToggleKeepsTask |
| app.js:700 | `deleteMemo` removes the first textual occurrence of the memo line | memos `- ab` and then `- a`; deleting `- a` leaves `b` and keeps `- a` | remove the memo's own line | not executed | Memos.DeleteMemoHitsEarlierLine | Memos.DeleteMemoLineKeepsEarlierLine |
| app.js:236-249 | the last 429 falls through to `!res.ok` | four 429 replies give `Gemini API Error: 429` | raise the rate-limit message | not executed | Gemini.AlwaysBusyIsHttpError | Gemini.AskWithLimit |
