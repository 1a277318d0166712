# OmniDrive: the mediation layer between agent tool calls and the disk

OmniDrive is a desktop application with a companion MCP server. It lets AI agents read
and edit files inside folders that the user has shared. This project models, in Dafny,
the logic that decides what an agent may touch and what each tool does with the text:

- **The path sandbox** (`Sandbox`). It validates every path an agent names:
  - a ".." anywhere is refused;
  - the first enabled shared folder that covers the path grants it;
  - the `.mcpignore` rules are applied next;
  - last come the read-write and existence gates of the writing and destructive tools.
  - The file-type classifiers sit beside it.
- **The text kernels of the tools**:
  - the `read_lines` window (`ReadLines`);
  - literal search-and-replace with a count cap, and line-range splicing, in `patch_file` (`PatchText`, `Patch`);
  - sorting and pagination in `list_directory` (`Listing`);
  - the byte budget of `batch_read` (`BatchRead`);
  - literal `grep_content` with its result cap (`Grep`);
  - the `move_file` and `copy_file` guards, and the `unzip_files` containment check (`FileOps`).
- **The application's file-type classification** (`FileFilter`), and the configuration types of both binaries (`ConfigJson`, `AppTypes`, `ServerConfig`).
- **The folder store** (`Folders`): add, remove, toggle, list and scan shared folders. It is a class whose list the commands update in place.
- **The activity log**:
  - the server's append with keep-last-500 rotation (`ActivityServer`);
  - the application's reading, filtering, paging, agent summary and clearing (`ActivityApp`).
- **Origin pairing**:
  - the approved-origin list and the SSE sidecar state machine in the application (`SseCommands`);
  - the server's per-request gate, pairings-file start-up and CORS choice (`SseServer`);
  - the server's command-line parser, which reads back what the application passes it (`ServerCli`).

Support modules:

- `Wrappers`: Option and Result.
- `Text`: Rust string operations: `lines`, `split`, `trim`, `find`, ASCII lowercasing, decimal printing.
- `Paths`: `std::path::Path` semantics: components, `starts_with`, `strip_prefix`, `join`, `file_name`, `extension`.
- `Sorting`: the stable `sort_by`, as an insertion sort with sortedness and permutation proved.
- `Disk`: a `Host` record that stands for the file system. It holds:
  - the working directory;
  - `canonicalize` as a map;
  - readable files and their text;
  - the paths that exist;
  - directories;
  - glob matching.

Paths are `seq<char>` with '/' as the separator.

## Model

| member | source | states |
|---|---|---|
| Sandbox.Message | src-tauri/src/bin/mcp_server/sandbox.rs:28-61 | every refusal message quotes the path the caller gave |
| Sandbox.Absolutise | src-tauri/src/bin/mcp_server/sandbox.rs:22-26 | an absolute path is kept; a relative one is joined onto the working directory, or kept as it is when that cannot be read; nothing resolves symlinks |
| Sandbox.FirstQualifying | src-tauri/src/bin/mcp_server/sandbox.rs:35-45 | the result is the least index of an enabled folder whose canonical path covers the target, or None exactly when no folder qualifies |
| Sandbox.SearchIsFirstQualifying | src-tauri/src/bin/mcp_server/sandbox.rs:35-61 | the folder loop returns what the first qualifying folder decides (ignored or granted), and "not within any shared folder" when none qualifies |
| Sandbox.ValidatePathDecision | src-tauri/src/bin/mcp_server/sandbox.rs:18-61 | ".." anywhere in the absolutised string is refused before any folder is consulted; otherwise the first qualifying folder grants, unless its ignore rules hit; otherwise Outside |
| Sandbox.ValidatePathAsWritten | src-tauri/src/bin/mcp_server/sandbox.rs:18-61 | `validate_path` as written: absolutise, refuse "..", then the first enabled folder whose canonical path is followed in the target by nothing, '/' or '\\' decides by its ignore rules; otherwise Outside |
| Sandbox.ValidatePath | src-tauri/src/bin/mcp_server/sandbox.rs:18-61 | the CORRECTED `validate_path`: the same chain, but only '/' may follow the folder's canonical path (see Findings); the writable and destructive checks and every tool are built on it |
| Sandbox.AsWrittenAgrees | src-tauri/src/bin/mcp_server/sandbox.rs:18-61 | for every absolutised target without '\\', `validate_path` as written and the corrected check give the same result |
| Sandbox.Granted | src-tauri/src/bin/mcp_server/sandbox.rs:35-55 | a granted path came through an enabled configured folder that covers it, and is returned as the absolutised string |
| Sandbox.DotsInNameRefused | src-tauri/src/bin/mcp_server/sandbox.rs:28-33 | "/x/a..b.txt" is refused as traversal: the test is on the substring, not on path components |
| Sandbox.SiblingWithCommonPrefix | src-tauri/src/bin/mcp_server/sandbox.rs:38-44 | "/x/Projects 2/f" is not covered by "/x/Projects", while "/x/Projects/f" is |
| Sandbox.AvailableNotConsulted | src-tauri/src/bin/mcp_server/sandbox.rs:35-45 | two folder lists that differ only in `available` give the same decision |
| Sandbox.IgnorePattern | src-tauri/src/bin/mcp_server/sandbox.rs:116-128 | blank and '#' lines give no pattern; a trimmed pattern without '/' becomes "**/" + pattern; one with '/' is used as it is |
| Sandbox.FirstHitLine | src-tauri/src/bin/mcp_server/sandbox.rs:111-144 | the scan returns the first ignore line that hits the path, and None exactly when no line from the start on hits |
| Sandbox.IsIgnored | src-tauri/src/bin/mcp_server/sandbox.rs:94-145 | `is_ignored`: a readable `.mcpignore` in the folder root, a target under the root, and some line whose pattern hits the root-relative path |
| Sandbox.IgnoredIffSomeLineHits | src-tauri/src/bin/mcp_server/sandbox.rs:94-145 | a path is ignored exactly when the root's ignore file is readable, the path is under the root, and some line's pattern (or pattern + "/**") matches the root-relative path |
| Sandbox.ValidateWritable | src-tauri/src/bin/mcp_server/sandbox.rs:65-77 | succeeds iff `validate_path` succeeds through a ReadWrite folder; passes on `validate_path`'s refusal, and otherwise gives the read-only refusal naming the path and the folder |
| Sandbox.ValidateDestructive | src-tauri/src/bin/mcp_server/sandbox.rs:80-91 | succeeds iff `validate_writable` succeeds and the path exists; otherwise passes on that refusal or reports "Path not found" |
| Sandbox.UnixGrantedIsInside | src-tauri/src/bin/mcp_server/sandbox.rs:35-55 | with '/' as the only separator, a granted path lies inside its folder component by component |
| Sandbox.BackslashGranted | src-tauri/src/bin/mcp_server/sandbox.rs:38-44 | as written, "/x/P\\s" is granted through the folder "/x/P"; the Unix-corrected check refuses it as Outside |
| Sandbox.BackslashIsOutside | src-tauri/src/bin/mcp_server/sandbox.rs:38-44 | on a Unix file system "/x/P\\s" does not start with "/x/P" as a path |
| Sandbox.ClassifierChain | src-tauri/src/bin/mcp_server/sandbox.rs:148-214 | a PDF is binary; a binary file or an image is supported; a binary file that is not a PDF is an image |
| Sandbox.IsSupportedExtension | src-tauri/src/bin/mcp_server/sandbox.rs:148-180 | `is_supported_extension`: the lowercased extension must be in one of the five groups; without an extension the exact file name must be listed |
| Sandbox.IsBinaryFile | src-tauri/src/bin/mcp_server/sandbox.rs:183-194 | `is_binary_file`: the lowercased extension is one of png, jpg, jpeg, gif, webp, bmp, ico and pdf |
| Sandbox.IsPdf | src-tauri/src/bin/mcp_server/sandbox.rs:196-204 | `is_pdf`: the lowercased extension is "pdf" |
| Sandbox.IsImage | src-tauri/src/bin/mcp_server/sandbox.rs:206-214 | `is_image`: the lowercased extension is one of the image extensions |
| Sandbox.ByExtension | src-tauri/src/bin/mcp_server/sandbox.rs:148-193 | with an extension, the lowercased extension alone decides whether a name is supported and whether it is binary |
| Sandbox.ByName | src-tauri/src/bin/mcp_server/sandbox.rs:148-180 | without an extension, exact membership of the base name in the fixed list decides, and the file is never binary |
| Sandbox.SupportedExamples | src-tauri/src/bin/mcp_server/sandbox.rs:236-243 | the names the server's own tests accept are supported |
| Sandbox.UnsupportedExamples | src-tauri/src/bin/mcp_server/sandbox.rs:245-251 | exe, zip, pptx and mp4 names are not supported |
| Sandbox.BinaryExamples | src-tauri/src/bin/mcp_server/sandbox.rs:253-259 | of the tested names, exactly "test.png" and "test.pdf" are binary |
| Sandbox.ExtensionlessExamples | src-tauri/src/bin/mcp_server/sandbox.rs:261-265 | of the tested extension-less names, exactly "Makefile" and "Dockerfile" are supported; "randomname", and "makefile" in the wrong case, are not |
| Sandbox.GroupsInFilterTables | src-tauri/src/bin/mcp_server/sandbox.rs:149-163 | each of the sandbox's extension groups equals one of the application's tables, or that table less "editorconfig" or "sass" |
| Sandbox.SandboxWithinFilter | src-tauri/src/bin/mcp_server/sandbox.rs:148-180 | every name the sandbox treats as supported is also supported by the application's filter |
| Sandbox.FilterWiderThanSandbox | src-tauri/src/file_filter/mod.rs:12-20 | "a.editorconfig" and "a.sass" are supported by the application but not by the sandbox |
| FileFilter.CategoryIsTable | src-tauri/src/file_filter/mod.rs:33-50 | the category is exactly the table holding the normalised extension, in the order Code, Text, Data, Document, Image; anything else is Unsupported |
| FileFilter.GetFileCategory | src-tauri/src/file_filter/mod.rs:33-50 | `get_file_category`: lowercase, strip leading dots, then the first table holding the extension in Code, Text, Data, Document, Image order; otherwise Unsupported |
| FileFilter.IsSupported | src-tauri/src/file_filter/mod.rs:28-30 | `is_supported`: the category is not Unsupported |
| FileFilter.TablesDisjoint | src-tauri/src/file_filter/mod.rs:6-25 | no extension sits in two tables |
| FileFilter.SupportedIffInTable | src-tauri/src/file_filter/mod.rs:28-30 | `is_supported` holds exactly when the category is not Unsupported, that is, when some table holds the normalised extension |
| FileFilter.CategoryIgnoresCaseAndDots | src-tauri/src/file_filter/mod.rs:33-35 | the category does not change under leading dots or ASCII upper case |
| FileFilter.RsExamples | src-tauri/src/file_filter/mod.rs:121-126 | "rs", "RS", ".rs" and "..rs" are all Code |
| FileFilter.CategoryExamples | src-tauri/src/file_filter/mod.rs:136-144 | one member of each table lands in that table's category |
| FileFilter.UnsupportedExamples | src-tauri/src/file_filter/mod.rs:110-119 | exe, dll, zip, mp4, pptx, docx and xlsx are Unsupported |
| FileFilter.FileByExtension | src-tauri/src/file_filter/mod.rs:54-75 | the contract of `is_file_supported` (FileFilter.IsFileSupported): a name with an extension is supported exactly when its normalised extension is in one of the tables, whatever the rest of the name |
| AppTypes.PermissionNames | src-tauri/src/config/types.rs:4-15 | the lowercase spellings "readonly" and "readwrite" are the only ones accepted, each reads back as its own variant, and the default is ReadOnly |
| AppTypes.SixCategories | src-tauri/src/config/types.rs:64-73 | FileCategory has exactly six variants with distinct lowercase names |
| AppTypes.DecodeFolder | src-tauri/src/config/types.rs:17-30 | a folder record decodes iff its permission is a known spelling; a missing `available` becomes true |
| AppTypes.DecodeFolders | src-tauri/src/config/types.rs:34-38 | the list decodes iff every record does, element by element |
| AppTypes.DecodeConfig | src-tauri/src/config/types.rs:34-43 | a missing `max_file_size_mb` becomes 50; a value outside u32 is rejected |
| AppTypes.ConfigRoundTrip | src-tauri/src/config/types.rs:17-52 | decoding what the application encodes gives the configuration back |
| AppTypes.DecodeDefaults | src-tauri/src/config/types.rs:24-52 | a file naming no limit and no `available` flags decodes with limit 50, the default's limit, and every folder available |
| ServerConfig.LoadConfig | src-tauri/src/bin/mcp_server/config.rs:54-74 | a missing file, unparseable text or a rejected document gives the default configuration; otherwise the decoded one; it never fails |
| ServerConfig.SameConfig | src-tauri/src/bin/mcp_server/config.rs:7-45 | the server decodes every document exactly as the application does, with the same defaults |
| ServerConfig.SameDecoding | src-tauri/src/bin/mcp_server/config.rs:14-25 | the server's folder decoding agrees with the application's, record by record |
| Folders.Scan | src-tauri/src/commands/folders.rs:25-59 | total = supported + unsupported, and the listed names number min(unsupported, 50) |
| Folders.ScanListsFirstUnsupported | src-tauri/src/commands/folders.rs:25-59 | the unsupported count is the number of top-level regular files with an unsupported name, and the list is the first 50 of those names in directory order |
| Folders.ScanCounts | src-tauri/src/commands/folders.rs:25-59 | the total is the number of top-level regular files (directories are skipped), and the supported count is the number of those whose name is supported |
| Folders.ScanOutcome | src-tauri/src/commands/folders.rs:16-24 | the scan succeeds iff the path exists and is a directory |
| Folders.ScanFolder | src-tauri/src/commands/folders.rs:16-60 | the counting loop computes the scan result |
| Folders.IndexOfPath | src-tauri/src/commands/folders.rs:93-96 | the first folder with exactly this path, or None iff there is none |
| Folders.FirstClash | src-tauri/src/commands/folders.rs:68-82 | reports a folder whose canonical path is a raw string prefix of the new one or the other way round, and None iff no folder clashes |
| Folders.AddCheck | src-tauri/src/commands/folders.rs:93-112 | "already shared" iff some folder has the exact path; the addition passes iff the path is new, exists, is a directory and overlaps nothing |
| Folders.NewFolder | src-tauri/src/commands/folders.rs:118-123 | the new entry is ReadOnly, enabled and available |
| Folders.AddKeepsInvariants | src-tauri/src/commands/folders.rs:86-129 | an accepted addition keeps the paths unique and no two folders nested |
| Folders.SiblingWithCommonPrefixOverlaps | src-tauri/src/commands/folders.rs:76 | "/a/Projects 2" is refused as overlapping "/a/Projects": the test is on raw text |
| Folders.Removed | src-tauri/src/commands/folders.rs:137 | no remaining folder has the path |
| Folders.RemovedKeepsOthers | src-tauri/src/commands/folders.rs:137 | every folder with another path survives |
| Folders.RemovedNothingIffAbsent | src-tauri/src/commands/folders.rs:136-141 | nothing is removed exactly when no folder has the path, and then the list is unchanged |
| Folders.RemoveOne | src-tauri/src/commands/folders.rs:137 | with unique paths, removal drops exactly that folder's entry |
| Folders.UpdateFirst | src-tauri/src/commands/folders.rs:169-193 | the `iter_mut().find` update of the first folder with the path keeps the list's length |
| Folders.PermissionChangesOneField | src-tauri/src/commands/folders.rs:169-175 | only the permission of the first folder with the path changes, to the given value; setting it twice is setting it once |
| Folders.EnabledChangesOneField | src-tauri/src/commands/folders.rs:187-193 | only the enabled flag of the first folder with the path changes, to the given value; setting it twice is setting it once |
| Folders.Refreshed | src-tauri/src/commands/folders.rs:153-157 | each folder's `available` becomes "exists and is a directory", and nothing else changes |
| Folders.RefreshStable | src-tauri/src/commands/folders.rs:149-158 | refreshing twice is refreshing once, and it never changes a path, permission or enabled flag |
| Folders.FolderStore.Position | src-tauri/src/commands/folders.rs:93-96 | the search loop finds the first folder with the path |
| Folders.FolderStore.AddFolder | src-tauri/src/commands/folders.rs:86-129 | a refused addition leaves the list alone; an accepted one appends exactly the new entry, even when persisting then fails |
| Folders.FolderStore.RemoveFolder | src-tauri/src/commands/folders.rs:133-145 | the list loses every entry with the path; "Folder not found" iff nothing was removed |
| Folders.FolderStore.ListFolders | src-tauri/src/commands/folders.rs:149-158 | the list is refreshed in place and returned |
| Folders.FolderStore.TogglePermission | src-tauri/src/commands/folders.rs:162-176 | the permission of the first matching folder is set; "Folder not found" iff there is none |
| Folders.FolderStore.ToggleEnabled | src-tauri/src/commands/folders.rs:180-194 | the enabled flag of the first matching folder is set; "Folder not found" iff there is none |
| Folders.FolderStore.UpdateMaxFileSize | src-tauri/src/commands/folders.rs:237-245 | the limit is set whether or not persisting succeeds, and the folders are untouched |
| ReadLines.LineWindow | src-tauri/src/bin/omnidrive_server/tools.rs:556-563 | `tail = N` selects the last min(N, total) lines; with no arguments the first min(100, total); a start line within the file starts there; the end is min(end_line, total) |
| ReadLines.ReversedRangeNeedsEndLine | src-tauri/src/bin/omnidrive_server/tools.rs:556-569 | the slice can only be reversed when an end line is given, and then exactly when the clamped start passes it |
| ReadLines.ShowLines | src-tauri/src/bin/omnidrive_server/tools.rs:553-571 | each shown line carries number start + i + 1; None stands for the slice panic |
| ReadLines.ShownTextsAreSlice | src-tauri/src/bin/omnidrive_server/tools.rs:569-571 | the texts shown are exactly the window's slice of the file's lines |
| ReadLines.DefaultShowsHead | src-tauri/src/bin/omnidrive_server/tools.rs:560-561 | with no arguments, the first min(100, total) lines are shown, numbered from 1 |
| ReadLines.TailShowsEnd | src-tauri/src/bin/omnidrive_server/tools.rs:556-558 | `tail = N` shows the last min(N, total) lines, ending with the file's last line |
| PatchText.Rewrite | src-tauri/src/bin/omnidrive_server/tools.rs:1062-1074 | the number of replacements never exceeds the count when one is given |
| PatchText.ReplaceLiteral | src-tauri/src/bin/omnidrive_server/tools.rs:1062-1077 | the literal loop computes the leftmost, non-overlapping rewrite and its count |
| PatchText.RewriteCount | src-tauri/src/bin/omnidrive_server/tools.rs:1062-1076 | the reported count is the number of non-overlapping occurrences, cut at the count when one is given |
| PatchText.RewriteLength | src-tauri/src/bin/omnidrive_server/tools.rs:1067-1074 | each replacement changes the length by |replace| - |search| |
| PatchText.RewriteSelf | src-tauri/src/bin/omnidrive_server/tools.rs:1067-1074 | replacing a text by itself changes nothing |
| PatchText.RewriteAbsent | src-tauri/src/bin/omnidrive_server/tools.rs:1067 | without an occurrence the text comes back unchanged, with count 0 |
| PatchText.RewriteFirst | src-tauri/src/bin/omnidrive_server/tools.rs:1067-1073 | with count 1 only the leftmost occurrence is replaced |
| PatchText.LoopTurn | src-tauri/src/bin/omnidrive_server/tools.rs:1067-1073 | one turn of the replacement loop as written: it exits when the search is absent or the count is used up, else it makes one more replacement and never lengthens the rest still to search |
| PatchText.EmptySearchNeverStops | src-tauri/src/bin/omnidrive_server/tools.rs:1067-1072 | with an empty search and no count, after any number n of turns the loop is still running, with the rest unchanged and n replacements appended |
| PatchText.EmptySearchPrepends | src-tauri/src/bin/omnidrive_server/tools.rs:1067-1073 | an empty search with count n puts the replacement in front n times |
| PatchText.ApplySearchOps | src-tauri/src/bin/omnidrive_server/tools.rs:1035-1079 | the operations apply in order, each to the previous output, with one count per operation |
| PatchText.ApplySearchOpsLoop | src-tauri/src/bin/omnidrive_server/tools.rs:1035-1079 | the loop over the operations computes that composition |
| PatchText.OrderOpsDescending | src-tauri/src/bin/omnidrive_server/tools.rs:1086-1087 | the line operations run in descending start order and are the same operations |
| PatchText.SameStartKeepsOrder | src-tauri/src/bin/omnidrive_server/tools.rs:1086-1087 | line operations with the same start line are applied in the order they were given, as the stable `sort_by` keeps them |
| PatchText.Splice | src-tauri/src/bin/omnidrive_server/tools.rs:1096-1101 | lines [min(start-1,n), min(end,n)) are replaced by the new content's lines; the prefix and suffix are unchanged, and the length is n - (end - start) + k |
| PatchText.SpliceAllFailsIffInvalid | src-tauri/src/bin/omnidrive_server/tools.rs:1089-1095 | the phase fails exactly when some operation has start 0, end 0 or start > end, and it reports an invalid one |
| PatchText.LineOpsFailIffInvalid | src-tauri/src/bin/omnidrive_server/tools.rs:1082-1114 | the same, for the whole line phase after sorting |
| PatchText.Render | src-tauri/src/bin/omnidrive_server/tools.rs:1109-1113 | the joined text always ends with a newline |
| PatchText.RenderReadsBack | src-tauri/src/bin/omnidrive_server/tools.rs:1083-1113 | reading the rendered text back with `lines()` gives the lines again |
| PatchText.ApplyLineOpsLoop | src-tauri/src/bin/omnidrive_server/tools.rs:1082-1114 | the splice loop computes the line phase |
| Patch.PatchFileOutcome | src-tauri/src/bin/omnidrive_server/tools.rs:1013-1119 | no operations on a writable regular file gives "No operations provided"; success means a writable regular file, one count per literal operation, and a successful write; line operations leave a trailing newline; the model writes the file only on the `Ok` path (the `Err` conjunct holds by the definition of the file state afterwards) |
| Patch.PatchFile | src-tauri/src/bin/omnidrive_server/tools.rs:1009-1119 | `patch_file`: the writable gate, a regular file, at least one operation, a readable file, then the literal operations in order and the line operations bottom up, then the write; the first failure is the result |
| Listing.Paginate | src-tauri/src/bin/omnidrive_server/tools.rs:250-264 | the corrected page report: the start (page - 1) * size is taken without `usize` wrap-around (see Findings); a page holds at most the clamped page size; out of range only for a non-empty list |
| Listing.PageCountBounds | src-tauri/src/bin/omnidrive_server/tools.rs:260 | (total + size - 1) / size is the ceiling: the last page reaches the total, the one before it does not |
| Listing.OutOfRangeIffPastLastPage | src-tauri/src/bin/omnidrive_server/tools.rs:250-262 | for a non-empty list, a page is out of range exactly when its number is past the page count |
| Listing.PaginateAsWritten | src-tauri/src/bin/omnidrive_server/tools.rs:250-264 | the page report as a release build computes it, with the start (page - 1) * size taken modulo 2^64; a page holds at most the clamped page size |
| Listing.AsWrittenBelowWrap | src-tauri/src/bin/omnidrive_server/tools.rs:253 | while (page - 1) * size stays below 2^64 the code's report and the corrected one are equal |
| Listing.WrappedPageServed | src-tauri/src/bin/omnidrive_server/tools.rs:253-264 | 100 entries in pages of 64: page 2^58 + 2 starts at 2^64 + 64, which wraps to 64, so the code serves entries 64..99 where the corrected report is "out of range" with 2 pages |
| Listing.PageContents | src-tauri/src/bin/omnidrive_server/tools.rs:250-264 | an in-range page is entries[start..start+size) clipped, in order |
| Listing.IndexOnItsPage | src-tauri/src/bin/omnidrive_server/tools.rs:250-264 | entry i appears on page i / size + 1 at position i % size |
| Listing.OutOfRangeExample | src-tauri/src/bin/omnidrive_server/tools.rs:255-261 | five entries in pages of 2: page 4 reports "out of range" with 3 pages, and page 3 holds the last entry |
| Listing.CollectEntries | src-tauri/src/bin/omnidrive_server/tools.rs:217-237 | the loop keeps directories, and files with a supported name, that the sandbox grants, in `read_dir` order |
| Listing.CollectMembers | src-tauri/src/bin/omnidrive_server/tools.rs:220-236 | an entry is listed exactly when some directory entry passes both filters |
| Listing.EntryBeforeTotal | src-tauri/src/bin/omnidrive_server/tools.rs:242-248 | the comparator orders any two entries |
| Listing.ArrangeOrder | src-tauri/src/bin/omnidrive_server/tools.rs:242-248 | the sorted list is a permutation, with directories before files and ties ordered by lowercased name |
| Listing.FilesStayFiles | src-tauri/src/bin/omnidrive_server/tools.rs:242-248 | in the sorted list no directory follows a file |
| Listing.TreeItems | src-tauri/src/bin/omnidrive_server/tools.rs:1141-1170 | every tree item has a depth from 1 to max_depth clamped to 1..10 |
| Listing.CollectTree | src-tauri/src/bin/omnidrive_server/tools.rs:1150-1170 | the walk loop collects exactly those items |
| Listing.ListingBounds | src-tauri/src/bin/omnidrive_server/tools.rs:202-280 | a listing happens only for a granted directory; a flat page holds at most 100 entries, a tree page at most 200 |
| Listing.ListDirectory | src-tauri/src/bin/omnidrive_server/tools.rs:202-280 | `list_directory`: the gate and a directory, then either the recursive walk's items paginated by at most 200, or the flat entries arranged and paginated by at most 100 |
| BatchRead.Step | src-tauri/src/bin/omnidrive_server/tools.rs:791-835 | each block names its path; the total grows by the length of text read, and only for text |
| BatchRead.Blocks | src-tauri/src/bin/omnidrive_server/tools.rs:788-837 | exactly one block per path, in order |
| BatchRead.Batch | src-tauri/src/bin/omnidrive_server/tools.rs:780-837 | 0 paths or more than 50 are refused; otherwise the loop computes the blocks and the total |
| BatchRead.BatchReport | src-tauri/src/bin/omnidrive_server/tools.rs:776-841 | `batch_read`: no paths and more than 50 paths are refused; otherwise one block per path and the total |
| BatchRead.ReadAll | src-tauri/src/bin/omnidrive_server/tools.rs:788-837 | the loop over the paths computes the fold of steps: the blocks in order and the running total |
| BatchRead.ReadOne | src-tauri/src/bin/omnidrive_server/tools.rs:791-835 | the loop body computes one step |
| BatchRead.TotalIsTextRead | src-tauri/src/bin/omnidrive_server/tools.rs:788-837 | the final total is the byte length of the text read, and nothing else |
| BatchRead.WithinBudget | src-tauri/src/bin/omnidrive_server/tools.rs:812-828 | when the metadata sizes are exact, the budget is never overrun |
| BatchRead.SizeBeforeBinary | src-tauri/src/bin/omnidrive_server/tools.rs:812-824 | a file too large for what is left is SKIPPED even when it is also binary |
| BatchRead.SkipThenRead | src-tauri/src/bin/omnidrive_server/tools.rs:812-837 | a skipped path does not end the batch: a later path that fits is still read |
| Grep.ResultCap | src-tauri/src/bin/omnidrive_server/tools.rs:442 | 0 means 50; otherwise the cap is min(max_results, 200) |
| Grep.LineMatches | src-tauri/src/bin/omnidrive_server/tools.rs:454-460 | a line matches the escaped literal exactly when the pattern sits at some index of the line, equal, or equal up to ASCII case with `case_insensitive` |
| Grep.Shown | src-tauri/src/bin/omnidrive_server/tools.rs:508 | a match shows the first min(len, 200) characters of its line |
| Grep.ScanLines | src-tauri/src/bin/omnidrive_server/tools.rs:499-516 | the inner loop appends the file's matches until the cap is reached |
| Grep.Collect | src-tauri/src/bin/omnidrive_server/tools.rs:466-517 | the results are exactly the first min(cap, all) matches of the walk, in walk order |
| Grep.CappedPrefix | src-tauri/src/bin/omnidrive_server/tools.rs:510-512 | stopping at the cap gives the prefix of that length |
| Grep.HitsAreMatches | src-tauri/src/bin/omnidrive_server/tools.rs:472-517 | every match is a line of a searched file that holds the pattern, with its 1-based number |
| Grep.MatchingLineFound | src-tauri/src/bin/omnidrive_server/tools.rs:472-517 | every matching line of a searched file is among the matches |
| Grep.AllHitsGrow | src-tauri/src/bin/omnidrive_server/tools.rs:472-517 | the matches of a prefix of the walk are a prefix of all the matches |
| Grep.GrepContent | src-tauri/src/bin/omnidrive_server/tools.rs:429-529 | `grep_content` with a literal pattern: the gate, a directory root, then the capped matches or "no matches" |
| FileOps.MoveGuardSound | src-tauri/src/bin/omnidrive_server/tools.rs:584-598 | a move goes ahead only from an existing source in a read-write folder, to an absent destination in a read-write folder |
| FileOps.MoveGuard | src-tauri/src/bin/omnidrive_server/tools.rs:581-598 | `move_file`'s checks in order: destructive source, writable destination, destination absent |
| FileOps.CopyGuard | src-tauri/src/bin/omnidrive_server/tools.rs:675-702 | `copy_file`'s checks in order: a granted source, a writable destination, then a source that is a regular file; an existing destination is not refused |
| FileOps.MoveRefusesCopyOverwrites | src-tauri/src/bin/omnidrive_server/tools.rs:593-598 | with an existing writable destination, the move is refused with "Destination already exists" and the copy goes ahead |
| FileOps.CopyFromReadOnly | src-tauri/src/bin/omnidrive_server/tools.rs:677-702 | a copy reads through a read-only folder; a move from there is refused |
| FileOps.Extracted | src-tauri/src/bin/omnidrive_server/tools.rs:970-981 | only entries that pass the containment check are extracted, in archive order |
| FileOps.CountExtracted | src-tauri/src/bin/omnidrive_server/tools.rs:969-1000 | the loop counts exactly the extracted files |
| FileOps.RelativeNamesKept | src-tauri/src/bin/omnidrive_server/tools.rs:975-981 | a relative entry name always passes the check |
| FileOps.AbsoluteNameDropped | src-tauri/src/bin/omnidrive_server/tools.rs:975-981 | an absolute name replaces the destination under `join`, and passes only if it lies under the destination |
| FileOps.ParentNamePasses | src-tauri/src/bin/omnidrive_server/tools.rs:975-978 | the check is lexical: "../x" under "/d" passes |
| FileOps.UnzipOutcome | src-tauri/src/bin/omnidrive_server/tools.rs:949-981 | files are extracted only into a writable destination, and every relative entry is extracted |
| FileOps.Unzip | src-tauri/src/bin/omnidrive_server/tools.rs:945-1001 | `unzip_files`: a granted archive, a writable destination, a readable archive, then the entries that pass the containment check |
| FileOps.ExtractedKeeps | src-tauri/src/bin/omnidrive_server/tools.rs:975-981 | every entry that passes the check is extracted |
| ActivityServer.LastN | src-tauri/src/bin/omnidrive_server/activity.rs:111-112 | the last min(n, len) elements |
| ActivityServer.Rotated | src-tauri/src/bin/omnidrive_server/activity.rs:105-117 | `rotate_log` when its write succeeds: more than 500 lines become the last 500, newline-terminated; otherwise the text is kept |
| ActivityServer.RotationKeepsLastLines | src-tauri/src/bin/omnidrive_server/activity.rs:105-117 | after rotation the file's lines are exactly the last 500 of before, in order |
| ActivityServer.RotationKeepsLogClean | src-tauri/src/bin/omnidrive_server/activity.rs:105-117 | a rotated file is still made of whole, newline-terminated lines |
| ActivityServer.BeforeAppend | src-tauri/src/bin/omnidrive_server/activity.rs:77-82 | a file of at most 2 MiB is not rotated; otherwise the file is either left alone or rotated |
| ActivityServer.Logged | src-tauri/src/bin/omnidrive_server/activity.rs:65-103 | `try_log_activity`'s effect on the file: directory, size check and rotation, append; each failing step is its error and keeps the file as it was before that step |
| ActivityServer.EntryFor | src-tauri/src/bin/omnidrive_server/activity.rs:84-92 | the entry carries the given tool, category, path and summary, and the current agent |
| ActivityServer.SuccessfulLogAppendsOneLine | src-tauri/src/bin/omnidrive_server/activity.rs:65-103 | a successful call appends exactly the new entry's line after the file as the size check left it; a file under the limit gets only that line added |
| ActivityServer.LogKeepsLogClean | src-tauri/src/bin/omnidrive_server/activity.rs:65-103 | every call, successful or not, leaves a file of whole lines |
| ActivityServer.ActivityLog.constructor | src-tauri/src/bin/omnidrive_server/activity.rs:36 | the agent name starts as "Generic MCP Client" |
| ActivityServer.ActivityLog.SetAgentName | src-tauri/src/bin/omnidrive_server/activity.rs:44-48 | the agent name is replaced, and the file is untouched |
| ActivityServer.ActivityLog.TryLogActivity | src-tauri/src/bin/omnidrive_server/activity.rs:65-103 | the result and the new file are those of the size check, rotation and append, with the current agent in the entry |
| ActivityServer.ActivityLog.LogActivity | src-tauri/src/bin/omnidrive_server/activity.rs:55-63 | the same file change, with no failure surfaced to the caller |
| ActivityServer.ActivityLog.LogConnect | src-tauri/src/bin/omnidrive_server/activity.rs:119-126 | logs tool "system", category "system", no path, and "<agent> linked via MCP" |
| ActivityApp.Parsed | src-tauri/src/commands/activity.rs:36-39 | no more entries than lines |
| ActivityApp.ParsedFromLines | src-tauri/src/commands/activity.rs:36-39 | every entry comes from a line that parses to it |
| ActivityApp.ParsedKeepsLines | src-tauri/src/commands/activity.rs:36-39 | every line that parses gives its entry |
| ActivityApp.ReadAllLogsNewestFirst | src-tauri/src/commands/activity.rs:34-44 | the log is a permutation of the parsed entries, sorted by timestamp string, newest first |
| ActivityApp.ReadAllLogs | src-tauri/src/commands/activity.rs:34-44 | `read_all_logs`: the lines of the file (none when unreadable) that parse, sorted newest first by timestamp string |
| ActivityApp.SameTimestampKeepsFileOrder | src-tauri/src/commands/activity.rs:42 | entries with the same timestamp keep the order of their lines in the file |
| ActivityApp.NewestFirstEverywhere | src-tauri/src/commands/activity.rs:42 | in the sorted log no entry is newer than one before it |
| ActivityApp.ByCategory | src-tauri/src/commands/activity.rs:58 | only entries of exactly that category are kept |
| ActivityApp.Filtered | src-tauri/src/commands/activity.rs:54-62 | the category dispatch: None, "all" and "" keep the whole log; any other category keeps only entries of that category, never more entries than the log has |
| ActivityApp.ByCategoryKeeps | src-tauri/src/commands/activity.rs:58 | every entry of that category is kept |
| ActivityApp.Paged | src-tauri/src/commands/activity.rs:64-68 | the page has min(limit, max(0, n - offset)) entries, taken in order from the offset |
| ActivityApp.PagesAdjoin | src-tauri/src/commands/activity.rs:64-68 | two consecutive pages together are the page that spans both |
| ActivityApp.ActivityPage | src-tauri/src/commands/activity.rs:47-71 | None, "all" and "" keep everything; any other category keeps exactly its entries; the page is the clipped slice in newest-first order |
| ActivityApp.GetActivityLog | src-tauri/src/commands/activity.rs:47-71 | `get_activity_log`: the log read newest first, filtered by category, then `offset` skipped and `limit` taken |
| ActivityApp.Seen | src-tauri/src/commands/activity.rs:79-82 | at most one record per entry |
| ActivityApp.FirstSeen | src-tauri/src/commands/activity.rs:76-82 | the map-filling loop keeps the first timestamp seen for each agent |
| ActivityApp.SeenDistinct | src-tauri/src/commands/activity.rs:79-82 | one record per agent |
| ActivityApp.SeenCoversAgents | src-tauri/src/commands/activity.rs:79-82 | every agent of the log has a record |
| ActivityApp.SeenIsFirstTimestamp | src-tauri/src/commands/activity.rs:79-82 | each record holds the timestamp of its agent's first entry |
| ActivityApp.LastSeenIsNewest | src-tauri/src/commands/activity.rs:79-82 | read newest first, an agent's first entry is its newest |
| ActivityApp.Status | src-tauri/src/commands/activity.rs:84-96 | "connected" iff the timestamp parses and is less than five minutes old |
| ActivityApp.Records | src-tauri/src/commands/activity.rs:87-103 | one record per agent, with its name, last_seen and status |
| ActivityApp.ConnectedAgentsSorted | src-tauri/src/commands/activity.rs:74-107 | the contract of `get_connected_agents` (ActivityApp.ConnectedAgents): the summary is a permutation of the per-agent records, sorted by name |
| ActivityApp.OneRecordPerAgent | src-tauri/src/commands/activity.rs:74-107 | of ActivityApp.ConnectedAgents: exactly one record for each agent of the log |
| ActivityApp.AgentRecordsAreNewest | src-tauri/src/commands/activity.rs:74-107 | of ActivityApp.ConnectedAgents: each record's last_seen is not older than any entry of that agent |
| ActivityApp.LogFile.Clear | src-tauri/src/commands/activity.rs:110-113 | a successful clear leaves an empty file; a failed write leaves the file alone |
| ActivityApp.ClearedLogIsEmpty | src-tauri/src/commands/activity.rs:34-113 | after clearing, the log, every page and the agent summary are empty |
| ActivityApp.LoggedEntryIsShown | src-tauri/src/commands/activity.rs:34-44 | an entry the server logged successfully appears in the application's next read, when the decoder reads the encoder's line back |
| SseCommands.Approved | src-tauri/src/commands/sse.rs:130-131 | the origin is in the list, and the list gains no other origin and loses none |
| SseCommands.Revoked | src-tauri/src/commands/sse.rs:165 | the origin is gone, every other origin is kept, and nothing is added |
| SseCommands.RevokedKeepsOrder | src-tauri/src/commands/sse.rs:165 | `retain` keeps order: revoking from a concatenation revokes from each part, and one origin survives exactly when it is not the revoked one |
| SseCommands.ApproveIdempotent | src-tauri/src/commands/sse.rs:130-134 | approving twice is approving once, and approving creates no duplicate |
| SseCommands.RevokeUndoesApprove | src-tauri/src/commands/sse.rs:154-169 | revoking is idempotent, and revoking a just-approved new origin gives the list back |
| SseCommands.PairingStore.ApprovedOrigins | src-tauri/src/commands/sse.rs:140-151 | no file gives []; an unreadable file is the only failure |
| SseCommands.PairingStore.ApproveOrigin | src-tauri/src/commands/sse.rs:118-137 | a missing file counts as an empty list; the file is rewritten only for a new origin |
| SseCommands.PairingStore.RevokeOrigin | src-tauri/src/commands/sse.rs:153-170 | no file is a successful no-op; otherwise the filtered list is written back |
| SseCommands.BuildArgs | src-tauri/src/commands/sse.rs:38-48 | "--transport sse --port <port>", plus "--allowed-origins" and the comma-joined list only when there are origins |
| SseCommands.SseProcess.Status | src-tauri/src/commands/sse.rs:98-116 | running, with the port and "http://127.0.0.1:<port>/sse", exactly when a process is recorded; otherwise port 0 and no URL |
| SseCommands.SseProcess.Start | src-tauri/src/commands/sse.rs:24-79 | with a process recorded, it reports it and spawns nothing; otherwise it spawns once with BuildArgs and records the process and port |
| SseCommands.SseProcess.Stop | src-tauri/src/commands/sse.rs:81-96 | the process is cleared, the port becomes 0, and the reply says so |
| SseServer.IsOriginApproved | src-tauri/src/bin/mcp_server/sse.rs:25-34 | a missing or unreadable pairings file approves nothing; a readable one approves exactly the origins at some position of its list |
| SseServer.Gate | src-tauri/src/bin/mcp_server/sse.rs:36-53 | a refusal names the request's own origin |
| SseServer.GateForbidsExactly | src-tauri/src/bin/mcp_server/sse.rs:25-53 | a request is refused exactly when it has a visible-ASCII Origin that the readable pairings file does not list |
| SseServer.NoFileRefusesEveryOrigin | src-tauri/src/bin/mcp_server/sse.rs:25-34 | without a readable pairings file every origin is refused |
| SseServer.ApproveOpensRevokeCloses | src-tauri/src/bin/mcp_server/sse.rs:25-34 | approving an origin in the application opens the gate to it, and revoking closes it |
| SseServer.PairingMiddleware | src-tauri/src/bin/mcp_server/sse.rs:36-53 | a refused request leaves one "system"/"security" entry without a path; an admitted one leaves the log alone |
| SseServer.EnsurePairingsFile | src-tauri/src/bin/mcp_server/sse.rs:60-65 | only a missing file is written, with an empty list |
| SseServer.FreshServerApprovesNothing | src-tauri/src/bin/mcp_server/sse.rs:60-65 | a server started without pairings approves no origin |
| SseServer.Parseable | src-tauri/src/bin/mcp_server/sse.rs:86-89 | exactly the listed origins that parse as header values |
| SseServer.Cors | src-tauri/src/bin/mcp_server/sse.rs:83-91 | any origin exactly when the list is empty |
| SseServer.CorsAllowsExactly | src-tauri/src/bin/mcp_server/sse.rs:79-91 | an empty list allows every origin; otherwise exactly the listed origins that parse |
| ServerCli.ParseU16 | src-tauri/src/bin/omnidrive_server/main.rs:132 | a parsed port is at most 65535 and the text starts with a digit or '+' |
| ServerCli.ParseU16OfNatToString | src-tauri/src/bin/omnidrive_server/main.rs:132 | every decimal port up to 65535 reads back as itself |
| ServerCli.ParseU16Signs | src-tauri/src/bin/omnidrive_server/main.rs:132 | a leading '+' is accepted; a lone sign, a minus sign and an empty value are not |
| ServerCli.ParseArgs | src-tauri/src/bin/omnidrive_server/main.rs:110-149 | the argument loop computes the options |
| ServerCli.NoFlagsNoChange | src-tauri/src/bin/omnidrive_server/main.rs:110-149 | with no flags the defaults stay: stdio, port 3199, the four built-in origins |
| ServerCli.TransportNeedsSse | src-tauri/src/bin/omnidrive_server/main.rs:123-128 | SSE only when "--transport" is followed by exactly "sse" |
| ServerCli.LaterPortWins | src-tauri/src/bin/omnidrive_server/main.rs:129-136 | a later valid "--port" overrides an earlier one and leaves the rest alone |
| ServerCli.TrailingFlagIgnored | src-tauri/src/bin/omnidrive_server/main.rs:119-149 | a flag at the very end, with no value, changes nothing |
| ServerCli.SplitTrimJoin | src-tauri/src/bin/omnidrive_server/main.rs:142 | splitting the comma-joined origins and trimming each part gives them back |
| ServerCli.BuildArgsRoundTrip | src-tauri/src/bin/omnidrive_server/main.rs:119-149 | the application's argument list reads back as SSE on the same port with the same origins, when no origin holds a comma or surrounding white space |
| Sorting.SortBy | src-tauri/src/commands/activity.rs:42 | `sort_by` returns a permutation of its input |
| Sorting.SortBySorted | src-tauri/src/bin/omnidrive_server/tools.rs:242-248 | with a total comparator, the result is sorted |
| Sorting.SortByStable | src-tauri/src/commands/activity.rs:42 | `sort_by` is stable: the elements of a group the comparator ranks alike keep their relative order |
| Text.SplitJoin | src-tauri/src/bin/omnidrive_server/main.rs:142 | splitting a join on a separator that no part contains gives the parts back |
| Text.LinesJoin | src-tauri/src/bin/omnidrive_server/activity.rs:108-113 | `lines()` of clean lines joined with newlines and terminated gives the lines back |
| Paths.JoinStaysInside | src-tauri/src/bin/omnidrive_server/tools.rs:975-978 | joining a relative name onto a directory gives a path that starts with the directory |

## Left out

- Real file-system I/O is not modelled. `canonicalize`, `read_dir`, `metadata`, `create_dir_all`, `fs::write`, `fs::copy` and `fs::rename` are facts of the `Host` record or boolean parameters. The rename/copy fallback of `move_file` is not modelled.
- Glob matching is uninterpreted: the `.mcpignore` patterns are handed to a `Glob` predicate that the model does not define.
- Regex search in `grep_content` and regex operations in `patch_file` are not modelled. The regex engine is a foreign library. Only the literal paths are modelled.
- `walkdir`, the zip reader and writer, `pdf_extract`, base64 and `mime_guess` are not modelled. Walks and archives are given as sequences. Archive entry names are taken as already sanitised by `mangled_name`.
- Floating point is not modelled. `batch_read`'s `max_total_size_mb` is an integer byte budget. `format_size` and `size_mb` are left out.
- Time is not modelled. `Utc::now` and RFC 3339 parsing are parameters. Timestamps are strings compared the way `String::cmp` compares them.
- Ids, JSON encoding and decoding (serde) are parameters or records.
- Concurrency is not modelled: the mutexes, locks and tokio tasks, and the `notify` config watcher with its reload loop.
- Other runtime details are not modelled: `sysinfo` parent detection, axum serving, the 127.0.0.1 bind address, and sidecar output draining.
- `src-tauri/src/lib.rs` (Tauri wiring), `src-tauri/src/config/store.rs` (a thin serde and file wrapper) and `src-tauri/patch_tools.py` (a developer script) are not part of this model.
- `get_omnidrive_path` and `scan_folder_files` are not part of this model. The first is an executable-location lookup and the second a wrapper around `scan_folder`.
- Paths use '/' as the separator.
- Paths.StripPrefix: gives the remaining components joined by '/', while Rust's `strip_prefix` gives the remaining raw text. The two differ on paths with a repeated '/' or an inner "." component, and the `.mcpignore` patterns see the normalised form.
- Sandbox.ValidatePath: is the corrected check, not `validate_path` as written (see Findings). A target in which '\\' directly follows a folder's canonical path is refused as Outside, where the source grants it. `Sandbox.AsWrittenAgrees` proves the two agree on every target without '\\'.
- Sandbox.ValidateWritable: is built on the corrected `Sandbox.ValidatePath`, so it refuses the '\\' targets that `validate_writable` grants.
- Sandbox.ValidateDestructive: is built on the corrected `Sandbox.ValidateWritable`, so it refuses the '\\' targets that `validate_destructive` grants.
- Listing.ListDirectory, Grep.GrepContent, Patch.PatchFile, BatchRead.Step, FileOps.MoveGuard, FileOps.CopyGuard and FileOps.Unzip: use the corrected gates, so they refuse the '\\' targets the server's tools accept. The same holds for the members built on them (`BatchRead.ReadOne`, `BatchRead.Blocks`, `BatchRead.BatchReport`, `BatchRead.Batch`, `Listing.Listed`, `Listing.CollectEntries`, `Listing.TreeItems`, `Listing.CollectTree`, `Grep.Searched`).
- Rust's `to_lowercase` is modelled on ASCII letters only.
- Grep.GrepContent: a file is searched only when all of it is valid UTF-8 text (it is in the host's readable files). The source reads it with `BufReader::lines()` and skips only the lines that fail to decode (tools.rs:501-502), still counting them for the line numbers, so it also finds matches in the other lines of such a file. Grep.Searched and Grep.Collect inherit this.
- Grep.LineMatches: a case-insensitive search folds ASCII letters only. The `(?i)` flag of tools.rs:457 folds Unicode case, so the source also matches "é" against "É" and "k" against the Kelvin sign U+212A. Grep.MatchingLineFound, Grep.Collect and Grep.GrepContent inherit this.
- Listing.Paginate: computes the page start (page - 1) * size without the `usize` wrap-around of tools.rs:253 and tools.rs:1176. A release build wraps a product past 2^64 and serves a wrong page; a debug build panics. Listing.OutOfRangeIffPastLastPage and Listing.ListDirectory hold of this corrected report (see Findings; Listing.PaginateAsWritten is the code as written).
- Folders.IsRegularFile: the host records only which paths exist and which are directories. A FIFO, a socket or a device therefore counts as a regular file here and in the `is_file()` tests of Folders.Scan, Patch.PatchFile, FileOps.CopyGuard, BatchRead.Step and Grep.Searched, where `Path::is_file()` is false for it.
- File sizes are measured with a UTF-8 byte length of the text.
- PatchText.Rewrite: requires a non-empty search or a positive count, and Patch.PatchFile requires this of every literal operation. An empty search with no count never terminates in the source (see Findings), so the corrected model does not run that case.
- ReadLines.ShowLines: a start line past the end line makes the source panic at the slice; the model returns None there.

## Findings

| source | as written | input that shows it | evidently intended | confidence | as-written member | corrected member |
|---|---|---|---|---|---|---|
| src-tauri/src/bin/mcp_server/sandbox.rs:38-44 | after the folder prefix, either '/' or '\\' is accepted as a boundary | shared folder "/x/P", path "/x/P\\s" on a Unix host: granted, yet it names the sibling file "P\s" of "/x" | a granted path lies inside its folder; on Unix only '/' separates components | not executed | Sandbox.BackslashGranted | Sandbox.UnixGrantedIsInside |
| src-tauri/src/bin/omnidrive_server/tools.rs:253 | `(page - 1) * page_size` is a `usize` product, here and at tools.rs:1176; a release build wraps it modulo 2^64 | 100 entries, page_size 64, page 2^58 + 2: the start wraps to 64 and entries 64..99 are served, although the list has only 2 pages | a page past the last page is reported out of range | not executed | Listing.WrappedPageServed | Listing.OutOfRangeIffPastLastPage |
| src-tauri/src/bin/omnidrive_server/tools.rs:1067-1072 | with an empty `search` and no `count`, `find("")` returns position 0 on every turn, so `remaining` never shrinks and `new_content` grows without end | one search_replace operation with search "" and no count, on any file | the loop ends: an empty search is refused or bounded by a count | not executed | PatchText.EmptySearchNeverStops | PatchText.ReplaceLiteral |
