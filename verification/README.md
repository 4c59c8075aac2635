# Bookmark archiver, modelled in Dafny

The bookmark archiver finds the default Firefox profile and picks its newest
bookmark backup, a plain `.json` file or a `mozLz4` container. It reads the
bookmark tree from that backup and finds the folder with the configured
title. Then it runs SingleFile on every bookmark in that folder whose URL is
not yet in its processed-URL log. A URL goes into the log only when its
archive succeeds. So a later run retries exactly the failures, provided two
things hold: the log ends at a line break, which every log the archiver
writes itself does, and the URLs read back unchanged.

This project models the `BookmarkArchiver` class of
`single_file_bookmark_archiver/bookmark_archiver.py`:

- `find_firefox_profile` is in `profile.dfy`.
- `get_latest_bookmark_backup` is in `backups.dfy`.
- `read_bookmark_backup` is in `container.dfy`: the routing between `.json` and `.jsonlz4`, the magic check and the error cases.
- `find_bookmark_folder` and `extract_urls` are in `bookmarks.dfy`.
- The processed-URL log is in `ledger.dfy`: the text `load_processed_urls` reads, and what `mark_as_processed` appends.
- The class itself, with `archive_url` and `run`, is in `archiver.dfy`.

Directory entries, file names and path joining are in `files.dfy`. The errors the pipeline raises are in `errors.dfy`.

Everything outside the process is a parameter: the file system, `profiles.ini`, the LZ4 decompressor, the JSON parser, the clock, `str.isalnum` and the `npx single-file` command. The record `Archiver.Env` collects these. The object's state is the class `Archiver.BookmarkArchiver`:

- `processedUrls` is `self.processed_urls`.
- `logFile` is the contents of the log file, or `None` while the file does not exist.

Each operation with a loop is a method proved equal to a specification function. The properties of the source are proved as lemmas about those functions:

- the resolution rules for the profile;
- the deterministic choice of the newest backup;
- the container round trip;
- the search being the first pre-order match;
- the records keeping child order, one per URL entry;
- the processed-URL filter being exact;
- the log reloading to exactly the URLs marked;
- a second run retrying only the failures.

## Model

| member | source | states |
|---|---|---|
| Files.LastIndexOf | single_file_bookmark_archiver/bookmark_archiver.py:104 | the index of the last occurrence of a character, or -1; no occurrence after it |
| Files.SuffixIsJson | single_file_bookmark_archiver/bookmark_archiver.py:104 | `backup_path.suffix == '.json'` holds exactly when the name ends in ".json" and is longer than ".json" itself |
| ProfileLocator.FirstDefaultFrom | single_file_bookmark_archiver/bookmark_archiver.py:69-71 | the first section in file order with Default=1, and None exactly when no section has it |
| ProfileLocator.ProfileForRules | single_file_bookmark_archiver/bookmark_archiver.py:51-80 | a truthy configured profile is returned unchanged; otherwise the first Default=1 section decides, and the "no default profile" error occurs exactly when no section has Default=1 |
| ProfileLocator.SectionProfileRelative | single_file_bookmark_archiver/bookmark_archiver.py:72-78 | a relative section resolves to its Path under the Firefox directory, a non-relative one to its Path unchanged |
| ProfileLocator.FindFirefoxProfile | single_file_bookmark_archiver/bookmark_archiver.py:51-80 | the scan over the sections returns what the resolution rules give, including each missing-file error and a missing Path option |
| BackupSelector.NewestIndex | single_file_bookmark_archiver/bookmark_archiver.py:89-99 | the chosen entry is a regular .json/.jsonlz4 file, no candidate is newer, and every earlier candidate is strictly older; None exactly when there is no candidate |
| BackupSelector.NewestAtUnique | single_file_bookmark_archiver/bookmark_archiver.py:97-99 | at most one entry is first after the stable descending sort, so the choice is deterministic |
| BackupSelector.GetLatestBookmarkBackup | single_file_bookmark_archiver/bookmark_archiver.py:82-99 | the one-pass scan returns the newest backup, or the missing-directory or no-backups error |
| BackupContainer.ReadBookmarkBackup | single_file_bookmark_archiver/bookmark_archiver.py:101-129 | a .json file is parsed as it is and only its parse error surfaces; otherwise data that does not begin with "mozLz40" is rejected, every failure is the one wrapped error, and a success decompresses exactly the bytes after the 8-byte header |
| BackupContainer.ContainerRoundTrip | single_file_bookmark_archiver/bookmark_archiver.py:109-121 | "mozLz40\0" followed by a payload that decompresses to a tree's text reads back as that tree |
| BackupContainer.EighthByteIgnored | single_file_bookmark_archiver/bookmark_archiver.py:114-117 | only seven bytes of the magic are checked: any eighth byte gives the same result as the NUL byte |
| BackupContainer.JsonBypassesDecompression | single_file_bookmark_archiver/bookmark_archiver.py:103-106 | a .json backup never reaches the decompressor |
| BackupContainer.OnlyPayloadDecompressed | single_file_bookmark_archiver/bookmark_archiver.py:115-121 | two containers with the magic and the same bytes after the header read the same |
| BookmarkTree.FirstMatch | single_file_bookmark_archiver/bookmark_archiver.py:131-147 | the first node of a sequence that is a container titled with the name, and None exactly when there is none |
| BookmarkTree.FirstMatchAppend | single_file_bookmark_archiver/bookmark_archiver.py:141-145 | searching a concatenation searches the second part only when the first has no match |
| BookmarkTree.FindBookmarkFolder | single_file_bookmark_archiver/bookmark_archiver.py:131-147 | the recursive search returns the first matching folder of the tree in pre-order, or None when the tree has none |
| BookmarkTree.FindInChildren | single_file_bookmark_archiver/bookmark_archiver.py:141-146 | the loop over the children returns the first match in the children's pre-order |
| BookmarkTree.UrlRecords | single_file_bookmark_archiver/bookmark_archiver.py:154-160 | at most one record per child |
| BookmarkTree.UrlRecordsSound | single_file_bookmark_archiver/bookmark_archiver.py:155-160 | every record comes from a direct child of place type that has a uri, with "Untitled" for a missing title |
| BookmarkTree.UrlRecordsPrefix | single_file_bookmark_archiver/bookmark_archiver.py:155-160 | the records of the first children are a prefix of the records of all of them |
| BookmarkTree.EntryIndicesSnoc | single_file_bookmark_archiver/bookmark_archiver.py:155-156 | one more child adds its own position to the URL entries' positions exactly when it is a URL entry |
| BookmarkTree.UrlRecordsCount | single_file_bookmark_archiver/bookmark_archiver.py:155-160 | there are exactly as many records as children of place type with a uri |
| BookmarkTree.UrlRecordsAt | single_file_bookmark_archiver/bookmark_archiver.py:155-160 | every URL entry among the children has its record in the result, after the records of the entries before it |
| BookmarkTree.ExtractUrls | single_file_bookmark_archiver/bookmark_archiver.py:149-162 | the loop builds exactly the records of the folder's URL entries, and nothing for a missing folder or one without children |
| Ledger.FirstBreak | single_file_bookmark_archiver/bookmark_archiver.py:168-170 | the end of the first line lies within the text |
| Ledger.FirstBreakSpec | single_file_bookmark_archiver/bookmark_archiver.py:168-170 | there is no line break before that position, and there is one at it |
| Ledger.UrlSetMembers | single_file_bookmark_archiver/bookmark_archiver.py:175 | the set of marked URLs holds exactly the URLs marked |
| Ledger.LinesCons | single_file_bookmark_archiver/bookmark_archiver.py:168-170 | a text that starts with a complete line yields that line first |
| Ledger.SplitFirstLine | single_file_bookmark_archiver/bookmark_archiver.py:168-170 | a non-empty log that ends at a line break is a complete line followed by a shorter such log |
| Ledger.LinesAppend | single_file_bookmark_archiver/bookmark_archiver.py:168-170 | after a log that ends at a line break, appended text yields its own lines after the old ones |
| Ledger.StrippedLinesAppend | single_file_bookmark_archiver/bookmark_archiver.py:169-171 | the set of stripped non-blank lines of two parts is the union of each part's set |
| Ledger.ParseLogAppend | single_file_bookmark_archiver/bookmark_archiver.py:164-177 | appending to a log that ends at a line break adds exactly the appended part's URLs to what a reload gives |
| Ledger.LStripUnchanged | single_file_bookmark_archiver/bookmark_archiver.py:170 | `strip()` leaves the start of a text that does not begin with whitespace unchanged |
| Ledger.ParseLogEntry | single_file_bookmark_archiver/bookmark_archiver.py:170-177 | the line written for a clean URL reads back as that URL alone |
| Ledger.LogOfEndsLine | single_file_bookmark_archiver/bookmark_archiver.py:176-177 | the lines `mark_as_processed` writes always end at a line break |
| Ledger.MarkAfterUnterminatedLine | single_file_bookmark_archiver/bookmark_archiver.py:176-177 | appending "b\n" after a last line "a" that has no line break reloads as {"ab"}, which holds neither URL |
| Ledger.LStripSnocSpace | single_file_bookmark_archiver/bookmark_archiver.py:170 | a trailing whitespace character survives the left strip only after something that is not whitespace |
| Ledger.StripNewline | single_file_bookmark_archiver/bookmark_archiver.py:170 | `strip()` gives the same result with or without a trailing line break |
| Ledger.ParseLogNewline | single_file_bookmark_archiver/bookmark_archiver.py:164-171 | ending a log whose last line has no line break with one does not change what a reload gives |
| Ledger.ReloadAfterAppendEntry | single_file_bookmark_archiver/bookmark_archiver.py:173-177 | the corrected append, which starts a new line first when needed, reloads as the old set plus the clean URL for any log |
| Ledger.ReloadAfterMark | single_file_bookmark_archiver/bookmark_archiver.py:164-177 | after marking a clean URL, a reload gives the old set plus that URL, and the log still ends at a line break |
| Ledger.ParseLogOf | single_file_bookmark_archiver/bookmark_archiver.py:164-177 | the lines written for a sequence of clean URLs read back as exactly those URLs |
| Ledger.ReloadAfterLog | single_file_bookmark_archiver/bookmark_archiver.py:164-177 | after marking a sequence of clean URLs, a reload gives the old set plus exactly those URLs |
| Archiver.Sanitize | single_file_bookmark_archiver/bookmark_archiver.py:186-188 | the replacement keeps the title's length |
| Archiver.SanitizeSpec | single_file_bookmark_archiver/bookmark_archiver.py:186-188 | each character is kept when it is alphanumeric, a space, '-' or '_', and becomes '-' otherwise |
| Archiver.SafeTitleSpec | single_file_bookmark_archiver/bookmark_archiver.py:186-189 | the safe title has min(length, 100) characters of the title, or of "untitled" for an empty title, each allowed, each the original character or '-' |
| Archiver.FileNameSpec | single_file_bookmark_archiver/bookmark_archiver.py:190 | the file name is the timestamp, '_', the safe title and ".html", in that order |
| Archiver.NewUrls | single_file_bookmark_archiver/bookmark_archiver.py:269-272 | the filter never adds records |
| Archiver.NewUrlsMembers | single_file_bookmark_archiver/bookmark_archiver.py:269-272 | a record is kept exactly when it is in the list and its URL is not processed |
| Archiver.NewUrlsCounts | single_file_bookmark_archiver/bookmark_archiver.py:269-272 | every record with an unprocessed URL is kept as many times as it occurs |
| Archiver.NewUrlsEmpty | single_file_bookmark_archiver/bookmark_archiver.py:269-276 | nothing is left to archive exactly when every URL of the folder is processed |
| Archiver.NewUrlsAppend | single_file_bookmark_archiver/bookmark_archiver.py:269-272 | the filter keeps order: filtering a concatenation filters each part |
| Archiver.NewUrlsTwice | single_file_bookmark_archiver/bookmark_archiver.py:269-272 | filtering by one set and then by another is filtering by their union |
| Archiver.Archived | single_file_bookmark_archiver/bookmark_archiver.py:281-284 | at most one recorded URL per attempt |
| Archiver.ArchivedSound | single_file_bookmark_archiver/bookmark_archiver.py:281-284 | every recorded URL belongs to an item whose SingleFile run succeeded |
| Archiver.ArchivedAt | single_file_bookmark_archiver/bookmark_archiver.py:281-284 | every item whose SingleFile run succeeded is recorded; a failure does not stop the loop |
| Archiver.ArchivedStep | single_file_bookmark_archiver/bookmark_archiver.py:282-284 | one more attempt records its URL when it succeeds and nothing otherwise |
| Archiver.LogAfterSnoc | single_file_bookmark_archiver/bookmark_archiver.py:173-177 | recording one more URL appends exactly its line to the log |
| Archiver.WrittenLogEndsLine | single_file_bookmark_archiver/bookmark_archiver.py:173-177 | a log the archiver created and only appended to ends at a line break |
| Archiver.SecondRunRetriesOnlyFailures | single_file_bookmark_archiver/bookmark_archiver.py:212-286 | a later run that reloads the log retries exactly this run's pending records that were not archived, in order |
| Archiver.SecondRunIdempotent | single_file_bookmark_archiver/bookmark_archiver.py:212-286 | when every pending URL was archived, the next run over the same folder has nothing new |
| Archiver.BookmarkArchiver.constructor | single_file_bookmark_archiver/bookmark_archiver.py:30-32 | a new archiver starts with an empty processed set |
| Archiver.BookmarkArchiver.LoadProcessedUrls | single_file_bookmark_archiver/bookmark_archiver.py:164-171 | an existing log replaces the set by its stripped non-blank lines; a missing log leaves the set alone |
| Archiver.BookmarkArchiver.MarkAsProcessed | single_file_bookmark_archiver/bookmark_archiver.py:173-177 | adds the URL to the set and appends one line to the log, creating it if needed; earlier text stays as it was, and the log ends at a line break |
| Archiver.BookmarkArchiver.ArchiveUrl | single_file_bookmark_archiver/bookmark_archiver.py:179-210 | SingleFile runs on the URL with the output path built from the destination, timestamp and safe title; the URL is marked exactly when that succeeds, and nothing changes otherwise |
| Archiver.BookmarkArchiver.ArchiveAll | single_file_bookmark_archiver/bookmark_archiver.py:280-284 | every item is attempted in order; the count is the number of successes; exactly the successful URLs are added to the set and appended to the log |
| Archiver.BookmarkArchiver.Run | single_file_bookmark_archiver/bookmark_archiver.py:212-286 | the ledger is loaded first; a profile, backup or read error, a missing folder or nothing new ends the run with the log untouched; otherwise the unprocessed records are attempted once each, with the count of successes and attempts |

## Left out

- Configuration loading (`load_config`, `load_yaml_config`), `main` and the MQTT wrapper are not modelled. `Archiver.Config` holds the three settings `run` uses.
- Console output (`print`) is not modelled. Each early return of `run` is a distinct `RunOutcome` instead.
- Creating the archive and log directories (lines 216-223) is not modelled. A successful `mkdir` has no effect on the state modelled here. A failing one is among the uncaught exits below.
- `run` has exits that end it with an uncaught exception. `Archiver.BookmarkArchiver.Run` has no outcome for them:
  - either `mkdir` can raise (lines 218 and 223);
  - reading the log in `load_processed_urls` can raise an `OSError` or a `UnicodeDecodeError` (lines 166-171, called at line 226 outside any `try`);
  - `find_bookmark_folder` recurses once per tree level and is called outside any `try` (lines 254-257), so a tree nested deeper than Python's recursion limit ends `run` with a `RecursionError`.

  `BookmarkTree.FindBookmarkFolder` returns a result at any depth.
- File system calls (`exists`, `iterdir`, `is_file`, `stat`, reads and appends) are fields of `Archiver.Env`, or the object's `logFile`. Where the log lives is not modelled.
- Modification times are integers, not floats. Ties are handled as the stable sort handles them.
- pathlib normalisation (repeated or trailing slashes, `..`) is not modelled. `Path.home()` is `Env.home`.
- `profiles.ini` arrives already parsed. configparser's own parsing, the DEFAULT section's inheritance and interpolation are not modelled.
- LZ4 decompression, UTF-8 decoding and JSON parsing are the parameters `decompress` and `parseJson`. The `ImportError` branch of `read_bookmark_backup` is left out, because it depends on the installed packages.
- JSON values that are not objects where the code expects one are not modelled. Examples are `children` that is not a list and `uri` that is not a string. `Node.children` is a sequence of objects.
- `Node.title` cannot tell a missing "title" key from `"title": null`. With null, `item.get('title', 'Untitled')` gives None, and `archive_url` then uses "untitled", so the path ends in `_untitled.html`. The model gives "Untitled" for both cases, so its path ends in `_Untitled.html`.
- Matching nodes are non-empty objects, so they are always truthy. The `if found:` and `if not folder:` tests are modelled as `Some`/`None`.
- `str.isalnum` is the parameter `isAlnum`. `datetime.now()` is `clock(k)`, the timestamp when attempt `k` starts. The SingleFile command is `singleFile(url, path)`, and its stderr and exceptions are folded into `false`.
- A write error inside `mark_as_processed` is not modelled. Such an error would leave the URL in the set while `archive_url` returns False. The model assumes the append succeeds.
- Text mode turns "\r\n" into one line break. The model splits it into a line and an empty line, which `strip` drops, so the loaded set is the same.
- The model does not sort in place, whereas line 98 does. Only `backups[0]` is used, so the model computes it directly with one selection scan.
- The archive loop at the end of `run` is the separate method `Archiver.BookmarkArchiver.ArchiveAll`.
- Ledger.ReloadAfterMark: proved only for clean URLs (non-empty, no surrounding whitespace, no line break), because any other URL does not read back as itself. It is also proved only for a log that ends at a line break, because otherwise the last line merges with the new URL (see Findings).
- Ledger.ReloadAfterLog: proved only for clean URLs and a log that ends at a line break, for the same reasons.
- Archiver.SecondRunRetriesOnlyFailures: proved only for clean archived URLs and a log that ends at a line break, for the same reasons.
- Archiver.SecondRunIdempotent: proved only for clean archived URLs and a log that ends at a line break, for the same reasons.

## Findings

| source | as written | input that shows it | evidently intended | confidence | as-written member | corrected member |
|---|---|---|---|---|---|---|
| single_file_bookmark_archiver/bookmark_archiver.py:176-177 | `mark_as_processed` appends `url + '\n'` whatever the log's last character is | a log whose last line is "a" with no line break, then marking "b": the log reloads as {"ab"}, so both URLs are archived again | each marked URL reloads as itself, so a new line is started first when the log does not end at one | not executed | Ledger.MarkAfterUnterminatedLine | Ledger.ReloadAfterAppendEntry |

The corrected append is `Ledger.AppendEntry`. `Archiver.BookmarkArchiver.MarkAsProcessed` keeps the append as written. The two agree on every log the archiver writes itself, because such a log always ends at a line break (`Archiver.WrittenLogEndsLine`). They differ only for a log that was edited by hand or cut short.
