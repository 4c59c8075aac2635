/** The archiver itself: the processed-URL ledger held by the
    `BookmarkArchiver` object, `archive_url`, and the `run` pipeline. */
module Archiver {
  import opened Wrappers
  import opened Errors
  import opened Files
  import opened ProfileLocator
  import opened BackupSelector
  import opened BackupContainer
  import opened BookmarkTree
  import opened Ledger

  /** The settings `run` reads. The log's location is not needed: its
      contents are the object's `logFile` field. */
  datatype Config = Config(firefoxProfile: Option<string>, archiveDestination: Path,
                           bookmarkFolderName: string)

  /** Everything outside the process that `run` consults. `listings` holds
      the directories that exist, with their entries in `iterdir` order;
      `clock(k)` is the formatted timestamp when the k-th archive attempt
      starts; `singleFile(url, path)` is whether `npx single-file url path`
      exits successfully; `isAlnum` is `str.isalnum` on one character. */
  datatype Env = Env(
    home: Path,
    firefoxDirExists: bool,
    profilesIni: Option<seq<Section>>,
    listings: map<Path, seq<DirEntry>>,
    decompress: seq<byte> -> Option<seq<byte>>,
    parseJson: seq<byte> -> Option<Node>,
    isAlnum: char -> bool,
    clock: nat -> string,
    singleFile: (string, Path) -> bool)

  /** How `run` ends; the first five print a message and return early. */
  datatype RunOutcome =
    | ProfileError(error: Error)
    | BackupError(error: Error)
    | ReadError(error: Error)
    | FolderNotFound
    | NothingNew
    | Done(succeeded: nat, attempted: nat)

  function Listing(env: Env, dir: Path): Option<seq<DirEntry>> {
    if dir in env.listings then Some(env.listings[dir]) else None
  }

  /** The first half of `run`: the decoded bookmark tree, or the early
      return that a failure to find or read it causes. */
  function Bookmarks(config: Config, env: Env): Result<Node, RunOutcome> {
    match ProfileFor(config.firefoxProfile, env.home, env.firefoxDirExists, env.profilesIni)
    case Err(e) => Err(ProfileError(e))
    case Ok(profile) =>
      match SelectBackup(profile, Listing(env, BackupDirOf(profile)))
      case Err(e) => Err(BackupError(e))
      case Ok(backup) =>
        match ReadBookmarkBackup(backup.entry.name, backup.entry.data, env.decompress, env.parseJson)
        case Err(e) => Err(ReadError(e))
        case Ok(tree) => Ok(tree)
  }

  // ----- file names -----

  /** A title character kept as it is; every other one becomes '-'. */
  predicate Allowed(c: char, isAlnum: char -> bool) {
    isAlnum(c) || c == ' ' || c == '-' || c == '_'
  }

  /** The character-by-character replacement in `safe_title`. */
  function Sanitize(s: string, isAlnum: char -> bool): (r: string)
    ensures |r| == |s|
  {
    if s == [] then []
    else [if Allowed(s[0], isAlnum) then s[0] else '-'] + Sanitize(s[1..], isAlnum)
  }

  /** Each character is kept when allowed and becomes '-' otherwise. */
  lemma {:induction false} SanitizeSpec(s: string, isAlnum: char -> bool)
    ensures forall i :: 0 <= i < |s| ==>
      Sanitize(s, isAlnum)[i] == if Allowed(s[i], isAlnum) then s[i] else '-'
  {
    if s != [] {
      SanitizeSpec(s[1..], isAlnum);
      forall i | 1 <= i < |s|
        ensures Sanitize(s, isAlnum)[i] == if Allowed(s[i], isAlnum) then s[i] else '-'
      {
        assert s[i] == s[1..][i - 1];
      }
    }
  }

  /** `title or 'untitled'`. */
  function TitleOrDefault(title: string): string {
    if title == "" then "untitled" else title
  }

  function Min(a: int, b: int): int {
    if a <= b then a else b
  }

  /** `safe_title`: the sanitised title, or "untitled", cut to 100 characters. */
  function SafeTitle(title: string, isAlnum: char -> bool): string {
    var s := Sanitize(TitleOrDefault(title), isAlnum);
    if |s| <= 100 then s else s[..100]
  }

  /** The safe title has at most 100 characters, each either the title's
      own character at that position, when allowed, or '-'. */
  lemma SafeTitleSpec(title: string, isAlnum: char -> bool)
    ensures var r := SafeTitle(title, isAlnum);
      && |r| == Min(|TitleOrDefault(title)|, 100)
      && (forall i :: 0 <= i < |r| ==> Allowed(r[i], isAlnum))
      && forall i :: 0 <= i < |r| ==>
        r[i] == if Allowed(TitleOrDefault(title)[i], isAlnum) then TitleOrDefault(title)[i] else '-'
  {
    SanitizeSpec(TitleOrDefault(title), isAlnum);
  }

  /** `f"{timestamp}_{safe_title}.html"`. */
  function FileName(timestamp: string, title: string, isAlnum: char -> bool): string {
    timestamp + "_" + SafeTitle(title, isAlnum) + ".html"
  }

  /** The file name starts with the timestamp and '_', ends with ".html",
      and has the safe title in between. */
  lemma FileNameSpec(timestamp: string, title: string, isAlnum: char -> bool)
    ensures var r := FileName(timestamp, title, isAlnum);
      && |r| == |timestamp| + 1 + |SafeTitle(title, isAlnum)| + 5
      && r[..|timestamp| + 1] == timestamp + "_"
      && r[|timestamp| + 1..|r| - 5] == SafeTitle(title, isAlnum)
      && EndsWith(r, ".html")
  {
  }

  function OutputPath(dest: Path, timestamp: string, title: string, isAlnum: char -> bool): Path {
    Join(dest, FileName(timestamp, title, isAlnum))
  }

  // ----- the dedup filter -----

  /** `new_urls`: the records whose URL is not yet processed, in order. */
  function NewUrls(urls: seq<UrlRecord>, processed: set<string>): (r: seq<UrlRecord>)
    ensures |r| <= |urls|
  {
    if urls == [] then []
    else
      var last := urls[|urls| - 1];
      NewUrls(urls[..|urls| - 1], processed) + if last.url in processed then [] else [last]
  }

  /** A record is kept exactly when it is among `urls` and its URL is not
      processed. */
  lemma {:induction false} NewUrlsMembers(urls: seq<UrlRecord>, processed: set<string>)
    ensures forall x :: x in NewUrls(urls, processed) <==> x in urls && x.url !in processed
  {
    if urls != [] {
      var init := urls[..|urls| - 1];
      var last := urls[|urls| - 1];
      NewUrlsMembers(init, processed);
      assert urls == init + [last];
    }
  }

  /** Nothing but processed records is dropped: each record with an
      unprocessed URL is kept as often as it occurs. */
  lemma {:induction false} NewUrlsCounts(urls: seq<UrlRecord>, processed: set<string>)
    ensures forall x: UrlRecord :: x.url !in processed ==>
      multiset(NewUrls(urls, processed))[x] == multiset(urls)[x]
  {
    if urls != [] {
      var init := urls[..|urls| - 1];
      var last := urls[|urls| - 1];
      NewUrlsCounts(init, processed);
      assert urls == init + [last];
    }
  }

  /** The filter leaves nothing exactly when every URL is processed. */
  lemma {:induction false} NewUrlsEmpty(urls: seq<UrlRecord>, processed: set<string>)
    ensures NewUrls(urls, processed) == [] <==> forall x :: x in urls ==> x.url in processed
  {
    if urls != [] {
      var init := urls[..|urls| - 1];
      var last := urls[|urls| - 1];
      NewUrlsEmpty(init, processed);
      assert urls == init + [last];
    }
  }

  /** The filter keeps order: filtering a concatenation filters each part. */
  lemma {:induction false} NewUrlsAppend(a: seq<UrlRecord>, b: seq<UrlRecord>, processed: set<string>)
    ensures NewUrls(a + b, processed) == NewUrls(a, processed) + NewUrls(b, processed)
  {
    if b != [] {
      var init := b[..|b| - 1];
      assert (a + b)[..|a + b| - 1] == a + init;
      assert (a + b)[|a + b| - 1] == b[|b| - 1];
      NewUrlsAppend(a, init, processed);
    } else {
      assert a + b == a;
    }
  }

  /** Filtering by one set and then by another is filtering by both. */
  lemma {:induction false} NewUrlsTwice(urls: seq<UrlRecord>, first: set<string>, second: set<string>)
    ensures NewUrls(NewUrls(urls, first), second) == NewUrls(urls, first + second)
  {
    if urls != [] {
      var init := urls[..|urls| - 1];
      var last := urls[|urls| - 1];
      NewUrlsTwice(init, first, second);
      var once := if last.url in first then [] else [last];
      NewUrlsAppend(NewUrls(init, first), once, second);
      if last.url !in first {
        assert once[..0] == [];
      }
    }
  }

  // ----- the archive loop -----

  /** Whether the archive attempt numbered `k` in a run, for `item`, succeeds. */
  predicate AttemptSucceeds(config: Config, env: Env, item: UrlRecord, k: nat) {
    env.singleFile(item.url, OutputPath(config.archiveDestination, env.clock(k), item.title, env.isAlnum))
  }

  /** The URLs the loop over `items` records, in order: those whose attempt
      succeeded. */
  function Archived(config: Config, env: Env, items: seq<UrlRecord>): (r: seq<string>)
    ensures |r| <= |items|
  {
    if items == [] then []
    else
      var k := |items| - 1;
      Archived(config, env, items[..k])
        + if AttemptSucceeds(config, env, items[k], k) then [items[k].url] else []
  }

  /** Only successful attempts are recorded: each recorded URL is that of
      an item whose attempt succeeded. */
  lemma {:induction false} ArchivedSound(config: Config, env: Env, items: seq<UrlRecord>, u: string)
    requires u in Archived(config, env, items)
    ensures exists k :: 0 <= k < |items| && items[k].url == u && AttemptSucceeds(config, env, items[k], k)
  {
    var k := |items| - 1;
    var init := items[..k];
    if u in Archived(config, env, init) {
      ArchivedSound(config, env, init, u);
      var j :| 0 <= j < |init| && init[j].url == u && AttemptSucceeds(config, env, init[j], j);
      assert items[j] == init[j];
    } else {
      assert items[k].url == u && AttemptSucceeds(config, env, items[k], k);
    }
  }

  /** Every successful attempt's URL is recorded; a failed attempt records
      nothing by itself, and the remaining attempts still happen. */
  lemma {:induction false} ArchivedAt(config: Config, env: Env, items: seq<UrlRecord>, k: nat)
    requires k < |items|
    ensures AttemptSucceeds(config, env, items[k], k) ==> items[k].url in Archived(config, env, items)
    decreases |items|
  {
    var last := |items| - 1;
    if k < last {
      var init := items[..last];
      ArchivedAt(config, env, init, k);
      assert init[k] == items[k];
    }
  }

  /** One more attempt extends the recorded URLs by at most its own. */
  lemma ArchivedStep(config: Config, env: Env, items: seq<UrlRecord>, i: nat)
    requires i < |items|
    ensures Archived(config, env, items[..i + 1])
         == Archived(config, env, items[..i])
            + if AttemptSucceeds(config, env, items[i], i) then [items[i].url] else []
  {
    assert items[..i + 1][..i] == items[..i];
  }

  /** The log after `done` was recorded, one line per URL, on top of
      `initial`; untouched while nothing was recorded. */
  function LogAfter(initial: Option<string>, done: seq<string>): Option<string> {
    if done == [] then initial else Some(LogText(initial) + LogOf(done))
  }

  /** Recording one more URL appends exactly its line to the log. */
  lemma LogAfterSnoc(initial: Option<string>, done: seq<string>, url: string)
    ensures LogAfter(initial, done + [url]) == Some(LogText(LogAfter(initial, done)) + url + "\n")
  {
    assert (done + [url])[..|done|] == done;
    assert LogOf(done + [url]) == LogOf(done) + url + "\n";
    if done == [] {
      assert LogOf(done + [url]) == url + "\n";
      assert LogText(initial) + (url + "\n") == LogText(initial) + url + "\n";
    } else {
      assert LogText(LogAfter(initial, done)) == LogText(initial) + LogOf(done);
      assert LogText(initial) + LogOf(done) + url + "\n" == LogText(initial) + (LogOf(done) + url + "\n");
    }
  }

  /** A log the archiver created and only ever appended to ends at a line
      break, which the reload lemmas below require. */
  lemma WrittenLogEndsLine(done: seq<string>)
    ensures EndsLine(LogText(LogAfter(None, done)))
  {
    LogOfEndsLine(done);
  }

  // ----- consequences for later runs -----

  /** A later run that reloads the log after this run's clean URLs were
      appended retries exactly the records this run did not archive. */
  lemma SecondRunRetriesOnlyFailures(text: string, urls: seq<UrlRecord>, done: seq<string>)
    requires EndsLine(text)
    requires forall k :: 0 <= k < |done| ==> Clean(done[k])
    ensures NewUrls(urls, ParseLog(text + LogOf(done)))
         == NewUrls(NewUrls(urls, ParseLog(text)), UrlSet(done))
  {
    ReloadAfterLog(text, done);
    NewUrlsTwice(urls, ParseLog(text), UrlSet(done));
  }

  /** So when every pending URL was archived, the next run over the same
      folder attempts nothing. */
  lemma SecondRunIdempotent(text: string, urls: seq<UrlRecord>, done: seq<string>)
    requires EndsLine(text)
    requires forall k :: 0 <= k < |done| ==> Clean(done[k])
    requires forall x :: x in NewUrls(urls, ParseLog(text)) ==> x.url in done
    ensures NewUrls(urls, ParseLog(text + LogOf(done))) == []
  {
    SecondRunRetriesOnlyFailures(text, urls, done);
    UrlSetMembers(done);
    NewUrlsEmpty(NewUrls(urls, ParseLog(text)), UrlSet(done));
  }

  /** The log's text; a missing file reads as empty once appended to. */
  function LogText(logFile: Option<string>): string {
    if logFile.Some? then logFile.value else ""
  }

  /** The set after `load_processed_urls`: a missing log leaves it alone. */
  function Loaded(logFile: Option<string>, current: set<string>): set<string> {
    if logFile.Some? then ParseLog(logFile.value) else current
  }

  class BookmarkArchiver {
    const config: Config
    /** `self.processed_urls`. */
    var processedUrls: set<string>
    /** The processed-URL log on disk; None while the file does not exist. */
    var logFile: Option<string>

    constructor(config: Config, logFile: Option<string>)
      ensures this.config == config && processedUrls == {} && this.logFile == logFile
    {
      this.config := config;
      processedUrls := {};
      this.logFile := logFile;
    }

    /** `load_processed_urls`: replaces the set by the log's stripped,
        non-blank lines, when the log exists. */
    method LoadProcessedUrls()
      modifies this`processedUrls
      ensures processedUrls == Loaded(logFile, old(processedUrls))
    {
      if logFile.Some? {
        processedUrls := ParseLog(logFile.value);
      }
    }

    /** `mark_as_processed`: adds the URL to the set and appends one line
        to the log, creating it if needed; earlier lines stay as they were. */
    method MarkAsProcessed(url: string)
      modifies this`processedUrls, this`logFile
      ensures processedUrls == old(processedUrls) + {url}
      ensures logFile == Some(LogText(old(logFile)) + url + "\n")
      ensures LogText(old(logFile)) <= logFile.value
      ensures EndsLine(logFile.value)
    {
      processedUrls := processedUrls + {url};
      logFile := Some(LogText(logFile) + url + "\n");
    }

    /** `archive_url`: runs SingleFile on the URL with an output file built
        from the timestamp and the sanitised title, and records the URL only
        when it succeeds. */
    method ArchiveUrl(url: string, title: string, timestamp: string,
                      isAlnum: char -> bool, singleFile: (string, Path) -> bool)
      returns (ok: bool)
      modifies this`processedUrls, this`logFile
      ensures ok == singleFile(url, OutputPath(config.archiveDestination, timestamp, title, isAlnum))
      ensures ok ==> (processedUrls == old(processedUrls) + {url}
                      && logFile == Some(LogText(old(logFile)) + url + "\n"))
      ensures !ok ==> processedUrls == old(processedUrls) && logFile == old(logFile)
    {
      var outputPath := OutputPath(config.archiveDestination, timestamp, title, isAlnum);
      ok := singleFile(url, outputPath);
      if ok {
        MarkAsProcessed(url);
      }
    }

    /** The loop at the end of `run`: attempts every item in order, the
        k-th one with the k-th timestamp, and counts the successes. A failure
        leaves the ledger alone and the loop goes on. */
    method ArchiveAll(items: seq<UrlRecord>, env: Env) returns (successCount: nat)
      modifies this`processedUrls, this`logFile
      ensures var done := Archived(config, env, items);
        && successCount == |done| <= |items|
        && processedUrls == old(processedUrls) + UrlSet(done)
        && logFile == LogAfter(old(logFile), done)
    {
      successCount := 0;
      ghost var done: seq<string> := [];
      var i := 0;
      while i < |items|
        invariant 0 <= i <= |items|
        invariant done == Archived(config, env, items[..i])
        invariant successCount == |done|
        invariant processedUrls == old(processedUrls) + UrlSet(done)
        invariant logFile == LogAfter(old(logFile), done)
      {
        var item := items[i];
        ArchivedStep(config, env, items, i);
        var ok := ArchiveUrl(item.url, item.title, env.clock(i), env.isAlnum, env.singleFile);
        if ok {
          successCount := successCount + 1;
          LogAfterSnoc(old(logFile), done, item.url);
          assert UrlSet(done + [item.url]) == UrlSet(done) + {item.url} by {
            assert (done + [item.url])[..|done|] == done;
          }
          done := done + [item.url];
        }
        i := i + 1;
      }
      assert items[..i] == items;
    }

    /** `run`: loads the ledger, finds and reads the newest backup, finds
        the folder, filters out processed URLs once, then attempts each
        remaining one in order and counts the successes. */
    method Run(env: Env) returns (outcome: RunOutcome)
      modifies this`processedUrls, this`logFile
      ensures var loaded := Loaded(old(logFile), old(processedUrls));
        match Bookmarks(config, env)
        case Err(failure) =>
          outcome == failure && processedUrls == loaded && logFile == old(logFile)
        case Ok(tree) =>
          match FindBookmarkFolder(tree, config.bookmarkFolderName)
          case None =>
            outcome == FolderNotFound && processedUrls == loaded && logFile == old(logFile)
          case Some(folder) =>
            var pending := NewUrls(ExtractedUrls(Some(folder)), loaded);
            var done := Archived(config, env, pending);
            && outcome == (if pending == [] then NothingNew else Done(|done|, |pending|))
            && processedUrls == loaded + UrlSet(done)
            && logFile == LogAfter(old(logFile), done)
    {
      LoadProcessedUrls();
      ghost var loaded := processedUrls;

      var profile := FindFirefoxProfile(config.firefoxProfile, env.home, env.firefoxDirExists,
                                        env.profilesIni);
      if profile.Err? {
        assert Bookmarks(config, env) == Err(ProfileError(profile.error));
        return ProfileError(profile.error);
      }
      var backup := GetLatestBookmarkBackup(profile.value, Listing(env, BackupDirOf(profile.value)));
      if backup.Err? {
        assert Bookmarks(config, env) == Err(BackupError(backup.error));
        return BackupError(backup.error);
      }
      var bookmarks := ReadBookmarkBackup(backup.value.entry.name, backup.value.entry.data,
                                          env.decompress, env.parseJson);
      if bookmarks.Err? {
        assert Bookmarks(config, env) == Err(ReadError(bookmarks.error));
        return ReadError(bookmarks.error);
      }
      assert Bookmarks(config, env) == Ok(bookmarks.value);
      var folder := FindBookmarkFolder(bookmarks.value, config.bookmarkFolderName);
      if folder.None? {
        return FolderNotFound;
      }
      var urls := ExtractUrls(folder);
      var newUrls := NewUrls(urls, processedUrls);
      assert newUrls == NewUrls(ExtractedUrls(Some(folder.value)), loaded);
      if newUrls == [] {
        return NothingNew;
      }

      var successCount := ArchiveAll(newUrls, env);
      return Done(successCount, |newUrls|);
    }
  }
}
