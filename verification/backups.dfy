/** Picking the newest bookmark backup (`get_latest_bookmark_backup`). */
module BackupSelector {
  import opened Wrappers
  import opened Errors
  import opened Files

  /** The selected backup: its full path and its directory entry. */
  datatype Backup = Backup(path: Path, entry: DirEntry)

  function BackupDirOf(profileDir: Path): Path {
    Join(profileDir, "bookmarkbackups")
  }

  /** The list comprehension's filter: a regular file named *.jsonlz4 or *.json. */
  predicate IsCandidate(e: DirEntry) {
    e.isFile && (EndsWith(e.name, ".jsonlz4") || EndsWith(e.name, ".json"))
  }

  /** Entry `k` is a candidate, no candidate is newer, and every candidate
      listed before it is strictly older. The last part is what a stable sort
      with `reverse=True` puts first among equal modification times. */
  ghost predicate NewestAt(entries: seq<DirEntry>, k: int) {
    && 0 <= k < |entries|
    && IsCandidate(entries[k])
    && (forall j :: 0 <= j < |entries| && IsCandidate(entries[j]) ==> entries[j].mtime <= entries[k].mtime)
    && (forall j :: 0 <= j < k && IsCandidate(entries[j]) ==> entries[j].mtime < entries[k].mtime)
  }

  /** The index of `backups[0]` after the filter and the stable descending
      sort, or None when no entry is a candidate. */
  function NewestIndex(entries: seq<DirEntry>): (r: Option<nat>)
    ensures r.None? <==> forall j :: 0 <= j < |entries| ==> !IsCandidate(entries[j])
    ensures r.Some? ==> NewestAt(entries, r.value)
  {
    if entries == [] then None
    else
      var prefix := entries[..|entries| - 1];
      var best := NewestIndex(prefix);
      var last := |entries| - 1;
      assert forall j :: 0 <= j < last ==> entries[j] == prefix[j];
      if IsCandidate(entries[last]) && (best.None? || entries[last].mtime > entries[best.value].mtime)
      then Some(last)
      else best
  }

  /** Only one entry can be the newest: the selection is deterministic. */
  lemma NewestAtUnique(entries: seq<DirEntry>, k1: int, k2: int)
    requires NewestAt(entries, k1) && NewestAt(entries, k2)
    ensures k1 == k2
  {
  }

  /** What `get_latest_bookmark_backup` returns or raises; `listing` is the
      backup directory's entries in `iterdir` order, or None when it is missing. */
  function SelectBackup(profileDir: Path, listing: Option<seq<DirEntry>>): Result<Backup, Error> {
    if listing.None? then Err(FileNotFound(BackupDir))
    else match NewestIndex(listing.value)
      case None => Err(FileNotFound(Backups))
      case Some(k) => Ok(Backup(Join(BackupDirOf(profileDir), listing.value[k].name), listing.value[k]))
  }

  /** `get_latest_bookmark_backup`. The filter and the sort by mtime, most
      recent first, are done as one scan that keeps the first newest candidate. */
  method GetLatestBookmarkBackup(profileDir: Path, listing: Option<seq<DirEntry>>)
    returns (r: Result<Backup, Error>)
    ensures r == SelectBackup(profileDir, listing)
  {
    if listing.None? {
      return Err(FileNotFound(BackupDir));
    }
    var entries := listing.value;
    var found := false;
    var best := 0;
    var i := 0;
    while i < |entries|
      invariant 0 <= i <= |entries|
      invariant found ==> best < i
      invariant NewestIndex(entries[..i]) == if found then Some(best) else None
    {
      assert entries[..i + 1][..i] == entries[..i];
      if IsCandidate(entries[i]) && (!found || entries[i].mtime > entries[best].mtime) {
        found, best := true, i;
      }
      i := i + 1;
    }
    assert entries[..i] == entries;
    if !found {
      return Err(FileNotFound(Backups));
    }
    return Ok(Backup(Join(BackupDirOf(profileDir), entries[best].name), entries[best]));
  }
}
