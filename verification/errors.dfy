/** The exceptions the archiver raises on its way to the bookmark tree. */
module Errors {

  /** What a `FileNotFoundError` reports as missing. */
  datatype Missing =
    | FirefoxDir      // ~/.mozilla/firefox does not exist
    | ProfilesIni     // ~/.mozilla/firefox/profiles.ini does not exist
    | DefaultProfile  // no section of profiles.ini has Default=1
    | BackupDir       // <profile>/bookmarkbackups does not exist
    | Backups         // no .json or .jsonlz4 file in it

  /** Why the compressed branch of the backup reader failed. Each cause is
      surfaced as the same wrapped "Failed to read bookmark backup" error. */
  datatype ReadCause =
    | BadMagic          // the data does not start with "mozLz40"
    | DecompressFailed  // the LZ4 block decompressor raised
    | DecodeFailed      // UTF-8 decoding or JSON parsing raised

  datatype Error =
    | FileNotFound(missing: Missing)
    | NoOption(section: string, option: string)  // configparser.NoOptionError
    | JsonLoadFailed                             // json.load on a plain .json backup, not wrapped
    | BackupReadFailed(cause: ReadCause)         // the wrapped exception of the compressed branch
}
