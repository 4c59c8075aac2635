/** Reading a bookmark backup (`read_bookmark_backup`): a plain .json file
    goes straight to the JSON parser; anything else must be a mozLz4
    container, "mozLz40" plus one more header byte, then an LZ4 block.
    Decompression and parsing are foreign; they are the parameters
    `decompress` and `parseJson` (UTF-8 decoding then JSON parsing), and
    `T` is whatever the parser produces. */
module BackupContainer {
  import opened Wrappers
  import opened Errors
  import opened Files

  /** The bytes of "mozLz40": the prefix the magic check tests. */
  const Magic: seq<byte> := [109, 111, 122, 76, 122, 52, 48]

  /** The full 8-byte header Firefox writes: "mozLz40\0". */
  const Header: seq<byte> := Magic + [0]

  /** Python's `data[:n]` and `data[n:]`, which clamp instead of failing. */
  function Take(data: seq<byte>, n: nat): seq<byte> {
    if n <= |data| then data[..n] else data
  }

  function Drop(data: seq<byte>, n: nat): seq<byte> {
    if n <= |data| then data[n..] else []
  }

  /** Python's `bytes.startswith`. */
  predicate StartsWith(data: seq<byte>, prefix: seq<byte>) {
    |prefix| <= |data| && data[..|prefix|] == prefix
  }

  function ReadBookmarkBackup<T>(name: string, data: seq<byte>,
                                 decompress: seq<byte> -> Option<seq<byte>>,
                                 parseJson: seq<byte> -> Option<T>): (r: Result<T, Error>)
    // a .json file is parsed as it is, and only its parse error can surface
    ensures Suffix(name) == ".json" ==> (r.Ok? <==> parseJson(data).Some?)
    ensures Suffix(name) == ".json" && r.Ok? ==> parseJson(data) == Some(r.value)
    ensures Suffix(name) == ".json" && r.Err? ==> r.error == JsonLoadFailed
    // otherwise every failure is the single wrapped error
    ensures Suffix(name) != ".json" && r.Err? ==> r.error.BackupReadFailed?
    // input that does not begin with the 7 bytes of "mozLz40" is rejected, short input included
    ensures Suffix(name) != ".json" && (|data| < 7 || data[..7] != Magic) ==> r == Err(BackupReadFailed(BadMagic))
    // a success decompresses exactly the bytes after the 8-byte header
    ensures Suffix(name) != ".json" && r.Ok? ==>
      && |data| >= 7 && data[..7] == Magic
      && decompress(if |data| >= 8 then data[8..] else []).Some?
      && parseJson(decompress(if |data| >= 8 then data[8..] else []).value) == Some(r.value)
  {
    if Suffix(name) == ".json" then
      match parseJson(data)
      case None => Err(JsonLoadFailed)
      case Some(tree) => Ok(tree)
    else if !StartsWith(Take(data, 8), Magic) then
      Err(BackupReadFailed(BadMagic))
    else
      match decompress(Drop(data, 8))
      case None => Err(BackupReadFailed(DecompressFailed))
      case Some(text) =>
        match parseJson(text)
        case None => Err(BackupReadFailed(DecodeFailed))
        case Some(tree) => Ok(tree)
  }

  /** Round trip: a container made of the header and a payload that
      decompresses to the serialisation of a tree reads back as that tree. */
  lemma ContainerRoundTrip<T>(name: string, payload: seq<byte>, text: seq<byte>, tree: T,
                              decompress: seq<byte> -> Option<seq<byte>>,
                              parseJson: seq<byte> -> Option<T>)
    requires Suffix(name) != ".json"
    requires decompress(payload) == Some(text) && parseJson(text) == Some(tree)
    ensures ReadBookmarkBackup(name, Header + payload, decompress, parseJson) == Ok(tree)
  {
    var data := Header + payload;
    assert Take(data, 8)[..7] == Magic;
    assert Drop(data, 8) == payload;
  }

  /** The eighth header byte is never looked at: only seven bytes of the
      magic are checked, so any byte after "mozLz40" is accepted. */
  lemma EighthByteIgnored<T>(name: string, b: byte, payload: seq<byte>,
                             decompress: seq<byte> -> Option<seq<byte>>,
                             parseJson: seq<byte> -> Option<T>)
    requires Suffix(name) != ".json"
    ensures ReadBookmarkBackup(name, Magic + [b] + payload, decompress, parseJson)
         == ReadBookmarkBackup(name, Header + payload, decompress, parseJson)
  {
    var data := Magic + [b] + payload;
    assert Take(data, 8)[..7] == Magic && Take(Header + payload, 8)[..7] == Magic;
    assert StartsWith(Take(data, 8), Magic) && StartsWith(Take(Header + payload, 8), Magic);
    assert Drop(data, 8) == payload == Drop(Header + payload, 8);
  }

  /** A .json backup never reaches the decompressor: the result is the same
      whatever `decompress` does. */
  lemma JsonBypassesDecompression<T>(name: string, data: seq<byte>,
                                     d1: seq<byte> -> Option<seq<byte>>,
                                     d2: seq<byte> -> Option<seq<byte>>,
                                     parseJson: seq<byte> -> Option<T>)
    requires Suffix(name) == ".json"
    ensures ReadBookmarkBackup(name, data, d1, parseJson) == ReadBookmarkBackup(name, data, d2, parseJson)
  {
  }

  /** The compressed branch depends on the data only through the magic and
      the bytes after the header. */
  lemma OnlyPayloadDecompressed<T>(name: string, data1: seq<byte>, data2: seq<byte>,
                                   decompress: seq<byte> -> Option<seq<byte>>,
                                   parseJson: seq<byte> -> Option<T>)
    requires Suffix(name) != ".json"
    requires |data1| >= 8 && |data2| >= 8 && data1[..7] == Magic && data2[..7] == Magic
    requires data1[8..] == data2[8..]
    ensures ReadBookmarkBackup(name, data1, decompress, parseJson)
         == ReadBookmarkBackup(name, data2, decompress, parseJson)
  {
    assert Take(data1, 8)[..7] == data1[..7];
    assert Take(data2, 8)[..7] == data2[..7];
  }
}
