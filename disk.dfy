/**
 * The files a vault directory holds, and the file operations of `ProjectFile` (src/file.rs):
 * `write` replaces a file whole or fails without touching it (see the truncated-write finding
 * in `HandlerFindings`), `delete` removes, `read` fails on a missing file, and the
 * listing behind `last`/`all` enumerates `<dir>/<name>/<name>-*.json` in an unspecified order.
 */
module Storage {
  import opened Wrappers
  import opened Errors
  import opened Files
  import Encryption
  import Schemas

  /** What a JSON file holds, as far as deserialisation is concerned. */
  datatype Blob =
    | Sealed(envelope: Encryption.Envelope)   // a vault, record or backup file
    | SchemaDoc(schema: Schemas.Schema)       // the schema file
    | Malformed                               // anything `serde_json::from_str` rejects

  type FileMap = map<FilePath, Blob>

  /** `ProjectFile::read` then `deserialize` for an encrypted file: missing is a read error, malformed panics. */
  function ReadEnvelope(files: FileMap, p: FilePath): (r: Result<Encryption.Envelope, Error>)
    ensures r.Err? <==> p !in files || !files[p].Sealed?
    ensures r.Err? ==> r.error == (if p in files then Panic else ReadError)
    ensures r.Ok? ==> files[p] == Sealed(r.value)
  {
    if p !in files then Err(ReadError)
    else match files[p]
      case Sealed(e) => Ok(e)
      case _ => Err(Panic)
  }

  /** A listing of `files` by the pattern `<dir>/<name>/<name>-*.json`: each match exactly once. */
  ghost predicate Lists(entries: seq<GlobEntry>, files: FileMap, dir: seq<string>, name: string)
  {
    (forall i :: 0 <= i < |entries| ==>
      entries[i].Found? && entries[i].path in files && MatchesGlob(entries[i].path, dir, name)) &&
    (forall p :: p in files && MatchesGlob(p, dir, name) ==> Found(p) in entries) &&
    (forall i, j :: 0 <= i < j < |entries| ==> entries[i] != entries[j])
  }

  /** Every listed name carries a readable timestamp. */
  ghost predicate AllStamped(files: FileMap, dir: seq<string>, name: string)
  {
    forall p :: p in files && MatchesGlob(p, dir, name) ==> StampOf(p).Some?
  }

  ghost function ListedStamps(files: FileMap, dir: seq<string>, name: string): set<Timestamp>
  {
    set p | p in files && MatchesGlob(p, dir, name) && StampOf(p).Some? :: StampOf(p).value
  }

  /** The greatest element of a non-empty finite set of timestamps. */
  ghost function MaxStamp(s: set<Timestamp>): (m: Timestamp)
    requires s != {}
    ensures m in s && forall x :: x in s ==> x <= m
    decreases |s|
  {
    var y :| y in s;
    if s == {y} then y
    else
      var m := MaxStamp(s - {y});
      assert forall x :: x in s ==> x == y || x in s - {y};
      if y > m then y else m
  }

  /**
   * What `last` yields on the directory, independent of listing order: a panic if a listed name
   * is malformed, None if nothing is listed, else the newest timestamp.
   */
  ghost function Latest(files: FileMap, dir: seq<string>, name: string): Result<Option<Timestamp>, Error>
  {
    if !AllStamped(files, dir, name) then Err(Panic)
    else if ListedStamps(files, dir, name) == {} then Ok(None)
    else Ok(Some(MaxStamp(ListedStamps(files, dir, name))))
  }

  lemma ListingWellFormed(entries: seq<GlobEntry>, files: FileMap, dir: seq<string>, name: string)
    requires Lists(entries, files, dir, name)
    ensures WellFormed(entries) <==> AllStamped(files, dir, name)
  {
    if WellFormed(entries) {
      forall p | p in files && MatchesGlob(p, dir, name)
        ensures StampOf(p).Some?
      {
        var i :| 0 <= i < |entries| && entries[i] == Found(p);
      }
    }
  }

  lemma ListingStamps(entries: seq<GlobEntry>, files: FileMap, dir: seq<string>, name: string)
    requires Lists(entries, files, dir, name)
    ensures Stamps(entries) == ListedStamps(files, dir, name)
  {
    forall t | t in ListedStamps(files, dir, name)
      ensures t in Stamps(entries)
    {
      var p :| p in files && MatchesGlob(p, dir, name) && StampOf(p).Some? && StampOf(p).value == t;
      var i :| 0 <= i < |entries| && entries[i] == Found(p);
    }
  }

  /** `last` over any listing of the directory is `Latest`. */
  lemma LastOfListing(entries: seq<GlobEntry>, files: FileMap, dir: seq<string>, name: string)
    requires Lists(entries, files, dir, name)
    ensures Last(entries) == Latest(files, dir, name)
  {
    LastIsMax(entries);
    ListingWellFormed(entries, files, dir, name);
    ListingStamps(entries, files, dir, name);
    if Last(entries).Ok? && Last(entries).value.Some? {
      var m := MaxStamp(ListedStamps(files, dir, name));
      assert Last(entries).value.value <= m && m <= Last(entries).value.value;
    }
  }

  /** The files under one save directory, some of which refuse writes and removals. */
  class FileStore {
    var files: FileMap
    /**
     * Paths whose creation or removal fails, for instance for want of permission. A write is
     * whole or nothing: a failure between truncation and `write_all` is not represented here.
     */
    const locked: set<FilePath>

    constructor (files: FileMap, locked: set<FilePath>)
      ensures this.files == files && this.locked == locked
    {
      this.files := files;
      this.locked := locked;
    }

    /**
     * `ProjectFile::write` as an atomic replacement: the file holds exactly `b` afterwards, unless
     * its path is locked, and then nothing changes.
     */
    method Write(p: FilePath, b: Blob) returns (r: Outcome<Error>)
      modifies this
      ensures p in locked ==> r == Fail(WriteError) && files == old(files)
      ensures p !in locked ==> r == Pass && files == old(files)[p := b]
    {
      if p in locked {
        return Fail(WriteError);
      }
      files := files[p := b];
      r := Pass;
    }

    /** `ProjectFile::delete`: fails on a missing or locked file and then changes nothing. */
    method Delete(p: FilePath) returns (r: Outcome<Error>)
      modifies this
      ensures p !in old(files) || p in locked ==> r == Fail(RemoveError) && files == old(files)
      ensures p in old(files) && p !in locked ==> r == Pass && files == old(files) - {p}
    {
      if p !in files || p in locked {
        return Fail(RemoveError);
      }
      files := files - {p};
      r := Pass;
    }

    /** `ProjectFile::read`: the content, or a read error on a missing file. */
    method Read(p: FilePath) returns (r: Result<Blob, Error>)
      ensures p in files ==> r == Ok(files[p])
      ensures p !in files ==> r == Err(ReadError)
    {
      if p in files {
        r := Ok(files[p]);
      } else {
        r := Err(ReadError);
      }
    }

    /** `path().exists()`. */
    method Exists(p: FilePath) returns (b: bool)
      ensures b <==> p in files
    {
      b := p in files;
    }

    /** The glob behind `last` and `all`: every matching file once, in some order. */
    method Glob(dir: seq<string>, name: string) returns (entries: seq<GlobEntry>)
      ensures Lists(entries, files, dir, name)
    {
      var pending := set p | p in files && MatchesGlob(p, dir, name);
      entries := [];
      while pending != {}
        invariant forall i :: 0 <= i < |entries| ==>
          entries[i].Found? && entries[i].path in files && MatchesGlob(entries[i].path, dir, name) &&
          entries[i].path !in pending
        invariant forall p :: p in files && MatchesGlob(p, dir, name) ==> p in pending || Found(p) in entries
        invariant forall p :: p in pending ==> p in files && MatchesGlob(p, dir, name)
        invariant forall i, j :: 0 <= i < j < |entries| ==> entries[i] != entries[j]
        decreases |pending|
      {
        var p :| p in pending;
        entries := entries + [Found(p)];
        pending := pending - {p};
      }
    }
  }
}
