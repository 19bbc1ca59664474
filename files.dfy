/**
 * File naming for the storage engine (src/file.rs): a file kind has a fixed name, lives in
 * `<base>/<name>/`, and is either `<name>.json` or, for timestamped kinds, `<name>-<ts>.json`.
 * The latest timestamped file is found by listing the folder and folding over the names.
 */
module Files {
  import opened Wrappers
  import opened Errors
  import opened FieldLists

  /** A creation time. Its text form stands for `format_date` / `read_date` in src/utils.rs. */
  type Timestamp = nat

  /** A path `<folder components>/<stem>.<extension>`. */
  datatype FilePath = FilePath(folder: seq<string>, stem: string, extension: string)

  /** The fixed file names; none contains '-'. */
  const VAULT: string := "vault"
  const RECORD: string := "record"
  const BACKUP: string := "backup"
  const SCHEMA: string := "schema"

  // ---------------------------------------------------------------------------
  // Timestamps as text.

  function DigitChar(d: nat): char
    requires d < 10
  {
    (('0' as int) + d) as char
  }

  predicate IsDigit(c: char)
  {
    '0' <= c <= '9'
  }

  function DigitValue(c: char): nat
    requires IsDigit(c)
  {
    (c as int) - ('0' as int)
  }

  /** The text of a timestamp: its decimal digits. */
  function FormatDate(t: Timestamp): (r: string)
    ensures |r| > 0
    ensures forall i :: 0 <= i < |r| ==> IsDigit(r[i])
    decreases t
  {
    if t < 10 then [DigitChar(t)] else FormatDate(t / 10) + [DigitChar(t % 10)]
  }

  /** The value of a non-empty digit string. */
  function DigitsValue(s: string): nat
    requires forall i :: 0 <= i < |s| ==> IsDigit(s[i])
    decreases |s|
  {
    if s == [] then 0
    else DigitsValue(s[..|s| - 1]) * 10 + DigitValue(s[|s| - 1])
  }

  /** Parses a timestamp; None is the parse error `read_date` reports. */
  function ReadDate(s: string): Option<Timestamp>
  {
    if s != [] && forall i :: 0 <= i < |s| ==> IsDigit(s[i]) then Some(DigitsValue(s)) else None
  }

  /** Reading a formatted timestamp gives it back, so the text form is injective. */
  lemma {:induction false} ReadFormatDate(t: Timestamp)
    ensures ReadDate(FormatDate(t)) == Some(t)
    decreases t
  {
    var s := FormatDate(t);
    if t >= 10 {
      ReadFormatDate(t / 10);
      assert s[..|s| - 1] == FormatDate(t / 10);
      assert DigitValue(s[|s| - 1]) == t % 10;
      assert DigitsValue(s) == (t / 10) * 10 + t % 10;
    } else {
      assert s[..0] == [];
      assert DigitsValue(s) == DigitValue(s[0]);
    }
  }

  lemma FormatDateInjective(t1: Timestamp, t2: Timestamp)
    requires FormatDate(t1) == FormatDate(t2)
    ensures t1 == t2
  {
    ReadFormatDate(t1);
    ReadFormatDate(t2);
  }

  // ---------------------------------------------------------------------------
  // Paths.

  /** `path()` of a timestamped file: `<base>/<name>/<name>-<ts>.json`. */
  function TimestampedPath(base: seq<string>, name: string, t: Timestamp): FilePath
  {
    FilePath(base + [name], name + "-" + FormatDate(t), "json")
  }

  /** `path()` of a non-timestamped file: `<base>/<name>/<name>.json`. */
  function NonTimestampedPath(base: seq<string>, name: string): FilePath
  {
    FilePath(base + [name], name, "json")
  }

  /** A timestamped file: its kind's name and its creation time. */
  datatype TimestampedFile = TimestampedFile(name: string, timestamp: Timestamp)

  /** `TimestampedFile::now()` and `default()`: stamped with the clock reading passed in. */
  function Now(name: string, clock: Timestamp): (f: TimestampedFile)
    ensures f.name == name && f.timestamp == clock
  {
    TimestampedFile(name, clock)
  }

  /** `split_once(c)`: the text before and after the first `c`. */
  function SplitOnce(s: string, c: char): (r: Option<(string, string)>)
    ensures r.None? <==> c !in s
    ensures r.Some? ==> s == r.value.0 + [c] + r.value.1 && c !in r.value.0
  {
    match IndexOf(s, c)
    case None => None
    case Some(i) =>
      assert s == s[..i] + [c] + s[i + 1..];
      Some((s[..i], s[i + 1..]))
  }

  /** A name with no '-' splits back into the name and the timestamp text. */
  lemma SplitStem(name: string, rest: string)
    requires '-' !in name
    ensures SplitOnce(name + "-" + rest, '-') == Some((name, rest))
  {
    var s := name + "-" + rest;
    IndexOfIs(s, '-', |name|);
    assert s[..|name|] == name && s[|name| + 1..] == rest;
  }

  /**
   * Splitting the stem of a timestamped path at the first '-' recovers the name and the
   * timestamp, so path construction is inverted by parsing.
   */
  lemma ParseTimestampedPath(base: seq<string>, name: string, t: Timestamp)
    requires '-' !in name
    ensures SplitOnce(TimestampedPath(base, name, t).stem, '-') == Some((name, FormatDate(t)))
    ensures ReadDate(SplitOnce(TimestampedPath(base, name, t).stem, '-').value.1) == Some(t)
  {
    SplitStem(name, FormatDate(t));
    ReadFormatDate(t);
  }

  /** The four kinds' paths under one base never collide, and timestamps give distinct paths. */
  lemma PathsDistinct(base: seq<string>, t1: Timestamp, t2: Timestamp)
    ensures NonTimestampedPath(base, VAULT) != NonTimestampedPath(base, SCHEMA)
    ensures TimestampedPath(base, RECORD, t1) != TimestampedPath(base, BACKUP, t2)
    ensures forall name :: name in {VAULT, SCHEMA} ==>
      NonTimestampedPath(base, name) != TimestampedPath(base, RECORD, t1) &&
      NonTimestampedPath(base, name) != TimestampedPath(base, BACKUP, t1)
    ensures TimestampedPath(base, RECORD, t1) == TimestampedPath(base, RECORD, t2) ==> t1 == t2
    ensures TimestampedPath(base, BACKUP, t1) == TimestampedPath(base, BACKUP, t2) ==> t1 == t2
  {
    assert (base + [RECORD])[|base|] == RECORD && (base + [BACKUP])[|base|] == BACKUP;
    assert (base + [VAULT])[|base|] == VAULT && (base + [SCHEMA])[|base|] == SCHEMA;
    forall name: string, other: string, stamp | name in {VAULT, SCHEMA} && other in {RECORD, BACKUP}
      ensures NonTimestampedPath(base, name) != TimestampedPath(base, other, stamp)
    {
      assert (base + [name])[|base|] == name && (base + [other])[|base|] == other;
    }
    if TimestampedPath(base, RECORD, t1) == TimestampedPath(base, RECORD, t2) {
      ParseTimestampedPath(base, RECORD, t1);
      ParseTimestampedPath(base, RECORD, t2);
    }
    if TimestampedPath(base, BACKUP, t1) == TimestampedPath(base, BACKUP, t2) {
      ParseTimestampedPath(base, BACKUP, t1);
      ParseTimestampedPath(base, BACKUP, t2);
    }
  }

  /** The listing pattern `<base>/<name>/<name>-*.json`. */
  predicate MatchesGlob(p: FilePath, base: seq<string>, name: string)
  {
    p.folder == base + [name] && p.extension == "json" &&
    |p.stem| > |name| && p.stem[..|name| + 1] == name + "-"
  }

  lemma TimestampedPathMatches(base: seq<string>, name: string, t: Timestamp)
    ensures MatchesGlob(TimestampedPath(base, name, t), base, name)
  {
    assert (name + "-" + FormatDate(t))[..|name| + 1] == name + "-";
  }

  // ---------------------------------------------------------------------------
  // `last` and `all` over a folder listing.

  /** One item of a listing: a matching path, or an error the listing reported. */
  datatype GlobEntry = Found(path: FilePath) | GlobError

  /** The timestamp a listed path carries: the text after its first '-', parsed. */
  function StampOf(p: FilePath): Option<Timestamp>
  {
    match SplitOnce(p.stem, '-')
    case None => None
    case Some(parts) => ReadDate(parts.1)
  }

  /** The fold inside `last`: a malformed name panics; otherwise a strictly later stamp wins. */
  function LastFrom(acc: Option<Timestamp>, entries: seq<GlobEntry>): Result<Option<Timestamp>, Error>
    decreases |entries|
  {
    if entries == [] then Ok(acc)
    else match entries[0]
      case GlobError => LastFrom(acc, entries[1..])
      case Found(p) =>
        match StampOf(p)
        case None => Err(Panic)
        case Some(t) => LastFrom(if acc.None? || acc.value < t then Some(t) else acc, entries[1..])
  }

  /** `TimestampedFile::last()` on a listing: the stamp of the newest file, if any. */
  function Last(entries: seq<GlobEntry>): Result<Option<Timestamp>, Error>
  {
    LastFrom(None, entries)
  }

  predicate WellFormed(entries: seq<GlobEntry>)
  {
    forall i :: 0 <= i < |entries| && entries[i].Found? ==> StampOf(entries[i].path).Some?
  }

  /** The stamps of the listed paths. */
  function Stamps(entries: seq<GlobEntry>): set<Timestamp>
  {
    set i | 0 <= i < |entries| && entries[i].Found? && StampOf(entries[i].path).Some? :: StampOf(entries[i].path).value
  }

  /** The stamp one listed item contributes. */
  function EntryStamps(e: GlobEntry): set<Timestamp>
  {
    if e.Found? && StampOf(e.path).Some? then {StampOf(e.path).value} else {}
  }

  lemma StampsCons(entries: seq<GlobEntry>)
    requires entries != []
    ensures Stamps(entries) == EntryStamps(entries[0]) + Stamps(entries[1..])
  {
    var rest := entries[1..];
    forall t | t in Stamps(entries) ensures t in EntryStamps(entries[0]) + Stamps(rest) {
      var i :| 0 <= i < |entries| && entries[i].Found? && StampOf(entries[i].path).Some? && StampOf(entries[i].path).value == t;
      if i > 0 {
        assert rest[i - 1] == entries[i];
      }
    }
    forall t | t in Stamps(rest) ensures t in Stamps(entries) {
      var i :| 0 <= i < |rest| && rest[i].Found? && StampOf(rest[i].path).Some? && StampOf(rest[i].path).value == t;
      assert entries[i + 1] == rest[i];
    }
  }

  lemma WellFormedCons(entries: seq<GlobEntry>)
    requires entries != []
    ensures WellFormed(entries) <==>
      (entries[0].Found? ==> StampOf(entries[0].path).Some?) && WellFormed(entries[1..])
  {
    var rest := entries[1..];
    if WellFormed(entries) {
      forall i | 0 <= i < |rest| && rest[i].Found? ensures StampOf(rest[i].path).Some? {
        assert rest[i] == entries[i + 1];
      }
    }
    if (entries[0].Found? ==> StampOf(entries[0].path).Some?) && WellFormed(rest) {
      forall i | 0 <= i < |entries| && entries[i].Found? ensures StampOf(entries[i].path).Some? {
        if i > 0 {
          assert entries[i] == rest[i - 1];
        }
      }
    }
  }

  /** `last` fails (the unwrap panics) exactly when a listed name is malformed; listing errors are skipped. */
  lemma {:induction false} LastFromPanics(acc: Option<Timestamp>, entries: seq<GlobEntry>)
    ensures LastFrom(acc, entries).Err? <==> !WellFormed(entries)
    ensures LastFrom(acc, entries).Err? ==> LastFrom(acc, entries) == Err(Panic)
    decreases |entries|
  {
    if entries != [] {
      WellFormedCons(entries);
      match entries[0]
      case GlobError =>
        LastFromPanics(acc, entries[1..]);
      case Found(p) =>
        match StampOf(p)
        case None =>
        case Some(t) =>
          LastFromPanics(if acc.None? || acc.value < t then Some(t) else acc, entries[1..]);
    }
  }

  /** On a well-formed listing the fold returns the greatest stamp seen, or the start value. */
  lemma {:induction false} LastFromIsMax(acc: Option<Timestamp>, entries: seq<GlobEntry>)
    requires LastFrom(acc, entries).Ok?
    ensures var r := LastFrom(acc, entries).value;
      (r.None? <==> acc.None? && Stamps(entries) == {}) &&
      (r.Some? ==>
        (r == acc || r.value in Stamps(entries)) &&
        (acc.Some? ==> acc.value <= r.value) &&
        forall t :: t in Stamps(entries) ==> t <= r.value)
    decreases |entries|
  {
    if entries != [] {
      StampsCons(entries);
      match entries[0]
      case GlobError =>
        LastFromIsMax(acc, entries[1..]);
      case Found(p) =>
        var t := StampOf(p).value;
        LastFromIsMax(if acc.None? || acc.value < t then Some(t) else acc, entries[1..]);
    }
  }

  /**
   * `last` panics exactly when a listed name is malformed; otherwise it returns the greatest
   * stamp listed, or None when no file is listed.
   */
  lemma LastIsMax(entries: seq<GlobEntry>)
    ensures Last(entries).Err? <==> !WellFormed(entries)
    ensures Last(entries).Err? ==> Last(entries) == Err(Panic)
    ensures Last(entries) == Ok(None) <==> WellFormed(entries) && Stamps(entries) == {}
    ensures Last(entries).Ok? && Last(entries).value.Some? ==>
      Last(entries).value.value in Stamps(entries) &&
      forall t :: t in Stamps(entries) ==> t <= Last(entries).value.value
  {
    LastFromPanics(None, entries);
    if Last(entries).Ok? {
      LastFromIsMax(None, entries);
    }
  }

  /** Hence `last` does not depend on the order of the listing. */
  lemma LastOrderIndependent(a: seq<GlobEntry>, b: seq<GlobEntry>)
    requires multiset(a) == multiset(b)
    ensures Last(a) == Last(b)
  {
    LastIsMax(a);
    LastIsMax(b);
    assert WellFormed(a) <==> WellFormed(b) by {
      forall i | 0 <= i < |a| ensures a[i] in multiset(b) {
        assert a[i] in multiset(a);
      }
      forall i | 0 <= i < |b| ensures b[i] in multiset(a) {
        assert b[i] in multiset(b);
      }
    }
    assert Stamps(a) == Stamps(b) by {
      forall t | t in Stamps(a) ensures t in Stamps(b) {
        var i :| 0 <= i < |a| && a[i].Found? && StampOf(a[i].path) == Some(t);
        assert a[i] in multiset(a);
        var j :| 0 <= j < |b| && b[j] == a[i];
      }
      forall t | t in Stamps(b) ensures t in Stamps(a) {
        var i :| 0 <= i < |b| && b[i].Found? && StampOf(b[i].path) == Some(t);
        assert b[i] in multiset(b);
        var j :| 0 <= j < |a| && a[j] == b[i];
      }
    }
    if Last(a).Ok? && Last(a).value.Some? {
      assert Last(b).Ok? && Last(b).value.Some?;
      assert Last(a).value.value <= Last(b).value.value;
      assert Last(b).value.value <= Last(a).value.value;
    }
  }

  /** What `all` returns: the stamps of the listed files in listing order, malformed stamps skipped. */
  function AllFrom(entries: seq<GlobEntry>): Result<seq<Timestamp>, Error>
    decreases |entries|
  {
    if entries == [] then Ok([])
    else
      var rest := AllFrom(entries[..|entries| - 1]);
      match entries[|entries| - 1]
      case GlobError => rest
      case Found(p) =>
        match SplitOnce(p.stem, '-')
        case None => Err(Panic)
        case Some(parts) =>
          if rest.Err? then rest
          else match ReadDate(parts.1)
            case None => rest
            case Some(t) => Ok(rest.value + [t])
  }

  /** `TimestampedFile::all()` on a listing. */
  method All(entries: seq<GlobEntry>) returns (r: Result<seq<Timestamp>, Error>)
    ensures r == AllFrom(entries)
  {
    var paths: seq<Timestamp> := [];
    var i := 0;
    while i < |entries|
      invariant 0 <= i <= |entries|
      invariant AllFrom(entries[..i]) == Ok(paths)
    {
      assert entries[..i + 1][..i] == entries[..i];
      match entries[i] {
        case GlobError =>
        case Found(p) =>
          var split := SplitOnce(p.stem, '-');
          if split.None? {
            assert AllFrom(entries[..i + 1]) == Err(Panic);
            r := Err(Panic);
            assert entries[..|entries|] == entries;
            AllPanicPersists(entries, i + 1);
            return;
          }
          var timestamp := ReadDate(split.value.1);
          if timestamp.Some? {
            paths := paths + [timestamp.value];
          }
      }
      i := i + 1;
    }
    assert entries[..i] == entries;
    r := Ok(paths);
  }

  /** Once `all` has panicked on a prefix it panics on the whole listing. */
  lemma {:induction false} AllPanicPersists(entries: seq<GlobEntry>, n: nat)
    requires n <= |entries|
    requires AllFrom(entries[..n]) == Err(Panic)
    ensures AllFrom(entries) == Err(Panic)
    decreases |entries| - n
  {
    if n < |entries| {
      assert entries[..n + 1][..n] == entries[..n];
      AllPanicPersists(entries, n + 1);
    } else {
      assert entries[..n] == entries;
    }
  }

  /**
   * On a listing whose names all split, `all` succeeds and keeps exactly the parsable stamps;
   * malformed names are skipped.
   */
  lemma {:induction false} AllKeepsParsed(entries: seq<GlobEntry>)
    requires forall i :: 0 <= i < |entries| && entries[i].Found? ==> '-' in entries[i].path.stem
    ensures AllFrom(entries).Ok?
    ensures forall t :: t in AllFrom(entries).value <==> t in Stamps(entries)
    decreases |entries|
  {
    if entries != [] {
      var front := entries[..|entries| - 1];
      AllKeepsParsed(front);
      assert Stamps(entries) == Stamps(front) + Stamps(entries[|entries| - 1..]) by {
        forall t | t in Stamps(entries) ensures t in Stamps(front) + Stamps(entries[|entries| - 1..]) {
          var i :| 0 <= i < |entries| && entries[i].Found? && StampOf(entries[i].path) == Some(t);
          if i < |entries| - 1 {
            assert front[i] == entries[i];
          } else {
            assert entries[|entries| - 1..][0] == entries[i];
          }
        }
        forall t | t in Stamps(front) ensures t in Stamps(entries) {
          var i :| 0 <= i < |front| && front[i].Found? && StampOf(front[i].path) == Some(t);
          assert entries[i] == front[i];
        }
        forall t | t in Stamps(entries[|entries| - 1..]) ensures t in Stamps(entries) {
          assert entries[|entries| - 1..][0] == entries[|entries| - 1];
        }
      }
    }
  }

  /** Listings of `<name>-*.json` always split, so `all` never panics on them. */
  lemma GlobNamesSplit(entries: seq<GlobEntry>, base: seq<string>, name: string)
    requires '-' !in name
    requires forall i :: 0 <= i < |entries| && entries[i].Found? ==> MatchesGlob(entries[i].path, base, name)
    ensures forall i :: 0 <= i < |entries| && entries[i].Found? ==> '-' in entries[i].path.stem
  {
    forall i | 0 <= i < |entries| && entries[i].Found?
      ensures '-' in entries[i].path.stem
    {
      var stem := entries[i].path.stem;
      assert stem[..|name| + 1][|name|] == '-';
      assert stem[|name|] == '-';
    }
  }
}
