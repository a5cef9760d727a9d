/**
 * The snapshot actions' retention-managed directory: validating and
 * creating the configured base directory, naming the next snapshot after
 * the current second, listing the regular files in sorted order, and
 * pruning all but the newest `snapshot_keep` of them, where one failed
 * delete does not stop the others. The directory is a map from entry names
 * to kinds, the clock a parameter, and failing deletes a given set of names.
 */
module Snapshot {
  import opened Wrappers
  import opened StringOrder

  datatype EntryKind = File | Dir

  datatype Error = ValueError(message: string) | CaptureError

  /** The outcome of running an action: done, or the error it raised. */
  datatype Outcome = Done | Failed(error: Error)

  /** A wall-clock reading, as `datetime.now()` returns it. */
  datatype DateTime = DateTime(year: nat, month: nat, day: nat, hour: nat, minute: nat, second: nat, microsecond: nat)

  /** The ranges a `datetime` guarantees for its fields. */
  predicate ValidDateTime(t: DateTime)
  {
    1 <= t.year <= 9999 && 1 <= t.month <= 12 && 1 <= t.day <= 31
    && t.hour < 24 && t.minute < 60 && t.second < 60 && t.microsecond < 1000000
  }

  /** Chronological order at the resolution of seconds. */
  predicate Before(t1: DateTime, t2: DateTime)
  {
    t1.year < t2.year || (t1.year == t2.year &&
    (t1.month < t2.month || (t1.month == t2.month &&
    (t1.day < t2.day || (t1.day == t2.day &&
    (t1.hour < t2.hour || (t1.hour == t2.hour &&
    (t1.minute < t2.minute || (t1.minute == t2.minute &&
    t1.second < t2.second)))))))))
  }

  predicate SameSecond(t1: DateTime, t2: DateTime)
  {
    t1.year == t2.year && t1.month == t2.month && t1.day == t2.day
    && t1.hour == t2.hour && t1.minute == t2.minute && t1.second == t2.second
  }

  /** The format "%Y-%m-%d %H:%M:%S.jpg", field by field. */
  const NAME_WIDTHS: seq<nat> := [4, 2, 2, 2, 2, 2]
  const NAME_SEPARATORS: seq<string> := ["-", "-", " ", ":", ":", ".jpg"]

  function Fields(t: DateTime): seq<nat>
  {
    [t.year, t.month, t.day, t.hour, t.minute, t.second]
  }

  /** The file name of a snapshot taken at `t`. */
  function SnapshotName(t: DateTime): string
    requires ValidDateTime(t)
  {
    Render(Fields(t), NAME_WIDTHS, NAME_SEPARATORS)
  }

  lemma NatsLessFields(t1: DateTime, t2: DateTime)
    ensures NatsLess(Fields(t1), Fields(t2)) <==> Before(t1, t2)
  {
    var f1, f2 := Fields(t1), Fields(t2);
    var s1, s2 := f1[5..], f2[5..];
    var m1, m2 := f1[4..], f2[4..];
    var h1, h2 := f1[3..], f2[3..];
    var d1, d2 := f1[2..], f2[2..];
    var o1, o2 := f1[1..], f2[1..];
    assert s1[1..] == [] && s2[1..] == [];
    assert NatsLess(s1, s2) <==> t1.second < t2.second;
    assert m1[1..] == s1 && m2[1..] == s2;
    assert NatsLess(m1, m2) <==> t1.minute < t2.minute || (t1.minute == t2.minute && NatsLess(s1, s2));
    assert h1[1..] == m1 && h2[1..] == m2;
    assert NatsLess(h1, h2) <==> t1.hour < t2.hour || (t1.hour == t2.hour && NatsLess(m1, m2));
    assert d1[1..] == h1 && d2[1..] == h2;
    assert NatsLess(d1, d2) <==> t1.day < t2.day || (t1.day == t2.day && NatsLess(h1, h2));
    assert o1[1..] == d1 && o2[1..] == d2;
    assert NatsLess(o1, o2) <==> t1.month < t2.month || (t1.month == t2.month && NatsLess(d1, d2));
    assert NatsLess(f1, f2) <==> t1.year < t2.year || (t1.year == t2.year && NatsLess(o1, o2));
  }

  /**
   * Snapshot names sort exactly as their capture times do, and two
   * snapshots get the same name exactly when taken in the same second.
   */
  lemma SnapshotNameOrder(t1: DateTime, t2: DateTime)
    requires ValidDateTime(t1) && ValidDateTime(t2)
    ensures Less(SnapshotName(t1), SnapshotName(t2)) <==> Before(t1, t2)
    ensures SnapshotName(t1) == SnapshotName(t2) <==> SameSecond(t1, t2)
  {
    assert Fit(Fields(t1), NAME_WIDTHS) && Fit(Fields(t2), NAME_WIDTHS) by {
      assert Pow10(2) == 100 && Pow10(4) == 10000;
    }
    RenderOrder(Fields(t1), Fields(t2), NAME_WIDTHS, NAME_SEPARATORS);
    NatsLessFields(t1, t2);
  }

  // ---------------------------------------------------------------------
  // Pure parts of the directory operations

  /** `get_base_path` without the directory creation: the path, or ValueError. */
  function BasePath(configured: Option<string>): (r: Result<string, Error>)
    ensures r.Err? <==> configured.None? || configured.value == ""
    ensures r.Ok? ==> r.value == configured.value
  {
    if configured.None? || configured.value == "" then Err(ValueError("snapshot_path must not be empty"))
    else Ok(configured.value)
  }

  function JoinPath(base: string, name: string): string
  {
    base + "/" + name
  }

  /** `get_next_path` without the configuration write. */
  function NextPath(configured: Option<string>, now: DateTime): (r: Result<string, Error>)
    requires ValidDateTime(now)
  {
    match BasePath(configured)
    case Ok(base) => Ok(JoinPath(base, SnapshotName(now)))
    case Err(e) => Err(e)
  }

  /** Two calls within one second produce one path; different seconds, different paths. */
  lemma NextPathSameSecond(configured: Option<string>, t1: DateTime, t2: DateTime)
    requires ValidDateTime(t1) && ValidDateTime(t2)
    requires BasePath(configured).Ok?
    ensures NextPath(configured, t1) == NextPath(configured, t2) <==> SameSecond(t1, t2)
  {
    SnapshotNameOrder(t1, t2);
    var base := configured.value;
    var n1, n2 := SnapshotName(t1), SnapshotName(t2);
    if JoinPath(base, n1) == JoinPath(base, n2) {
      assert n1 == JoinPath(base, n1)[|base| + 1..];
      assert n2 == JoinPath(base, n2)[|base| + 1..];
    }
  }

  /** The regular files of the directory. */
  function Files(entries: map<string, EntryKind>): set<string>
  {
    set n | n in entries && entries[n] == File
  }

  /** `list_all`: the regular files, not directories, in ascending order. */
  function ListFiles(entries: map<string, EntryKind>): (r: seq<string>)
    ensures Sorted(r)
    ensures forall n :: n in r <==> n in Files(entries)
    ensures |r| == |Files(entries)|
  {
    SortedElements(Files(entries))
  }

  /** Two ascending listings of the same names are the same listing. */
  lemma {:induction false} SortedUnique(a: seq<string>, b: seq<string>)
    requires Sorted(a) && Sorted(b)
    requires forall x :: x in a <==> x in b
    ensures a == b
  {
    if a == [] || b == [] {
      if a != b {
        HeadIn(a);
        HeadIn(b);
        assert false;
      }
    } else {
      if a[0] != b[0] {
        SortedHead(a, b[0]);
        SortedHead(b, a[0]);
        Asymmetric(a[0], b[0]);
        assert false;
      }
      forall x ensures x in a[1..] <==> x in b[1..] {
        SortedTail(a, x);
        SortedTail(b, x);
      }
      SortedUnique(a[1..], b[1..]);
      assert a == [a[0]] + a[1..] && b == [b[0]] + b[1..];
    }
  }

  lemma HeadIn(s: seq<string>)
    ensures s != [] ==> s[0] in s
  {
  }

  /** The head of an ascending listing sorts before every other member. */
  lemma SortedHead(s: seq<string>, x: string)
    requires Sorted(s) && s != [] && x in s && x != s[0]
    ensures Less(s[0], x)
  {
    var i :| 0 <= i < |s| && s[i] == x;
  }

  /** The tail of an ascending listing holds every member but the head. */
  lemma SortedTail(s: seq<string>, x: string)
    requires Sorted(s) && s != []
    ensures x in s[1..] <==> x in s && x != s[0]
  {
    assert s == [s[0]] + s[1..];
    if x in s[1..] {
      var i :| 1 <= i < |s| && s[i] == x;
      assert Less(s[0], s[i]);
      Irreflexive(x);
    }
  }

  /** `files[0:-keep]` for a positive `keep`: all but the last `keep`, or nothing. */
  function Doomed(files: seq<string>, keep: int): seq<string>
    requires keep > 0
  {
    files[..if |files| > keep then |files| - keep else 0]
  }

  /**
   * Pruning a sorted listing dooms exactly the oldest names: what stays is
   * the `keep` greatest names, or all of them when there are no more, and
   * every doomed name sorts before every kept one.
   */
  lemma DoomedOldest(files: seq<string>, keep: int)
    requires Sorted(files) && keep > 0
    ensures var d := Doomed(files, keep);
      && files == d + files[|d|..]
      && |files[|d|..]| == (if |files| < keep then |files| else keep)
      && forall i, j :: 0 <= i < |d| <= j < |files| ==> Less(files[i], files[j])
  {
  }

  /** The directory after unlinking each doomed name that can be deleted. */
  function Unlinked(entries: map<string, EntryKind>, doomed: seq<string>, undeletable: set<string>): map<string, EntryKind>
  {
    entries - (set n | n in doomed && n !in undeletable)
  }

  lemma UnlinkedSnoc(entries: map<string, EntryKind>, doomed: seq<string>, fi: string, undeletable: set<string>)
    ensures Unlinked(entries, doomed + [fi], undeletable)
            == if fi in undeletable then Unlinked(entries, doomed, undeletable)
               else Unlinked(entries, doomed, undeletable) - {fi}
  {
    var before := set n | n in doomed && n !in undeletable;
    var after := set n | n in doomed + [fi] && n !in undeletable;
    assert after == before + (if fi in undeletable then {} else {fi});
  }

  /** The doomed names whose unlink fails, in the order they were tried. */
  function Undeleted(doomed: seq<string>, undeletable: set<string>): (r: seq<string>)
    ensures forall n :: n in r <==> n in doomed && n in undeletable
  {
    if doomed == [] then []
    else
      var last := doomed[|doomed| - 1];
      assert doomed == doomed[..|doomed| - 1] + [last];
      Undeleted(doomed[..|doomed| - 1], undeletable) + if last in undeletable then [last] else []
  }

  /** `cleanup` on a directory that exists. */
  function Pruned(entries: map<string, EntryKind>, keep: int, undeletable: set<string>): map<string, EntryKind>
  {
    if keep <= 0 then entries else Unlinked(entries, Doomed(ListFiles(entries), keep), undeletable)
  }

  /**
   * A prune with no failing deletes leaves exactly the newest `keep` files
   * listed, so a second prune dooms nothing.
   */
  lemma PruneIdempotent(entries: map<string, EntryKind>, keep: int)
    requires keep > 0
    ensures var files := ListFiles(entries);
      var d := Doomed(files, keep);
      && ListFiles(Pruned(entries, keep, {})) == files[|d|..]
      && Doomed(ListFiles(Pruned(entries, keep, {})), keep) == []
  {
    var files := ListFiles(entries);
    var kept := files[|Doomed(files, keep)|..];
    SortedSuffix(files, |Doomed(files, keep)|);
    forall x ensures x in ListFiles(Pruned(entries, keep, {})) <==> x in kept {
      PrunedMember(entries, keep, x);
    }
    SortedUnique(ListFiles(Pruned(entries, keep, {})), kept);
  }

  /** A name survives a prune without failing deletes exactly when it is among the kept files. */
  lemma PrunedMember(entries: map<string, EntryKind>, keep: int, x: string)
    requires keep > 0
    ensures var files := ListFiles(entries);
      x in ListFiles(Pruned(entries, keep, {})) <==> x in files[|Doomed(files, keep)|..]
  {
    var files := ListFiles(entries);
    var d := Doomed(files, keep);
    UnlinkedFiles(entries, d, x);
    assert files == d + files[|d|..];
    if x in files[|d|..] {
      SuffixNotInPrefix(files, |d|, x);
    }
  }

  /** Unlinking without failures removes exactly the doomed names from the files. */
  lemma UnlinkedFiles(entries: map<string, EntryKind>, doomed: seq<string>, x: string)
    ensures x in Files(Unlinked(entries, doomed, {})) <==> x in Files(entries) && x !in doomed
  {
  }

  lemma SortedSuffix(files: seq<string>, k: nat)
    requires Sorted(files) && k <= |files|
    ensures Sorted(files[k..])
  {
    forall i, j | 0 <= i < j < |files| - k ensures Less(files[k..][i], files[k..][j]) {
      assert files[k..][i] == files[k + i] && files[k..][j] == files[k + j];
    }
  }

  /** In a strictly ascending listing, no name of a suffix occurs before it. */
  lemma SuffixNotInPrefix(files: seq<string>, k: nat, x: string)
    requires Sorted(files) && k <= |files| && x in files[k..]
    ensures x !in files[..k]
  {
    var j :| k <= j < |files| && files[j] == x;
    if x in files[..k] {
      var i :| 0 <= i < k && files[i] == x;
      assert Less(files[i], files[j]);
      Irreflexive(x);
    }
  }

  /**
   * A file that sorts after every other file survives any prune with a
   * positive `keep`, whatever deletes fail.
   */
  lemma NewestSurvivesPrune(entries: map<string, EntryKind>, newest: string, keep: int, undeletable: set<string>)
    requires keep > 0
    requires newest in entries && entries[newest] == File
    requires forall n :: n in entries && entries[n] == File && n != newest ==> Less(n, newest)
    ensures newest in Pruned(entries, keep, undeletable)
  {
    var files := ListFiles(entries);
    var d := Doomed(files, keep);
    assert newest in Files(entries);
    var last := files[|files| - 1];
    assert last == newest by {
      assert last in Files(entries);
      if last != newest {
        var j :| 0 <= j < |files| && files[j] == newest;
        assert j != |files| - 1;
        assert Less(newest, last);
        Asymmetric(newest, last);
      }
    }
    assert newest in files[|d|..] by {
      assert files[|d|..][|files| - 1 - |d|] == last;
    }
    SuffixNotInPrefix(files, |d|, newest);
  }

  // ---------------------------------------------------------------------
  // Action descriptions

  /** The two snapshot actions and their arguments. */
  datatype Action = UrlSnapshot(url: string) | PicamSnapshot

  /** `__repr__`: the action's name, a colon, and its argument. */
  function Repr(a: Action): string
  {
    match a
    case UrlSnapshot(url) => "snap_url:" + url
    case PicamSnapshot => "snap_picam:"
  }

  /** `__str__`: a sentence naming what the action saves, with the URL in it. */
  function Describe(a: Action): (r: string)
    ensures a.UrlSnapshot? ==> |r| >= 20 + |a.url| && r[20..20 + |a.url|] == a.url
  {
    match a
    case UrlSnapshot(url) => "Save the image from " + url + " as snapshot"
    case PicamSnapshot => "Take a snapshot from the Pi Camera"
  }

  /** Different actions have different descriptions. */
  lemma DescribeInjective(a: Action, b: Action)
    ensures Describe(a) == Describe(b) <==> a == b
  {
  }

  /** Reads an action back from its `Repr`. */
  function ParseRepr(s: string): Option<Action>
  {
    if |s| >= 9 && s[..9] == "snap_url:" then Some(UrlSnapshot(s[9..]))
    else if s == "snap_picam:" then Some(PicamSnapshot)
    else None
  }

  /** `Repr` identifies its action: reading it back gives the same action. */
  lemma ReprRoundTrip(a: Action)
    ensures ParseRepr(Repr(a)) == Some(a)
  {
    match a
    case UrlSnapshot(url) =>
      assert Repr(a)[..9] == "snap_url:" && Repr(a)[9..] == url;
    case PicamSnapshot =>
      assert Repr(a)[5] != "snap_url:"[5];
  }

  // ---------------------------------------------------------------------
  // The snapshot directory and the configuration it reads

  class SnapshotStore {
    /** `snapshot_path` as parsed; None when unset. */
    var snapshotPath: Option<string>
    /** `snapshot_keep`. */
    var snapshotKeep: int
    /** `last_snapshot`, written by every `get_next_path`. */
    var lastSnapshot: Option<string>
    /** Whether the directory at `snapshotPath` exists. */
    var dirExists: bool
    /** The directory's entries. */
    var entries: map<string, EntryKind>

    ghost predicate Valid()
      reads this
    {
      !dirExists ==> entries == map[]
    }

    constructor (snapshotPath: Option<string>, snapshotKeep: int, dirExists: bool, entries: map<string, EntryKind>)
      requires !dirExists ==> entries == map[]
      ensures Valid()
      ensures this.snapshotPath == snapshotPath && this.snapshotKeep == snapshotKeep
      ensures this.dirExists == dirExists && this.entries == entries && lastSnapshot == None
    {
      this.snapshotPath, this.snapshotKeep := snapshotPath, snapshotKeep;
      this.dirExists, this.entries, lastSnapshot := dirExists, entries, None;
    }

    /**
     * `get_base_path`: ValueError on an empty or unset path, creating
     * nothing; otherwise the directory exists afterwards, and creating it
     * again changes nothing.
     */
    method GetBasePath() returns (r: Result<string, Error>)
      requires Valid()
      modifies this`dirExists
      ensures Valid()
      ensures r == BasePath(snapshotPath)
      ensures dirExists == (old(dirExists) || r.Ok?)
    {
      var path := snapshotPath;
      if path.None? || path.value == "" {
        return Err(ValueError("snapshot_path must not be empty"));
      }
      dirExists := true;
      r := Ok(path.value);
    }

    /**
     * `get_next_path`: base / the current second's name, recorded in
     * `last_snapshot`.
     */
    method GetNextPath(now: DateTime) returns (r: Result<string, Error>)
      requires Valid() && ValidDateTime(now)
      modifies this`dirExists, this`lastSnapshot
      ensures Valid()
      ensures r == NextPath(snapshotPath, now)
      ensures dirExists == (old(dirExists) || r.Ok?)
      ensures lastSnapshot == if r.Ok? then Some(r.value) else old(lastSnapshot)
    {
      var base := GetBasePath();
      if base.Err? {
        return Err(base.error);
      }
      var path := JoinPath(base.value, SnapshotName(now));
      lastSnapshot := Some(path);
      r := Ok(path);
    }

    /** `list_all`. */
    method ListAll() returns (r: Result<seq<string>, Error>)
      requires Valid()
      modifies this`dirExists
      ensures Valid()
      ensures r == match BasePath(snapshotPath)
                   case Ok(_) => Ok(ListFiles(entries))
                   case Err(e) => Err(e)
      ensures dirExists == (old(dirExists) || r.Ok?)
      ensures !old(dirExists) && r.Ok? ==> r.value == []
    {
      var base := GetBasePath();
      if base.Err? {
        return Err(base.error);
      }
      r := Ok(ListFiles(entries));
    }

    /**
     * `cleanup`: nothing when `snapshot_keep` is not positive; otherwise one
     * unlink attempt per doomed file, oldest first, where a failing unlink
     * is reported and the loop goes on. Returns the files it could not
     * delete.
     */
    method Cleanup(undeletable: set<string>) returns (r: Result<seq<string>, Error>)
      requires Valid()
      modifies this`dirExists, this`entries
      ensures Valid()
      ensures snapshotKeep <= 0 ==> r == Ok([]) && dirExists == old(dirExists) && entries == old(entries)
      ensures snapshotKeep > 0 && BasePath(snapshotPath).Err? ==>
        r == Err(BasePath(snapshotPath).error) && dirExists == old(dirExists) && entries == old(entries)
      ensures snapshotKeep > 0 && BasePath(snapshotPath).Ok? ==>
        var doomed := Doomed(ListFiles(old(entries)), snapshotKeep);
        && r == Ok(Undeleted(doomed, undeletable))
        && dirExists
        && entries == Pruned(old(entries), snapshotKeep, undeletable)
    {
      var keep := snapshotKeep;
      if keep <= 0 {
        return Ok([]);
      }
      var listing := ListAll();
      if listing.Err? {
        return Err(listing.error);
      }
      var files := listing.value;
      var doomed := files[..if |files| > keep then |files| - keep else 0];
      var failed := UnlinkAll(doomed, undeletable);
      r := Ok(failed);
    }

    /**
     * The loop of `cleanup`: unlink each doomed file in turn; an unlink
     * that fails is reported, and the loop goes on with the next file.
     */
    method UnlinkAll(doomed: seq<string>, undeletable: set<string>) returns (failed: seq<string>)
      modifies this`entries
      ensures entries == Unlinked(old(entries), doomed, undeletable)
      ensures failed == Undeleted(doomed, undeletable)
    {
      failed := [];
      var i := 0;
      while i < |doomed|
        invariant 0 <= i <= |doomed|
        invariant entries == Unlinked(old(entries), doomed[..i], undeletable)
        invariant failed == Undeleted(doomed[..i], undeletable)
      {
        var fi := doomed[i];
        UnlinkedSnoc(old(entries), doomed[..i], fi, undeletable);
        assert doomed[..i + 1] == doomed[..i] + [fi];
        if fi in undeletable {
          failed := failed + [fi];
        } else {
          entries := entries - {fi};
        }
        i := i + 1;
      }
      assert doomed[..i] == doomed;
    }

    /**
     * `URLSnapshotAction.__call__`: fetch the URL, open the next path
     * (creating or truncating the file), stream the body into it, then
     * clean up. A failure at any step raises and skips the cleanup.
     */
    method TakeUrlSnapshot(now: DateTime, fetched: bool, streamed: bool, undeletable: set<string>)
      returns (r: Outcome)
      requires Valid() && ValidDateTime(now)
      modifies this`dirExists, this`lastSnapshot, this`entries
      ensures Valid()
      ensures !fetched ==>
        && r == Failed(CaptureError) && dirExists == old(dirExists)
        && lastSnapshot == old(lastSnapshot) && entries == old(entries)
      ensures fetched && NextPath(snapshotPath, now).Err? ==>
        && r == Failed(NextPath(snapshotPath, now).error) && dirExists == old(dirExists)
        && lastSnapshot == old(lastSnapshot) && entries == old(entries)
      ensures fetched && NextPath(snapshotPath, now).Ok? ==>
        var name := SnapshotName(now);
        && dirExists
        && lastSnapshot == Some(NextPath(snapshotPath, now).value)
        && if name in old(entries) && old(entries)[name] == Dir then
             r == Failed(CaptureError) && entries == old(entries)
           else if !streamed then
             r == Failed(CaptureError) && entries == old(entries)[name := File]
           else
             r == Done && entries == Pruned(old(entries)[name := File], snapshotKeep, undeletable)
    {
      if !fetched {
        return Failed(CaptureError);
      }
      var path := GetNextPath(now);
      if path.Err? {
        return Failed(path.error);
      }
      var name := SnapshotName(now);
      if name in entries && entries[name] == Dir {
        return Failed(CaptureError);
      }
      entries := entries[name := File];
      if !streamed {
        return Failed(CaptureError);
      }
      var cleaned := Cleanup(undeletable);
      r := Done;
    }

    /**
     * `PicamSnapshotAction.__call__`: open the camera, capture into the
     * next path, then clean up. A failing capture, or a directory already
     * holding the snapshot's name, raises and skips the cleanup.
     */
    method TakePicamSnapshot(now: DateTime, cameraReady: bool, captured: bool, undeletable: set<string>)
      returns (r: Outcome)
      requires Valid() && ValidDateTime(now)
      modifies this`dirExists, this`lastSnapshot, this`entries
      ensures Valid()
      ensures !cameraReady ==>
        && r == Failed(CaptureError) && dirExists == old(dirExists)
        && lastSnapshot == old(lastSnapshot) && entries == old(entries)
      ensures cameraReady && NextPath(snapshotPath, now).Err? ==>
        && r == Failed(NextPath(snapshotPath, now).error) && dirExists == old(dirExists)
        && lastSnapshot == old(lastSnapshot) && entries == old(entries)
      ensures cameraReady && NextPath(snapshotPath, now).Ok? ==>
        var name := SnapshotName(now);
        && dirExists
        && lastSnapshot == Some(NextPath(snapshotPath, now).value)
        && if !captured || (name in old(entries) && old(entries)[name] == Dir) then
             r == Failed(CaptureError) && entries == old(entries)
           else
             r == Done && entries == Pruned(old(entries)[name := File], snapshotKeep, undeletable)
    {
      if !cameraReady {
        return Failed(CaptureError);
      }
      var path := GetNextPath(now);
      if path.Err? {
        return Failed(path.error);
      }
      var name := SnapshotName(now);
      if !captured || (name in entries && entries[name] == Dir) {
        return Failed(CaptureError);
      }
      entries := entries[name := File];
      var cleaned := Cleanup(undeletable);
      r := Done;
    }
  }
}
