/** The clock-integrity scan: a directory of files whose last-modified times should
    all lie in the past; a file dated in the future suggests the clock was turned back. */
module ClockIntegrity {
  import opened TimeVerificationConfig

  /** At most this many regular files are examined per scan. */
  const MaxCheckCount: nat := 300

  /** The scan locations, read from outside: the `TEMP` and `TMPDIR` environment
      variables and the project's saved directory. */
  datatype Environment = Environment(temp: string, tmpDir: string, projectSavedDir: string)

  /** One entry of a non-recursive directory listing. For a regular file, `timestamp`
      is its last-modified time in UTC ticks; for a directory it is never read. */
  datatype Entry = Entry(isDirectory: bool, timestamp: int)

  /** Directory listings by path. A path without a listing is absent or unreadable,
      and enumerating it visits nothing. */
  type FileSystem = map<string, seq<Entry>>

  /** The scan's counters once iteration ends. */
  datatype ScanResult = ScanResult(checkedCount: int32, futureFileCount: int32, hasFutureFile: bool)

  function Min(a: int, b: int): int { if a <= b then a else b }

  // ---------------------------------------------------------------------------
  // Choosing the directory

  /** The candidate locations in order of preference. */
  function Candidates(env: Environment): seq<string> {
    [env.temp, env.tmpDir, env.projectSavedDir]
  }

  /** The first non-empty candidate, or the empty string when there is none. */
  function FirstNonEmpty(candidates: seq<string>): string {
    if candidates == [] then []
    else if candidates[0] != [] then candidates[0]
    else FirstNonEmpty(candidates[1..])
  }

  /** FirstNonEmpty is empty exactly when every candidate is, and otherwise it is a
      candidate before which every candidate is empty. */
  lemma {:induction false} FirstNonEmptyIsFirst(candidates: seq<string>)
    ensures FirstNonEmpty(candidates) == [] <==>
              forall i :: 0 <= i < |candidates| ==> candidates[i] == []
    ensures FirstNonEmpty(candidates) != [] ==>
              exists k :: 0 <= k < |candidates| && candidates[k] == FirstNonEmpty(candidates) &&
                          forall j :: 0 <= j < k ==> candidates[j] == []
  {
    if candidates != [] && candidates[0] == [] {
      var rest := candidates[1..];
      FirstNonEmptyIsFirst(rest);
      assert forall i :: 1 <= i < |candidates| ==> candidates[i] == rest[i - 1];
      if FirstNonEmpty(rest) != [] {
        var k :| 0 <= k < |rest| && rest[k] == FirstNonEmpty(rest) &&
                 forall j :: 0 <= j < k ==> rest[j] == [];
        assert candidates[k + 1] == FirstNonEmpty(candidates);
        assert forall j :: 0 <= j < k + 1 ==> candidates[j] == [] by {
          forall j | 0 <= j < k + 1 ensures candidates[j] == [] {
            if j > 0 { assert candidates[j] == rest[j - 1]; }
          }
        }
      }
    }
  }

  /** The fallback chain: `TEMP`, else `TMPDIR`, else the project's saved directory. */
  method ResolveScanPath(env: Environment) returns (path: string)
    ensures path == FirstNonEmpty(Candidates(env))
  {
    ghost var candidates := Candidates(env);
    assert candidates[1..] == [env.tmpDir, env.projectSavedDir];
    assert candidates[1..][1..] == [env.projectSavedDir];
    assert candidates[1..][1..][1..] == [];
    path := env.temp;
    if path == [] {
      path := env.tmpDir;
    }
    if path == [] {
      path := env.projectSavedDir;
    }
    assert FirstNonEmpty(candidates[1..][1..]) == env.projectSavedDir;
    assert FirstNonEmpty(candidates[1..]) == if env.tmpDir != [] then env.tmpDir else env.projectSavedDir;
  }

  // ---------------------------------------------------------------------------
  // What the scan looks at

  /** The regular files of a listing, in listing order. */
  function Files(entries: seq<Entry>): (files: seq<Entry>)
    ensures |files| <= |entries|
  {
    if entries == [] then []
    else
      var last := entries[|entries| - 1];
      Files(entries[..|entries| - 1]) + (if last.isDirectory then [] else [last])
  }

  /** Files keeps exactly the regular entries: nothing else, and every one of them. */
  lemma {:induction false} FilesAreRegularEntries(entries: seq<Entry>)
    ensures forall e :: e in Files(entries) <==> e in entries && !e.isDirectory
  {
    if entries != [] {
      var init := entries[..|entries| - 1];
      FilesAreRegularEntries(init);
      assert entries == init + [entries[|entries| - 1]];
    }
  }

  /** Listing concatenation distributes over Files. */
  lemma {:induction false} FilesAppend(a: seq<Entry>, b: seq<Entry>)
    ensures Files(a + b) == Files(a) + Files(b)
    decreases |b|
  {
    if b == [] {
      assert a + b == a;
    } else {
      var b' := b[..|b| - 1];
      assert (a + b)[..|a + b| - 1] == a + b';
      FilesAppend(a, b');
    }
  }

  /** At most `n` elements from the front. */
  function Take(files: seq<Entry>, n: nat): (prefix: seq<Entry>)
    ensures |prefix| == Min(|files|, n)
    ensures prefix <= files
  {
    files[..Min(|files|, n)]
  }

  /** The files the scan actually examines: the first MaxCheckCount regular files. */
  function Examined(entries: seq<Entry>): seq<Entry> {
    Take(Files(entries), MaxCheckCount)
  }

  /** Some file is dated strictly after `now`. */
  predicate HasFuture(files: seq<Entry>, now: int) {
    exists i :: 0 <= i < |files| && files[i].timestamp > now
  }

  /** How many files are dated strictly after `now`. */
  function CountFuture(files: seq<Entry>, now: int): (n: nat)
    ensures n <= |files|
  {
    if files == [] then 0
    else CountFuture(files[..|files| - 1], now) + (if files[|files| - 1].timestamp > now then 1 else 0)
  }

  /** The count is positive exactly when some file is in the future. */
  lemma {:induction false} CountFuturePositive(files: seq<Entry>, now: int)
    ensures CountFuture(files, now) > 0 <==> HasFuture(files, now)
  {
    if files != [] {
      var init := files[..|files| - 1];
      CountFuturePositive(init, now);
      if HasFuture(init, now) {
        var i :| 0 <= i < |init| && init[i].timestamp > now;
        assert files[i] == init[i];
      }
      if HasFuture(files, now) && files[|files| - 1].timestamp <= now {
        var i :| 0 <= i < |files| && files[i].timestamp > now;
        assert init[i] == files[i];
      }
    }
  }

  /** The scan of one listing passes when no examined file is in the future. */
  predicate ScanPasses(entries: seq<Entry>, now: int) {
    !HasFuture(Examined(entries), now)
  }

  // ---------------------------------------------------------------------------
  // The scan loop

  /** One more entry of the listing adds itself to Files exactly when it is a regular file. */
  lemma FilesStep(entries: seq<Entry>, i: nat)
    requires i < |entries|
    ensures Files(entries[..i + 1]) ==
              Files(entries[..i]) + (if entries[i].isDirectory then [] else [entries[i]])
  {
    assert entries[..i + 1][..i] == entries[..i];
  }

  /** One more file adds one to the count exactly when it is in the future. */
  lemma CountFutureStep(files: seq<Entry>, file: Entry, now: int)
    ensures CountFuture(files + [file], now) ==
              CountFuture(files, now) + (if file.timestamp > now then 1 else 0)
  {
    assert (files + [file])[..|files|] == files;
  }

  /** What the loop has seen when it ends, either by running out of entries or at
      the first file past the cap, determines what the whole listing scans to. */
  lemma ScanPrefixDecides(entries: seq<Entry>, i: nat)
    requires i <= |entries|
    requires i == |entries| || |Files(entries[..i])| > MaxCheckCount
    ensures Take(Files(entries[..i]), MaxCheckCount) == Examined(entries)
    ensures |Files(entries[..i])| == Min(|Files(entries)|, MaxCheckCount + 1) ||
            |Files(entries[..i])| > MaxCheckCount + 1
    ensures |Files(entries[..i])| <= |Files(entries)|
  {
    FilesAppend(entries[..i], entries[i..]);
    assert entries[..i] + entries[i..] == entries;
  }

  /** Enumerates `entries` the way IterateDirectory drives the visitor: directories
      are skipped, each regular file bumps `checkedCount` before the cap test, and the
      visitor stops the enumeration at the first file past the cap. `visited` is how
      many entries were handed to the visitor. */
  method ScanDirectory(entries: seq<Entry>, now: int) returns (result: ScanResult, visited: nat)
    ensures result.checkedCount as int == Min(|Files(entries)|, MaxCheckCount + 1)
    ensures result.futureFileCount as int == CountFuture(Examined(entries), now)
    ensures result.hasFutureFile <==> result.futureFileCount > 0
    ensures result.hasFutureFile <==> !ScanPasses(entries, now)
    ensures visited <= |entries|
    ensures |Files(entries)| <= MaxCheckCount ==> visited == |entries|
    ensures |Files(entries)| > MaxCheckCount ==>
              0 < visited && !entries[visited - 1].isDirectory &&
              |Files(entries[..visited])| == MaxCheckCount + 1
  {
    var checkedCount := 0;
    var futureFileCount := 0;
    var hasFutureFile := false;
    var i := 0;
    var keepGoing := true;
    ghost var examined: seq<Entry> := [];
    while i < |entries| && keepGoing
      invariant 0 <= i <= |entries|
      invariant checkedCount == |Files(entries[..i])|
      invariant keepGoing ==> checkedCount <= MaxCheckCount
      invariant !keepGoing ==> checkedCount == MaxCheckCount + 1 && 0 < i && !entries[i - 1].isDirectory
      invariant examined == Take(Files(entries[..i]), MaxCheckCount)
      invariant futureFileCount == CountFuture(examined, now)
      invariant hasFutureFile <==> futureFileCount > 0
    {
      ghost var before := Files(entries[..i]);
      assert Take(before, MaxCheckCount) == before;
      FilesStep(entries, i);
      var entry := entries[i];
      i := i + 1;
      if entry.isDirectory {
        continue;
      }
      checkedCount := checkedCount + 1;
      if checkedCount > MaxCheckCount {
        assert Take(before + [entry], MaxCheckCount) == before;
        keepGoing := false;
      } else {
        CountFutureStep(examined, entry, now);
        examined := examined + [entry];
        if entry.timestamp > now {
          hasFutureFile := true;
          futureFileCount := futureFileCount + 1;
        }
      }
    }
    ScanPrefixDecides(entries, i);
    CountFuturePositive(Examined(entries), now);
    result := ScanResult(checkedCount, futureFileCount, hasFutureFile);
    visited := i;
  }

  // ---------------------------------------------------------------------------
  // CheckSystemTimeIntegrity

  /** The listing enumeration would report for `path`. */
  function ListingAt(fs: FileSystem, path: string): seq<Entry> {
    if path in fs then fs[path] else []
  }

  /** The integrity verdict: pass when no location can be chosen, otherwise pass
      when the scan of the chosen location finds no future-dated file. */
  predicate IntegrityHolds(env: Environment, fs: FileSystem, nowUtc: int) {
    var path := FirstNonEmpty(Candidates(env));
    path == [] || ScanPasses(ListingAt(fs, path), nowUtc)
  }

  /** Resolve the directory, then scan it against one UTC "now" taken before the scan. */
  method CheckSystemTimeIntegrity(env: Environment, fs: FileSystem, nowUtc: int) returns (ok: bool)
    ensures ok == IntegrityHolds(env, fs, nowUtc)
  {
    var path := ResolveScanPath(env);
    if path == [] {
      return true;
    }
    var result, _ := ScanDirectory(ListingAt(fs, path), nowUtc);
    ok := !result.hasFutureFile;
  }

  // ---------------------------------------------------------------------------
  // Properties of the scan

  /** With all three locations empty the integrity check passes without looking at anything. */
  lemma UnresolvablePathPasses(env: Environment, fs: FileSystem, nowUtc: int)
    requires env.temp == [] && env.tmpDir == [] && env.projectSavedDir == []
    ensures IntegrityHolds(env, fs, nowUtc)
  {
    FirstNonEmptyIsFirst(Candidates(env));
  }

  /** The scan fails exactly when one of the first min(300, #files) regular files is
      dated strictly after now. */
  lemma ScanFailsIff(entries: seq<Entry>, now: int)
    ensures !ScanPasses(entries, now) <==>
              exists k :: 0 <= k < Min(|Files(entries)|, MaxCheckCount) && Files(entries)[k].timestamp > now
  {
    var files := Files(entries);
    assert Examined(entries) == files[..Min(|files|, MaxCheckCount)];
    if exists k :: 0 <= k < Min(|files|, MaxCheckCount) && files[k].timestamp > now {
      var k :| 0 <= k < Min(|files|, MaxCheckCount) && files[k].timestamp > now;
      assert Examined(entries)[k] == files[k];
      assert HasFuture(Examined(entries), now);
    }
    if HasFuture(Examined(entries), now) {
      var i :| 0 <= i < |Examined(entries)| && Examined(entries)[i].timestamp > now;
      assert files[i] == Examined(entries)[i];
      assert 0 <= i < Min(|files|, MaxCheckCount) && files[i].timestamp > now;
      assert exists k :: 0 <= k < Min(|Files(entries)|, MaxCheckCount) && Files(entries)[k].timestamp > now;
    }
  }

  /** Exactly min(300, #files) files are examined, and they are the first ones. */
  lemma ExaminedIsCappedPrefix(entries: seq<Entry>)
    ensures |Examined(entries)| == Min(|Files(entries)|, MaxCheckCount)
    ensures Examined(entries) <= Files(entries)
  {
  }

  /** A directory entry, wherever it sits and whatever its timestamp, changes nothing. */
  lemma DirectoriesIgnored(before: seq<Entry>, dir: Entry, after: seq<Entry>, now: int)
    requires dir.isDirectory
    ensures Files(before + [dir] + after) == Files(before + after)
    ensures ScanPasses(before + [dir] + after, now) == ScanPasses(before + after, now)
  {
    assert (before + [dir])[..|before + [dir]| - 1] == before;
    assert Files(before + [dir]) == Files(before);
    FilesAppend(before + [dir], after);
    FilesAppend(before, after);
  }

  /** Entries after the 300th regular file are never looked at. */
  lemma FilesBeyondCapIgnored(head: seq<Entry>, tail: seq<Entry>, now: int)
    requires |Files(head)| >= MaxCheckCount
    ensures Examined(head + tail) == Examined(head)
    ensures ScanPasses(head + tail, now) == ScanPasses(head, now)
  {
    FilesAppend(head, tail);
  }

  /** A file dated exactly now is not evidence of tampering; nor is an empty listing. */
  lemma NoFutureFilePasses(entries: seq<Entry>, now: int)
    requires forall e :: e in entries && !e.isDirectory ==> e.timestamp <= now
    ensures ScanPasses(entries, now)
  {
    var examined := Examined(entries);
    FilesAreRegularEntries(entries);
    forall i | 0 <= i < |examined| ensures examined[i].timestamp <= now {
      assert examined[i] in Files(entries);
    }
  }

  /** A future-dated file among the first 300 regular files fails the scan, whatever
      follows it, and is counted. */
  lemma FutureFileWithinCapFails(entries: seq<Entry>, now: int, k: nat)
    requires k < |Files(entries)| && k < MaxCheckCount
    requires Files(entries)[k].timestamp > now
    ensures !ScanPasses(entries, now)
    ensures CountFuture(Examined(entries), now) >= 1
  {
    assert Examined(entries)[k] == Files(entries)[k];
    CountFuturePositive(Examined(entries), now);
  }
}
