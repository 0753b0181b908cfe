/**
 The folder check. While a listing is streamed only four extreme files are remembered; the verdict
 on the folder is read off those four, and is the one that looking at every file would give.
 */
module Folder {
  import opened Common
  import opened Sequences

  const HOUR := 3_600_000_000_000
  const SIZE_NOT_SUPPORTED := -1

  /** What a directory entry tells, and what is kept of it. */
  datatype File = File(name: string, size: int, modified: int, isDir: bool)

  /** A size setting as written; `bytes` is the parsed unsigned value. */
  datatype ByteSize = Bytes(bytes: nat) | BadSize

  datatype FolderTest = FolderTest(
    minAge: Option<Duration>, maxAge: Option<Duration>,
    minCount: Option<int>, maxCount: Option<int>,
    minSize: Option<ByteSize>, maxSize: Option<ByteSize>,
    availableSize: Option<ByteSize>, totalSize: Option<ByteSize>)

  datatype Verdict =
    | Passed
    | ConfigurationError
    | TooNew | TooOld
    | TooFewFiles | TooManyFiles
    | AvailableTooSmall | TotalTooSmall
    | TooSmall | TooLarge
    | ListingError

  /** A duration cut down to whole hours, truncating toward zero. */
  function WholeHours(nanos: int): (hours: int)
    ensures hours % 3_600_000_000_000 == 0
    ensures if nanos >= 0 then hours <= nanos < hours + 3_600_000_000_000
            else hours - 3_600_000_000_000 < nanos <= hours
  {
    if nanos >= 0 then nanos / HOUR * HOUR else -((-nanos) / HOUR * HOUR)
  }

  /** The conversion of a parsed size to a signed 64-bit number, which wraps around. */
  function SignedSize(bytes: nat): (size: int)
    ensures -0x8000_0000_0000_0000 <= size < 0x8000_0000_0000_0000
    ensures (bytes - size) % 0x1_0000_0000_0000_0000 == 0
  {
    var low := bytes % 0x1_0000_0000_0000_0000;
    if low < 0x8000_0000_0000_0000 then low else low - 0x1_0000_0000_0000_0000
  }

  predicate Valid(s: Option<ByteSize>) {
    s.Some? ==> s.value.Bytes?
  }

  // ---------------------------------------------------------------- the four extremes

  /** The file at `i` is the first of those whose key is smallest. */
  ghost predicate LeastAt(files: seq<File>, i: nat, key: File -> int) {
    && i < |files|
    && (forall j :: 0 <= j < |files| ==> key(files[i]) <= key(files[j]))
    && (forall j :: 0 <= j < i ==> key(files[i]) < key(files[j]))
  }

  ghost predicate FirstLeast(files: seq<File>, f: Option<File>, key: File -> int) {
    f.Some? && exists i: nat {:trigger LeastAt(files, i, key)} :: LeastAt(files, i, key) && files[i] == f.value
  }

  function Age(f: File): int { f.modified }
  function Youth(f: File): int { -f.modified }
  function Smallness(f: File): int { f.size }
  function Largeness(f: File): int { -f.size }

  lemma LeastStep(files: seq<File>, f: Option<File>, next: File, key: File -> int)
    requires files == [] || FirstLeast(files, f, key)
    ensures FirstLeast(files + [next], if files == [] || key(f.value) > key(next) then Some(next) else f, key)
  {
    var longer := files + [next];
    if files == [] || key(f.value) > key(next) {
      assert LeastAt(longer, |files|, key);
    } else {
      var i: nat :| LeastAt(files, i, key) && files[i] == f.value;
      assert LeastAt(longer, i, key);
    }
  }

  class FolderCheck {
    var oldest: Option<File>
    var newest: Option<File>
    var minSize: Option<File>
    var maxSize: Option<File>
    var totalSize: int
    var availableSize: int
    var files: seq<File>

    constructor ()
      ensures oldest == newest == minSize == maxSize == None && files == []
      ensures totalSize == availableSize == SIZE_NOT_SUPPORTED
      ensures Streamed()
    {
      oldest, newest, minSize, maxSize := None, None, None, None;
      totalSize, availableSize, files := SIZE_NOT_SUPPORTED, SIZE_NOT_SUPPORTED, [];
    }

    /** The four extremes are those of the files seen so far. */
    ghost predicate Streamed()
      reads this
    {
      if files == [] then oldest == newest == minSize == maxSize == None
      else
        && FirstLeast(files, oldest, Age)
        && FirstLeast(files, newest, Youth)
        && FirstLeast(files, minSize, Smallness)
        && FirstLeast(files, maxSize, Largeness)
    }

    method TrackAges(file: File)
      requires Streamed()
      modifies `oldest, `newest
      ensures FirstLeast(files + [file], oldest, Age) && FirstLeast(files + [file], newest, Youth)
    {
      LeastStep(files, oldest, file, Age);
      LeastStep(files, newest, file, Youth);
      if oldest.None? || oldest.value.modified > file.modified {
        oldest := Some(file);
      }
      if newest.None? || newest.value.modified < file.modified {
        newest := Some(file);
      }
    }

    method TrackSizes(file: File)
      requires files != [] ==> FirstLeast(files, minSize, Smallness) && FirstLeast(files, maxSize, Largeness)
      requires files == [] ==> minSize == maxSize == None
      modifies `minSize, `maxSize
      ensures FirstLeast(files + [file], minSize, Smallness) && FirstLeast(files + [file], maxSize, Largeness)
    {
      LeastStep(files, minSize, file, Smallness);
      LeastStep(files, maxSize, file, Largeness);
      if minSize.None? || minSize.value.size > file.size {
        minSize := Some(file);
      }
      if maxSize.None? || maxSize.value.size < file.size {
        maxSize := Some(file);
      }
    }

    method Append(file: File)
      requires Streamed()
      modifies `oldest, `newest, `minSize, `maxSize, `files
      ensures Streamed()
      ensures files == old(files) + [file]
    {
      TrackAges(file);
      TrackSizes(file);
      files := files + [file];
    }

    /** The verdict read off the extremes. The clock is read once for each of the two age tests. */
    function Test(test: FolderTest, minAgeNow: int, maxAgeNow: int): Verdict
      requires files != [] ==> Streamed()
      reads this
    {
      if !Readable(test.minAge) || !Readable(test.maxAge) then ConfigurationError
      else if test.minCount.Some? && |files| < test.minCount.value then TooFewFiles
      else if test.maxCount.Some? && |files| > test.maxCount.value then TooManyFiles
      else
        var available := SizeVerdict(test.availableSize, availableSize, AvailableTooSmall);
        if available != Passed then available
        else
          var total := SizeVerdict(test.totalSize, totalSize, TotalTooSmall);
          if total != Passed then total
          else if files == [] then Passed
          else if test.minAge.Some? && minAgeNow - newest.value.modified < WholeHours(test.minAge.value.nanos)
            then TooNew
          else if test.maxAge.Some? && maxAgeNow - oldest.value.modified > WholeHours(test.maxAge.value.nanos)
            then TooOld
          else if !Valid(test.minSize) then ConfigurationError
          else if test.minSize.Some? && minSize.value.size < SignedSize(test.minSize.value.bytes) then TooSmall
          else if !Valid(test.maxSize) then ConfigurationError
          else if test.maxSize.Some? && maxSize.value.size > SignedSize(test.maxSize.value.bytes) then TooLarge
          else Passed
    }
  }

  /** The capacity of the filesystem against a setting; a filesystem that cannot tell is a configuration error. */
  function SizeVerdict(setting: Option<ByteSize>, actual: int, failure: Verdict): Verdict {
    if setting.None? then Passed
    else if actual == SIZE_NOT_SUPPORTED || setting.value.BadSize? then ConfigurationError
    else if actual < SignedSize(setting.value.bytes) then failure
    else Passed
  }

  // ---------------------------------------------------------------- the per-file specification

  predicate OldEnough(f: File, test: FolderTest, now: int) {
    test.minAge.Some? && test.minAge.value.Parsed? ==> now - f.modified >= WholeHours(test.minAge.value.nanos)
  }

  predicate YoungEnough(f: File, test: FolderTest, now: int) {
    test.maxAge.Some? && test.maxAge.value.Parsed? ==> now - f.modified <= WholeHours(test.maxAge.value.nanos)
  }

  predicate LargeEnough(f: File, test: FolderTest) {
    test.minSize.Some? && test.minSize.value.Bytes? ==> f.size >= SignedSize(test.minSize.value.bytes)
  }

  predicate SmallEnough(f: File, test: FolderTest) {
    test.maxSize.Some? && test.maxSize.value.Bytes? ==> f.size <= SignedSize(test.maxSize.value.bytes)
  }

  /** The bounds on the folder as a whole: readable ages, the number of files, and the capacity. */
  ghost predicate FolderBounds(count: nat, available: int, total: int, test: FolderTest) {
    && Readable(test.minAge) && Readable(test.maxAge)
    && (test.minCount.Some? ==> test.minCount.value <= count)
    && (test.maxCount.Some? ==> count <= test.maxCount.value)
    && (test.availableSize.Some? ==>
      && available != SIZE_NOT_SUPPORTED && Valid(test.availableSize)
      && SignedSize(test.availableSize.value.bytes) <= available)
    && (test.totalSize.Some? ==>
      total != SIZE_NOT_SUPPORTED && Valid(test.totalSize) && SignedSize(test.totalSize.value.bytes) <= total)
  }

  /**
   The verdict is the per-file one: the folder passes exactly when its bounds hold and every single file is
   within the age and size limits, and it fails for a file exactly when some file is outside a limit.
   */
  lemma TestDecidesPerFile(folder: FolderCheck, test: FolderTest, minAgeNow: int, maxAgeNow: int)
    requires folder.files != [] ==> folder.Streamed()
    ensures var v := folder.Test(test, minAgeNow, maxAgeNow);
      var bounds := FolderBounds(|folder.files|, folder.availableSize, folder.totalSize, test);
      && (v == Passed <==>
        && bounds
        && (forall f :: f in folder.files ==> OldEnough(f, test, minAgeNow) && YoungEnough(f, test, maxAgeNow))
        && (forall f :: f in folder.files ==> LargeEnough(f, test) && SmallEnough(f, test))
        && (folder.files != [] ==> Valid(test.minSize) && Valid(test.maxSize)))
      && (v == TooNew <==> bounds && exists f :: f in folder.files && !OldEnough(f, test, minAgeNow))
      && (v == TooOld <==>
        && bounds
        && (forall f :: f in folder.files ==> OldEnough(f, test, minAgeNow))
        && (exists f :: f in folder.files && !YoungEnough(f, test, maxAgeNow)))
      && (v == TooSmall <==>
        && bounds
        && (forall f :: f in folder.files ==> OldEnough(f, test, minAgeNow) && YoungEnough(f, test, maxAgeNow))
        && (exists f :: f in folder.files && !LargeEnough(f, test)))
      && (v == TooLarge <==>
        && bounds
        && (forall f :: f in folder.files ==>
          OldEnough(f, test, minAgeNow) && YoungEnough(f, test, maxAgeNow) && LargeEnough(f, test))
        && Valid(test.minSize)
        && (exists f :: f in folder.files && !SmallEnough(f, test)))
  {
    if folder.files != [] {
      ExtremesBound(folder);
    }
  }

  /** The verdicts on the folder as a whole, and that settings cannot be read, in the order in which they are given. */
  lemma VerdictsOnWhole(folder: FolderCheck, test: FolderTest, minAgeNow: int, maxAgeNow: int)
    requires folder.files != [] ==> folder.Streamed()
    ensures var v, count := folder.Test(test, minAgeNow, maxAgeNow), |folder.files|;
      var readable := test.minAge != Some(Malformed) && test.maxAge != Some(Malformed);
      var enough := test.minCount.Some? ==> count >= test.minCount.value;
      var counted := readable && enough && (test.maxCount.Some? ==> count <= test.maxCount.value);
      var roomy := test.availableSize.Some? ==>
        && folder.availableSize != -1 && test.availableSize.value.Bytes?
        && folder.availableSize >= SignedSize(test.availableSize.value.bytes);
      && (v == TooFewFiles <==> readable && !enough)
      && (v == TooManyFiles <==> readable && enough && test.maxCount.Some? && count > test.maxCount.value)
      && (v == AvailableTooSmall <==>
           && counted && test.availableSize.Some? && folder.availableSize != -1 && test.availableSize.value.Bytes?
           && folder.availableSize < SignedSize(test.availableSize.value.bytes))
      && (v == TotalTooSmall <==>
           && counted && roomy && test.totalSize.Some? && folder.totalSize != -1 && test.totalSize.value.Bytes?
           && folder.totalSize < SignedSize(test.totalSize.value.bytes))
      && (v == ConfigurationError <==>
           || !readable
           || (counted && test.availableSize.Some?
               && (folder.availableSize == -1 || test.availableSize.value.BadSize?))
           || (counted && roomy && test.totalSize.Some? && (folder.totalSize == -1 || test.totalSize.value.BadSize?))
           || UnreadableSize(folder, test, minAgeNow, maxAgeNow))
      && v != ListingError
  {
    if folder.files != [] {
      ExtremesBound(folder);
    }
  }

  /** The bounds on the whole hold, and a size setting that is needed cannot be read. */
  ghost predicate UnreadableSize(folder: FolderCheck, test: FolderTest, minAgeNow: int, maxAgeNow: int)
    reads folder
  {
    && FolderBounds(|folder.files|, folder.availableSize, folder.totalSize, test) && folder.files != []
    && (forall f :: f in folder.files ==> OldEnough(f, test, minAgeNow) && YoungEnough(f, test, maxAgeNow))
    && (|| !Valid(test.minSize)
        || (!Valid(test.maxSize) && forall f :: f in folder.files ==> LargeEnough(f, test)))
  }

  lemma ExtremesBound(folder: FolderCheck)
    requires folder.files != [] && folder.Streamed()
    ensures folder.newest.Some? && folder.newest.value in folder.files
    ensures folder.oldest.Some? && folder.oldest.value in folder.files
    ensures folder.minSize.Some? && folder.minSize.value in folder.files
    ensures folder.maxSize.Some? && folder.maxSize.value in folder.files
    ensures forall f :: f in folder.files ==> folder.oldest.value.modified <= f.modified <= folder.newest.value.modified
    ensures forall f :: f in folder.files ==> folder.minSize.value.size <= f.size <= folder.maxSize.value.size
  {
  }

  // ---------------------------------------------------------------- listing

  datatype FilterContext = FilterContext(
    minAge: Option<int>, maxAge: Option<int>, minSize: Option<int>, maxSize: Option<int>,
    regex: Option<string -> bool>, since: Option<int>, allowDir: bool)
  {
    /** Whether a file is listed, given the clock readings of the two age tests. */
    predicate Filter(f: File, maxAgeNow: int, minAgeNow: int) {
      if f.isDir && !allowDir then false
      else if maxAge.Some? && maxAgeNow - f.modified > maxAge.value then false
      else if minAge.Some? && minAgeNow - f.modified < minAge.value then false
      else if minSize.Some? && f.size < minSize.value then false
      else if maxSize.Some? && f.size > maxSize.value then false
      else if regex.Some? && !regex.value(f.name) then false
      else if since.Some? && f.modified < since.value then false
      else true
    }
  }

  datatype Listing = NotExist | ListingFailed | Entries(entries: seq<File>)
  datatype Stat = StatFailed | NoInfo | Info(info: File)

  /** The clock readings while entry `i` of a listing is filtered. */
  type FilterClock = nat -> (int, int)

  function Listed(entries: seq<File>, filter: FilterContext, clock: FilterClock): (files: seq<File>)
    ensures forall f :: f in files ==> f in entries
  {
    if entries == [] then []
    else
      var last := |entries| - 1;
      var (maxAgeNow, minAgeNow) := clock(last);
      Listed(entries[..last], filter, clock)
      + if filter.Filter(entries[last], maxAgeNow, minAgeNow) then [entries[last]] else []
  }

  /**
   Which entries pass the filter: directories only if they are wanted, files within the age and size limits, with a
   matching name and not modified before the given time. The two ages are measured by readings of their own.
   */
  function FilterPicks(entries: seq<File>, filter: FilterContext, clock: FilterClock): (picks: seq<Option<File>>)
    ensures |picks| == |entries|
    ensures forall i :: 0 <= i < |entries| ==> picks[i] == FilterPick(entries[i], filter, clock(i).0, clock(i).1)
  {
    seq(|entries|, i requires 0 <= i < |entries| => FilterPick(entries[i], filter, clock(i).0, clock(i).1))
  }

  function FilterPick(f: File, filter: FilterContext, maxAgeNow: int, minAgeNow: int): Option<File> {
    if && (f.isDir ==> filter.allowDir)
       && (filter.maxAge.Some? ==> maxAgeNow - f.modified <= filter.maxAge.value)
       && (filter.minAge.Some? ==> minAgeNow - f.modified >= filter.minAge.value)
       && (filter.minSize.Some? ==> f.size >= filter.minSize.value)
       && (filter.maxSize.Some? ==> f.size <= filter.maxSize.value)
       && (filter.regex.Some? ==> filter.regex.value(f.name))
       && (filter.since.Some? ==> f.modified >= filter.since.value)
    then Some(f)
    else None
  }

  lemma {:induction false} ListedPicked(entries: seq<File>, filter: FilterContext, clock: FilterClock)
    ensures Picked(FilterPicks(entries, filter, clock), Listed(entries, filter, clock))
  {
    if entries == [] {
      assert FilterPicks(entries, filter, clock) == [];
      NothingPicked<File>();
    } else {
      var last := |entries| - 1;
      var front := entries[..last];
      var pick := FilterPick(entries[last], filter, clock(last).0, clock(last).1);
      ListedPicked(front, filter, clock);
      OneMorePicked(FilterPicks(front, filter, clock), Listed(front, filter, clock), pick);
      PicksNext(entries, filter, clock);
    }
  }

  lemma {:induction false} PicksNext(entries: seq<File>, filter: FilterContext, clock: FilterClock)
    requires entries != []
    ensures var last := |entries| - 1;
      FilterPicks(entries, filter, clock)
      == FilterPicks(entries[..last], filter, clock)
         + [FilterPick(entries[last], filter, clock(last).0, clock(last).1)]
  {
  }

  method GetFolderContents(entries: seq<File>, filter: FilterContext, clock: FilterClock) returns (result: seq<File>)
    ensures result == Listed(entries, filter, clock) && Picked(FilterPicks(entries, filter, clock), result)
  {
    result := [];
    for i := 0 to |entries|
      invariant result == Listed(entries[..i], filter, clock)
    {
      assert entries[..i + 1][..i] == entries[..i];
      var (maxAgeNow, minAgeNow) := clock(i);
      if filter.Filter(entries[i], maxAgeNow, minAgeNow) {
        result := result + [entries[i]];
      }
    }
    assert entries[..|entries|] == entries;
    ListedPicked(entries, filter, clock);
  }

  method StreamFiles(folder: FolderCheck, files: seq<File>)
    requires folder.Streamed() && folder.files == []
    modifies folder`oldest, folder`newest, folder`minSize, folder`maxSize, folder`files
    ensures folder.Streamed() && folder.files == files
  {
    for i := 0 to |files|
      invariant folder.Streamed() && folder.files == files[..i]
    {
      TakeNext(files, i);
      folder.Append(files[i]);
    }
    assert files[..|files|] == files;
  }

  /**
   Lists a folder and streams what passes the filter. When nothing does, the directory itself stands in for
   the oldest and newest file, but the list of files stays empty.
   */
  method GenericFolderCheck(listing: Listing, stat: Stat, filter: Option<FilterContext>, recursive: bool,
                            clock: FilterClock)
    returns (result: FolderCheck, failed: bool)
    ensures fresh(result)
    ensures result.totalSize == result.availableSize == SIZE_NOT_SUPPORTED
    ensures filter.None? || listing.ListingFailed? ==> failed
    ensures filter.Some? && listing.NotExist? ==> !failed && result.files == [] && result.Streamed()
    ensures filter.Some? && listing.Entries? ==>
      result.files == Listed(listing.entries, filter.value.(allowDir := recursive), clock)
    ensures result.files != [] ==> result.Streamed() && !failed
    ensures filter.Some? && listing.Entries? && result.files == [] ==>
      match stat
      case StatFailed => failed
      case NoInfo => !failed && result.oldest == result.newest == None
      case Info(dir) => !failed && result.oldest == result.newest == Some(dir)
  {
    result := new FolderCheck();
    if filter.None? {
      return result, true;
    }
    match listing
    case NotExist => failed := false;
    case ListingFailed => failed := true;
    case Entries(entries) =>
      var files := GetFolderContents(entries, filter.value.(allowDir := recursive), clock);
      failed := false;
      if |files| == 0 {
        match stat
        case StatFailed => failed := true;
        case NoInfo =>
        case Info(dir) =>
          result.oldest := Some(dir);
          result.newest := Some(dir);
      } else {
        StreamFiles(result, files);
      }
  }

  /**
   A local folder from its listing to the verdict. Capacity settings are never supported here; otherwise
   the folder passes exactly when the number of listed files is within bounds and each listed file is. A folder that
   does not exist counts as one without files.
   */
  method CheckLocalFolder(listing: Listing, stat: Stat, filter: Option<FilterContext>, recursive: bool,
                          clock: FilterClock, test: FolderTest, minAgeNow: int, maxAgeNow: int)
    returns (verdict: Verdict)
    ensures verdict == ListingError <==>
      || filter.None? || listing.ListingFailed?
      || (&& listing.Entries? && stat.StatFailed?
          && Listed(listing.entries, filter.value.(allowDir := recursive), clock) == [])
    ensures filter.Some? && listing.NotExist? ==>
      (verdict == Passed <==> FolderBounds(0, SIZE_NOT_SUPPORTED, SIZE_NOT_SUPPORTED, test))
    ensures filter.Some? && listing.Entries? ==>
      var files := Listed(listing.entries, filter.value.(allowDir := recursive), clock);
      verdict == Passed <==>
        && test.availableSize.None? && test.totalSize.None?
        && FolderBounds(|files|, SIZE_NOT_SUPPORTED, SIZE_NOT_SUPPORTED, test)
        && (files == [] ==> !stat.StatFailed?)
        && (files != [] ==> Valid(test.minSize) && Valid(test.maxSize))
        && (forall f :: f in files ==> OldEnough(f, test, minAgeNow) && YoungEnough(f, test, maxAgeNow))
        && (forall f :: f in files ==> LargeEnough(f, test) && SmallEnough(f, test))
  {
    var folder, failed := GenericFolderCheck(listing, stat, filter, recursive, clock);
    if failed {
      return ListingError;
    }
    verdict := folder.Test(test, minAgeNow, maxAgeNow);
    TestDecidesPerFile(folder, test, minAgeNow, maxAgeNow);
  }
}
