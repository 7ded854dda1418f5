// Databases found in the data directory of a SQL Server container: files are
// grouped by the database their name points to, and each group is measured.
module MssqlFiles {
  import opened Wrappers
  import opened Text
  import opened Numbers
  import opened Sorting

  // What the file system says of a file: allocated 512-byte blocks, when it says so, and a length.
  datatype FileInfo = FileInfo(blocks: Option<int>, size: int)

  // An entry of the directory; info is None when it cannot be had.
  datatype DirEntry = DirEntry(name: string, isDir: bool, info: Option<FileInfo>)

  datatype Database = Database(name: string, engine: string, sizeGB: real, status: string)

  // ---- names ----

  // filepath.Ext: from the last dot of the last path element.
  function Ext(path: string): (e: string)
    ensures HasSuffix(path, e)
    ensures e != "" ==> e[0] == '.'
  {
    if path == "" || path[|path| - 1] == '/' then ""
    else if path[|path| - 1] == '.' then "."
    else
      var e := Ext(path[..|path| - 1]);
      if e == "" then "" else e + [path[|path| - 1]]
  }

  function Stem(filename: string): string {
    TrimSuffix(filename, Ext(filename))
  }

  const SYSTEM_FILES := ["master", "mastlog", "model", "modellog", "msdbdata", "msdblog", "tempdb", "templog"]

  predicate IsSystemFile(filename: string) {
    IsSystemStem(Lower(Stem(filename)))
  }

  predicate IsSystemStem(stem: string) {
    var base := TrimSuffix(stem, "_log");
    || base in SYSTEM_FILES
    || HasPrefix(base, "model_msdb")
    || HasPrefix(base, "model_replicatedmaster")
  }

  predicate IsSystemDatabase(name: string) {
    Lower(TrimSpace(name)) in ["master", "model", "msdb", "tempdb"]
  }

  function DatabaseName(filename: string): string {
    var stem := Stem(filename);
    var lower := Lower(stem);
    if lower == "mastlog" then "master"
    else if lower == "modellog" then "model"
    else if lower == "msdblog" || lower == "msdbdata" then "msdb"
    else if lower == "templog" then "tempdb"
    else if Lower(Ext(filename)) == ".ldf" && HasSuffix(lower, "_log") then stem[..|stem| - 4]
    else stem
  }

  // The group a file of this name is counted in, if any.
  function Group(filename: string): Option<string> {
    var name := DatabaseName(filename);
    if Lower(Ext(filename)) !in [".mdf", ".ndf", ".ldf"] || IsSystemFile(filename) then None
    else if name == "" || IsSystemDatabase(name) then None
    else Some(name)
  }

  // ---- bytes ----

  // fileDiskBytes: sparse and compressed files count for what they occupy.
  function FileDiskBytes(info: FileInfo): int {
    if info.blocks.Some? && info.blocks.value > 0 then Int64(info.blocks.value * 512) else info.size
  }

  // Blocks of 512 bytes where there are any, and the length otherwise.
  lemma FileDiskBytesExactly(info: FileInfo)
    ensures (forall n :: info.blocks == Some(n) ==> n <= 0) ==> FileDiskBytes(info) == info.size
    ensures forall n :: info.blocks == Some(n) && 0 < n && n * 512 < 0x8000_0000_0000_0000 ==>
      FileDiskBytes(info) == n * 512
  {
  }

  predicate Eligible(entry: DirEntry) {
    !entry.isDir && entry.info.Some? && Group(entry.name).Some?
  }

  predicate Counts(entry: DirEntry, name: string) {
    Eligible(entry) && Group(entry.name) == Some(name)
  }

  // All the bytes of eligible files, and those of one group.
  function EligibleBytes(entries: seq<DirEntry>): int {
    if entries == [] then 0
    else
      var last := entries[|entries| - 1];
      EligibleBytes(entries[..|entries| - 1]) + if Eligible(last) then FileDiskBytes(last.info.value) else 0
  }

  function Share(entry: DirEntry, name: string): int {
    if Counts(entry, name) then FileDiskBytes(entry.info.value) else 0
  }

  function BytesOf(entries: seq<DirEntry>, name: string): int {
    if entries == [] then 0
    else BytesOf(entries[..|entries| - 1], name) + Share(entries[|entries| - 1], name)
  }

  predicate HasGroup(entries: seq<DirEntry>, name: string) {
    exists entry :: entry in entries && Counts(entry, name)
  }

  // ---- the scan ----

  // What the sizes map holds once these entries have been seen.
  ghost predicate IsSum(entries: seq<DirEntry>, sizes: map<string, int>) {
    && (forall name :: name in sizes <==> HasGroup(entries, name))
    && (forall name :: name in sizes ==> sizes[name] == Int64(BytesOf(entries, name)))
  }

  // The loop of scanMSSQLDataDir: sizes are summed per name in int64.
  method SumSizes(entries: seq<DirEntry>) returns (sizes: map<string, int>)
    ensures IsSum(entries, sizes)
  {
    hide *;
    sizes := map[];
    NothingSummed();
    for i := 0 to |entries|
      invariant IsSum(entries[..i], sizes)
    {
      var entry := entries[i];
      assert entries[..i + 1] == entries[..i] + [entry];
      EligibleExactly(entry);
      if !Eligible(entry) {
        SumPasses(entries[..i], entry, sizes);
      } else {
        SumTakes(entries[..i], entry, sizes);
      }
      if entry.isDir {
        continue;
      }
      var ext := Lower(Ext(entry.name));
      if ext != ".mdf" && ext != ".ndf" && ext != ".ldf" {
        continue;
      }
      if IsSystemFile(entry.name) {
        continue;
      }
      if entry.info.None? {
        continue;
      }
      var name := DatabaseName(entry.name);
      if name == "" || IsSystemDatabase(name) {
        continue;
      }
      sizes := sizes[name := Int64((if name in sizes then sizes[name] else 0) + FileDiskBytes(entry.info.value))];
    }
    assert entries[..|entries|] == entries;
  }

  lemma NothingSummed()
    ensures IsSum([], map[])
  {
  }

  lemma EligibleExactly(entry: DirEntry)
    ensures Eligible(entry) <==>
      && !entry.isDir && entry.info.Some?
      && Lower(Ext(entry.name)) in [".mdf", ".ndf", ".ldf"] && !IsSystemFile(entry.name)
      && DatabaseName(entry.name) != "" && !IsSystemDatabase(DatabaseName(entry.name))
    ensures forall name :: Counts(entry, name) <==> Eligible(entry) && name == DatabaseName(entry.name)
  {
    hide Lower, Ext, IsSystemFile, DatabaseName, IsSystemDatabase;
  }

  lemma SumPasses(entries: seq<DirEntry>, entry: DirEntry, sizes: map<string, int>)
    requires IsSum(entries, sizes) && !Eligible(entry)
    ensures IsSum(entries + [entry], sizes)
  {
    hide Eligible, Int64, BytesOf, HasGroup;
    assert forall name :: !Counts(entry, name);
    forall name ensures HasGroup(entries + [entry], name) <==> HasGroup(entries, name) {
      OneMore(entries, entry, name);
    }
    forall name ensures BytesOf(entries + [entry], name) == BytesOf(entries, name) {
      OneMore(entries, entry, name);
    }
  }

  lemma SumTakes(entries: seq<DirEntry>, entry: DirEntry, sizes: map<string, int>)
    requires IsSum(entries, sizes) && Eligible(entry)
    ensures var name := DatabaseName(entry.name);
      IsSum(entries + [entry],
            sizes[name := Int64((if name in sizes then sizes[name] else 0) + FileDiskBytes(entry.info.value))])
  {
    EligibleExactly(entry);
    hide *;
    var name, bytes := DatabaseName(entry.name), FileDiskBytes(entry.info.value);
    SharesOf(entry);
    SizeSoFar(entries, sizes, name);
    Int64Add(BytesOf(entries, name), bytes);
    forall n ensures HasGroup(entries + [entry], n) <==> HasGroup(entries, n) || n == name {
      OneMore(entries, entry, n);
    }
    forall n ensures BytesOf(entries + [entry], n) == BytesOf(entries, n) + if n == name then bytes else 0 {
      OneMore(entries, entry, n);
    }
    SumGrows(entries, entry, sizes, name, bytes);
  }

  lemma SharesOf(entry: DirEntry)
    requires Eligible(entry)
    ensures forall name ::
      Share(entry, name) == if name == DatabaseName(entry.name) then FileDiskBytes(entry.info.value) else 0
  {
    EligibleExactly(entry);
    hide Eligible, Group, FileDiskBytes, DatabaseName, Counts;
  }

  lemma SizeSoFar(entries: seq<DirEntry>, sizes: map<string, int>, name: string)
    requires IsSum(entries, sizes)
    ensures (if name in sizes then sizes[name] else 0) == Int64(BytesOf(entries, name))
  {
    hide HasGroup, BytesOf;
    if name !in sizes {
      NothingYet(entries, name);
    }
  }

  lemma SumGrows(entries: seq<DirEntry>, entry: DirEntry, sizes: map<string, int>, name: string, bytes: int)
    requires IsSum(entries, sizes)
    requires forall n :: HasGroup(entries + [entry], n) <==> HasGroup(entries, n) || n == name
    requires forall n :: BytesOf(entries + [entry], n) == BytesOf(entries, n) + if n == name then bytes else 0
    requires Int64((if name in sizes then sizes[name] else 0) + bytes) == Int64(BytesOf(entries + [entry], name))
    ensures IsSum(entries + [entry], sizes[name := Int64((if name in sizes then sizes[name] else 0) + bytes)])
  {
    hide HasGroup, BytesOf, Int64;
  }

  // One more entry touches its own group and no other.
  lemma OneMore(entries: seq<DirEntry>, entry: DirEntry, name: string)
    ensures HasGroup(entries + [entry], name) <==> HasGroup(entries, name) || Counts(entry, name)
    ensures BytesOf(entries + [entry], name) == BytesOf(entries, name) + Share(entry, name)
  {
    hide Counts, Share;
    assert (entries + [entry])[..|entries|] == entries;
    if HasGroup(entries, name) {
      var e :| e in entries && Counts(e, name);
      assert e in entries + [entry];
    }
    assert entry in entries + [entry];
  }

  lemma {:induction false} NothingYet(entries: seq<DirEntry>, name: string)
    requires !HasGroup(entries, name)
    ensures BytesOf(entries, name) == 0
  {
    if entries != [] {
      hide Eligible, Group, FileDiskBytes;
      assert !Counts(entries[|entries| - 1], name);
      NothingYet(entries[..|entries| - 1], name);
    }
  }

  function Report(entries: seq<DirEntry>, name: string): Database {
    Database(name, "MSSQL", Round1(Int64(BytesOf(entries, name)) as real / 1000000000.0), "detected")
  }

  function NameOf(db: Database): string { db.name }

  // What a report of a directory is: its groups, each once, in order of name.
  ghost predicate IsReport(entries: seq<DirEntry>, out: seq<Database>) {
    && Ascending(out, NameOf)
    && forall db :: db in out <==> HasGroup(entries, db.name) && db == Report(entries, db.name)
  }

  // scanMSSQLDataDir's second loop: the groups met so far, in any order.
  ghost predicate Listed(entries: seq<DirEntry>, sizes: map<string, int>, rest: set<string>, out: seq<Database>) {
    && rest <= sizes.Keys
    && DistinctKeys(out, NameOf)
    && forall db :: db in out <==> db.name in sizes.Keys - rest && db == Report(entries, db.name)
  }

  lemma ListedNext(entries: seq<DirEntry>, sizes: map<string, int>, rest: set<string>, out: seq<Database>, name: string)
    requires Listed(entries, sizes, rest, out) && name in rest
    ensures Listed(entries, sizes, rest - {name}, out + [Report(entries, name)])
  {
    hide BytesOf, Round1, Int64;
    forall i | 0 <= i < |out| ensures NameOf(out[i]) != name {
      assert out[i] in out;
    }
  }

  // scanMSSQLDataDir; a directory that cannot be read gives no databases.
  method ScanMSSQLDataDir(listing: Option<seq<DirEntry>>) returns (out: seq<Database>)
    ensures listing.None? ==> out == []
    ensures listing.Some? ==> IsReport(listing.value, out)
  {
    hide BytesOf, HasGroup, Round1, Int64;
    if listing.None? {
      return [];
    }
    var entries := listing.value;
    var sizes := SumSizes(entries);
    out := [];
    var rest := sizes.Keys;
    while rest != {}
      invariant Listed(entries, sizes, rest, out)
      decreases rest
    {
      var name :| name in rest;   // any order of iteration over the map
      ListedNext(entries, sizes, rest, out, name);
      rest := rest - {name};
      var size := Round1(sizes[name] as real / 1000000000.0);
      out := out + [Database(name, "MSSQL", size, "detected")];
    }
    var unsorted := out;
    out := Sort(unsorted, NameOf);
    assert forall db :: db in out <==> db in multiset(unsorted);
  }

  // ---- what the report says ----

  lemma {:induction false} PermutationKeepsBytes(a: seq<DirEntry>, b: seq<DirEntry>, name: string)
    requires multiset(a) == multiset(b)
    ensures BytesOf(a, name) == BytesOf(b, name)
  {
    hide Share;
    if a == [] {
      assert |multiset(b)| == 0;
    } else {
      var k := WithoutLast(a, b);
      RemoveOne(b, k, name);
      PermutationKeepsBytes(a[..|a| - 1], b[..k] + b[k + 1..], name);
    }
  }

  lemma WithoutLast<T>(a: seq<T>, b: seq<T>) returns (k: nat)
    requires a != [] && multiset(a) == multiset(b)
    ensures k < |b| && b[k] == a[|a| - 1]
    ensures multiset(a[..|a| - 1]) == multiset(b[..k] + b[k + 1..])
  {
    var last := a[|a| - 1];
    assert last in multiset(b);
    k :| 0 <= k < |b| && b[k] == last;
    assert b == b[..k] + [last] + b[k + 1..];
    assert a == a[..|a| - 1] + [last];
    assert multiset(a[..|a| - 1]) == multiset(a) - multiset{last};
  }

  lemma {:induction false} RemoveOne(b: seq<DirEntry>, k: nat, name: string)
    requires k < |b|
    ensures BytesOf(b, name) == BytesOf(b[..k] + b[k + 1..], name) + Share(b[k], name)
  {
    hide Share;
    if k == |b| - 1 {
      assert b[..k] + b[k + 1..] == b[..|b| - 1];
    } else {
      var shorter := b[..|b| - 1];
      RemoveOne(shorter, k, name);
      var without := b[..k] + b[k + 1..];
      assert without[..|without| - 1] == shorter[..k] + shorter[k + 1..];
      assert without[|without| - 1] == b[|b| - 1];
    }
  }

  lemma PermutationKeepsGroup(a: seq<DirEntry>, b: seq<DirEntry>, name: string)
    requires multiset(a) == multiset(b)
    ensures HasGroup(a, name) <==> HasGroup(b, name)
  {
    hide Counts;
    assert forall entry :: entry in a <==> entry in multiset(a);
    assert forall entry :: entry in b <==> entry in multiset(b);
  }

  // The order in which the directory lists its files does not show.
  lemma OrderDoesNotShow(a: seq<DirEntry>, b: seq<DirEntry>, outA: seq<Database>, outB: seq<Database>)
    requires multiset(a) == multiset(b)
    requires IsReport(a, outA) && IsReport(b, outB)
    ensures outA == outB
  {
    hide BytesOf, HasGroup, Round1, Int64;
    forall db ensures db in outA <==> db in outB {
      PermutationKeepsBytes(a, b, db.name);
      PermutationKeepsGroup(a, b, db.name);
    }
    AscendingUnique(outA, outB, NameOf);
  }

  // Exact bytes per reported database, added up.
  function ReportedBytes(entries: seq<DirEntry>, out: seq<Database>): int {
    if out == [] then 0 else BytesOf(entries, out[0].name) + ReportedBytes(entries, out[1..])
  }

  predicate Reported(entry: DirEntry, out: seq<Database>) {
    exists db :: db in out && Counts(entry, db.name)
  }

  // An entry counts in one reported group at most.
  lemma {:induction false} ReportedBytesStep(entries: seq<DirEntry>, entry: DirEntry, out: seq<Database>)
    requires Ascending(out, NameOf)
    ensures ReportedBytes(entries + [entry], out) ==
      ReportedBytes(entries, out) + if Reported(entry, out) then FileDiskBytes(entry.info.value) else 0
  {
    hide Eligible, Group, FileDiskBytes, BytesOf, HasGroup;
    if out != [] {
      ReportedBytesStep(entries, entry, out[1..]);
      OneMore(entries, entry, out[0].name);
      assert Reported(entry, out) <==> Counts(entry, out[0].name) || Reported(entry, out[1..]) by {
        assert forall db :: db in out <==> db == out[0] || db in out[1..];
      }
      forall db | db in out[1..] ensures db.name != out[0].name {
        var j :| 1 <= j < |out| && out[j] == db;
        KeysAreDistinct(out, NameOf, 0, j);
      }
    }
  }

  // No byte of an eligible file is lost or counted twice, and no other is counted.
  lemma {:induction false} BytesConserved(entries: seq<DirEntry>, out: seq<Database>)
    requires Ascending(out, NameOf)
    requires forall entry :: entry in entries && Eligible(entry) ==> Reported(entry, out)
    ensures ReportedBytes(entries, out) == EligibleBytes(entries)
  {
    hide Group, FileDiskBytes, BytesOf, HasGroup;
    if entries == [] {
      NothingReported(out);
    } else {
      var init, last := entries[..|entries| - 1], entries[|entries| - 1];
      assert entries == init + [last];
      BytesConserved(init, out);
      ReportedBytesStep(init, last, out);
    }
  }

  lemma {:induction false} NothingReported(out: seq<Database>)
    ensures ReportedBytes([], out) == 0
  {
    if out != [] {
      NothingReported(out[1..]);
    }
  }

  // No file's size is negative and all together fit in an int64.
  predicate SizesFit(entries: seq<DirEntry>) {
    && EligibleBytes(entries) < TWO_63
    && forall entry :: entry in entries && Eligible(entry) ==> FileDiskBytes(entry.info.value) >= 0
  }

  // Exactly the groups that files have are reported, none of a system database; their
  // exact bytes add up to those of the eligible files, counted in blocks where there
  // are any; and every size is within 0.05 GB of its group's.
  lemma ReportIsComplete(entries: seq<DirEntry>, out: seq<Database>)
    requires IsReport(entries, out)
    ensures ReportedBytes(entries, out) == EligibleBytes(entries)
    ensures forall db :: db in out ==>
      && db.engine == "MSSQL" && db.status == "detected"
      && db.name != "" && Lower(TrimSpace(db.name)) !in ["master", "model", "msdb", "tempdb"]
    ensures forall name :: (exists db :: db in out && db.name == name) <==> HasFile(entries, name)
    ensures forall entry :: entry in entries && Eligible(entry) ==>
      && (BlocksOf(entry) <= 0 ==> FileDiskBytes(entry.info.value) == entry.info.value.size)
      && (0 < BlocksOf(entry) < 0x40_0000_0000_0000 ==> FileDiskBytes(entry.info.value) == BlocksOf(entry) * 512)
    ensures SizesFit(entries) ==> forall db :: db in out ==> NearExact(entries, db)
  {
    hide *;
    ReportHasGroups(entries, out);
    ReportedAll(entries, out);
    BytesConserved(entries, out);
    forall db | db in out ensures db.name != "" && Lower(TrimSpace(db.name)) !in ["master", "model", "msdb", "tempdb"] {
      GroupIsNoSystemDatabase(entries, db.name);
    }
    forall name ensures (exists db :: db in out && db.name == name) <==> HasFile(entries, name) {
      FilesOfGroup(entries, name);
    }
    BlocksCount(entries);
    if SizesFit(entries) {
      forall db | db in out ensures NearExact(entries, db) {
        SizeIsNear(entries, db.name);
      }
    }
  }

  lemma ReportHasGroups(entries: seq<DirEntry>, out: seq<Database>)
    requires IsReport(entries, out)
    ensures Ascending(out, NameOf)
    ensures forall db :: db in out ==>
      HasGroup(entries, db.name) && db == Report(entries, db.name) && db.engine == "MSSQL" && db.status == "detected"
    ensures forall name :: (exists db :: db in out && db.name == name) <==> HasGroup(entries, name)
  {
    hide HasGroup, BytesOf, Round1, Int64;
    forall name | HasGroup(entries, name) ensures exists db :: db in out && db.name == name {
      assert Report(entries, name) in out && Report(entries, name).name == name;
    }
  }

  lemma ReportedAll(entries: seq<DirEntry>, out: seq<Database>)
    requires IsReport(entries, out)
    ensures forall entry :: entry in entries && Eligible(entry) ==> Reported(entry, out)
  {
    hide Group, FileDiskBytes, BytesOf, Round1, Int64;
    forall entry | entry in entries && Eligible(entry) ensures Reported(entry, out) {
      var name := Group(entry.name).value;
      assert Counts(entry, name);
      assert HasGroup(entries, name);
      assert Report(entries, name) in out;
    }
  }

  lemma BlocksCount(entries: seq<DirEntry>)
    ensures forall entry :: entry in entries && Eligible(entry) ==>
      && (BlocksOf(entry) <= 0 ==> FileDiskBytes(entry.info.value) == entry.info.value.size)
      && (0 < BlocksOf(entry) < 0x40_0000_0000_0000 ==> FileDiskBytes(entry.info.value) == BlocksOf(entry) * 512)
  {
    hide Group, Int64;
    forall entry | entry in entries && Eligible(entry)
      ensures BlocksOf(entry) <= 0 ==> FileDiskBytes(entry.info.value) == entry.info.value.size
      ensures 0 < BlocksOf(entry) < 0x40_0000_0000_0000 ==> FileDiskBytes(entry.info.value) == BlocksOf(entry) * 512
    {
      FileDiskBytesExactly(entry.info.value);
    }
  }

  lemma SizeIsNear(entries: seq<DirEntry>, name: string)
    requires SizesFit(entries)
    ensures NearExact(entries, Report(entries, name))
  {
    hide Eligible, FileDiskBytes, BytesOf, EligibleBytes, Round1;
    GroupFits(entries, name);
    Round1Near(BytesOf(entries, name) as real / 1000000000.0);
  }

  // Some file is in the group.
  predicate HasFile(entries: seq<DirEntry>, name: string) {
    exists entry :: entry in entries && !entry.isDir && entry.info.Some? && Group(entry.name) == Some(name)
  }

  // The blocks of a file, 0 where the file system does not say.
  function BlocksOf(entry: DirEntry): int {
    if entry.info.Some? && entry.info.value.blocks.Some? then entry.info.value.blocks.value else 0
  }

  lemma FilesOfGroup(entries: seq<DirEntry>, name: string)
    ensures HasFile(entries, name) <==> HasGroup(entries, name)
  {
    hide Group;
    if HasFile(entries, name) {
      var entry :| entry in entries && !entry.isDir && entry.info.Some? && Group(entry.name) == Some(name);
      assert Counts(entry, name);
    }
  }

  predicate NearExact(entries: seq<DirEntry>, db: Database) {
    var exact := BytesOf(entries, db.name) as real / 1000000000.0;
    db.sizeGB - 0.05 <= exact <= db.sizeGB + 0.05
  }

  lemma GroupIsNoSystemDatabase(entries: seq<DirEntry>, name: string)
    requires HasGroup(entries, name)
    ensures name != "" && Lower(TrimSpace(name)) !in ["master", "model", "msdb", "tempdb"]
  {
    var entry :| entry in entries && Counts(entry, name);
    EligibleExactly(entry);
  }

  lemma {:induction false} GroupFits(entries: seq<DirEntry>, name: string)
    requires forall entry :: entry in entries && Eligible(entry) ==> FileDiskBytes(entry.info.value) >= 0
    ensures 0 <= BytesOf(entries, name) <= EligibleBytes(entries)
  {
    if entries != [] {
      hide Group, FileDiskBytes;
      GroupFits(entries[..|entries| - 1], name);
    }
  }

  // ---- a data file and its log ----

  // In lower case, the name of a system file with "_log" after it.
  predicate IsSystemLog(stem: string) {
    HasSuffix(stem, "_log") && stem[..|stem| - 4] in SYSTEM_FILES
  }

  lemma {:induction false} ExtOf(stem: string, ext: string)
    requires ext != "" && ext[0] == '.' && '.' !in ext[1..] && '/' !in ext
    ensures Ext(stem + ext) == ext && Stem(stem + ext) == stem
    decreases |ext|
  {
    var path := stem + ext;
    if |ext| > 1 {
      var shorter := ext[..|ext| - 1];
      assert path[..|path| - 1] == stem + shorter;
      assert '.' !in shorter[1..];
      ExtOf(stem, shorter);
      assert ext == shorter + [ext[|ext| - 1]];
    }
  }

  // Letter case aside, an extension and a log suffix.
  predicate IsDataExt(data: string) {
    Lower(data) in [".mdf", ".ndf"]
  }

  predicate IsLogSuffix(log: string) {
    Lower(log) == "_log.ldf"
  }

  lemma DotExt(ext: string)
    requires Lower(ext) in [".mdf", ".ndf", ".ldf"]
    ensures ext != "" && ext[0] == '.' && '.' !in ext[1..] && '/' !in ext
  {
    var lower := Lower(ext);
    assert forall i :: 0 <= i < |ext| ==> lower[i] == LowerChar(ext[i]);
  }

  lemma LowerOfConcat(a: string, b: string)
    ensures Lower(a + b) == Lower(a) + Lower(b)
  {
  }

  // The two files of a database called x, in terms of x alone.
  lemma DataFileNames(x: string, data: string)
    requires IsDataExt(data)
    ensures Lower(Ext(x + data)) == Lower(data) && Stem(x + data) == x
  {
    DotExt(data);
    ExtOf(x, data);
  }

  lemma LogFileNames(x: string, log: string)
    requires IsLogSuffix(log)
    ensures Lower(Ext(x + log)) == ".ldf"
    ensures Lower(Stem(x + log)) == Lower(x) + "_log"
    ensures |Stem(x + log)| >= 4 && Stem(x + log)[..|Stem(x + log)| - 4] == x
  {
    var tag, ext := log[..4], log[4..];
    assert Lower(tag) == Lower(log)[..4] && Lower(ext) == Lower(log)[4..];
    DotExt(ext);
    assert x + log == (x + tag) + ext;
    ExtOf(x + tag, ext);
    LowerOfConcat(x, tag);
    assert (x + tag)[..|x + tag| - 4] == x;
  }

  lemma TrimLogSuffix(stem: string)
    ensures TrimSuffix(stem + "_log", "_log") == stem
    ensures HasSuffix(stem + "_log", "_log")
  {
    assert (stem + "_log")[|stem|..] == "_log";
    assert (stem + "_log")[..|stem|] == stem;
  }

  // "_log" after a name neither makes nor breaks these prefixes.
  lemma PrefixesAgree(stem: string)
    ensures HasPrefix(stem + "_log", "model_msdb") <==> HasPrefix(stem, "model_msdb")
    ensures HasPrefix(stem + "_log", "model_replicatedmaster") <==> HasPrefix(stem, "model_replicatedmaster")
  {
    PrefixAgrees(stem, "model_msdb");
    PrefixAgrees(stem, "model_replicatedmaster");
  }

  lemma PrefixAgrees(stem: string, prefix: string)
    requires |prefix| >= 7 && prefix[5] == '_' && prefix[6] != 'l'
    requires forall i :: 0 <= i < |prefix| && i != 5 ==> prefix[i] != '_'
    ensures HasPrefix(stem + "_log", prefix) <==> HasPrefix(stem, prefix)
  {
    var long := stem + "_log";
    if |prefix| <= |stem| {
      assert long[..|prefix|] == stem[..|prefix|];
    } else {
      assert long[|stem|] == '_';
      assert HasPrefix(long, prefix) ==> forall i :: 0 <= i < |prefix| ==> long[i] == prefix[i];
    }
  }

  // Whether the name is the system's, judged by either file.
  lemma StemsDisagree(stem: string)
    ensures IsSystemStem(stem) != IsSystemStem(stem + "_log") <==> IsSystemLog(stem)
    ensures IsSystemLog(stem) ==> IsSystemStem(stem)
  {
    TrimLogSuffix(stem);
    PrefixesAgree(stem);
    if HasSuffix(stem, "_log") {
      var base := stem[..|stem| - 4];
      assert stem == base + "_log";
      PrefixesAgree(base);
      LogNamesAreNotSystem(base);
    }
  }

  lemma LogNamesAreNotSystem(base: string)
    ensures base + "_log" !in SYSTEM_FILES
    ensures base + "_log" !in ["master", "model", "msdb", "tempdb"]
  {
    var s := base + "_log";
    assert s[|s| - 4] == '_';
  }

  lemma LetterIsNoSpace(c: char)
    requires 'a' <= LowerChar(c) <= 'z'
    ensures !IsSpace(c)
  {
  }

  lemma SystemFileStarts(base: string)
    requires base in SYSTEM_FILES
    ensures base != "" && 'a' <= base[0] <= 'z'
  {
  }

  lemma NothingToTrim(x: string, base: string)
    requires Lower(x) == base + "_log" && base != "" && 'a' <= base[0] <= 'z'
    ensures TrimSpace(x) == x
  {
    hide LowerChar, IsSpace, TrimSpace;
    assert LowerChar(x[0]) == base[0];
    assert LowerChar(x[|x| - 1]) == (base + "_log")[|x| - 1] == 'g';
    LetterIsNoSpace(x[0]);
    LetterIsNoSpace(x[|x| - 1]);
    TrimSpaceTight(x);
  }

  lemma SystemLogIsAName(x: string)
    requires IsSystemLog(Lower(x))
    ensures x != "" && !IsSystemDatabase(x)
  {
    var base := Lower(x)[..|x| - 4];
    SystemFileStarts(base);
    assert Lower(x) == base + "_log";
    hide LowerChar, Lower, TrimSpace, HasSuffix, IsSystemLog;
    NothingToTrim(x, base);
    LogNamesAreNotSystem(base);
  }

  // The names of the system's own files, with "_log" after them or without.
  predicate SystemStem(stem: string, base: string) {
    && (stem == base || stem == base + "_log")
    && (base in ["master", "mastlog", "model", "modellog", "msdbdata", "msdblog", "tempdb", "templog"]
        || HasPrefix(base, "model_msdb") || HasPrefix(base, "model_replicatedmaster"))
  }

  lemma SystemStemExactly(stem: string)
    ensures IsSystemStem(stem) <==> exists base :: SystemStem(stem, base)
  {
    if IsSystemStem(stem) {
      assert SystemStem(stem, TrimSuffix(stem, "_log"));
    }
    forall base | SystemStem(stem, base) ensures IsSystemStem(stem) {
      TrimLogSuffix(base);
      if stem == base && HasSuffix(stem, "_log") {
        var shorter := stem[..|stem| - 4];
        assert stem == shorter + "_log";
        LogNamesAreNotSystem(shorter);
        PrefixesAgree(shorter);
      }
    }
  }

  // The group of any file: its extension must be one of three, neither its name nor
  // the database's may be the system's, and only a log loses its suffix.
  lemma GroupExactly(stem: string, ext: string)
    requires if ext == "" then '.' !in stem else ext[0] == '.' && '.' !in ext[1..] && '/' !in ext
    ensures var name := if Lower(ext) == ".ldf" && HasSuffix(Lower(stem), "_log") then stem[..|stem| - 4] else stem;
      Group(stem + ext) ==
      if (Lower(ext) == ".mdf" || Lower(ext) == ".ndf" || Lower(ext) == ".ldf") && !IsSystemStem(Lower(stem))
         && name != "" && Lower(TrimSpace(name)) !in ["master", "model", "msdb", "tempdb"]
      then Some(name) else None
  {
    hide Ext, Lower, Stem, TrimSpace, HasPrefix, HasSuffix, IsSystemStem;
    if ext == "" {
      NoExt(stem);
      assert stem + ext == stem;
    } else {
      ExtOf(stem, ext);
    }
    NothingLowered();
    if !IsSystemStem(Lower(stem)) {
      NotInSwitch(Lower(stem));
    }
  }

  lemma NothingLowered()
    ensures Lower("") == ""
  {
  }

  lemma {:induction false} NoExt(path: string)
    requires '.' !in path
    ensures Ext(path) == "" && Stem(path) == path
  {
    if path != "" {
      NoExt(path[..|path| - 1]);
    }
  }

  lemma DataFileGroup(x: string, data: string)
    requires IsDataExt(data)
    ensures Group(x + data) == if IsSystemStem(Lower(x)) || x == "" || IsSystemDatabase(x) then None else Some(x)
  {
    hide Ext, Lower, Stem, IsSystemDatabase, HasPrefix, HasSuffix, IsSystemStem;
    DataFileNames(x, data);
    if !IsSystemStem(Lower(x)) {
      NotInSwitch(Lower(x));
    }
  }

  lemma NotInSwitch(stem: string)
    requires !IsSystemStem(stem)
    ensures stem !in ["mastlog", "modellog", "msdblog", "msdbdata", "templog"]
  {
  }

  lemma LogFileGroup(x: string, log: string)
    requires IsLogSuffix(log)
    ensures Group(x + log) ==
      if IsSystemStem(Lower(x) + "_log") || x == "" || IsSystemDatabase(x) then None else Some(x)
  {
    LogFileNames(x, log);
    TrimLogSuffix(Lower(x));
    LogNamesAreNotSystem(Lower(x));
    hide Ext, Lower, Stem, IsSystemDatabase, HasPrefix, HasSuffix, IsSystemStem;
  }

  // A data file and its log are kept or dropped together, in the same group,
  // exactly when the database is not named like a system log file.
  lemma DataAndLogTogether(x: string, data: string, log: string)
    requires IsDataExt(data) && IsLogSuffix(log)
    ensures Group(x + data) == Group(x + log) <==> !IsSystemLog(Lower(x))
    ensures IsSystemLog(Lower(x)) ==> Group(x + data) == None && Group(x + log) == Some(x)
  {
    DataFileGroup(x, data);
    LogFileGroup(x, log);
    StemsDisagree(Lower(x));
    if IsSystemLog(Lower(x)) {
      SystemLogIsAName(x);
    }
  }
}
