/** The build-time manifest script: scanning one media directory, assembling
    the manifest of the three folders, and comparing an old manifest with a
    new one. The file system is given as data: what `existsSync`,
    `readdirSync` and `statSync` would report for each directory. */
module Manifest {
  import opened Base
  import opened Text
  import opened Entries
  import opened Config
  import opened Naming

  /** What `statSync` reports: the size in bytes and the modification time
      as an ISO `YYYY-MM-DD` day. */
  datatype Stat = Stat(bytes: nat, mtimeDay: string)

  /** A directory entry; `stat` is `None` when `statSync` throws for it. */
  datatype DirEntry = DirEntry(name: string, isFile: bool, stat: Option<Stat>)

  /** A media directory: absent, present but `readdirSync` throws, or its
      entries in the order `readdirSync` returns them. */
  datatype DirState = Missing | Unreadable | Listed(entries: seq<DirEntry>)

  /** `(a, b) => a.name.localeCompare(b.name)`, as a `<=` relation. */
  function NameOrder(): (le: (FileEntry, FileEntry) -> bool)
  {
    (a: FileEntry, b: FileEntry) => StrLe(a.name, b.name)
  }

  lemma NameOrderIsTotalOrder()
    ensures Total(NameOrder()) && Transitive(NameOrder())
  {
    forall a: FileEntry, b: FileEntry ensures NameOrder()(a, b) || NameOrder()(b, a) {
      StrLeTotal(a.name, b.name);
    }
    forall a: FileEntry, b: FileEntry, c: FileEntry | NameOrder()(a, b) && NameOrder()(b, c)
      ensures NameOrder()(a, c)
    {
      StrLeTransitive(a.name, b.name, c.name);
    }
  }

  /** The entry the scan records for a supported file. */
  function FileInfo(folder: string, name: string, st: Stat, formatSize: nat -> string): FileEntry
  {
    FileEntry(GenerateFileId(folder, name), name, "/media/" + folder + "/" + name,
      ManifestFileType(name), formatSize(st.bytes), st.mtimeDay, None, None)
  }

  /** The entries the loop records: regular files whose lower-cased
      extension is supported (by `IsScannable`, exactly those whose
      `ManifestFileType` is not `Unknown`). */
  predicate Wanted(e: DirEntry)
  {
    e.isFile && IsScannable(e.name)
  }

  /** The files the scan loop has pushed when it finishes, or when
      `statSync` throws on a wanted entry (the `catch` keeps what was pushed
      before). */
  function Collected(folder: string, es: seq<DirEntry>, formatSize: nat -> string): seq<FileEntry>
  {
    CollectedBy(folder, es, Wanted, formatSize)
  }

  /** The scan loop with its entry filter `keep` as a parameter, so that
      facts about the loop's control flow do not depend on the extension
      table. */
  function CollectedBy(folder: string, es: seq<DirEntry>, keep: DirEntry -> bool, formatSize: nat -> string): seq<FileEntry>
  {
    if es == [] then []
    else
      var e := es[0];
      if keep(e) then
        if e.stat.None? then []
        else [FileInfo(folder, e.name, e.stat.value, formatSize)] + CollectedBy(folder, es[1..], keep, formatSize)
      else CollectedBy(folder, es[1..], keep, formatSize)
  }

  /** Every collected file is the record of a wanted entry whose `statSync`
      succeeded: its id, name, `/media/<folder>/<name>` path, type, size
      and day all come from that entry. */
  lemma {:induction false} CollectedSound(folder: string, es: seq<DirEntry>, formatSize: nat -> string, f: FileEntry)
    requires f in Collected(folder, es, formatSize)
    ensures exists e :: e in es && Wanted(e) && e.stat.Some? && f == FileInfo(folder, e.name, e.stat.value, formatSize)
    ensures f.fileType == ManifestFileType(f.name) && f.id == GenerateFileId(folder, f.name)
    ensures f.path == "/media/" + folder + "/" + f.name
  {
    var e := es[0];
    if Wanted(e) && e.stat.Some? && f == FileInfo(folder, e.name, e.stat.value, formatSize) {
      assert e in es;
    } else {
      CollectedSound(folder, es[1..], formatSize, f);
      var x :| x in es[1..] && Wanted(x) && x.stat.Some? && f == FileInfo(folder, x.name, x.stat.value, formatSize);
      assert x in es;
    }
  }

  /** A wanted entry is collected, with its stat data, when no `statSync`
      threw on a wanted entry before it. */
  lemma CollectedComplete(folder: string, es: seq<DirEntry>, formatSize: nat -> string, i: nat)
    requires i < |es| && Wanted(es[i]) && es[i].stat.Some?
    requires forall j :: 0 <= j < i && Wanted(es[j]) ==> es[j].stat.Some?
    ensures FileInfo(folder, es[i].name, es[i].stat.value, formatSize) in Collected(folder, es, formatSize)
  {
    CollectedByComplete(folder, es, Wanted, formatSize, i);
  }

  lemma {:induction false} CollectedByComplete(folder: string, es: seq<DirEntry>, keep: DirEntry -> bool,
                                               formatSize: nat -> string, i: nat)
    requires i < |es| && keep(es[i]) && es[i].stat.Some?
    requires forall j :: 0 <= j < i && keep(es[j]) ==> es[j].stat.Some?
    ensures FileInfo(folder, es[i].name, es[i].stat.value, formatSize) in CollectedBy(folder, es, keep, formatSize)
  {
    var tail := es[1..];
    assert es == [es[0]] + tail;
    CollectedByCons(folder, es[0], tail, keep, formatSize);
    if i > 0 {
      forall j | 0 <= j < i - 1 && keep(tail[j])
        ensures tail[j].stat.Some?
      {
        assert tail[j] == es[j + 1];
      }
      CollectedByComplete(folder, tail, keep, formatSize, i - 1);
    }
  }

  /** Once `statSync` throws on a wanted entry, nothing from that entry on
      is collected: the result is what the entries before it give. */
  lemma CollectedStopsAtFailure(folder: string, es: seq<DirEntry>, formatSize: nat -> string, i: nat)
    requires i < |es| && Wanted(es[i]) && es[i].stat.None?
    ensures Collected(folder, es, formatSize) == Collected(folder, es[..i], formatSize)
  {
    CollectedByStops(folder, es, Wanted, formatSize, i);
  }

  lemma {:induction false} CollectedByStops(folder: string, es: seq<DirEntry>, keep: DirEntry -> bool,
                                            formatSize: nat -> string, i: nat)
    requires i < |es| && keep(es[i]) && es[i].stat.None?
    ensures CollectedBy(folder, es, keep, formatSize) == CollectedBy(folder, es[..i], keep, formatSize)
  {
    if i > 0 {
      var tail := es[1..];
      assert es[..i] == [es[0]] + tail[..i - 1];
      assert es == [es[0]] + tail;
      CollectedByCons(folder, es[0], tail[..i - 1], keep, formatSize);
      CollectedByCons(folder, es[0], tail, keep, formatSize);
      if !(keep(es[0]) && es[0].stat.None?) {
        CollectedByStops(folder, tail, keep, formatSize, i - 1);
      }
    }
  }

  /** One step of the scan loop. */
  lemma CollectedByCons(folder: string, e: DirEntry, es: seq<DirEntry>, keep: DirEntry -> bool, formatSize: nat -> string)
    ensures CollectedBy(folder, [e] + es, keep, formatSize) ==
      if !keep(e) then CollectedBy(folder, es, keep, formatSize)
      else if e.stat.None? then []
      else [FileInfo(folder, e.name, e.stat.value, formatSize)] + CollectedBy(folder, es, keep, formatSize)
  {
    assert ([e] + es)[1..] == es;
  }

  /** The wanted entries, in directory order. */
  function WantedEntries(es: seq<DirEntry>): (r: seq<DirEntry>)
    ensures forall w :: w in r ==> w in es && Wanted(w)
  {
    if es == [] then []
    else
      var rest := WantedEntries(es[1..]);
      if Wanted(es[0]) then [es[0]] + rest else rest
  }

  /** The records of entries whose stat data is known. */
  function InfosOf(folder: string, ws: seq<DirEntry>, formatSize: nat -> string): (r: seq<FileEntry>)
    requires forall w :: w in ws ==> w.stat.Some?
    ensures |r| == |ws|
  {
    if ws == [] then []
    else [FileInfo(folder, ws[0].name, ws[0].stat.value, formatSize)] + InfosOf(folder, ws[1..], formatSize)
  }

  /** Without a failing `statSync`, the loop collects one record per wanted
      entry, in directory order. */
  lemma {:induction false} CollectedAllStats(folder: string, es: seq<DirEntry>, formatSize: nat -> string)
    requires forall e :: e in es && Wanted(e) ==> e.stat.Some?
    ensures Collected(folder, es, formatSize) == InfosOf(folder, WantedEntries(es), formatSize)
  {
    if es != [] {
      CollectedAllStats(folder, es[1..], formatSize);
    }
  }

  /** `scanFolderForFiles`: nothing for a missing or unreadable directory,
      otherwise the collected files sorted by name. */
  function ScannedFiles(folder: string, dir: DirState, formatSize: nat -> string): (r: seq<FileEntry>)
    ensures !dir.Listed? ==> r == []
    ensures SortedBy(r, NameOrder())
  {
    match dir
    case Missing => []
    case Unreadable => []
    case Listed(es) =>
      NameOrderIsTotalOrder();
      SortBySorted(Collected(folder, es, formatSize), NameOrder());
      SortBy(Collected(folder, es, formatSize), NameOrder())
  }

  /** The scan loop, proved to compute `ScannedFiles`. */
  method ScanFolderForFiles(folder: string, dir: DirState, formatSize: nat -> string)
    returns (files: seq<FileEntry>)
    ensures files == ScannedFiles(folder, dir, formatSize)
  {
    files := [];
    if dir.Missing? || dir.Unreadable? {
      return;
    }
    var es := dir.entries;
    var i := 0;
    var failed := false;
    while i < |es| && !failed
      invariant 0 <= i <= |es|
      invariant !failed ==> Collected(folder, es, formatSize) == files + Collected(folder, es[i..], formatSize)
      invariant failed ==> Collected(folder, es, formatSize) == files
      decreases |es| - i, !failed
    {
      var e := es[i];
      assert es[i..][1..] == es[i + 1..];
      if e.isFile && IsScannable(e.name) {
        if e.stat.None? {
          failed := true;
        } else {
          files := files + [FileInfo(folder, e.name, e.stat.value, formatSize)];
          i := i + 1;
        }
      } else {
        i := i + 1;
      }
    }
    if !failed {
      assert es[i..] == [];
    }
    assert Collected(folder, es, formatSize) == files;
    assert ScannedFiles(folder, dir, formatSize) == SortBy(Collected(folder, es, formatSize), NameOrder());
    files := SortBy(files, NameOrder());
  }

  /** The scan returns only regular files with a supported extension, each
      typed pdf or image and carrying its derived id, sorted by name; a
      missing directory gives no files. */
  lemma ScannedFilesProperties(folder: string, dir: DirState, formatSize: nat -> string)
    ensures dir.Missing? ==> ScannedFiles(folder, dir, formatSize) == []
    ensures SortedBy(ScannedFiles(folder, dir, formatSize), NameOrder())
    ensures forall f :: f in ScannedFiles(folder, dir, formatSize) ==>
      dir.Listed? && (exists e :: e in dir.entries && e.isFile && e.name == f.name) &&
      IsScannable(f.name) && f.fileType in {Pdf, Image} && f.id == GenerateFileId(folder, f.name)
  {
    if dir.Listed? {
      var c := Collected(folder, dir.entries, formatSize);
      forall f | f in ScannedFiles(folder, dir, formatSize)
        ensures (exists e :: e in dir.entries && e.isFile && e.name == f.name) &&
          IsScannable(f.name) && f.fileType in {Pdf, Image} && f.id == GenerateFileId(folder, f.name)
      {
        assert f in multiset(SortBy(c, NameOrder()));
        CollectedSound(folder, dir.entries, formatSize, f);
      }
    }
  }

  /** When every `statSync` succeeds, the scan is a permutation of the
      records of all regular files with a supported extension, so every
      such file is in it. */
  lemma ScanIsComplete(folder: string, es: seq<DirEntry>, formatSize: nat -> string)
    requires forall e :: e in es && Wanted(e) ==> e.stat.Some?
    ensures multiset(ScannedFiles(folder, Listed(es), formatSize)) ==
      multiset(InfosOf(folder, WantedEntries(es), formatSize))
    ensures |ScannedFiles(folder, Listed(es), formatSize)| == |WantedEntries(es)|
    ensures forall e :: e in es && Wanted(e) ==>
      FileInfo(folder, e.name, e.stat.value, formatSize) in ScannedFiles(folder, Listed(es), formatSize)
  {
    var c := Collected(folder, es, formatSize);
    var r := ScannedFiles(folder, Listed(es), formatSize);
    assert r == SortBy(c, NameOrder());
    assert multiset(r) == multiset(c);
    CollectedAllStats(folder, es, formatSize);
    forall e | e in es && Wanted(e)
      ensures FileInfo(folder, e.name, e.stat.value, formatSize) in r
    {
      var i :| 0 <= i < |es| && es[i] == e;
      CollectedComplete(folder, es, formatSize, i);
      assert FileInfo(folder, e.name, e.stat.value, formatSize) in multiset(r);
    }
  }

  /** The manifest folder for one key. */
  function ManifestSlot(key: string, dirs: string -> DirState, formatSize: nat -> string): Slot
  {
    Slot(key, Folder(key, ScannedFiles(key, dirs(key), formatSize), []))
  }

  /** `generateManifest`: one folder per entry of `FOLDERS_TO_SCAN`. */
  function ManifestOf(dirs: string -> DirState, formatSize: nat -> string): (m: Structure)
    ensures |m| == |FOLDER_KEYS|
    ensures forall i :: 0 <= i < |m| ==> m[i] == ManifestSlot(FOLDER_KEYS[i], dirs, formatSize)
  {
    seq(|FOLDER_KEYS|, i requires 0 <= i < |FOLDER_KEYS| => ManifestSlot(FOLDER_KEYS[i], dirs, formatSize))
  }

  /** The loop of `generateManifest`, which also totals the file counts. */
  method GenerateManifest(dirs: string -> DirState, formatSize: nat -> string)
    returns (manifest: Structure, totalFiles: nat)
    ensures manifest == ManifestOf(dirs, formatSize)
    ensures totalFiles == |AllFiles(manifest)|
  {
    manifest := [];
    totalFiles := 0;
    for i := 0 to |FOLDER_KEYS|
      invariant |manifest| == i
      invariant forall j :: 0 <= j < i ==> manifest[j] == ManifestSlot(FOLDER_KEYS[j], dirs, formatSize)
      invariant totalFiles == FileCount(manifest)
    {
      var key := FOLDER_KEYS[i];
      var files := ScanFolderForFiles(key, dirs(key), formatSize);
      AllFilesAppend(manifest, [Slot(key, Folder(key, files, []))]);
      manifest := manifest + [Slot(key, Folder(key, files, []))];
      totalFiles := totalFiles + |files|;
    }
  }

  /** The manifest has exactly the keys `antraege`, `presse`, `wahlkampf`, in
      that order, each folder named after its key and holding that
      directory's scan. */
  lemma ManifestShape(dirs: string -> DirState, formatSize: nat -> string)
    ensures Keys(ManifestOf(dirs, formatSize)) == ["antraege", "presse", "wahlkampf"]
    ensures forall s :: s in ManifestOf(dirs, formatSize) ==>
      s.folder.name == s.key && s.folder.files == ScannedFiles(s.key, dirs(s.key), formatSize)
  {
  }

  /* ---------------------------------------------------------------------
     Comparing manifests
     --------------------------------------------------------------------- */

  /** A JavaScript `Map` from file name to entry: keys in first-insertion
      order, and for each key the entry set last. */
  datatype NameMap = NameMap(keys: seq<string>, vals: map<string, FileEntry>)

  ghost predicate ValidMap(m: NameMap)
  {
    (forall i, j :: 0 <= i < j < |m.keys| ==> m.keys[i] != m.keys[j]) &&
    (forall k :: k in m.vals <==> k in m.keys) &&
    (forall k :: k in m.vals ==> m.vals[k].name == k)
  }

  function Names(files: seq<FileEntry>): set<string>
  {
    set f | f in files :: f.name
  }

  /** `map.set(f.name, f)`: a new key goes to the end, an existing key keeps
      its place and takes the new entry. */
  function Put(m: NameMap, f: FileEntry): (r: NameMap)
    requires ValidMap(m)
    ensures ValidMap(r)
    ensures r.vals == m.vals[f.name := f]
  {
    if f.name in m.vals then NameMap(m.keys, m.vals[f.name := f])
    else NameMap(m.keys + [f.name], m.vals[f.name := f])
  }

  /** `new Map(files.map(f => [f.name, f]))`: one key per distinct name,
      mapped to the last entry with that name. */
  function ToNameMap(files: seq<FileEntry>): (r: NameMap)
    ensures ValidMap(r)
    ensures forall k :: k in r.vals <==> k in Names(files)
    ensures forall k :: k in r.vals ==> r.vals[k] in files
  {
    if files == [] then NameMap([], map[])
    else
      var init := files[..|files| - 1];
      var last := files[|files| - 1];
      var m := ToNameMap(init);
      assert files == init + [last];
      assert forall f :: f in init ==> f in files;
      assert Names(files) == Names(init) + {last.name};
      Put(m, last)
  }

  /** At most one key per entry. */
  lemma {:induction false} ToNameMapSize(files: seq<FileEntry>)
    ensures |ToNameMap(files).keys| <= |files|
  {
    if files != [] {
      ToNameMapSize(files[..|files| - 1]);
    }
  }

  /** The entry a name maps to is the last entry with that name. */
  lemma {:induction false} ToNameMapLastWins(files: seq<FileEntry>, i: nat)
    requires i < |files|
    requires forall j :: i < j < |files| ==> files[j].name != files[i].name
    ensures files[i].name in ToNameMap(files).vals && ToNameMap(files).vals[files[i].name] == files[i]
  {
    var init := files[..|files| - 1];
    if i < |files| - 1 {
      forall j | i < j < |init|
        ensures init[j].name != init[i].name
      {
        assert init[j] == files[j];
      }
      ToNameMapLastWins(init, i);
    }
  }

  /** The position of the first entry named `k`. */
  function FirstIndex(files: seq<FileEntry>, k: string): (r: nat)
    requires k in Names(files)
    ensures r < |files| && files[r].name == k
    ensures forall j :: 0 <= j < r ==> files[j].name != k
  {
    if files[0].name == k then 0
    else
      assert forall f :: f in files[1..] ==> f in files;
      assert k in Names(files[1..]);
      1 + FirstIndex(files[1..], k)
  }

  /** Appending an entry does not move the first entry of a name already
      present. */
  lemma FirstIndexSnoc(files: seq<FileEntry>, init: seq<FileEntry>, k: string)
    requires |files| > 0 && init == files[..|files| - 1] && k in Names(init)
    ensures k in Names(files) && FirstIndex(files, k) == FirstIndex(init, k)
  {
    var q := FirstIndex(init, k);
    assert files[q] == init[q];
  }

  /** A name first seen in the last entry comes after every earlier name. */
  lemma FirstIndexNewName(files: seq<FileEntry>, init: seq<FileEntry>, k: string)
    requires |files| > 0 && init == files[..|files| - 1] && k in Names(init)
    requires files[|files| - 1].name !in Names(init)
    ensures k in Names(files) && files[|files| - 1].name in Names(files)
    ensures FirstIndex(files, k) < FirstIndex(files, files[|files| - 1].name)
  {
    FirstIndexSnoc(files, init, k);
    var last := files[|files| - 1];
    forall j | 0 <= j < |init|
      ensures files[j].name != last.name
    {
      assert files[j] == init[j];
      assert init[j].name in Names(init);
    }
  }

  /** Keys are in order of first occurrence. */
  lemma {:induction false} ToNameMapKeyOrder(files: seq<FileEntry>, a: nat, b: nat)
    requires a < b < |ToNameMap(files).keys|
    ensures ToNameMap(files).keys[a] in Names(files) && ToNameMap(files).keys[b] in Names(files)
    ensures FirstIndex(files, ToNameMap(files).keys[a]) < FirstIndex(files, ToNameMap(files).keys[b])
  {
    var init := files[..|files| - 1];
    var last := files[|files| - 1];
    var m := ToNameMap(init);
    assert ToNameMap(files) == Put(m, last);
    assert m.keys[a] in m.vals;
    if last.name in m.vals || b < |m.keys| {
      assert m.keys[b] in m.vals;
      ToNameMapKeyOrder(init, a, b);
      FirstIndexSnoc(files, init, m.keys[a]);
      FirstIndexSnoc(files, init, m.keys[b]);
    } else {
      FirstIndexNewName(files, init, m.keys[a]);
    }
  }

  datatype Change = Change(folder: string, file: FileEntry)
  datatype Modification = Modification(folder: string, file: FileEntry, oldFile: FileEntry)
  datatype Changes = Changes(added: seq<Change>, removed: seq<Change>, modified: seq<Modification>)

  const NoChanges := Changes([], [], [])

  function Concat(a: Changes, b: Changes): Changes
  {
    Changes(a.added + b.added, a.removed + b.removed, a.modified + b.modified)
  }

  /** The change records for the first `n` keys of `here` (walked in
      insertion order) that `other` does not hold: the added files when
      `here` is the new map, the removed ones when it is the old map. */
  function OnlyIn(folder: string, here: NameMap, other: NameMap, n: nat): (r: seq<Change>)
    requires ValidMap(here) && n <= |here.keys|
    ensures |r| <= n
  {
    if n == 0 then []
    else
      var k := here.keys[n - 1];
      OnlyIn(folder, here, other, n - 1) + (if k !in other.vals then [Change(folder, here.vals[k])] else [])
  }

  /** A record is in the list exactly when its name is among the first `n`
      keys, `other` lacks it, and it carries `here`'s entry for it. */
  lemma {:induction false} OnlyInMember(folder: string, here: NameMap, other: NameMap, n: nat, c: Change)
    requires ValidMap(here) && n <= |here.keys|
    ensures c in OnlyIn(folder, here, other, n) <==>
      c.folder == folder && c.file.name in here.keys[..n] && c.file.name !in other.vals &&
      c.file == here.vals[c.file.name]
  {
    if n > 0 {
      OnlyInMember(folder, here, other, n - 1, c);
      assert here.keys[..n] == here.keys[..n - 1] + [here.keys[n - 1]];
    }
  }

  /** `oldFile.size !== fileInfo.size || oldFile.lastModified !== fileInfo.lastModified` */
  predicate Differs(a: FileEntry, b: FileEntry)
  {
    a.size != b.size || a.lastModified != b.lastModified
  }

  /** The modification records for the first `n` keys of the new map
      (walked in insertion order) that the old map also holds, whose entries
      differ in size or date. */
  function ModifiedIn(folder: string, nw: NameMap, od: NameMap, n: nat): (r: seq<Modification>)
    requires ValidMap(nw) && n <= |nw.keys|
    ensures |r| <= n
  {
    if n == 0 then []
    else
      var k := nw.keys[n - 1];
      ModifiedIn(folder, nw, od, n - 1) +
        (if k in od.vals && Differs(od.vals[k], nw.vals[k]) then [Modification(folder, nw.vals[k], od.vals[k])] else [])
  }

  /** A record is in the list exactly when its name is among the first `n`
      keys, the old map holds it, it carries both maps' entries, and those
      differ. */
  lemma {:induction false} ModifiedInMember(folder: string, nw: NameMap, od: NameMap, n: nat, m: Modification)
    requires ValidMap(nw) && n <= |nw.keys|
    ensures m in ModifiedIn(folder, nw, od, n) <==>
      m.folder == folder && m.file.name in nw.keys[..n] && m.file.name in od.vals &&
      m.file == nw.vals[m.file.name] && m.oldFile == od.vals[m.file.name] && Differs(m.oldFile, m.file)
  {
    if n > 0 {
      ModifiedInMember(folder, nw, od, n - 1, m);
      assert nw.keys[..n] == nw.keys[..n - 1] + [nw.keys[n - 1]];
    }
  }

  /** The changes of one folder. */
  function FolderChanges(folder: string, oldFiles: seq<FileEntry>, newFiles: seq<FileEntry>): (r: Changes)
    ensures |r.added| <= |newFiles| && |r.removed| <= |oldFiles| && |r.modified| <= |newFiles|
    ensures forall c :: c in r.added ==> c.folder == folder
    ensures forall c :: c in r.removed ==> c.folder == folder
    ensures forall m :: m in r.modified ==> m.folder == folder
  {
    var om := ToNameMap(oldFiles);
    var nm := ToNameMap(newFiles);
    ToNameMapSize(oldFiles);
    ToNameMapSize(newFiles);
    var added := OnlyIn(folder, nm, om, |nm.keys|);
    var removed := OnlyIn(folder, om, nm, |om.keys|);
    var modified := ModifiedIn(folder, nm, om, |nm.keys|);
    assert forall c :: c in added ==> c.folder == folder by {
      forall c | c in added { OnlyInMember(folder, nm, om, |nm.keys|, c); }
    }
    assert forall c :: c in removed ==> c.folder == folder by {
      forall c | c in removed { OnlyInMember(folder, om, nm, |om.keys|, c); }
    }
    assert forall m :: m in modified ==> m.folder == folder by {
      forall m | m in modified { ModifiedInMember(folder, nm, om, |nm.keys|, m); }
    }
    Changes(added, removed, modified)
  }

  /** `manifest[folder]?.files || []`: a missing folder counts as empty. */
  function FilesOf(st: Structure, key: string): (r: seq<FileEntry>)
    ensures key !in Keys(st) ==> r == []
    ensures forall i :: 0 <= i < |st| && st[i].key == key && (forall j :: 0 <= j < i ==> st[j].key != key) ==> r == st[i].folder.files
  {
    if st == [] then []
    else if st[0].key == key then st[0].folder.files
    else FilesOf(st[1..], key)
  }

  /** The changes of the folders `keys`, in order. */
  function DiffOver(keys: seq<string>, oldM: Structure, newM: Structure): Changes
  {
    if keys == [] then NoChanges
    else
      var k := keys[|keys| - 1];
      Concat(DiffOver(keys[..|keys| - 1], oldM, newM), FolderChanges(k, FilesOf(oldM, k), FilesOf(newM, k)))
  }

  /** `compareManifests(oldManifest, newManifest)` */
  function Diff(oldM: Structure, newM: Structure): (r: Changes)
    ensures forall c :: c in r.added ==> c.folder in FOLDER_KEYS
    ensures forall c :: c in r.removed ==> c.folder in FOLDER_KEYS
    ensures forall m :: m in r.modified ==> m.folder in FOLDER_KEYS
  {
    DiffOverMembers(FOLDER_KEYS, oldM, newM);
    DiffOver(FOLDER_KEYS, oldM, newM)
  }

  /** The loop over the new map: a name the old map lacks is added, a name
      both hold whose entries differ is modified. */
  method WalkNewNames(folder: string, nm: NameMap, om: NameMap)
    returns (added: seq<Change>, modified: seq<Modification>)
    requires ValidMap(nm)
    ensures added == OnlyIn(folder, nm, om, |nm.keys|)
    ensures modified == ModifiedIn(folder, nm, om, |nm.keys|)
  {
    added, modified := [], [];
    for j := 0 to |nm.keys|
      invariant added == OnlyIn(folder, nm, om, j)
      invariant modified == ModifiedIn(folder, nm, om, j)
    {
      var name := nm.keys[j];
      if name !in om.vals {
        added := added + [Change(folder, nm.vals[name])];
      } else if Differs(om.vals[name], nm.vals[name]) {
        modified := modified + [Modification(folder, nm.vals[name], om.vals[name])];
      }
    }
  }

  /** The loop over the old map: a name the new map lacks is removed. */
  method WalkOldNames(folder: string, om: NameMap, nm: NameMap) returns (removed: seq<Change>)
    requires ValidMap(om)
    ensures removed == OnlyIn(folder, om, nm, |om.keys|)
  {
    removed := [];
    for j := 0 to |om.keys|
      invariant removed == OnlyIn(folder, om, nm, j)
    {
      var name := om.keys[j];
      if name !in nm.vals {
        removed := removed + [Change(folder, om.vals[name])];
      }
    }
  }

  /** One folder's pass of `compareManifests`. */
  method CompareFolder(folder: string, oldFiles: seq<FileEntry>, newFiles: seq<FileEntry>)
    returns (c: Changes)
    ensures c == FolderChanges(folder, oldFiles, newFiles)
  {
    var om := ToNameMap(oldFiles);
    var nm := ToNameMap(newFiles);
    var added, modified := WalkNewNames(folder, nm, om);
    var removed := WalkOldNames(folder, om, nm);
    c := Changes(added, removed, modified);
  }

  /** One more folder appends its changes. */
  lemma DiffOverStep(keys: seq<string>, i: nat, oldM: Structure, newM: Structure)
    requires i < |keys|
    ensures DiffOver(keys[..i + 1], oldM, newM) ==
      Concat(DiffOver(keys[..i], oldM, newM), FolderChanges(keys[i], FilesOf(oldM, keys[i]), FilesOf(newM, keys[i])))
  {
    assert keys[..i + 1][..i] == keys[..i];
  }

  /** `compareManifests`, proved to compute `Diff`. */
  method CompareManifests(oldM: Structure, newM: Structure) returns (changes: Changes)
    ensures changes == Diff(oldM, newM)
  {
    var keys := FOLDER_KEYS;
    changes := NoChanges;
    for i := 0 to |keys|
      invariant changes == DiffOver(keys[..i], oldM, newM)
    {
      var folder := keys[i];
      var c := CompareFolder(folder, FilesOf(oldM, folder), FilesOf(newM, folder));
      DiffOverStep(keys, i, oldM, newM);
      changes := Concat(changes, c);
    }
    assert keys[..|keys|] == keys;
  }

  /** Per folder, `added` holds a record exactly for each name only the
      new files have, carrying the new map's (last) entry for it. */
  lemma FolderAddedExact(folder: string, o: seq<FileEntry>, n: seq<FileEntry>, c: Change)
    ensures c in FolderChanges(folder, o, n).added <==>
      c.folder == folder && c.file.name in Names(n) && c.file.name !in Names(o) &&
      c.file == ToNameMap(n).vals[c.file.name]
  {
    var om, nm := ToNameMap(o), ToNameMap(n);
    OnlyInMember(folder, nm, om, |nm.keys|, c);
    assert nm.keys[..|nm.keys|] == nm.keys;
  }

  /** `removed` holds a record exactly for each name only the old files
      have, carrying the old map's entry for it. */
  lemma FolderRemovedExact(folder: string, o: seq<FileEntry>, n: seq<FileEntry>, c: Change)
    ensures c in FolderChanges(folder, o, n).removed <==>
      c.folder == folder && c.file.name in Names(o) && c.file.name !in Names(n) &&
      c.file == ToNameMap(o).vals[c.file.name]
  {
    var om, nm := ToNameMap(o), ToNameMap(n);
    OnlyInMember(folder, om, nm, |om.keys|, c);
    assert om.keys[..|om.keys|] == om.keys;
  }

  /** `modified` holds a record exactly for each name both sides have whose
      entries differ in size or date, carrying the new and the old entry. */
  lemma FolderModifiedExact(folder: string, o: seq<FileEntry>, n: seq<FileEntry>, m: Modification)
    ensures m in FolderChanges(folder, o, n).modified <==>
      m.folder == folder && m.file.name in Names(n) && m.file.name in Names(o) &&
      m.file == ToNameMap(n).vals[m.file.name] && m.oldFile == ToNameMap(o).vals[m.file.name] &&
      Differs(m.oldFile, m.file)
  {
    var om, nm := ToNameMap(o), ToNameMap(n);
    ModifiedInMember(folder, nm, om, |nm.keys|, m);
    assert nm.keys[..|nm.keys|] == nm.keys;
  }

  /** Each name lands in at most one of the three lists of a folder. */
  lemma FolderChangesDisjoint(folder: string, o: seq<FileEntry>, n: seq<FileEntry>)
    ensures var fc := FolderChanges(folder, o, n);
      (forall c, d :: c in fc.added && d in fc.removed ==> c.file.name != d.file.name) &&
      (forall c, m :: c in fc.added && m in fc.modified ==> c.file.name != m.file.name) &&
      (forall c, m :: c in fc.removed && m in fc.modified ==> c.file.name != m.file.name)
  {
    var fc := FolderChanges(folder, o, n);
    forall c, d | c in fc.added && d in fc.removed ensures c.file.name != d.file.name {
      FolderAddedExact(folder, o, n, c);
      FolderRemovedExact(folder, o, n, d);
    }
    forall c, m | c in fc.added && m in fc.modified ensures c.file.name != m.file.name {
      FolderAddedExact(folder, o, n, c);
      FolderModifiedExact(folder, o, n, m);
    }
    forall c, m | c in fc.removed && m in fc.modified ensures c.file.name != m.file.name {
      FolderRemovedExact(folder, o, n, c);
      FolderModifiedExact(folder, o, n, m);
    }
  }

  /** Comparing a folder's files with themselves finds nothing. */
  lemma FolderChangesSame(folder: string, files: seq<FileEntry>)
    ensures FolderChanges(folder, files, files) == NoChanges
  {
    var fc := FolderChanges(folder, files, files);
    if fc.added != [] {
      FolderAddedExact(folder, files, files, fc.added[0]);
    } else if fc.modified != [] {
      FolderModifiedExact(folder, files, files, fc.modified[0]);
    }
  }

  /** A record is in the whole comparison exactly when its folder is one of
      the scanned ones and it is in that folder's changes. */
  lemma {:induction false} DiffOverMembers(keys: seq<string>, a: Structure, b: Structure)
    ensures var d := DiffOver(keys, a, b);
      (forall c :: c in d.added <==>
        c.folder in keys && c in FolderChanges(c.folder, FilesOf(a, c.folder), FilesOf(b, c.folder)).added) &&
      (forall c :: c in d.removed <==>
        c.folder in keys && c in FolderChanges(c.folder, FilesOf(a, c.folder), FilesOf(b, c.folder)).removed) &&
      (forall m :: m in d.modified <==>
        m.folder in keys && m in FolderChanges(m.folder, FilesOf(a, m.folder), FilesOf(b, m.folder)).modified)
  {
    if keys != [] {
      var k := keys[|keys| - 1];
      var init := keys[..|keys| - 1];
      DiffOverMembers(init, a, b);
      assert keys == init + [k];
      forall f ensures f in keys <==> f in init || f == k {
      }
    }
  }

  lemma DiffMembers(a: Structure, b: Structure)
    ensures var d := Diff(a, b);
      (forall c :: c in d.added <==>
        c.folder in FOLDER_KEYS && c in FolderChanges(c.folder, FilesOf(a, c.folder), FilesOf(b, c.folder)).added) &&
      (forall c :: c in d.removed <==>
        c.folder in FOLDER_KEYS && c in FolderChanges(c.folder, FilesOf(a, c.folder), FilesOf(b, c.folder)).removed) &&
      (forall m :: m in d.modified <==>
        m.folder in FOLDER_KEYS && m in FolderChanges(m.folder, FilesOf(a, m.folder), FilesOf(b, m.folder)).modified)
  {
    DiffOverMembers(FOLDER_KEYS, a, b);
  }

  /** `compareManifests(M, M)` reports no changes. */
  lemma {:induction false} DiffOverSame(keys: seq<string>, m: Structure)
    ensures DiffOver(keys, m, m) == NoChanges
  {
    if keys != [] {
      var k := keys[|keys| - 1];
      DiffOverSame(keys[..|keys| - 1], m);
      FolderChangesSame(k, FilesOf(m, k));
    }
  }

  lemma DiffSame(m: Structure)
    ensures Diff(m, m) == NoChanges
  {
    DiffOverSame(FOLDER_KEYS, m);
  }

  /** Swapping the manifests swaps `added` and `removed`, record for record
      and in the same order. */
  lemma {:induction false} DiffOverSwap(keys: seq<string>, a: Structure, b: Structure)
    ensures DiffOver(keys, a, b).added == DiffOver(keys, b, a).removed
    ensures DiffOver(keys, a, b).removed == DiffOver(keys, b, a).added
  {
    if keys != [] {
      DiffOverSwap(keys[..|keys| - 1], a, b);
    }
  }

  lemma DiffSwap(a: Structure, b: Structure)
    ensures Diff(a, b).added == Diff(b, a).removed
    ensures Diff(a, b).removed == Diff(b, a).added
  {
    DiffOverSwap(FOLDER_KEYS, a, b);
  }

  /** The (folder, name) pairs reported as modified. */
  function ModifiedPairs(c: Changes): set<(string, string)>
  {
    set m | m in c.modified :: (m.folder, m.file.name)
  }

  lemma FolderModifiedSymmetric(folder: string, a: seq<FileEntry>, b: seq<FileEntry>)
    ensures ModifiedPairs(FolderChanges(folder, a, b)) == ModifiedPairs(FolderChanges(folder, b, a))
  {
    var ab, ba := FolderChanges(folder, a, b), FolderChanges(folder, b, a);
    forall p | p in ModifiedPairs(ab) ensures p in ModifiedPairs(ba) {
      var m :| m in ab.modified && p == (m.folder, m.file.name);
      FolderModifiedSwapped(folder, a, b, m);
    }
    forall p | p in ModifiedPairs(ba) ensures p in ModifiedPairs(ab) {
      var m :| m in ba.modified && p == (m.folder, m.file.name);
      FolderModifiedSwapped(folder, b, a, m);
    }
  }

  /** A modification found one way round is found, with the entries
      swapped, the other way round. */
  lemma FolderModifiedSwapped(folder: string, a: seq<FileEntry>, b: seq<FileEntry>, m: Modification)
    requires m in FolderChanges(folder, a, b).modified
    ensures m.oldFile.name == m.file.name
    ensures Modification(m.folder, m.oldFile, m.file) in FolderChanges(folder, b, a).modified
  {
    FolderModifiedExact(folder, a, b, m);
    assert ValidMap(ToNameMap(a));
    FolderModifiedExact(folder, b, a, Modification(m.folder, m.oldFile, m.file));
  }

  /** Swapping the manifests reports the same files as modified. */
  lemma {:induction false} DiffOverModifiedSymmetric(keys: seq<string>, a: Structure, b: Structure)
    ensures ModifiedPairs(DiffOver(keys, a, b)) == ModifiedPairs(DiffOver(keys, b, a))
  {
    if keys != [] {
      var k := keys[|keys| - 1];
      var init := keys[..|keys| - 1];
      DiffOverModifiedSymmetric(init, a, b);
      FolderModifiedSymmetric(k, FilesOf(a, k), FilesOf(b, k));
      ModifiedPairsConcat(DiffOver(init, a, b), FolderChanges(k, FilesOf(a, k), FilesOf(b, k)));
      ModifiedPairsConcat(DiffOver(init, b, a), FolderChanges(k, FilesOf(b, k), FilesOf(a, k)));
    }
  }

  lemma ModifiedPairsConcat(x: Changes, y: Changes)
    ensures ModifiedPairs(Concat(x, y)) == ModifiedPairs(x) + ModifiedPairs(y)
  {
    var xy := Concat(x, y);
    forall p | p in ModifiedPairs(xy) ensures p in ModifiedPairs(x) + ModifiedPairs(y) {
      var m :| m in xy.modified && p == (m.folder, m.file.name);
    }
    forall p | p in ModifiedPairs(x) + ModifiedPairs(y) ensures p in ModifiedPairs(xy) {
      if p in ModifiedPairs(x) {
        var m :| m in x.modified && p == (m.folder, m.file.name);
        assert m in xy.modified;
      } else {
        var m :| m in y.modified && p == (m.folder, m.file.name);
        assert m in xy.modified;
      }
    }
  }

  lemma DiffModifiedSymmetric(a: Structure, b: Structure)
    ensures ModifiedPairs(Diff(a, b)) == ModifiedPairs(Diff(b, a))
  {
    DiffOverModifiedSymmetric(FOLDER_KEYS, a, b);
  }

  /** Only the scanned folders are read: manifests that agree on their
      files compare alike, whatever other folders they hold. */
  lemma {:induction false} DiffOverReadsOnlyKeys(keys: seq<string>, a: Structure, a': Structure, b: Structure, b': Structure)
    requires forall k :: k in keys ==> FilesOf(a, k) == FilesOf(a', k) && FilesOf(b, k) == FilesOf(b', k)
    ensures DiffOver(keys, a, b) == DiffOver(keys, a', b')
  {
    if keys != [] {
      DiffOverReadsOnlyKeys(keys[..|keys| - 1], a, a', b, b');
    }
  }

  lemma DiffIgnoresOtherFolders(a: Structure, a': Structure, b: Structure, b': Structure)
    requires forall k :: k in FOLDER_KEYS ==> FilesOf(a, k) == FilesOf(a', k) && FilesOf(b, k) == FilesOf(b', k)
    ensures Diff(a, b) == Diff(a', b')
  {
    DiffOverReadsOnlyKeys(FOLDER_KEYS, a, a', b, b');
  }
}
