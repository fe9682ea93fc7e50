/** The sidebar's list logic: the recently opened files, the favourites, the
    sets of expanded folders and subfolders, the expansion driven by the
    URL, the recursive file counts shown as badges, and the `/`-separated
    subfolder paths. */
module Sidebar {
  import opened Base
  import opened Text
  import opened Entries
  import opened UrlNavigation

  /* ---------------------------------------------------------------------
     Recent files and favourites
     --------------------------------------------------------------------- */

  /** `files.some(f => f.id === id)` */
  predicate HasId(files: seq<FileEntry>, id: string)
  {
    exists i :: 0 <= i < |files| && files[i].id == id
  }

  /** `files.filter(f => f.id !== id)` */
  function WithoutId(files: seq<FileEntry>, id: string): (r: seq<FileEntry>)
    ensures IsSubseq(r, files)
    ensures !HasId(r, id)
    ensures forall x :: multiset(r)[x] == if x.id != id then multiset(files)[x] else 0
  {
    if files == [] then []
    else
      var rest := WithoutId(files[1..], id);
      assert files == [files[0]] + files[1..];
      if files[0].id != id then
        assert forall i :: 1 <= i < |[files[0]] + rest| ==> ([files[0]] + rest)[i] == rest[i - 1];
        [files[0]] + rest
      else
        assert rest != [] ==> rest[0].id != id;
        rest
  }

  /** The filter keeps exactly the entries with a different id. */
  lemma {:induction false} WithoutIdMembers(files: seq<FileEntry>, id: string)
    ensures forall x :: x in WithoutId(files, id) <==> x in files && x.id != id
  {
    if files != [] {
      WithoutIdMembers(files[1..], id);
      assert files == [files[0]] + files[1..];
    }
  }

  /** Removing an id no entry carries changes nothing. */
  lemma {:induction false} WithoutAbsentId(files: seq<FileEntry>, id: string)
    requires !HasId(files, id)
    ensures WithoutId(files, id) == files
  {
    if files != [] {
      assert !HasId(files[1..], id) by {
        forall i | 0 <= i < |files[1..]| ensures files[1..][i].id != id {
          assert files[1..][i] == files[i + 1];
        }
      }
      WithoutAbsentId(files[1..], id);
    }
  }

  /** No two entries share an id. */
  predicate DistinctIds(files: seq<FileEntry>)
  {
    forall i, j :: 0 <= i < j < |files| ==> files[i].id != files[j].id
  }

  /** A sub-sequence of a list with distinct ids has distinct ids. */
  lemma {:induction false} SubseqDistinctIds(a: seq<FileEntry>, b: seq<FileEntry>)
    requires IsSubseq(a, b) && DistinctIds(b)
    ensures DistinctIds(a)
    decreases |b|
  {
    if a != [] {
      assert DistinctIds(b[1..]) by {
        forall i, j | 0 <= i < j < |b[1..]| ensures b[1..][i].id != b[1..][j].id {
          assert b[1..][i] == b[i + 1] && b[1..][j] == b[j + 1];
        }
      }
      if a[0] == b[0] {
        SubseqDistinctIds(a[1..], b[1..]);
        SubseqMembers(a[1..], b[1..]);
        forall i, j | 0 <= i < j < |a| ensures a[i].id != a[j].id {
          if i == 0 {
            assert a[j] == a[1..][j - 1];
            assert a[j] in b[1..];
            var k :| 0 <= k < |b[1..]| && b[1..][k] == a[j];
            assert b[k + 1] == a[j];
          } else {
            assert a[i] == a[1..][i - 1] && a[j] == a[1..][j - 1];
          }
        }
      } else {
        SubseqDistinctIds(a, b[1..]);
      }
    }
  }

  /** `[file, ...recent.filter(f => f.id !== file.id)].slice(0, 10)` */
  function SelectRecent(file: FileEntry, recent: seq<FileEntry>): (r: seq<FileEntry>)
    ensures 1 <= |r| <= 10 && r[0] == file
    ensures !HasId(r[1..], file.id)
    ensures IsSubseq(r[1..], recent)
    ensures |r| == if |WithoutId(recent, file.id)| < 10 then |WithoutId(recent, file.id)| + 1 else 10
  {
    var rest := WithoutId(recent, file.id);
    var all := [file] + rest;
    var r := if |all| <= 10 then all else all[..10];
    assert r[1..] == rest[..|r| - 1];
    PrefixOfSubseq(rest, recent, |r| - 1);
    r
  }

  /** If the old recent list had distinct ids, so does the new one. */
  lemma SelectRecentDistinct(file: FileEntry, recent: seq<FileEntry>)
    requires DistinctIds(recent)
    ensures DistinctIds(SelectRecent(file, recent))
  {
    var r := SelectRecent(file, recent);
    SubseqDistinctIds(r[1..], recent);
    forall i, j | 0 <= i < j < |r| ensures r[i].id != r[j].id {
      if i == 0 {
        assert r[j] == r[1..][j - 1];
      } else {
        assert r[i] == r[1..][i - 1] && r[j] == r[1..][j - 1];
      }
    }
  }

  /** Opening a file that is already among the recent ones moves it to the
      front; every other entry keeps its relative order, and only the
      oldest may drop off. */
  lemma SelectRecentKeepsOthers(file: FileEntry, recent: seq<FileEntry>)
    ensures var r := SelectRecent(file, recent);
      r[1..] == WithoutId(recent, file.id)[..|r| - 1]
  {
  }

  /** `toggleFavorite(file)`: drops every entry with the file's id if there
      is one, otherwise puts the file in front. */
  function ToggleFavorite(file: FileEntry, favorites: seq<FileEntry>): (r: seq<FileEntry>)
    ensures HasId(r, file.id) <==> !HasId(favorites, file.id)
    ensures HasId(favorites, file.id) ==> IsSubseq(r, favorites) && forall x :: x in favorites && x.id != file.id ==> x in r
    ensures HasId(favorites, file.id) ==>
      forall x :: multiset(r)[x] == if x.id != file.id then multiset(favorites)[x] else 0
    ensures !HasId(favorites, file.id) ==> r == [file] + favorites
  {
    if HasId(favorites, file.id) then
      WithoutIdMembers(favorites, file.id);
      WithoutId(favorites, file.id)
    else
      assert ([file] + favorites)[0].id == file.id;
      [file] + favorites
  }

  /** Favouriting a file and un-favouriting it again restores the list. */
  lemma ToggleFavoriteTwice(file: FileEntry, favorites: seq<FileEntry>)
    requires !HasId(favorites, file.id)
    ensures ToggleFavorite(file, ToggleFavorite(file, favorites)) == favorites
  {
    var once := [file] + favorites;
    assert once[1..] == favorites;
    WithoutAbsentId(favorites, file.id);
  }

  /** Membership of one key flipped in a copy of the set. */
  function Toggle(s: set<string>, key: string): (r: set<string>)
    ensures key in r <==> key !in s
    ensures forall x :: x != key ==> (x in r <==> x in s)
  {
    if key in s then s - {key} else s + {key}
  }

  lemma ToggleTwice(s: set<string>, key: string)
    ensures Toggle(Toggle(s, key), key) == s
  {
  }

  /* ---------------------------------------------------------------------
     Expansion driven by the URL
     --------------------------------------------------------------------- */

  /** The expanded folder and subfolder sets after the URL effect has run:
      with a bucket in the URL and a non-empty structure, the bucket is
      expanded, and so is `bucket/folder` when the URL names a folder. */
  function AutoExpand(params: UrlParams, structureSize: nat, folders: set<string>, subfolders: set<string>)
    : (r: (set<string>, set<string>))
    ensures folders <= r.0 && subfolders <= r.1
    ensures Truthy(params.bucket) && structureSize > 0 ==> params.bucket.value in r.0
    ensures Truthy(params.bucket) && structureSize > 0 && Truthy(params.folder) ==>
      FullFolderPath(params.bucket.value, params.folder) in r.1
    ensures r.0 - folders <= (if Truthy(params.bucket) && structureSize > 0 then {params.bucket.value} else {})
    ensures r.1 - subfolders <=
      (if Truthy(params.bucket) && structureSize > 0 && Truthy(params.folder)
       then {FullFolderPath(params.bucket.value, params.folder)} else {})
    ensures !(Truthy(params.bucket) && structureSize > 0) ==> r == (folders, subfolders)
    ensures (params.bucket.Some? && params.bucket.value in folders &&
             (Truthy(params.folder) ==> FullFolderPath(params.bucket.value, params.folder) in subfolders))
      ==> r == (folders, subfolders)
  {
    if params.bucket.Some? && Truthy(params.bucket) && structureSize > 0 then
      var b := params.bucket.value;
      var fs := if b in folders then folders else folders + {b};
      if Truthy(params.folder) then
        var p := b + "/" + params.folder.value;
        var ss := if p in subfolders then subfolders else subfolders + {p};
        assert ss - subfolders <= {p};
        (fs, ss)
      else (fs, subfolders)
    else (folders, subfolders)
  }

  /** Running the effect again changes nothing. */
  lemma AutoExpandIdempotent(params: UrlParams, structureSize: nat, folders: set<string>, subfolders: set<string>)
    ensures var once := AutoExpand(params, structureSize, folders, subfolders);
      AutoExpand(params, structureSize, once.0, once.1) == once
  {
  }

  /* ---------------------------------------------------------------------
     Recursive file counts
     --------------------------------------------------------------------- */

  /** The number of files in a folder and all folders below it. */
  function DeepCount(f: Folder): nat
    decreases f, 1
  {
    |f.files| + SubfoldersCount(f.subfolders)
  }

  /** `subfolders.reduce((count, sf) => count + countFilesInSubfolder(sf), 0)` */
  function SubfoldersCount(fs: seq<Folder>): nat
    decreases fs, 0
  {
    if fs == [] then 0 else SubfoldersCount(fs[..|fs| - 1]) + DeepCount(fs[|fs| - 1])
  }

  /** The files of a folder and all folders below it, the folder's own
      first, then each subfolder's in order. */
  function DeepFiles(f: Folder): seq<FileEntry>
    decreases f, 1
  {
    f.files + SubfoldersFiles(f.subfolders)
  }

  function SubfoldersFiles(fs: seq<Folder>): seq<FileEntry>
    decreases fs, 0
  {
    if fs == [] then [] else SubfoldersFiles(fs[..|fs| - 1]) + DeepFiles(fs[|fs| - 1])
  }

  /** The count is the number of files that sit anywhere below the folder. */
  lemma {:induction false} DeepCountIsFileCount(f: Folder)
    ensures DeepCount(f) == |DeepFiles(f)|
    decreases f, 1
  {
    SubfoldersCountIsFileCount(f.subfolders);
  }

  lemma {:induction false} SubfoldersCountIsFileCount(fs: seq<Folder>)
    ensures SubfoldersCount(fs) == |SubfoldersFiles(fs)|
    decreases fs, 0
  {
    if fs != [] {
      SubfoldersCountIsFileCount(fs[..|fs| - 1]);
      DeepCountIsFileCount(fs[|fs| - 1]);
    }
  }

  /** `countFilesInSubfolder`: the folder's own files plus, subfolder by
      subfolder, the recursive count. */
  method CountFilesInSubfolder(f: Folder) returns (count: nat)
    ensures count == DeepCount(f)
    decreases f
  {
    count := |f.files|;
    var subs := f.subfolders;
    for i := 0 to |subs|
      invariant count == |f.files| + SubfoldersCount(subs[..i])
    {
      assert subs[..i + 1][..i] == subs[..i];
      var c := CountFilesInSubfolder(subs[i]);
      count := count + c;
    }
    assert subs[..|subs|] == subs;
  }

  /** The total on a folder's badge: its PDFs and images, plus everything
      counted in its subfolders. */
  function BadgeTotal(f: Folder): nat
  {
    CountOfType(f.files, Pdf) + CountOfType(f.files, Image) + SubfoldersCount(f.subfolders)
  }

  /** The badge never shows more than the folder holds, and shows exactly
      that when none of its own files is of unknown type (files of unknown
      type further down are counted all the same). */
  lemma BadgeTotalBound(f: Folder)
    ensures BadgeTotal(f) <= DeepCount(f)
    ensures BadgeTotal(f) == DeepCount(f) <==> forall i :: 0 <= i < |f.files| ==> f.files[i].fileType != Unknown
  {
    TypeCountsBound(f.files);
  }

  /* ---------------------------------------------------------------------
     Subfolder paths
     --------------------------------------------------------------------- */

  /** The key of a subfolder reached from `parent` through the folders
      named `names`: each level appends `/name` to its parent's key. */
  function SubfolderPath(parent: string, names: seq<string>): string
    decreases names
  {
    if names == [] then parent else SubfolderPath(parent + "/" + names[0], names[1..])
  }

  predicate NoSlashIn(names: seq<string>)
  {
    forall i :: 0 <= i < |names| ==> '/' !in names[i]
  }

  lemma {:induction false} SubfolderPathJoin(parent: string, names: seq<string>)
    requires names != []
    ensures SubfolderPath(parent, names) == parent + "/" + Join(names)
    decreases names
  {
    if |names| > 1 {
      SubfolderPathJoin(parent + "/" + names[0], names[1..]);
      assert parent + "/" + names[0] + "/" + Join(names[1..]) == parent + "/" + (names[0] + "/" + Join(names[1..]));
    }
  }

  /** Splitting names joined with `/` gives back the names. */
  lemma {:induction false} SplitJoin(names: seq<string>)
    requires names != [] && NoSlashIn(names)
    ensures Split(Join(names)) == names
  {
    SplitNoSlash(names[0]);
    if |names| > 1 {
      SplitJoin(names[1..]);
      SplitConcat(names[0], Join(names[1..]));
    }
  }

  /** The bucket and folder path a click on a subfolder reports:
      `path.split('/')[0]` and `path.split('/').slice(1).join('/')`. */
  function ClickTarget(path: string): (string, string)
  {
    var parts := Split(path);
    (parts[0], Join(parts[1..]))
  }

  /** A subfolder reached from a bucket through folders whose names hold no
      `/` reports that bucket and the names joined with `/`; and the same
      path is the key the URL expansion marks for that bucket and folder
      path. */
  lemma ClickTargetOfSubfolder(bucket: string, names: seq<string>)
    requires '/' !in bucket && names != [] && NoSlashIn(names)
    ensures ClickTarget(SubfolderPath(bucket, names)) == (bucket, Join(names))
    ensures FullFolderPath(bucket, Some(Join(names))) == SubfolderPath(bucket, names) || Join(names) == ""
  {
    SubfolderPathJoin(bucket, names);
    SplitJoin(names);
    SplitNoSlash(bucket);
    SplitConcat(bucket, Join(names));
    var parts := Split(SubfolderPath(bucket, names));
    assert parts == [bucket] + names;
    assert parts[1..] == names;
  }

  /* ---------------------------------------------------------------------
     The sidebar's state
     --------------------------------------------------------------------- */

  class SidebarState {
    var recentFiles: seq<FileEntry>
    var favoriteFiles: seq<FileEntry>
    var expandedFolders: set<string>
    var expandedSubfolders: set<string>

    /** Nothing expanded; the two lists as stored in the browser. */
    constructor (recent: seq<FileEntry>, favorites: seq<FileEntry>)
      ensures recentFiles == recent && favoriteFiles == favorites
      ensures expandedFolders == {} && expandedSubfolders == {}
    {
      recentFiles := recent;
      favoriteFiles := favorites;
      expandedFolders := {};
      expandedSubfolders := {};
    }

    /** `handleFileSelect(file)` */
    method HandleFileSelect(file: FileEntry)
      modifies this
      ensures recentFiles == SelectRecent(file, old(recentFiles))
      ensures favoriteFiles == old(favoriteFiles)
      ensures expandedFolders == old(expandedFolders) && expandedSubfolders == old(expandedSubfolders)
    {
      recentFiles := SelectRecent(file, recentFiles);
    }

    /** `toggleFavorite(file)` */
    method ToggleFavoriteFile(file: FileEntry)
      modifies this
      ensures favoriteFiles == ToggleFavorite(file, old(favoriteFiles))
      ensures IsFavorite(file.id) <==> !old(IsFavorite(file.id))
      ensures recentFiles == old(recentFiles)
      ensures expandedFolders == old(expandedFolders) && expandedSubfolders == old(expandedSubfolders)
    {
      favoriteFiles := ToggleFavorite(file, favoriteFiles);
    }

    /** `isFavorite(fileId)` */
    function IsFavorite(id: string): (r: bool)
      reads this
      ensures r <==> exists i :: 0 <= i < |favoriteFiles| && favoriteFiles[i].id == id
    {
      HasId(favoriteFiles, id)
    }

    /** `toggleFolder(folderId)` */
    method ToggleFolder(id: string)
      modifies this
      ensures expandedFolders == Toggle(old(expandedFolders), id)
      ensures expandedSubfolders == old(expandedSubfolders)
      ensures recentFiles == old(recentFiles) && favoriteFiles == old(favoriteFiles)
    {
      expandedFolders := Toggle(expandedFolders, id);
    }

    /** `toggleSubfolder(subfolderPath)` */
    method ToggleSubfolder(path: string)
      modifies this
      ensures expandedSubfolders == Toggle(old(expandedSubfolders), path)
      ensures expandedFolders == old(expandedFolders)
      ensures recentFiles == old(recentFiles) && favoriteFiles == old(favoriteFiles)
    {
      expandedSubfolders := Toggle(expandedSubfolders, path);
    }

    /** The URL effect: `hasUrlNavigation` is `bucket !== null`, and the
        bucket must also be non-empty. */
    method ExpandFromUrl(params: UrlParams, structureSize: nat)
      modifies this
      ensures (expandedFolders, expandedSubfolders) == AutoExpand(params, structureSize, old(expandedFolders), old(expandedSubfolders))
      ensures recentFiles == old(recentFiles) && favoriteFiles == old(favoriteFiles)
    {
      var r := AutoExpand(params, structureSize, expandedFolders, expandedSubfolders);
      expandedFolders := r.0;
      expandedSubfolders := r.1;
    }
  }
}
