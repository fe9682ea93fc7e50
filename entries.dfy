/** The records the application passes around: a file entry as built by the
    manifest script and by the storage service, a folder (`{name, files,
    subfolders}`), and a folder structure, the JavaScript object that maps a
    folder key to its folder. Object keys keep their insertion order, so a
    structure is a sequence of key/folder slots. */
module Entries {
  import opened Base
  import opened Text

  datatype FileType = Pdf | Image | Unknown

  /** The `type` string stored in an entry. */
  function TypeName(t: FileType): string
  {
    match t
    case Pdf => "pdf"
    case Image => "image"
    case Unknown => "unknown"
  }

  /** A file entry. `size` is the human-readable size string and
      `lastModified` an ISO `YYYY-MM-DD` day; `bucket` is set only by the
      storage service; `sizeBytes` is `metadata.size`, which only raw
      provider listings carry. */
  datatype FileEntry = FileEntry(
    id: string,
    name: string,
    path: string,
    fileType: FileType,
    size: string,
    lastModified: string,
    bucket: Option<string>,
    sizeBytes: Option<nat>)

  datatype Folder = Folder(name: string, files: seq<FileEntry>, subfolders: seq<Folder>)

  datatype Slot = Slot(key: string, folder: Folder)

  /** A folder structure: `Object.entries` of the JavaScript object, in key
      order. */
  type Structure = seq<Slot>

  function Keys(st: Structure): (r: seq<string>)
    ensures |r| == |st| && forall i :: 0 <= i < |st| ==> r[i] == st[i].key
  {
    if st == [] then [] else [st[0].key] + Keys(st[1..])
  }

  /** `{name: key, files: []}` for every key. */
  function EmptyFolders(keys: seq<string>): (r: Structure)
    ensures Keys(r) == keys
    ensures forall i :: 0 <= i < |r| ==> r[i].folder == Folder(keys[i], [], [])
  {
    if keys == [] then [] else [Slot(keys[0], Folder(keys[0], [], []))] + EmptyFolders(keys[1..])
  }

  /** Empty folders hold no files. */
  lemma {:induction false} EmptyFoldersHaveNoFiles(keys: seq<string>)
    ensures AllFiles(EmptyFolders(keys)) == []
  {
    if keys != [] {
      EmptyFoldersHaveNoFiles(keys[1..]);
      assert EmptyFolders(keys)[1..] == EmptyFolders(keys[1..]);
    }
  }

  /** Sum of the lengths of the top-level file lists. */
  function FileCount(st: Structure): nat
  {
    if st == [] then 0 else |st[0].folder.files| + FileCount(st[1..])
  }

  /** `Object.values(st).flatMap(folder => folder.files || [])`: the files of
      the top-level folders, folder after folder, without the subfolders. */
  function AllFiles(st: Structure): (r: seq<FileEntry>)
    ensures |r| == FileCount(st)
  {
    if st == [] then [] else st[0].folder.files + AllFiles(st[1..])
  }

  lemma {:induction false} AllFilesAppend(a: Structure, b: Structure)
    ensures AllFiles(a + b) == AllFiles(a) + AllFiles(b)
  {
    if a != [] {
      assert (a + b)[1..] == a[1..] + b;
      AllFilesAppend(a[1..], b);
      assert AllFiles(a + b) == a[0].folder.files + AllFiles(a[1..] + b);
    } else {
      assert a + b == b;
    }
  }

  /** A file is listed exactly when some top-level folder holds it. */
  lemma {:induction false} AllFilesMembers(st: Structure, x: FileEntry)
    ensures x in AllFiles(st) <==> exists i :: 0 <= i < |st| && x in st[i].folder.files
  {
    if st != [] {
      AllFilesMembers(st[1..], x);
      if x in AllFiles(st[1..]) {
        var i :| 0 <= i < |st[1..]| && x in st[1..][i].folder.files;
        assert x in st[i + 1].folder.files;
      }
      if exists i :: 0 <= i < |st| && x in st[i].folder.files {
        var i :| 0 <= i < |st| && x in st[i].folder.files;
        if i > 0 {
          assert x in st[1..][i - 1].folder.files;
        }
      }
    }
  }

  /** Subfolders play no part: two structures whose top-level file lists
      agree list the same files. */
  lemma {:induction false} AllFilesIgnoresSubfolders(a: Structure, b: Structure)
    requires |a| == |b|
    requires forall i :: 0 <= i < |a| ==> a[i].folder.files == b[i].folder.files
    ensures AllFiles(a) == AllFiles(b)
  {
    if a != [] {
      AllFilesIgnoresSubfolders(a[1..], b[1..]);
    }
  }

  /** `files.filter(f => f.type === t).length` */
  function CountOfType(files: seq<FileEntry>, t: FileType): (n: nat)
    ensures n <= |files|
    ensures n == 0 <==> forall i :: 0 <= i < |files| ==> files[i].fileType != t
    ensures n == multiset(seq(|files|, i requires 0 <= i < |files| => files[i].fileType))[t]
  {
    if files == [] then 0
    else
      assert forall i :: 1 <= i < |files| ==> files[i] == files[1..][i - 1];
      assert seq(|files|, i requires 0 <= i < |files| => files[i].fileType)
        == [files[0].fileType] + seq(|files[1..]|, i requires 0 <= i < |files[1..]| => files[1..][i].fileType);
      (if files[0].fileType == t then 1 else 0) + CountOfType(files[1..], t)
  }

  /** The PDF and image counts together never exceed the number of files,
      and reach it exactly when no file is of unknown type. */
  lemma {:induction false} TypeCountsBound(files: seq<FileEntry>)
    ensures CountOfType(files, Pdf) + CountOfType(files, Image) + CountOfType(files, Unknown) == |files|
    ensures CountOfType(files, Pdf) + CountOfType(files, Image) <= |files|
    ensures CountOfType(files, Pdf) + CountOfType(files, Image) == |files| <==> forall i :: 0 <= i < |files| ==> files[i].fileType != Unknown
  {
    if files != [] {
      TypeCountsBound(files[1..]);
    }
  }

  /** `file.name.toLowerCase().includes(query.toLowerCase())` */
  predicate NameMatches(name: string, query: string)
  {
    Contains(Lower(name), Lower(query))
  }

  /** How many of the files have a matching name. */
  function MatchCount(files: seq<FileEntry>, query: string): nat
  {
    if files == [] then 0
    else (if NameMatches(files[0].name, query) then 1 else 0) + MatchCount(files[1..], query)
  }

  /** The files whose name matches, in their original order. A sub-sequence
      made of matching files only, as long as the number of matching files,
      keeps every one of them. */
  function MatchingFiles(files: seq<FileEntry>, query: string): (r: seq<FileEntry>)
    ensures IsSubseq(r, files)
    ensures forall x :: x in r ==> x in files && NameMatches(x.name, query)
    ensures forall x :: x in files && NameMatches(x.name, query) ==> x in r
    ensures |r| == MatchCount(files, query)
  {
    if files == [] then []
    else
      var rest := MatchingFiles(files[1..], query);
      assert files == [files[0]] + files[1..];
      if NameMatches(files[0].name, query) then [files[0]] + rest
      else
        assert forall x :: x in files && x != files[0] ==> x in files[1..];
        rest
  }

  /** Each file is kept exactly as often as it occurs, when its name
      matches, and not at all otherwise. */
  lemma {:induction false} MatchingFilesCount(files: seq<FileEntry>, query: string)
    ensures forall x ::
      multiset(MatchingFiles(files, query))[x] == (if NameMatches(x.name, query) then multiset(files)[x] else 0)
  {
    if files != [] {
      MatchingFilesCount(files[1..], query);
      assert files == [files[0]] + files[1..];
    }
  }

  /** The empty query matches every file, so it filters nothing out. */
  lemma {:induction false} MatchingEmptyQuery(files: seq<FileEntry>)
    ensures MatchingFiles(files, "") == files
  {
    if files != [] {
      ContainsEmpty(Lower(files[0].name));
      MatchingEmptyQuery(files[1..]);
    }
  }

  /** The search over a folder structure: nothing for a blank query,
      otherwise the top-level files whose name contains the query, ignoring
      ASCII case, in folder order. */
  function SearchFiles(query: string, st: Structure): (r: seq<FileEntry>)
    ensures IsBlank(query) ==> r == []
    ensures IsSubseq(r, AllFiles(st))
    ensures forall x :: x in r ==> NameMatches(x.name, query)
    ensures !IsBlank(query) ==> forall x :: x in AllFiles(st) && NameMatches(x.name, query) ==> x in r
    ensures forall x ::
      multiset(r)[x] == (if !IsBlank(query) && NameMatches(x.name, query) then multiset(AllFiles(st))[x] else 0)
  {
    if Trim(query) == [] then [] else MatchingFilesCount(AllFiles(st), query); MatchingFiles(AllFiles(st), query)
  }
}
