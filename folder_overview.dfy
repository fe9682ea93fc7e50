/** The folder overview: the folder's files filtered by the search box and
    sorted by the chosen key, its subfolders filtered by name, the path a
    click on a subfolder leads to, the header title, and the counts. */
module FolderOverview {
  import opened Base
  import opened Text
  import opened Entries
  import opened ProviderListing

  /** `folderData?.files || []` */
  function FilesOf(folderData: Option<Folder>): seq<FileEntry>
  {
    if folderData.Some? then folderData.value.files else []
  }

  /** `Object.values(folderData?.subfolders || {})` */
  function SubfoldersOf(folderData: Option<Folder>): seq<Folder>
  {
    if folderData.Some? then folderData.value.subfolders else []
  }

  /** The `sortBy` choice; any other value makes the comparator return 0. */
  datatype SortKey = ByName | ByType | BySize | ByDate | Unsorted

  /** `a.metadata?.size || 0` */
  function SizeOf(f: FileEntry): nat
  {
    if f.sizeBytes.Some? then f.sizeBytes.value else 0
  }

  /** The comparator of `filteredFiles` as a `<=` relation: names and type
      names in ascending order, sizes ascending, days descending (ISO days
      order as their text does), and everything equal for an unknown key. */
  function Order(key: SortKey): (le: (FileEntry, FileEntry) -> bool)
  {
    match key
    case ByName => (a: FileEntry, b: FileEntry) => StrLe(a.name, b.name)
    case ByType => (a: FileEntry, b: FileEntry) => StrLe(TypeName(a.fileType), TypeName(b.fileType))
    case BySize => (a: FileEntry, b: FileEntry) => SizeOf(a) <= SizeOf(b)
    case ByDate => (a: FileEntry, b: FileEntry) => StrLe(b.lastModified, a.lastModified)
    case Unsorted => (a: FileEntry, b: FileEntry) => true
  }

  /** Every sort key orders the files totally and transitively. */
  lemma OrderIsTotalOrder(key: SortKey)
    ensures Total(Order(key)) && Transitive(Order(key))
  {
    var le := Order(key);
    forall a: FileEntry, b: FileEntry ensures le(a, b) || le(b, a) {
      StrLeTotal(a.name, b.name);
      StrLeTotal(TypeName(a.fileType), TypeName(b.fileType));
      StrLeTotal(a.lastModified, b.lastModified);
    }
    forall a: FileEntry, b: FileEntry, c: FileEntry | le(a, b) && le(b, c) ensures le(a, c) {
      match key
      case ByName => StrLeTransitive(a.name, b.name, c.name);
      case ByType => StrLeTransitive(TypeName(a.fileType), TypeName(b.fileType), TypeName(c.fileType));
      case ByDate => StrLeTransitive(c.lastModified, b.lastModified, a.lastModified);
      case _ =>
    }
  }

  /** `filteredFiles`: the files whose name contains the query, ignoring
      ASCII case, sorted on a copy. */
  function FilteredFiles(files: seq<FileEntry>, query: string, key: SortKey): seq<FileEntry>
  {
    SortBy(MatchingFiles(files, query), Order(key))
  }

  /** The result is sorted by the chosen key and holds exactly the matching
      files, each as often as among the folder's files. */
  lemma FilteredFilesSpec(files: seq<FileEntry>, query: string, key: SortKey)
    ensures SortedBy(FilteredFiles(files, query, key), Order(key))
    ensures multiset(FilteredFiles(files, query, key)) == multiset(MatchingFiles(files, query))
    ensures forall x :: x in FilteredFiles(files, query, key) <==> x in files && NameMatches(x.name, query)
  {
    OrderIsTotalOrder(key);
    SortBySorted(MatchingFiles(files, query), Order(key));
    var r := FilteredFiles(files, query, key);
    forall x ensures x in r <==> x in MatchingFiles(files, query) {
      assert x in r <==> x in multiset(r);
    }
  }

  /** An empty search box keeps every file. */
  lemma EmptyQueryKeepsAll(files: seq<FileEntry>, key: SortKey)
    ensures multiset(FilteredFiles(files, "", key)) == multiset(files)
  {
    MatchingEmptyQuery(files);
  }

  /** Files without a recorded byte size (the manifest and the storage
      service never record one) all weigh 0, so sorting by size keeps the
      filtered order; so does an unknown sort key. */
  lemma SizeSortKeepsOrderWithoutSizes(files: seq<FileEntry>, query: string)
    requires forall i :: 0 <= i < |files| ==> files[i].sizeBytes.None?
    ensures FilteredFiles(files, query, BySize) == MatchingFiles(files, query)
    ensures FilteredFiles(files, query, Unsorted) == MatchingFiles(files, query)
  {
    var m := MatchingFiles(files, query);
    MatchingWithoutSizes(files, query);
    var le := Order(BySize);
    forall i, j | 0 <= i < |m| && 0 <= j < |m|
      ensures le(m[i], m[j])
    {
      assert SizeOf(m[i]) == 0 && SizeOf(m[j]) == 0;
    }
    SortByAllEqual(m, le);
    SortByAllEqual(m, Order(Unsorted));
    assert FilteredFiles(files, query, BySize) == SortBy(m, le);
  }

  /** The matching files of a folder without sizes have no sizes either. */
  lemma MatchingWithoutSizes(files: seq<FileEntry>, query: string)
    requires forall i :: 0 <= i < |files| ==> files[i].sizeBytes.None?
    ensures forall i :: 0 <= i < |MatchingFiles(files, query)| ==> SizeOf(MatchingFiles(files, query)[i]) == 0
  {
    var m := MatchingFiles(files, query);
    forall i | 0 <= i < |m| ensures SizeOf(m[i]) == 0 {
      assert m[i] in files;
      var k :| 0 <= k < |files| && files[k] == m[i];
    }
  }

  /** `folder.name.toLowerCase().includes(searchQuery.toLowerCase())` over
      the subfolders, in their original order. */
  function FilteredSubfolders(subs: seq<Folder>, query: string): (r: seq<Folder>)
    ensures IsSubseq(r, subs)
    ensures forall d :: d in r <==> d in subs && NameMatches(d.name, query)
    ensures forall d :: multiset(r)[d] == if NameMatches(d.name, query) then multiset(subs)[d] else 0
  {
    if subs == [] then []
    else
      var rest := FilteredSubfolders(subs[1..], query);
      assert subs == [subs[0]] + subs[1..];
      assert forall d :: d in subs && d != subs[0] ==> d in subs[1..];
      if NameMatches(subs[0].name, query) then [subs[0]] + rest else rest
  }

  /** `handleFolderClick(folder)`: the new folder path, relative to the
      bucket. */
  function HandleFolderClick(folderPath: string, folder: Folder): (r: string)
    ensures folderPath == "" ==> r == folder.name
    ensures folderPath != "" ==> Split(r) == Split(folderPath) + Split(folder.name)
  {
    FullPath(folderPath, folder.name)
  }

  /** The header title: the last `/`-segment of the folder path, or `None`
      for the bucket's translated label when the path is empty. */
  function HeaderTitle(folderPath: string): (r: Option<string>)
    ensures r.None? <==> folderPath == ""
    ensures r.Some? ==> r.value == Split(folderPath)[|Split(folderPath)| - 1]
    ensures r.Some? ==> '/' !in r.value && |r.value| <= |folderPath|
    ensures r.Some? ==> folderPath[|folderPath| - |r.value|..] == r.value
    ensures r.Some? ==> |r.value| == |folderPath| || folderPath[|folderPath| - |r.value| - 1] == '/'
  {
    if folderPath == "" then None
    else
      LastSegmentIsTail(folderPath);
      Some(LastSegment(folderPath))
  }

  /** After a click on a subfolder whose name is non-empty and holds no `/`,
      the header shows that name. */
  lemma HeaderShowsClickedFolder(folderPath: string, folder: Folder)
    requires folder.name != "" && '/' !in folder.name
    ensures HeaderTitle(HandleFolderClick(folderPath, folder)) == Some(folder.name)
  {
    SplitNoSlash(folder.name);
  }

  datatype Counts = Counts(totalFiles: nat, totalSubfolders: nat, pdfCount: nat, imageCount: nat)

  /** The counts shown under the header. */
  function CountsOf(folderData: Option<Folder>): (c: Counts)
    ensures c.pdfCount + c.imageCount <= c.totalFiles
    ensures c.totalFiles == |FilesOf(folderData)| && c.totalSubfolders == |SubfoldersOf(folderData)|
    ensures c.pdfCount == CountOfType(FilesOf(folderData), Pdf) && c.imageCount == CountOfType(FilesOf(folderData), Image)
  {
    var files := FilesOf(folderData);
    TypeCountsBound(files);
    Counts(|files|, |SubfoldersOf(folderData)|, CountOfType(files, Pdf), CountOfType(files, Image))
  }
}
