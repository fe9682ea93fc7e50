/** The storage client's listing helpers. The provider's answers are given
    as data: a listing response holds the entries at one path, and each
    entry carries the response the provider gives when that entry's full
    path is listed in turn, so the whole bucket is one finite tree. */
module ProviderListing {
  import opened Base
  import opened Text

  /** A provider entry: `id` is `null` for a folder. `sub` is the answer to
      listing this entry's full path; only folders are listed again. */
  datatype Item = Item(name: string, id: Option<string>, size: Option<nat>, updatedAt: Option<string>, sub: Response)

  /** The answer to one `list` call: an `error`, an exception, `data: null`,
      or the entries. */
  datatype Response = ProviderError | Thrown | NullData | Data(items: seq<Item>)

  /** `{...item, path: fullPath}` */
  datatype ListedFile = ListedFile(name: string, id: Option<string>, size: Option<nat>, updatedAt: Option<string>, path: string)

  /** `{name, path, files, folders}` for a folder entry. */
  datatype FolderRecord = FolderRecord(name: string, path: string, files: seq<ListedFile>, folders: seq<FolderRecord>)

  datatype Listing = Listing(files: seq<ListedFile>, folders: seq<FolderRecord>)

  const EmptyListing := Listing([], [])

  /** `listFilesInBucket`: the entries when the provider returned some, and
      `[]` on an error, on `data: null` and on an exception. */
  function ListFilesInBucket(resp: Response): (r: seq<Item>)
    ensures resp.Data? ==> r == resp.items
    ensures !resp.Data? ==> r == []
  {
    match resp
    case Data(items) => items
    case _ => []
  }

  /** `path ? `${path}/${name}` : name` */
  function FullPath(path: string, name: string): (r: string)
    ensures path == "" ==> r == name
    ensures path != "" ==> Split(r) == Split(path) + Split(name)
  {
    if path == "" then name
    else
      SplitConcat(path, name);
      path + "/" + name
  }

  function AsFile(it: Item, path: string): ListedFile
  {
    ListedFile(it.name, it.id, it.size, it.updatedAt, FullPath(path, it.name))
  }

  /** The listing `listFilesAndFoldersRecursively(bucket, path)` returns for
      the provider's answer `resp` at `path`: one file or folder record per
      entry listed there, and nothing when the listing fails. */
  function ListingOf(resp: Response, path: string): (l: Listing)
    ensures |l.files| + |l.folders| == |ListFilesInBucket(resp)|
    decreases resp, 1
  {
    match resp
    case Data(items) => ListItems(items, path)
    case _ => EmptyListing
  }

  /** The record for a folder entry: its nested listing, whatever became of
      it. */
  function FolderRecordOf(it: Item, path: string): FolderRecord
    decreases it, 2
  {
    var fp := FullPath(path, it.name);
    var sub := ListingOf(it.sub, fp);
    FolderRecord(it.name, fp, sub.files, sub.folders)
  }

  /** The loop over the entries: a folder entry becomes a record, any other
      entry a file, so there is one of them per entry. */
  function ListItems(items: seq<Item>, path: string): (l: Listing)
    ensures |l.files| + |l.folders| == |items|
    decreases items, 0
  {
    if items == [] then EmptyListing
    else
      var l := ListItems(items[..|items| - 1], path);
      var it := items[|items| - 1];
      if it.id.None? then Listing(l.files, l.folders + [FolderRecordOf(it, path)])
      else Listing(l.files + [AsFile(it, path)], l.folders)
  }

  /** One more entry extends the listing of the entries before it. */
  lemma ListItemsStep(items: seq<Item>, i: nat, path: string)
    requires i < |items|
    ensures var l, it := ListItems(items[..i], path), items[i];
      ListItems(items[..i + 1], path) ==
        if it.id.None? then Listing(l.files, l.folders + [FolderRecordOf(it, path)])
        else Listing(l.files + [AsFile(it, path)], l.folders)
  {
    assert items[..i + 1][..i] == items[..i];
  }

  /** `listFilesAndFoldersRecursively`, proved to compute `ListingOf`. */
  method ListFilesAndFoldersRecursively(resp: Response, path: string) returns (l: Listing)
    ensures l == ListingOf(resp, path)
    decreases resp
  {
    if !resp.Data? {
      return EmptyListing;
    }
    var items := resp.items;
    var files: seq<ListedFile> := [];
    var folders: seq<FolderRecord> := [];
    for i := 0 to |items|
      invariant Listing(files, folders) == ListItems(items[..i], path)
    {
      var it := items[i];
      ListItemsStep(items, i, path);
      var fullPath := FullPath(path, it.name);
      if it.id.None? {
        var subItems := ListFilesAndFoldersRecursively(it.sub, fullPath);
        folders := folders + [FolderRecord(it.name, fullPath, subItems.files, subItems.folders)];
      } else {
        files := files + [ListedFile(it.name, it.id, it.size, it.updatedAt, fullPath)];
      }
    }
    assert items[..|items|] == items;
    l := Listing(files, folders);
  }

  /** The file entries (`id` set), in order. */
  function FileItems(items: seq<Item>): (r: seq<Item>)
    ensures IsSubseq(r, items)
  {
    if items == [] then []
    else
      var init := items[..|items| - 1];
      var it := items[|items| - 1];
      var rest := FileItems(init);
      assert items == init + [it];
      if it.id.Some? then
        SubseqSnoc(rest, init, it);
        rest + [it]
      else
        SubseqExtend(rest, init, it);
        rest
  }

  /** The folder entries (`id` null), in order. */
  function FolderItems(items: seq<Item>): (r: seq<Item>)
    ensures IsSubseq(r, items)
  {
    if items == [] then []
    else
      var init := items[..|items| - 1];
      var it := items[|items| - 1];
      var rest := FolderItems(init);
      assert items == init + [it];
      if it.id.None? then
        SubseqSnoc(rest, init, it);
        rest + [it]
      else
        SubseqExtend(rest, init, it);
        rest
  }

  /** One more entry joins exactly one of the two selections. */
  lemma SelectionsStep(items: seq<Item>)
    requires items != []
    ensures var init, it := items[..|items| - 1], items[|items| - 1];
      FileItems(items) == (if it.id.Some? then FileItems(init) + [it] else FileItems(init)) &&
      FolderItems(items) == (if it.id.None? then FolderItems(init) + [it] else FolderItems(init))
  {
  }

  /** The file selection holds exactly the entries with an id, and the
      folder selection exactly those without. */
  lemma {:induction false} SelectionMembers(items: seq<Item>)
    ensures forall it :: it in FileItems(items) <==> it in items && it.id.Some?
    ensures forall it :: it in FolderItems(items) <==> it in items && it.id.None?
  {
    if items != [] {
      var init, last := items[..|items| - 1], items[|items| - 1];
      SelectionMembers(init);
      SelectionsStep(items);
      assert items == init + [last];
    }
  }

  lemma PartitionStep(items: seq<Item>)
    requires items != []
    ensures var init, it := items[..|items| - 1], items[|items| - 1];
      multiset(FileItems(items)) + multiset(FolderItems(items))
        == multiset(FileItems(init)) + multiset(FolderItems(init)) + multiset{it} &&
      |FileItems(items)| + |FolderItems(items)| == |FileItems(init)| + |FolderItems(init)| + 1
  {
    SelectionsStep(items);
  }

  /** Every entry is a file or a folder and not both: the two selections
      split the entries between them. */
  lemma {:induction false} ItemsPartition(items: seq<Item>)
    ensures multiset(FileItems(items)) + multiset(FolderItems(items)) == multiset(items)
    ensures |FileItems(items)| + |FolderItems(items)| == |items|
  {
    if items != [] {
      var init, it := items[..|items| - 1], items[|items| - 1];
      ItemsPartition(init);
      PartitionStep(items);
      assert items == init + [it];
    }
  }

  /** The listing holds one file per file entry and one record per folder
      entry, each in the order of the entries, with the full path built from
      `path`. */
  lemma {:induction false} ListItemsPartition(items: seq<Item>, path: string)
    ensures var l, fi, di := ListItems(items, path), FileItems(items), FolderItems(items);
      |l.files| == |fi| && (forall i :: 0 <= i < |fi| ==> l.files[i] == AsFile(fi[i], path)) &&
      |l.folders| == |di| && (forall i :: 0 <= i < |di| ==> l.folders[i] == FolderRecordOf(di[i], path))
  {
    if items != [] {
      ListItemsPartition(items[..|items| - 1], path);
    }
  }

  /** A failing nested listing gives an empty record for that folder; the
      parent still lists every entry. */
  lemma NestedFailureIsolated(items: seq<Item>, path: string, i: nat)
    requires i < |FolderItems(items)| && !FolderItems(items)[i].sub.Data?
    ensures |ListItems(items, path).folders| == |FolderItems(items)|
    ensures |ListItems(items, path).files| + |ListItems(items, path).folders| == |items|
    ensures ListItems(items, path).folders[i].files == [] && ListItems(items, path).folders[i].folders == []
    ensures ListItems(items, path).folders[i].name == FolderItems(items)[i].name
  {
    ListItemsPartition(items, path);
    ItemsPartition(items);
    var d := ListItems(items, path).folders[i];
    assert d == FolderRecordOf(FolderItems(items)[i], path);
  }

  /** Every file and record sits at the full path built from its parent's
      path, all the way down. */
  predicate PathsBelow(files: seq<ListedFile>, folders: seq<FolderRecord>, path: string)
    decreases folders
  {
    (forall f :: f in files ==> f.path == FullPath(path, f.name)) &&
    (forall d :: d in folders ==> d.path == FullPath(path, d.name) && PathsBelow(d.files, d.folders, d.path))
  }

  lemma {:induction false} ListingPaths(resp: Response, path: string)
    ensures PathsBelow(ListingOf(resp, path).files, ListingOf(resp, path).folders, path)
    decreases resp, 1
  {
    if resp.Data? {
      ListItemsPaths(resp.items, path);
    }
  }

  lemma {:induction false} ListItemsPaths(items: seq<Item>, path: string)
    ensures PathsBelow(ListItems(items, path).files, ListItems(items, path).folders, path)
    decreases items, 0
  {
    if items != [] {
      var it := items[|items| - 1];
      ListItemsPaths(items[..|items| - 1], path);
      if it.id.None? {
        ListingPaths(it.sub, FullPath(path, it.name));
      }
    }
  }
}
