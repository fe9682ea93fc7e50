/** The storage service: turning a bucket's listing into file entries and
    assembling the three buckets into a folder structure. The provider's
    answers, the public-URL builder, the size formatter and the date
    functions are parameters. */
module StorageService {
  import opened Base
  import opened Text
  import opened Entries
  import opened Config
  import opened Naming
  import opened ProviderListing

  /** What the service borrows from its surroundings: `getPublicUrl`,
      `formatFileSize`, the ISO day of a provider timestamp (`None` when
      `new Date(...).toISOString()` throws on it), and today's ISO day. */
  datatype Env = Env(
    publicUrl: (string, string) -> string,
    formatSize: Option<nat> -> string,
    isoDay: string -> Option<string>,
    today: string)

  /** `file.name && this.isSupportedFile(file.name)` */
  predicate Kept(it: Item)
  {
    it.name != "" && IsSupportedFile(it.name)
  }

  /** The `filter` step: the kept entries, in listing order. */
  function KeptItems(items: seq<Item>): (r: seq<Item>)
    ensures IsSubseq(r, items)
    ensures forall x :: multiset(r)[x] == if Kept(x) then multiset(items)[x] else 0
  {
    if items == [] then []
    else
      var init, it := items[..|items| - 1], items[|items| - 1];
      var rest := KeptItems(init);
      assert items == init + [it];
      if Kept(it) then
        SubseqSnoc(rest, init, it);
        rest + [it]
      else
        SubseqExtend(rest, init, it);
        rest
  }

  /** The filter keeps exactly the entries with a non-empty, supported
      name. */
  lemma {:induction false} KeptMembers(items: seq<Item>)
    ensures forall it :: it in KeptItems(items) <==> it in items && Kept(it)
  {
    if items != [] {
      var init, it := items[..|items| - 1], items[|items| - 1];
      KeptMembers(init);
      assert items == init + [it];
    }
  }

  /** The `lastModified` day of an entry: `updated_at` is a truthiness
      test, so a missing or empty timestamp gives today's day; `None` when
      the date conversion throws. */
  function LastModified(it: Item, env: Env): (r: Option<string>)
    ensures r.None? <==> it.updatedAt.Some? && it.updatedAt.value != "" && env.isoDay(it.updatedAt.value).None?
    ensures it.updatedAt.None? || it.updatedAt == Some("") ==> r == Some(env.today)
    ensures it.updatedAt.Some? && it.updatedAt.value != "" ==> r == env.isoDay(it.updatedAt.value)
  {
    match it.updatedAt
    case Some(u) => if u == "" then Some(env.today) else env.isoDay(u)
    case None => Some(env.today)
  }

  /** The `map` step for one entry. */
  function ToEntry(bucket: string, it: Item, day: string, env: Env): (f: FileEntry)
    ensures f.name == it.name && f.bucket == Some(bucket) && f.sizeBytes == None
    ensures f.id == GenerateFileId(bucket, it.name) && f.fileType == StorageFileType(it.name)
    ensures f.lastModified == day
  {
    FileEntry(GenerateFileId(bucket, it.name), it.name, env.publicUrl(bucket, it.name),
      StorageFileType(it.name), env.formatSize(it.size), day, Some(bucket), None)
  }

  /** No kept entry makes the date conversion throw. */
  predicate AllDated(items: seq<Item>, env: Env)
  {
    forall i :: 0 <= i < |items| ==> LastModified(items[i], env).Some?
  }

  /** The `map` step over the kept entries, when none of them makes the
      date conversion throw. */
  function ToEntries(bucket: string, kept: seq<Item>, env: Env): (r: seq<FileEntry>)
    requires AllDated(kept, env)
    ensures |r| == |kept|
    ensures forall i :: 0 <= i < |r| ==> r[i] == ToEntry(bucket, kept[i], LastModified(kept[i], env).value, env)
  {
    seq(|kept|, i requires 0 <= i < |kept| => ToEntry(bucket, kept[i], LastModified(kept[i], env).value, env))
  }

  /** `loadFilesFromBucket(bucket)` when the provider answers `resp`: the
      `map` over the kept entries, or `[]` when the conversion throws on any
      of them (the `catch` discards the whole bucket). */
  function LoadFilesFromBucket(bucket: string, resp: Response, env: Env): (r: seq<FileEntry>)
    ensures r == [] || |r| == |KeptItems(ListFilesInBucket(resp))|
  {
    var kept := KeptItems(ListFilesInBucket(resp));
    if AllDated(kept, env) then ToEntries(bucket, kept, env) else []
  }

  /** A failed listing, and a date conversion that throws on any kept entry,
      both give `[]`. */
  lemma LoadFailures(bucket: string, resp: Response, env: Env)
    ensures !resp.Data? ==> LoadFilesFromBucket(bucket, resp, env) == []
    ensures !AllDated(KeptItems(ListFilesInBucket(resp)), env) ==> LoadFilesFromBucket(bucket, resp, env) == []
  {
    if !resp.Data? {
      assert ListFilesInBucket(resp) == [];
      assert KeptItems(ListFilesInBucket(resp)) == [];
    }
  }

  /** Otherwise there is one file per kept entry, in order, with that entry's
      name, id and storage type. */
  lemma LoadedPerKept(bucket: string, resp: Response, env: Env)
    ensures var kept, r := KeptItems(ListFilesInBucket(resp)), LoadFilesFromBucket(bucket, resp, env);
      AllDated(kept, env) ==>
        |r| == |kept| &&
        forall i :: 0 <= i < |r| ==>
          r[i].name == kept[i].name && r[i].id == GenerateFileId(bucket, kept[i].name) &&
          r[i].fileType == StorageFileType(kept[i].name)
  {
  }

  /** Every loaded file carries the bucket, a non-empty name, its id and a
      type other than unknown. */
  lemma LoadedFilesValid(bucket: string, resp: Response, env: Env)
    ensures forall f :: f in LoadFilesFromBucket(bucket, resp, env) ==>
      f.bucket == Some(bucket) && f.fileType != Unknown && f.name != "" && f.id == GenerateFileId(bucket, f.name)
  {
    var kept := KeptItems(ListFilesInBucket(resp));
    var r := LoadFilesFromBucket(bucket, resp, env);
    KeptMembers(ListFilesInBucket(resp));
    forall f | f in r
      ensures f.bucket == Some(bucket) && f.fileType != Unknown && f.name != "" && f.id == GenerateFileId(bucket, f.name)
    {
      var i :| 0 <= i < |r| && r[i] == f;
      assert kept[i] in kept;
    }
  }

  /** The folder `loadAllFiles` records for one key; a bucket of the same
      name is listed for each key. */
  function BucketSlot(key: string, listings: string -> Response, env: Env): Slot
  {
    Slot(key, Folder(key, LoadFilesFromBucket(key, listings(key), env), []))
  }

  /** `loadAllFiles`: one folder per bucket, in the order of `BUCKETS`. */
  function AllBuckets(listings: string -> Response, env: Env): (st: Structure)
    ensures |st| == |FOLDER_KEYS|
    ensures forall i :: 0 <= i < |st| ==> st[i] == BucketSlot(FOLDER_KEYS[i], listings, env)
  {
    seq(|FOLDER_KEYS|, i requires 0 <= i < |FOLDER_KEYS| => BucketSlot(FOLDER_KEYS[i], listings, env))
  }

  /** The loop of `loadAllFiles`. */
  method LoadAllFiles(listings: string -> Response, env: Env) returns (st: Structure)
    ensures st == AllBuckets(listings, env)
  {
    st := [];
    for i := 0 to |FOLDER_KEYS|
      invariant |st| == i
      invariant forall j :: 0 <= j < i ==> st[j] == BucketSlot(FOLDER_KEYS[j], listings, env)
    {
      var key := FOLDER_KEYS[i];
      var files := LoadFilesFromBucket(key, listings(key), env);
      st := st + [Slot(key, Folder(key, files, []))];
    }
  }

  /** The structure has exactly the keys `antraege`, `presse`, `wahlkampf` in
      that order, each folder named after its key; a bucket whose listing
      fails gets an empty file list, and every file carries its bucket. */
  lemma AllBucketsShape(listings: string -> Response, env: Env)
    ensures Keys(AllBuckets(listings, env)) == ["antraege", "presse", "wahlkampf"]
    ensures forall s :: s in AllBuckets(listings, env) ==> s.folder.name == s.key && s.folder.subfolders == []
    ensures forall s :: s in AllBuckets(listings, env) && !listings(s.key).Data? ==> s.folder.files == []
    ensures forall s, f :: s in AllBuckets(listings, env) && f in s.folder.files ==> f.bucket == Some(s.key)
  {
    forall key | key in FOLDER_KEYS {
      LoadFailures(key, listings(key), env);
    }
    forall key | key in FOLDER_KEYS {
      LoadedFilesValid(key, listings(key), env);
    }
  }
}
