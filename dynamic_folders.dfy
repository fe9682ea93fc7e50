/** The folder-structure holder behind the sidebar: the structure, a loading
    flag and the last error message, updated by the initial load and by a
    refresh. What the file scanner produces is given as an outcome: the
    value it resolves to, or the message of the error it throws. */
module DynamicFolders {
  import opened Base
  import opened Text
  import opened Entries
  import opened Config

  datatype Outcome<T> = Ok(value: T) | Err(message: string)

  /** The structure installed when the initial load throws: the three
      top-level folders, empty. */
  function Fallback(): (st: Structure)
    ensures Keys(st) == ["antraege", "presse", "wahlkampf"]
    ensures forall s :: s in st ==> s.folder.name == s.key && s.folder.files == [] && s.folder.subfolders == []
    ensures AllFiles(st) == []
  {
    EmptyFoldersHaveNoFiles(FOLDER_KEYS);
    EmptyFolders(FOLDER_KEYS)
  }

  /** The structure the initial load installs: the manifest when it yields
      one, otherwise the dynamic scan, and the fallback when either throws;
      `None` as the error when nothing was thrown. */
  function LoadResult(fromManifest: Outcome<Option<Structure>>, scan: Outcome<Structure>): (r: (Structure, Option<string>))
    ensures fromManifest.Ok? && fromManifest.value.Some? ==> r == (fromManifest.value.value, None)
    ensures fromManifest.Ok? && fromManifest.value.None? && scan.Ok? ==> r == (scan.value, None)
    ensures fromManifest.Err? ==> r == (Fallback(), Some(fromManifest.message))
    ensures fromManifest.Ok? && fromManifest.value.None? && scan.Err? ==> r == (Fallback(), Some(scan.message))
  {
    match fromManifest
    case Err(m) => (Fallback(), Some(m))
    case Ok(Some(st)) => (st, None)
    case Ok(None) =>
      match scan
      case Err(m) => (Fallback(), Some(m))
      case Ok(st) => (st, None)
  }

  /** The scanner is consulted only when no manifest is found: with a
      manifest, the outcome of the scan makes no difference. */
  lemma ManifestTakesPrecedence(st: Structure, scan1: Outcome<Structure>, scan2: Outcome<Structure>)
    ensures LoadResult(Ok(Some(st)), scan1) == LoadResult(Ok(Some(st)), scan2)
  {
  }

  /** An error is recorded exactly when the fallback was installed because
      something threw. */
  lemma LoadErrorIffFallback(fromManifest: Outcome<Option<Structure>>, scan: Outcome<Structure>)
    ensures LoadResult(fromManifest, scan).1.Some? <==> fromManifest.Err? || (fromManifest.value.None? && scan.Err?)
    ensures LoadResult(fromManifest, scan).1.Some? ==> AllFiles(LoadResult(fromManifest, scan).0) == []
  {
  }

  class FolderHolder {
    var folderStructure: Structure
    var loading: bool
    var error: Option<string>

    /** The state before the first load: an empty object, loading, no
        error. */
    constructor ()
      ensures folderStructure == [] && loading && error == None
    {
      folderStructure := [];
      loading := true;
      error := None;
    }

    /** `loadFolders`: the effect run on mount. */
    method LoadFolders(fromManifest: Outcome<Option<Structure>>, scan: Outcome<Structure>)
      modifies this
      ensures (folderStructure, error) == LoadResult(fromManifest, scan)
      ensures !loading
    {
      loading := true;
      error := None;
      var structure: Structure;
      match fromManifest {
        case Err(m) =>
          error := Some(m);
          folderStructure := Fallback();
          loading := false;
          return;
        case Ok(fromFile) =>
          if fromFile.Some? {
            structure := fromFile.value;
          } else {
            match scan {
              case Err(m) =>
                error := Some(m);
                folderStructure := Fallback();
                loading := false;
                return;
              case Ok(scanned) =>
                structure := scanned;
            }
          }
      }
      folderStructure := structure;
      loading := false;
    }

    /** `refreshFolders`: a successful scan replaces the structure and keeps
        whatever error was recorded before; a failing one records its error
        and keeps the structure. */
    method RefreshFolders(scan: Outcome<Structure>)
      modifies this
      ensures !loading
      ensures scan.Ok? ==> folderStructure == scan.value && error == old(error)
      ensures scan.Err? ==> folderStructure == old(folderStructure) && error == Some(scan.message)
    {
      loading := true;
      match scan {
        case Ok(st) =>
          folderStructure := st;
        case Err(m) =>
          error := Some(m);
      }
      loading := false;
    }

    /** `getAllFiles`: the top-level folders' files, folder after folder. */
    function GetAllFiles(): (r: seq<FileEntry>)
      reads this
      ensures |r| == FileCount(folderStructure)
      ensures forall x :: x in r <==> exists i :: 0 <= i < |folderStructure| && x in folderStructure[i].folder.files
    {
      AllFilesHaveMembers(folderStructure);
      AllFiles(folderStructure)
    }

    /** `searchFiles`: nothing for a blank query, otherwise the files of
        `GetAllFiles()` whose name contains the query, ignoring ASCII case,
        in the same order. */
    function SearchFiles(query: string): (r: seq<FileEntry>)
      reads this
      ensures IsBlank(query) ==> r == []
      ensures IsSubseq(r, GetAllFiles())
      ensures forall x :: x in r ==> NameMatches(x.name, query)
      ensures !IsBlank(query) ==> forall x :: x in GetAllFiles() && NameMatches(x.name, query) ==> x in r
      ensures forall x ::
        multiset(r)[x] == (if !IsBlank(query) && NameMatches(x.name, query) then multiset(GetAllFiles())[x] else 0)
    {
      Entries.SearchFiles(query, folderStructure)
    }
  }

  lemma AllFilesHaveMembers(st: Structure)
    ensures forall x :: x in AllFiles(st) <==> exists i :: 0 <= i < |st| && x in st[i].folder.files
  {
    forall x {
      AllFilesMembers(st, x);
    }
  }
}
