# greenPDF in Dafny

greenPDF is a browser application for the PDFs and images of a political
group. The files live in three storage buckets or media folders: `antraege`,
`presse` and `wahlkampf`. This project models the logic behind the
application and proves properties of that model. The model covers:

- how a file name is classified and turned into an id;
- how the build script scans the media folders, assembles a manifest and
  compares two manifests;
- how the storage client lists a bucket recursively;
- how the storage service turns listings into file entries;
- how the folder structure is loaded, refreshed, flattened and searched;
- the navigation state kept in the URL, and the share link;
- the PDF viewer's page state;
- the sidebar's recent list, favourites, expand sets and file counts;
- the folder overview's filtering, sorting, paths and counts.

Everything outside the program is a parameter of the model:

- the provider's listing answers;
- what the file system reports;
- the size formatter and the date conversion;
- `encodeURIComponent` and `decodeURIComponent`;
- the form-urlencoded serializer.

JavaScript objects used as ordered maps become sequences of key/value slots.
A `Map` from name to file keeps its keys in first-insertion order, and a later
entry overwrites an earlier one. A comparator `cmp` for `Array.prototype.sort`
becomes the relation `cmp(a, b) <= 0`, and the sort becomes a stable
insertion sort.

Modules, one file each:

| module | file | models |
|---|---|---|
| `Base` | `base.dfy` | optional values, sub-sequences, the stable sort |
| `Config` | `config.dfy` | the folder keys and the supported extensions |
| `Text` | `text.dfy` | `toLowerCase`, `trim`, `includes`, `split('.').pop()`, `path.extname`, `split('/')` and `join('/')`, and code-point string order |
| `Entries` | `entries.dfy` | file entries, folders, folder structures, flattening and search |
| `Naming` | `naming.dfy` | both copies of `generateFileId`, `getFileType` and `isSupportedFile` |
| `Manifest` | `manifest.dfy` | the scan, `generateManifest` and `compareManifests` |
| `ProviderListing` | `provider_listing.dfy` | `listFilesInBucket` and `listFilesAndFoldersRecursively` |
| `StorageService` | `storage_service.dfy` | `loadFilesFromBucket` and `loadAllFiles` |
| `DynamicFolders` | `dynamic_folders.dfy` | the folder-structure hook |
| `UrlNavigation` | `url_navigation.dfy` | the URL navigation hook |
| `LinkGenerator` | `link_generator.dfy` | the share link |
| `PdfViewer` | `pdf_viewer.dfy` | the viewer hook |
| `Sidebar` | `sidebar.dfy` | the sidebar's list logic |
| `FolderOverview` | `folder_overview.dfy` | the folder overview's list logic |

The two copies of `getFileType` do not agree on every name. The manifest
script's copy uses `path.extname`. The storage service's copy takes the text
after the last `.`. They agree whenever a `.` appears after the first
character (`Naming.FileTypesAgree`). They disagree on `pdf` and `.pdf`: the
storage copy calls both a PDF, the script's copy calls both unknown
(`Naming.FileTypesDisagree`).

## Model

| member | source | states |
|---|---|---|
| Text.Lower | src/api/supabaseStorage.js:18 | Keeps the length and lowers each character on its own (ASCII letters only). |
| Text.Trim | src/api/supabaseStorage.js:111 | The trimmed text is empty exactly when every character is ECMAScript white space. |
| Text.AfterLastDot | src/api/supabaseStorage.js:18 | `split('.').pop()` is a suffix with no `.`. When it is shorter than the name, a `.` comes right before it. |
| Text.ExtName | scripts/generate-manifest.js:40 | `path.extname` is empty, or a proper suffix that starts with its only `.`. It is empty for a name without `.` and for `..`. |
| Text.ExtNameOfDotted | scripts/generate-manifest.js:40 | For a name with a `.` after its first character (other than `..`), `path.extname` is `.` followed by the text after the last `.`. |
| Text.SplitConcat | src/hooks/useUrlNavigation.js:69-72 | Splitting `a/b` on `/` gives the segments of `a` followed by those of `b`. |
| Text.StrLeTotal | src/components/FolderOverview.jsx:49 | The code-point order that stands in for `localeCompare` is total. |
| Naming.StripMediaExt | scripts/generate-manifest.js:31 | Removes at most one trailing `.pdf`, `.png`, `.jpg` or `.jpeg`, case-insensitively. The result is a prefix of the name that is 0, 4 or 5 characters shorter. The removed part lower-cases to a supported extension. Nothing is removed only when no supported extension ends the name. |
| Naming.StripPdf | scripts/generate-manifest.js:31 | A name that ends in `.pdf`, in any case, loses exactly those four characters. |
| Naming.StripOnlyOnce | scripts/generate-manifest.js:31 | `a.pdf.pdf` loses only its last extension. |
| Naming.GenerateFileId | scripts/generate-manifest.js:30-34 | The id is `folder + "_"` followed by one character per character of the stripped name. An ASCII letter or digit becomes its lower-case form; anything else becomes `_`. So the suffix holds only `[a-z0-9_]`. |
| Naming.IdCollision | scripts/generate-manifest.js:31-33 | Two names get the same id exactly when their stripped names have equal length and agree up to ASCII case, with all non-alphanumeric characters counted as equal. |
| Naming.CollisionExample | scripts/generate-manifest.js:31-33 | `A-B.pdf` and `a_b.PDF` collide. |
| Naming.ExtNameIs | scripts/generate-manifest.js:40 | For an extension `e` (a `.` followed by at least one non-dot character), the lower-cased `path.extname` equals `e` exactly when the name is longer than `e` and ends with `e`, ignoring ASCII case. |
| Naming.ManifestFileTypePdf | scripts/generate-manifest.js:39-44 | The script's `getFileType` returns pdf exactly when the name ends in `.pdf`, ignoring case, with something before it. |
| Naming.ManifestFileTypeImage | scripts/generate-manifest.js:39-44 | It returns image exactly when the name ends in `.png`, `.jpg` or `.jpeg` in the same sense. |
| Naming.ExtensionTypeCases | scripts/generate-manifest.js:39-44 | An extension is pdf only for `.pdf` and image only for `.png`, `.jpg`, `.jpeg`. It is known exactly when it is one of the supported extensions listed at line 14. |
| Naming.IsScannable | scripts/generate-manifest.js:63-64 | The scan keeps a name exactly when the script's `getFileType` does not call it unknown (the list at line 14). |
| Naming.StorageFileTypePdf | src/api/supabaseStorage.js:17-22 | The storage `getFileType` returns pdf exactly when the lower-cased text after the last `.` is `pdf`. |
| Naming.StorageFileTypeImage | src/api/supabaseStorage.js:17-22 | It returns image exactly when that text is `png`, `jpg` or `jpeg`. |
| Naming.DottedSegmentType | scripts/generate-manifest.js:39-44 | Classifying `.` followed by a text without `.` gives the same type as classifying the text the way the storage copy does. |
| Naming.IsSupportedFile | src/api/supabaseStorage.js:47-50 | Holds exactly when the storage `getFileType` does not return unknown. |
| Naming.FileTypesAgree | src/api/supabaseStorage.js:17-22 | If a `.` occurs after the first character, both `getFileType` copies agree. |
| Naming.FileTypesDisagree | scripts/generate-manifest.js:39-44 | The copies disagree on `pdf` and `.pdf`: storage says pdf, the script says unknown. |
| Manifest.CollectedSound | scripts/generate-manifest.js:61-77 | Every collected record is the record of a directory entry that is a regular file with a supported extension and whose `statSync` succeeded. Its id is `generateFileId(folder, name)`, its path `/media/<folder>/<name>`, its type the name's type, and its size and day come from that entry's stat. |
| Manifest.CollectedComplete | scripts/generate-manifest.js:61-77 | A wanted entry is collected, with the record built from its own stat data, when no wanted entry before it had a failing `statSync`. |
| Manifest.CollectedStopsAtFailure | scripts/generate-manifest.js:61-84 | When `statSync` throws on a wanted entry, the result is exactly what the entries before it give. The `catch` keeps what was pushed and nothing after. |
| Manifest.CollectedAllStats | scripts/generate-manifest.js:61-81 | Without a failing `statSync`, the loop yields one record per wanted entry, in directory order. |
| Manifest.ScannedFiles | scripts/generate-manifest.js:49-87 | A missing or unreadable folder gives `[]`. The result is always sorted by name. |
| Manifest.ScanFolderForFiles | scripts/generate-manifest.js:49-87 | The loop computes the sorted collection. A missing or unreadable folder gives `[]`. A failing `statSync` keeps only what was pushed before it. |
| Manifest.ScannedFilesProperties | scripts/generate-manifest.js:53-86 | A missing folder gives no files. The result is sorted by name, and every entry is a supported regular file of the folder. |
| Manifest.ScanIsComplete | scripts/generate-manifest.js:61-86 | When every stat succeeds, the result is, as a multiset, exactly one record per wanted entry (the records of the wanted entries in directory order, permuted). Every wanted entry's record is in it. |
| Manifest.NameOrderIsTotalOrder | scripts/generate-manifest.js:86 | The name comparator is total and transitive. |
| Manifest.GenerateManifest | scripts/generate-manifest.js:92-114 | The loop builds one slot per folder key. `totalFiles` is the number of files in the manifest. |
| Manifest.ManifestShape | scripts/generate-manifest.js:98-107 | The keys are exactly `antraege`, `presse`, `wahlkampf`, in that order. Each folder is named after its key and holds that folder's scan. |
| Manifest.ToNameMap | scripts/generate-manifest.js:132-133 | The keys are distinct and are exactly the names of the files. Each key maps to one of the files, carrying that name. |
| Manifest.ToNameMapLastWins | scripts/generate-manifest.js:132-133 | A name maps to the last entry with that name. |
| Manifest.ToNameMapKeyOrder | scripts/generate-manifest.js:132-133 | The keys are in order of first occurrence: an earlier key's first entry comes before a later key's first entry. |
| Manifest.ToNameMapSize | scripts/generate-manifest.js:132-133 | There are at most as many keys as files. |
| Manifest.ManifestOf | scripts/generate-manifest.js:98-111 | One slot per folder key, in key order, holding that folder's slot. |
| Manifest.WalkNewNames | scripts/generate-manifest.js:136-146 | The loop over the new names computes the added names (absent from the old map) and the modified names (present with a different size or date), in order. |
| Manifest.WalkOldNames | scripts/generate-manifest.js:149-153 | The loop over the old names computes the names absent from the new map, in order. |
| Manifest.CompareFolder | scripts/generate-manifest.js:128-153 | The two loops over one folder compute its added, removed and modified lists. |
| Manifest.CompareManifests | scripts/generate-manifest.js:119-157 | The loop over the folder keys computes the concatenated per-folder changes. |
| Manifest.FilesOf | scripts/generate-manifest.js:128-129 | A folder missing from a manifest counts as empty. A present folder yields the files of the first entry under its key. |
| Manifest.OnlyInMember | scripts/generate-manifest.js:136-153 | Walking the first `n` keys of one map, a record is emitted exactly for the names the other map lacks, carrying the walked map's entry. |
| Manifest.ModifiedInMember | scripts/generate-manifest.js:136-146 | Walking the first `n` keys of the new map, a record is emitted exactly for the names the old map holds with a different size or date, carrying both entries. |
| Manifest.FolderAddedExact | scripts/generate-manifest.js:136-139 | For one folder, `added` holds exactly the names only in the new list, each with the new map's (last) entry. |
| Manifest.FolderRemovedExact | scripts/generate-manifest.js:149-153 | `removed` holds exactly the names only in the old list, each with the old map's entry. |
| Manifest.FolderModifiedExact | scripts/generate-manifest.js:140-145 | `modified` holds exactly the names in both lists whose `size` or `lastModified` differ, with the new and the old entry. |
| Manifest.FolderChanges | scripts/generate-manifest.js:128-153 | Every record of a folder's changes names that folder. There are at most as many added and modified records as new files, and at most as many removed records as old files. |
| Manifest.FolderModifiedSwapped | scripts/generate-manifest.js:140-144 | A modification found one way round is found the other way round with the two entries swapped, and both entries have the same name. |
| Manifest.FolderChangesDisjoint | scripts/generate-manifest.js:136-153 | Each name lands in at most one of the three lists. |
| Manifest.FolderChangesSame | scripts/generate-manifest.js:136-153 | Comparing a folder with itself reports nothing. |
| Manifest.Diff | scripts/generate-manifest.js:119-157 | Every reported change names one of the three folder keys. |
| Manifest.DiffMembers | scripts/generate-manifest.js:127-154 | Over the whole manifest, every reported change belongs to a folder key and has the per-folder meaning above. |
| Manifest.DiffSame | scripts/generate-manifest.js:119-157 | `compareManifests(M, M)` reports no changes. |
| Manifest.DiffSwap | scripts/generate-manifest.js:136-153 | Swapping the arguments swaps added and removed. |
| Manifest.DiffModifiedSymmetric | scripts/generate-manifest.js:140-144 | Swapping the arguments keeps the set of modified (folder, name) pairs. |
| Manifest.DiffIgnoresOtherFolders | scripts/generate-manifest.js:127-129 | Folders outside the three keys play no part. |
| ProviderListing.ListFilesInBucket | src/lib/supabaseClient.js:33-56 | A provider error, `data: null` or an exception gives `[]`. Otherwise the entries are returned unchanged. |
| ProviderListing.FullPath | src/lib/supabaseClient.js:80 | The result is the name when the path is empty. Otherwise it splits on `/` into the path's segments followed by the name's. |
| ProviderListing.ListingOf | src/lib/supabaseClient.js:59-107 | The listing has one file or folder record per entry the provider returned at that path. |
| ProviderListing.ListFilesAndFoldersRecursively | src/lib/supabaseClient.js:59-107 | The loop with its recursive calls computes the listing function: a record per folder entry and a file per other entry, each with its full path. |
| ProviderListing.FileItems | src/lib/supabaseClient.js:92-98 | The file entries (`id` set) form an order-preserving sub-sequence of the listing. |
| ProviderListing.FolderItems | src/lib/supabaseClient.js:82-91 | The folder entries (`id === null`) form an order-preserving sub-sequence of the listing. |
| ProviderListing.SelectionMembers | src/lib/supabaseClient.js:82-98 | The file selection holds exactly the entries with an id, and the folder selection exactly those without. |
| ProviderListing.ItemsPartition | src/lib/supabaseClient.js:79-99 | Every entry is a file or a folder, never both: the two selections add up to the listing as multisets. |
| ProviderListing.ListItemsPartition | src/lib/supabaseClient.js:79-99 | The i-th file of the listing is the i-th file entry with its full path, and the i-th folder record is built from the i-th folder entry. |
| ProviderListing.NestedFailureIsolated | src/lib/supabaseClient.js:71-106 | When a nested listing fails, that folder's record is empty and keeps its name. The parent still lists every entry. |
| ProviderListing.ListingPaths | src/lib/supabaseClient.js:80-98 | At every depth, each file and folder record sits at its parent's path followed by `/` and its name. |
| StorageService.KeptItems | src/api/supabaseStorage.js:60 | The filter result is an order-preserving sub-sequence of the listing. Each kept entry occurs in it as often as in the listing, and no other entry occurs. |
| StorageService.KeptMembers | src/api/supabaseStorage.js:60 | The filter keeps exactly the entries that have a non-empty name and a supported extension. |
| StorageService.ToEntry | src/api/supabaseStorage.js:61-69 | Each entry carries its name, the bucket, the id `generateFileId(bucket, name)` and the storage type. |
| StorageService.ToEntries | src/api/supabaseStorage.js:61-69 | One entry per kept item, in order, each converted with that item's day. |
| StorageService.LastModified | src/api/supabaseStorage.js:67 | A missing or empty `updated_at` gives today's day. Otherwise the result is the date conversion of that timestamp (`toISOString().split('T')[0]`), and it fails exactly when that conversion throws. |
| StorageService.LoadFilesFromBucket | src/api/supabaseStorage.js:55-76 | The result is `[]` or holds one file per kept entry. |
| StorageService.LoadFailures | src/api/supabaseStorage.js:55-76 | A failed listing gives `[]`, and so does a date conversion that throws on any kept entry. |
| StorageService.LoadedPerKept | src/api/supabaseStorage.js:57-70 | Otherwise there is one file per kept entry, in order, with that entry's name, id and storage type. |
| StorageService.LoadedFilesValid | src/api/supabaseStorage.js:55-76 | Every loaded file carries the bucket, a type of pdf or image, a non-empty name and its id. |
| StorageService.AllBuckets | src/api/supabaseStorage.js:81-105 | One slot per bucket, in `BUCKETS` order, each holding that bucket's loaded files and no subfolders. |
| StorageService.LoadAllFiles | src/api/supabaseStorage.js:81-105 | The loop computes one folder per bucket. |
| StorageService.AllBucketsShape | src/api/supabaseStorage.js:84-102 | The keys are exactly `antraege`, `presse`, `wahlkampf`, in that order (`BUCKETS`, lines 5-9), each folder named after its key. A bucket whose listing fails gets `files: []`. Every file carries its bucket. |
| Entries.AllFiles | src/hooks/useDynamicFolders.js:54-56 | The length is the sum of the top-level file-list lengths. |
| Entries.AllFilesMembers | src/hooks/useDynamicFolders.js:54-56 | A file is listed exactly when some top-level folder holds it. |
| Entries.AllFilesIgnoresSubfolders | src/hooks/useDynamicFolders.js:54-56 | Subfolders play no part: equal top-level file lists give equal results. |
| Entries.MatchingFiles | src/api/supabaseStorage.js:120-122 | An order-preserving sub-sequence holding exactly the files whose lower-cased name contains the lower-cased query. Its length is the number of matching files, so no matching file is dropped. |
| Entries.MatchingFilesCount | src/api/supabaseStorage.js:120-122 | Each file occurs in the result as often as in the input when it matches, and not at all otherwise (duplicates included). |
| Entries.MatchingEmptyQuery | src/components/FolderOverview.jsx:41-43 | The empty query keeps every file. |
| Entries.SearchFiles | src/api/supabaseStorage.js:110-123 | A blank query (only white space) gives `[]`. Otherwise the result holds exactly the top-level files whose name contains the query, ignoring ASCII case, in folder order. Each matching file occurs as often as in `getAllFiles()`. |
| Entries.CountOfType | src/components/FolderOverview.jsx:110-111 | The count is the number of files of that type (the multiplicity of the type among the files' types). It is at most the number of files, and 0 exactly when no file has that type. |
| Entries.TypeCountsBound | src/components/FolderOverview.jsx:108-111 | The PDF and image counts add up to at most the file count. They reach it exactly when no file is of unknown type. |
| DynamicFolders.Fallback | src/hooks/useDynamicFolders.js:28-33 | The fallback is the three keys, in order, each an empty folder of that name. |
| DynamicFolders.LoadResult | src/hooks/useDynamicFolders.js:10-37 | The manifest is installed when it yields a structure, otherwise the scan. Either one throwing installs the fallback and records the message. |
| DynamicFolders.ManifestTakesPrecedence | src/hooks/useDynamicFolders.js:16-21 | With a manifest, the scan's outcome makes no difference. |
| DynamicFolders.LoadErrorIffFallback | src/hooks/useDynamicFolders.js:24-33 | An error is recorded exactly when something threw, and then the structure holds no files. |
| DynamicFolders.FolderHolder.constructor | src/hooks/useDynamicFolders.js:5-7 | The initial state is an empty structure, loading, and no error. |
| DynamicFolders.FolderHolder.LoadFolders | src/hooks/useDynamicFolders.js:10-37 | Sets the structure and the error as the load outcome says, and clears `loading`. |
| DynamicFolders.FolderHolder.RefreshFolders | src/hooks/useDynamicFolders.js:42-52 | A success replaces the structure and keeps the old error. A failure keeps the structure and records the error. Both clear `loading`. |
| DynamicFolders.FolderHolder.GetAllFiles | src/hooks/useDynamicFolders.js:54-56 | The length is the sum of the top-level file counts. A file is returned exactly when a top-level folder holds it. |
| DynamicFolders.FolderHolder.SearchFiles | src/hooks/useDynamicFolders.js:58-65 | A blank query gives `[]`. Otherwise the result holds exactly the files of `getAllFiles()` that match, in order, each as often as it occurs there. |
| UrlNavigation.Get | src/hooks/useUrlNavigation.js:13-14 | `params.get` is null exactly when no entry has the key. Otherwise it returns the value of the first entry under the key. |
| UrlNavigation.NavigationQuery | src/hooks/useUrlNavigation.js:34-45 | The query has a `bucket` entry (with the bucket) exactly when the bucket is non-empty. It has a `folder` entry (the encoded folder) exactly when the folder is non-empty. It fails only when encoding throws. |
| UrlNavigation.ParseUrlParams | src/hooks/useUrlNavigation.js:11-19 | The bucket is the `bucket` entry, or null when it is empty or missing. A folder is present exactly when the `folder` entry is non-empty. Parsing fails exactly when decoding that entry throws. |
| UrlNavigation.NavigationRoundTrip | src/hooks/useUrlNavigation.js:11-51 | Parsing the pushed query gives back the state `navigateToPath` set, provided both encodings round-trip. |
| UrlNavigation.FullFolderPath | src/hooks/useUrlNavigation.js:69-72 | The bucket alone for an empty folder path. Otherwise a path that splits into the bucket's segments followed by the folder path's. |
| UrlNavigation.Navigation.constructor | src/hooks/useUrlNavigation.js:4-7 | Starts with no bucket and no folder, so there is no URL navigation (line 85) and no overview. |
| UrlNavigation.Navigation.ReadUrl | src/hooks/useUrlNavigation.js:11-31 | On mount and on `popstate`, the state becomes the parsed query. |
| UrlNavigation.Navigation.NavigateToPath | src/hooks/useUrlNavigation.js:34-52 | Pushes `pathname?query` and sets `{bucket or null, folder or null}`. Afterwards `isCurrentPath(bucket, folder)` holds unless one of them is the empty string. An encoding failure changes nothing. |
| UrlNavigation.Navigation.ClearNavigation | src/hooks/useUrlNavigation.js:55-61 | Pushes the bare path and clears both fields, so neither URL navigation nor the overview remains. |
| UrlNavigation.Navigation.IsCurrentPath | src/hooks/useUrlNavigation.js:64-66 | True exactly when both fields equal the arguments. |
| UrlNavigation.Navigation.HasUrlNavigation | src/hooks/useUrlNavigation.js:85 | True exactly when a bucket is set. |
| UrlNavigation.Navigation.ShouldShowFolderOverview | src/hooks/useUrlNavigation.js:75-77 | Agrees with `hasUrlNavigation`. |
| UrlNavigation.EmptyFolderIsNotCurrent | src/hooks/useUrlNavigation.js:48-66 | Navigating to an empty folder name stores `null`, so the empty name is not current afterwards. |
| LinkGenerator.GenerateLink | src/components/LinkGenerator.jsx:10-23 | The link is the base URL, a `?` (present even for an empty query), and the serialized navigation query. It fails exactly when encoding the folder throws. |
| LinkGenerator.LinkParameters | src/components/LinkGenerator.jsx:14-20 | The link has a `bucket` parameter exactly when the bucket name is non-empty, and a `folder` parameter exactly when the folder path is non-empty. |
| LinkGenerator.LinkOpensItsFolder | src/components/LinkGenerator.jsx:10-23 | Parsing the query of a share link gives back its bucket and folder, provided the encodings round-trip. |
| PdfViewer.Turn | src/hooks/usePDFViewer.js:30-34 | A requested page is taken exactly when it lies between 1 and the page count. Otherwise the page stays. |
| PdfViewer.TurnAllStaysInRange | src/hooks/usePDFViewer.js:30-42 | Once the page is in range, no sequence of page requests takes it out. |
| PdfViewer.NothingLoadedNeverTurns | src/hooks/usePDFViewer.js:30-42 | Before any document has loaded (page count 0, lines 5-6), no request moves the page. |
| PdfViewer.Viewer.constructor | src/hooks/usePDFViewer.js:4-10 | No document, no page count, page 1, not fullscreen, not loading, no error. |
| PdfViewer.Viewer.PageCount | src/hooks/usePDFViewer.js:31 | A missing page count compares as 0. |
| PdfViewer.Viewer.OnDocumentLoadSuccess | src/hooks/usePDFViewer.js:12-17 | Sets the page count, goes to page 1, clears loading and error, and touches nothing else. |
| PdfViewer.Viewer.OnDocumentLoadError | src/hooks/usePDFViewer.js:19-22 | Records the error and clears loading. The page fields stay. |
| PdfViewer.Viewer.LoadDocument | src/hooks/usePDFViewer.js:24-28 | Sets loading, clears the error and records the document. The page fields stay. |
| PdfViewer.Viewer.GoToPage | src/hooks/usePDFViewer.js:30-34 | Applies the guarded page change, keeps the page in range, and changes nothing else. |
| PdfViewer.Viewer.NextPage | src/hooks/usePDFViewer.js:36-38 | Requests the next page. It does nothing on the last page and keeps the page in range. |
| PdfViewer.Viewer.PrevPage | src/hooks/usePDFViewer.js:40-42 | Requests the previous page. It does nothing on page 1 and keeps the page in range. |
| PdfViewer.Viewer.ToggleFullscreen | src/hooks/usePDFViewer.js:60-62 | Flips the fullscreen flag, so two calls restore it. Nothing else changes. |
| Sidebar.WithoutId | src/components/Sidebar.jsx:102-110 | An order-preserving sub-sequence in which no entry has the id. Every entry with another id occurs as often as in the input. |
| Sidebar.WithoutIdMembers | src/components/Sidebar.jsx:102-110 | It holds exactly the entries with a different id. |
| Sidebar.SelectRecent | src/components/Sidebar.jsx:98-104 | The new recent list starts with the file. No other entry carries the file's id. The rest is an order-preserving sub-sequence of the old list. Its length is one more than the old list without that id, capped at 10. |
| Sidebar.SelectRecentDistinct | src/components/Sidebar.jsx:102 | Distinct ids in the old recent list stay distinct. |
| Sidebar.SelectRecentKeepsOthers | src/components/Sidebar.jsx:102 | After the file, the list is the old list without that id, cut at the length limit. |
| Sidebar.ToggleFavorite | src/components/Sidebar.jsx:106-114 | The file's id is a favourite afterwards exactly when it was not before. A present id is removed and every other entry kept, in order and with its multiplicity. An absent file is put in front. |
| Sidebar.ToggleFavoriteTwice | src/components/Sidebar.jsx:106-116 | Favouriting a file that was not a favourite, then toggling again, restores the list. |
| Sidebar.Toggle | src/components/Sidebar.jsx:78-96 | Flips membership of exactly one key. |
| Sidebar.ToggleTwice | src/components/Sidebar.jsx:78-96 | Toggling a key twice restores the set. |
| Sidebar.AutoExpand | src/components/Sidebar.jsx:59-76 | With a non-empty bucket and a non-empty structure, the bucket is expanded, and so is `bucket/folder` when a non-empty folder is given. No other folder key and no other subfolder key is added, nothing is removed, and without a non-empty bucket or with an empty structure nothing changes. |
| Sidebar.AutoExpandIdempotent | src/components/Sidebar.jsx:62-73 | Running the effect a second time changes nothing. |
| Sidebar.CountFilesInSubfolder | src/components/Sidebar.jsx:185-193 | The loop with its recursive calls computes the recursive file count. |
| Sidebar.DeepCountIsFileCount | src/components/Sidebar.jsx:185-193 | The recursive count equals the number of files in the folder and in all folders below it. |
| Sidebar.BadgeTotalBound | src/components/Sidebar.jsx:201-204 | The badge total never exceeds the recursive count. It equals it exactly when none of the folder's own files is of unknown type. The top-level badge counts are computed at lines 350-353. |
| Sidebar.SubfolderPathJoin | src/components/Sidebar.jsx:197 | A nested subfolder's key is the bucket, `/`, and the folder names joined with `/`. The same key is built at lines 283 and 424. |
| Sidebar.SplitJoin | src/components/Sidebar.jsx:224-225 | Splitting `/`-joined names that hold no `/` gives them back. |
| Sidebar.ClickTargetOfSubfolder | src/components/Sidebar.jsx:224-225 | A click on a nested subfolder reports its bucket and its folder path, provided no name holds a `/`. The same key is what the URL expansion marks for that bucket and path (the key of line 197). |
| Sidebar.SidebarState.constructor | src/components/Sidebar.jsx:27-28 | Starts with the given recent and favourite lists and with no folder or subfolder expanded. |
| Sidebar.SidebarState.HandleFileSelect | src/components/Sidebar.jsx:98-104 | Replaces the recent list with the updated one and changes nothing else. |
| Sidebar.SidebarState.ToggleFavoriteFile | src/components/Sidebar.jsx:106-114 | Applies the favourite toggle and flips `isFavorite` for the file's id. |
| Sidebar.SidebarState.IsFavorite | src/components/Sidebar.jsx:116 | True exactly when some favourite has the id. |
| Sidebar.SidebarState.ToggleFolder | src/components/Sidebar.jsx:78-86 | Flips one folder key and nothing else. |
| Sidebar.SidebarState.ToggleSubfolder | src/components/Sidebar.jsx:88-96 | Flips one subfolder key and nothing else. |
| Sidebar.SidebarState.ExpandFromUrl | src/components/Sidebar.jsx:59-76 | Applies the URL expansion to both sets and changes nothing else. |
| FolderOverview.OrderIsTotalOrder | src/components/FolderOverview.jsx:46-59 | Each sort key's comparator is total and transitive. |
| FolderOverview.FilteredFilesSpec | src/components/FolderOverview.jsx:40-62 | The result is sorted by the chosen key. It is a permutation of the matching files, and holds exactly the files whose name contains the query. |
| FolderOverview.EmptyQueryKeepsAll | src/components/FolderOverview.jsx:41-43 | An empty search box keeps every file. |
| FolderOverview.SizeSortKeepsOrderWithoutSizes | src/components/FolderOverview.jsx:53-57 | When no file records a byte size, sorting by size, or by an unknown key, keeps the filtered order. |
| FolderOverview.FilteredSubfolders | src/components/FolderOverview.jsx:65-69 | An order-preserving sub-sequence holding exactly the subfolders whose name contains the query, each as often as in the input. |
| FolderOverview.HandleFolderClick | src/components/FolderOverview.jsx:95-98 | The new path is the folder's name when the current path is empty. Otherwise it splits into the current path's segments followed by the name's. |
| FolderOverview.HeaderTitle | src/components/FolderOverview.jsx:127 | The bucket label is shown exactly when the path is empty. Otherwise the title is the last element of `split('/')`: the text after the path's last `/`, or the whole path when it has none. |
| Text.LastSegmentIsTail | src/components/FolderOverview.jsx:127 | `split('/').pop()` holds no `/`, ends the string, and is preceded by a `/` unless it is the whole string. |
| FolderOverview.HeaderShowsClickedFolder | src/components/FolderOverview.jsx:95-98 | After entering a subfolder whose name is non-empty and holds no `/`, the header (line 127) shows that name. |
| FolderOverview.CountsOf | src/components/FolderOverview.jsx:108-111 | `pdfCount` and `imageCount` are the numbers of PDF and image files (their meaning is in Entries.CountOfType), and their sum is at most `totalFiles`. The totals are the numbers of files and subfolders. |

## Left out

- Network and storage calls are not modelled. This covers client construction, `getPublicUrl`, `createSignedUrl`, `getDownloadUrl`, `getBucket` and `checkBucketsHealth`. Listings are data. `getPublicUrl` is a parameter that always yields a string, so its `null` on a thrown error is not modelled.
- The listing options are not modelled: the 100-entry `limit`, the `offset`, and the provider's `sortBy` on name. A listing is whatever the provider returns, in that order.
- ProviderListing.FolderRecordOf: the `metadata` field of a folder record (the raw entry) is not kept.
- File-system side effects are not modelled: `mkdirSync` for a missing folder, reading and writing `manifest.json`, console output, `process.exit`. `existsSync`, `readdirSync` and `statSync` are given as data.
- `formatFileSize` is a parameter (both copies, and the one in `src/api/fileScanner.js`). It is floating-point code.
- The zoom controls of the viewer (`zoomIn`, `zoomOut`, `resetZoom`, `fitToWidth`) are not modelled. They are floating-point code.
- Dates are ISO day strings. `toISOString().split('T')[0]` is a parameter that may throw. `new Date()` for a missing timestamp is a given day.
- Date sorting in the folder overview compares ISO day strings as text. An unparsable date makes the comparator return `NaN`; that case is not modelled.
- Manifest.FilesOf: a manifest is a list of (key, folder) slots, and a key held twice yields the first slot, where `JSON.parse` keeps the last. Only a hand-edited manifest can hold a key twice.
- Manifest.NameOrder: the manifest's `localeCompare` on names is replaced by code-point lexicographic order (`Text.StrLe`). Locale collation is not modelled.
- Manifest.ScanFolderForFiles: the sort order it proves is the code-point order of `Manifest.NameOrder`, not locale collation.
- Manifest.ScannedFilesProperties: sortedness is stated for the code-point order of `Manifest.NameOrder`, not locale collation.
- Naming.GenerateFileId: strings are sequences of Unicode scalar values, not UTF-16 code units. A character outside the Basic Multilingual Plane becomes one `_`, where the script's regular expression replaces each of its two code units. Lone surrogates cannot be represented.
- Naming.IdCollision: it compares lengths in Unicode scalar values, so names with characters outside the Basic Multilingual Plane are not covered as the script counts them. Lone surrogates cannot be represented.
- FolderOverview.Order: `localeCompare` is replaced by code-point lexicographic order (`Text.StrLe`), which is one fixed total order. Locale collation is not modelled.
- Text.Lower: only ASCII letters are lowered. The characters whose full Unicode lower-casing changes the length or produces ASCII (for example U+0130 and U+212A) are not modelled.
- `encodeURIComponent`, `decodeURIComponent` and the form-urlencoded serializer and parser are parameters. The round-trip lemmas require them to round-trip on the values involved, and they require that encoding never shortens a string. The parser is applied to the text after `?`.
- UrlNavigation.Navigation.NavigateToPath: a `bucket` or `folder` given as `undefined` is modelled like `null`. Strict comparison in `isCurrentPath` would tell the two apart.
- `src/api/fileScanner.js` is not part of this model. The outcomes of `loadFromManifest` and `getAllPDFs` are given as data.
- `src/lib/database.js` and `src/hooks/useDatabase.js` are not part of this model. They send SQL to an external database.
- The React lifecycle is not modelled: effects, the `popstate` listener, timers and batching. Each handler is one sequential state update. Storing the recent and favourite lists in `localStorage` is not modelled either.
- The in-place `sort` of the filtered copy in the folder overview is modelled as a stable sort of a sequence value. The sorting algorithm belongs to the JavaScript engine, not to the program.
- Rendering, icons, translations and the static pages are not modelled.
