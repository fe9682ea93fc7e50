/** The share-link builder: the page's base URL, a `?`, and the same query
    that in-app navigation pushes. */
module LinkGenerator {
  import opened Base
  import opened UrlNavigation

  /** `generateLink()` for `bucketName` and `folderPath` (default `""`),
      with `origin + pathname` as the base URL; `None` when encoding the
      folder throws. */
  function GenerateLink(origin: string, pathname: string, bucketName: string, folderPath: string,
                        form: Form, codec: Codec): (r: Option<string>)
    ensures r.None? <==> folderPath != "" && codec.encode(folderPath).None?
    ensures r.Some? ==> |r.value| > |origin + pathname| && r.value[..|origin + pathname| + 1] == origin + pathname + "?"
    ensures r.Some? ==> r.value[|origin + pathname| + 1..] == form.serialize(NavigationQuery(Some(bucketName), Some(folderPath), codec).value)
  {
    var base := origin + pathname;
    match NavigationQuery(Some(bucketName), Some(folderPath), codec)
    case None => None
    case Some(q) =>
      var link := base + "?" + form.serialize(q);
      assert link[..|base| + 1] == base + "?";
      assert link[|base| + 1..] == form.serialize(q);
      Some(link)
  }

  /** The link carries a `bucket` parameter exactly when `bucketName` is
      non-empty and a `folder` parameter exactly when `folderPath` is. */
  lemma LinkParameters(bucketName: string, folderPath: string, codec: Codec)
    requires folderPath != "" ==> codec.encode(folderPath).Some?
    ensures NavigationQuery(Some(bucketName), Some(folderPath), codec).Some?
    ensures var q := NavigationQuery(Some(bucketName), Some(folderPath), codec).value;
      (Get(q, "bucket").Some? <==> bucketName != "") && (Get(q, "folder").Some? <==> folderPath != "")
  {
  }

  /** Opening a share link lands on the bucket and folder it was made for:
      the query after the `?` parses to the state `navigateToPath` would set
      for the same pair, provided the encodings round-trip. */
  lemma LinkOpensItsFolder(origin: string, pathname: string, bucketName: string, folderPath: string,
                           form: Form, codec: Codec)
    requires folderPath != "" ==> CodecRoundTrips(codec, folderPath)
    requires NavigationQuery(Some(bucketName), Some(folderPath), codec).Some? ==>
      FormRoundTrips(form, NavigationQuery(Some(bucketName), Some(folderPath), codec).value)
    ensures GenerateLink(origin, pathname, bucketName, folderPath, form, codec).Some?
    ensures var link := GenerateLink(origin, pathname, bucketName, folderPath, form, codec).value;
      ParseUrlParams(link[|origin + pathname| + 1..], form, codec)
        == Some(UrlParams(if bucketName == "" then None else Some(bucketName), if folderPath == "" then None else Some(folderPath)))
  {
    NavigationRoundTrip(Some(bucketName), Some(folderPath), form, codec);
  }
}
