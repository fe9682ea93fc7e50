/** The navigation state kept in the page URL: a bucket and a folder, read
    from the query string, written by pushing a history entry, and compared
    and joined by the sidebar. Percent-encoding and the form-urlencoded
    serializer are parameters; their round-trip is a precondition, and only
    where a lemma says so. */
module UrlNavigation {
  import opened Base
  import opened Text

  /** `encodeURIComponent` / `decodeURIComponent`; `None` where they throw
      (a lone surrogate, a malformed escape). */
  datatype Codec = Codec(encode: string -> Option<string>, decode: string -> Option<string>)

  /** Encoding `s` succeeds, never shortens it, and decoding gives `s`
      back. */
  predicate CodecRoundTrips(c: Codec, s: string)
  {
    c.encode(s).Some? && |c.encode(s).value| >= |s| && c.decode(c.encode(s).value) == Some(s)
  }

  /** The entries of a `URLSearchParams`, in order. */
  type Params = seq<(string, string)>

  /** `URLSearchParams.toString()` and the parsing constructor, applied to
      the text after `?`. */
  datatype Form = Form(serialize: Params -> string, parse: string -> Params)

  predicate FormRoundTrips(form: Form, ps: Params)
  {
    form.parse(form.serialize(ps)) == ps
  }

  /** `params.get(key)`: the value of the first entry stored under `key`. */
  function Get(ps: Params, key: string): (r: Option<string>)
    ensures r.None? <==> forall i :: 0 <= i < |ps| ==> ps[i].0 != key
    ensures r.Some? ==> (key, r.value) in ps
    ensures r.Some? ==> exists i ::
      (0 <= i < |ps| && ps[i] == (key, r.value) && forall j :: 0 <= j < i ==> ps[j].0 != key)
  {
    if ps == [] then None
    else if ps[0].0 == key then
      assert ps[0] == (key, ps[0].1);
      Some(ps[0].1)
    else
      assert forall i :: 1 <= i < |ps| ==> ps[i] == ps[1..][i - 1];
      var r := Get(ps[1..], key);
      if r.Some? then
        var i :| 0 <= i < |ps| - 1 && ps[1..][i] == (key, r.value) && (forall j :: 0 <= j < i ==> ps[1..][j].0 != key);
        assert ps[i + 1] == (key, r.value);
        r
      else r
  }

  /** A JavaScript truthiness test on a string that may be `null`. */
  predicate Truthy(s: Option<string>)
  {
    s.Some? && s.value != ""
  }

  /** `s || null` */
  function OrNull(s: Option<string>): (r: Option<string>)
    ensures r.Some? <==> Truthy(s)
    ensures r.Some? ==> r == s
  {
    if Truthy(s) then s else None
  }

  datatype UrlParams = UrlParams(bucket: Option<string>, folder: Option<string>)

  const NoParams := UrlParams(None, None)

  /** The query `navigateToPath(bucket, folder)` pushes (the share link
      builds the same one): `bucket` when it is non-empty, then the encoded
      `folder` when it is non-empty; `None` when encoding throws. */
  function NavigationQuery(bucket: Option<string>, folder: Option<string>, codec: Codec): (r: Option<Params>)
    ensures r.None? <==> Truthy(folder) && codec.encode(folder.value).None?
    ensures r.Some? ==> (Get(r.value, "bucket") == OrNull(bucket))
    ensures r.Some? ==> (Get(r.value, "folder").Some? <==> Truthy(folder))
    ensures r.Some? && Truthy(folder) ==> Get(r.value, "folder") == codec.encode(folder.value)
  {
    var b: Params := if Truthy(bucket) then [("bucket", bucket.value)] else [];
    if !Truthy(folder) then Some(b)
    else
      match codec.encode(folder.value)
      case None => None
      case Some(e) =>
        assert Get([("folder", e)], "bucket") == None;
        Some(b + [("folder", e)])
  }

  /** `parseUrlParams` on the text after `?`: `None` when
      `decodeURIComponent` throws. */
  function ParseUrlParams(query: string, form: Form, codec: Codec): (r: Option<UrlParams>)
    ensures r.Some? ==> r.value.bucket == OrNull(Get(form.parse(query), "bucket"))
    ensures r.Some? ==> (r.value.folder.Some? <==> Truthy(Get(form.parse(query), "folder")))
    ensures r.None? <==> Truthy(Get(form.parse(query), "folder")) && codec.decode(Get(form.parse(query), "folder").value).None?
  {
    var ps := form.parse(query);
    var bucket := OrNull(Get(ps, "bucket"));
    var folder := Get(ps, "folder");
    if !Truthy(folder) then Some(UrlParams(bucket, None))
    else
      match codec.decode(folder.value)
      case None => None
      case Some(d) => Some(UrlParams(bucket, Some(d)))
  }

  /** The state `navigateToPath(bucket, folder)` sets. */
  function NavigatedParams(bucket: Option<string>, folder: Option<string>): UrlParams
  {
    UrlParams(OrNull(bucket), OrNull(folder))
  }

  /** Reading back the URL that `navigateToPath` pushed (as a reload or a
      back/forward step does) restores the state it set, provided the
      encodings round-trip. */
  lemma NavigationRoundTrip(bucket: Option<string>, folder: Option<string>, form: Form, codec: Codec)
    requires Truthy(folder) ==> CodecRoundTrips(codec, folder.value)
    requires NavigationQuery(bucket, folder, codec).Some? ==> FormRoundTrips(form, NavigationQuery(bucket, folder, codec).value)
    ensures NavigationQuery(bucket, folder, codec).Some?
    ensures ParseUrlParams(form.serialize(NavigationQuery(bucket, folder, codec).value), form, codec) == Some(NavigatedParams(bucket, folder))
  {
    var q := NavigationQuery(bucket, folder, codec).value;
    var f := Get(q, "folder");
    if Truthy(folder) {
      assert f == codec.encode(folder.value);
    }
  }

  /** `getFullFolderPath(bucketName, folderPath)` */
  function FullFolderPath(bucketName: string, folderPath: Option<string>): (r: string)
    ensures !Truthy(folderPath) ==> r == bucketName
    ensures Truthy(folderPath) ==> Split(r) == Split(bucketName) + Split(folderPath.value)
    ensures Truthy(folderPath) && '/' !in bucketName ==> Split(r)[0] == bucketName
  {
    if !Truthy(folderPath) then bucketName
    else
      SplitConcat(bucketName, folderPath.value);
      bucketName + "/" + folderPath.value
  }

  class Navigation {
    var urlParams: UrlParams
    /** `window.location.pathname` */
    var pathname: string
    /** The URLs pushed onto the history, oldest first. */
    var history: seq<string>

    /** The state before the URL is read: no bucket, no folder. */
    constructor (pathname: string)
      ensures urlParams == NoParams && this.pathname == pathname && history == []
      ensures !HasUrlNavigation() && !ShouldShowFolderOverview()
    {
      urlParams := NoParams;
      this.pathname := pathname;
      history := [];
    }

    /** `parseUrlParams`, run on mount and on every `popstate`: the state
        becomes what the query says; a throwing decode leaves it as it was. */
    method ReadUrl(query: string, form: Form, codec: Codec)
      modifies this
      ensures pathname == old(pathname) && history == old(history)
      ensures ParseUrlParams(query, form, codec).Some? ==> urlParams == ParseUrlParams(query, form, codec).value
      ensures ParseUrlParams(query, form, codec).None? ==> urlParams == old(urlParams)
    {
      var parsed := ParseUrlParams(query, form, codec);
      if parsed.Some? {
        urlParams := parsed.value;
      }
    }

    /** `navigateToPath(bucket, folder)`: pushes `pathname?query` and sets the
        state; when encoding throws, nothing happens and `ok` is false. */
    method NavigateToPath(bucket: Option<string>, folder: Option<string>, form: Form, codec: Codec) returns (ok: bool)
      modifies this
      ensures ok <==> NavigationQuery(bucket, folder, codec).Some?
      ensures pathname == old(pathname)
      ensures ok ==> history == old(history) + [pathname + "?" + form.serialize(NavigationQuery(bucket, folder, codec).value)]
      ensures ok ==> urlParams == NavigatedParams(bucket, folder)
      ensures ok ==> (IsCurrentPath(bucket, folder) <==> bucket != Some("") && folder != Some(""))
      ensures !ok ==> history == old(history) && urlParams == old(urlParams)
    {
      var q := NavigationQuery(bucket, folder, codec);
      if q.None? {
        return false;
      }
      history := history + [pathname + "?" + form.serialize(q.value)];
      urlParams := UrlParams(OrNull(bucket), OrNull(folder));
      ok := true;
    }

    /** `clearNavigation`: pushes the bare path and forgets both fields. */
    method ClearNavigation()
      modifies this
      ensures pathname == old(pathname) && history == old(history) + [pathname]
      ensures urlParams == NoParams
      ensures !HasUrlNavigation() && !ShouldShowFolderOverview()
    {
      history := history + [pathname];
      urlParams := NoParams;
    }

    /** `isCurrentPath(bucket, folder)`: strict equality on both fields. */
    function IsCurrentPath(bucket: Option<string>, folder: Option<string>): (r: bool)
      reads this
      ensures r <==> urlParams == UrlParams(bucket, folder)
    {
      urlParams.bucket == bucket && urlParams.folder == folder
    }

    function HasUrlNavigation(): (r: bool)
      reads this
      ensures r <==> urlParams.bucket.Some?
    {
      urlParams.bucket != None
    }

    function ShouldShowFolderOverview(): (r: bool)
      reads this
      ensures r == HasUrlNavigation()
    {
      urlParams.bucket != None
    }
  }

  /** Navigating to an empty folder name stores `null`, so asking whether
      the empty name is current afterwards says no. */
  lemma EmptyFolderIsNotCurrent(b: string)
    requires b != ""
    ensures NavigatedParams(Some(b), Some("")) != UrlParams(Some(b), Some(""))
    ensures NavigatedParams(Some(b), Some("")) == UrlParams(Some(b), None)
  {
  }
}
