/** How a file name becomes an id and a type. The manifest script and the
    storage service each carry their own copy of `generateFileId` (the two
    are identical) and of `getFileType` (the two differ: the script asks
    Node's `path.extname`, the service takes the text after the last `.`). */
module Naming {
  import opened Text
  import opened Entries
  import opened Config

  /** `s` ends in `e`, ignoring ASCII case. */
  predicate EndsWithCI(s: string, e: string)
  {
    |e| <= |s| && Lower(s)[|s| - |e|..] == e
  }

  /** `name.replace(/\.(pdf|png|jpg|jpeg)$/i, '')`: the regex is anchored at
      the end, so at most one extension goes, and its case is ignored. */
  function StripMediaExt(name: string): (r: string)
    ensures |r| <= |name| && r == name[..|r|]
    ensures |r| == |name| || |r| + 4 == |name| || |r| + 5 == |name|
    ensures |r| < |name| ==> Lower(name)[|r|..] in SUPPORTED_EXTENSIONS
    ensures |r| == |name| ==> forall e :: e in SUPPORTED_EXTENSIONS ==> !EndsWithCI(name, e)
  {
    var n := |name|;
    if n >= 5 && Lower(name)[n - 5..] == ".jpeg" then name[..n - 5]
    else if n >= 4 && Lower(name)[n - 4..] in [".pdf", ".png", ".jpg"] then name[..n - 4]
    else name
  }

  /** Only the last extension goes. */
  lemma StripOnlyOnce()
    ensures StripMediaExt("a.pdf.pdf") == "a.pdf"
  {
    var l := Lower("a.pdf.pdf");
    assert l == "a.pdf.pdf";
    assert l[4..] == "f.pdf" && l[5..] == ".pdf";
  }

  predicate AsciiAlnum(c: char)
  {
    'a' <= c <= 'z' || 'A' <= c <= 'Z' || '0' <= c <= '9'
  }

  /** A character that can occur in the sanitised part of an id. */
  predicate IdChar(c: char)
  {
    'a' <= c <= 'z' || '0' <= c <= '9' || c == '_'
  }

  /** `replace(/[^a-z0-9]/g, '_')` */
  function Sanitize(s: string): (r: string)
    ensures |r| == |s|
    ensures forall i :: 0 <= i < |s| ==> r[i] == (if 'a' <= s[i] <= 'z' || '0' <= s[i] <= '9' then s[i] else '_')
  {
    seq(|s|, i requires 0 <= i < |s| => if 'a' <= s[i] <= 'z' || '0' <= s[i] <= '9' then s[i] else '_')
  }

  /** `generateFileId(folder, name)`: the folder, `_`, then the name without
      its media extension, lower-cased, with every character other than
      `a`-`z` and `0`-`9` replaced by `_`. */
  function GenerateFileId(folder: string, name: string): (r: string)
    ensures |r| == |folder| + 1 + |StripMediaExt(name)|
    ensures r[..|folder| + 1] == folder + "_"
    ensures forall i :: |folder| < i < |r| ==> IdChar(r[i])
    ensures forall i :: 0 <= i < |StripMediaExt(name)| ==>
      var c := StripMediaExt(name)[i];
      r[|folder| + 1 + i] == if AsciiAlnum(c) then LowerChar(c) else '_'
  {
    folder + "_" + Sanitize(Lower(StripMediaExt(name)))
  }

  /** `a` and `b` differ at most in ASCII letter case and in which
      non-alphanumeric characters they hold. */
  predicate SameUpToCaseAndPunctuation(a: string, b: string)
  {
    |a| == |b| &&
    forall i :: 0 <= i < |a| ==> (AsciiAlnum(a[i]) || AsciiAlnum(b[i]) ==> LowerChar(a[i]) == LowerChar(b[i]))
  }

  /** Two names get the same id in a folder exactly when what is left after
      stripping the extension differs only in case and punctuation. */
  lemma IdCollision(folder: string, a: string, b: string)
    ensures GenerateFileId(folder, a) == GenerateFileId(folder, b)
        <==> SameUpToCaseAndPunctuation(StripMediaExt(a), StripMediaExt(b))
  {
    var ba, bb := StripMediaExt(a), StripMediaExt(b);
    var ia, ib := GenerateFileId(folder, a), GenerateFileId(folder, b);
    var k := |folder| + 1;
    if ia == ib {
      forall i | 0 <= i < |ba| ensures AsciiAlnum(ba[i]) || AsciiAlnum(bb[i]) ==> LowerChar(ba[i]) == LowerChar(bb[i]) {
        assert ia[k + i] == ib[k + i];
      }
    }
    if SameUpToCaseAndPunctuation(ba, bb) {
      assert ia[..k] == ib[..k];
      forall j | k <= j < |ia| ensures ia[j] == ib[j] {
        var i := j - k;
        assert ia[k + i] == ib[k + i];
      }
    }
  }

  /** A name ending in `.pdf` (in any case) loses exactly those four
      characters. */
  lemma StripPdf(name: string)
    requires |name| >= 4 && Lower(name)[|name| - 4..] == ".pdf"
    ensures StripMediaExt(name) == name[..|name| - 4]
  {
    var n := |name|;
    assert Lower(name)[n - 1] == 'f';
    assert n >= 5 ==> Lower(name)[n - 5..][4] == 'f';
  }

  lemma ExampleStrips()
    ensures StripMediaExt("A-B.pdf") == "A-B" && StripMediaExt("a_b.PDF") == "a_b"
  {
    var a, b := "A-B.pdf", "a_b.PDF";
    assert Lower(a)[3..] == ".pdf" by {
      assert forall i | 3 <= i < 7 :: Lower(a)[i] == LowerChar(a[i]);
    }
    assert Lower(b)[3..] == ".pdf" by {
      assert forall i | 3 <= i < 7 :: Lower(b)[i] == LowerChar(b[i]);
    }
    StripPdf(a);
    StripPdf(b);
  }

  /** `A-B.pdf` and `a_b.PDF` collide. */
  lemma CollisionExample(folder: string)
    ensures GenerateFileId(folder, "A-B.pdf") == GenerateFileId(folder, "a_b.PDF")
  {
    ExampleStrips();
    assert SameUpToCaseAndPunctuation("A-B", "a_b");
    IdCollision(folder, "A-B.pdf", "a_b.PDF");
  }

  /** `name` has extension `e` as `path.extname` reports it: it ends in `e`
      (ignoring case) and something comes before it. */
  predicate HasExt(name: string, e: string)
  {
    var l := Lower(name);
    |e| < |l| && l[|l| - |e|..] == e
  }

  lemma LowerExtNameIff(name: string, e: string)
    requires IsExtension(e)
    ensures ExtName(Lower(name)) == e <==> HasExt(name, e)
  {
    ExtNameIff(Lower(name), e);
  }

  /** The lower-cased `extname` is `e` exactly when the name has extension `e`. */
  lemma ExtNameIs(name: string, e: string)
    requires IsExtension(e)
    ensures Lower(ExtName(name)) == e <==> HasExt(name, e)
  {
    ExtNameLower(name);
    LowerExtNameIff(name, e);
  }

  /** The second half of the manifest script's `getFileType`: the type of
      a lower-cased extension. */
  function ExtensionType(ext: string): FileType
  {
    if ext == ".pdf" then Pdf
    else if ext in [".png", ".jpg", ".jpeg"] then Image
    else Unknown
  }

  lemma ExtensionTypeCases(ext: string)
    ensures ExtensionType(ext) == Pdf <==> ext == ".pdf"
    ensures ExtensionType(ext) == Image <==> ext == ".png" || ext == ".jpg" || ext == ".jpeg"
    ensures ExtensionType(ext) != Unknown <==> ext in SUPPORTED_EXTENSIONS
  {
  }

  /** The supported extensions are extensions in the sense of `path.extname`. */
  lemma SupportedAreExtensions()
    ensures IsExtension(".pdf") && IsExtension(".png") && IsExtension(".jpg") && IsExtension(".jpeg")
  {
    assert ".pdf"[1..] == "pdf" && ".png"[1..] == "png" && ".jpg"[1..] == "jpg" && ".jpeg"[1..] == "jpeg";
  }

  /** The manifest script's `getFileType`: Node's `path.extname`,
      lower-cased. */
  function ManifestFileType(name: string): FileType
  {
    ExtensionType(Lower(ExtName(name)))
  }

  /** The script calls a name a PDF exactly when it ends in `.pdf`,
      ignoring case, with something before the extension. */
  lemma ManifestFileTypePdf(name: string)
    ensures ManifestFileType(name) == Pdf <==> HasExt(name, ".pdf")
  {
    ExtensionTypeCases(Lower(ExtName(name)));
    SupportedAreExtensions();
    ExtNameIs(name, ".pdf");
  }

  /** The script calls a name an image exactly when it ends in `.png`,
      `.jpg` or `.jpeg`, ignoring case, with something before the
      extension. */
  lemma ManifestFileTypeImage(name: string)
    ensures ManifestFileType(name) == Image <==> HasExt(name, ".png") || HasExt(name, ".jpg") || HasExt(name, ".jpeg")
  {
    ExtensionTypeCases(Lower(ExtName(name)));
    SupportedAreExtensions();
    ExtNameIs(name, ".png");
    ExtNameIs(name, ".jpg");
    ExtNameIs(name, ".jpeg");
  }

  /** The manifest script's filter: `SUPPORTED_EXTENSIONS.includes(ext)`. */
  function IsScannable(name: string): (r: bool)
    ensures r <==> ManifestFileType(name) != Unknown
  {
    ExtensionTypeCases(Lower(ExtName(name)));
    Lower(ExtName(name)) in SUPPORTED_EXTENSIONS
  }

  /** The last `.`-segment of `name` is `t` (ignoring case): either the whole
      name, or `t` preceded by a `.`. */
  predicate TailIs(name: string, t: string)
  {
    IsLastSegment(Lower(name), t)
  }

  lemma TailIsIff(name: string, t: string)
    requires DotFree(t)
    ensures AfterLastDot(Lower(name)) == t <==> TailIs(name, t)
  {
    AfterLastDotIff(Lower(name), t);
  }

  /** The segments the storage service accepts hold no `.`. */
  lemma AcceptedSegmentsDotFree()
    ensures DotFree("pdf") && DotFree("png") && DotFree("jpg") && DotFree("jpeg")
  {
  }

  /** The second half of the storage service's `getFileType`: the type of a
      lower-cased last segment. */
  function SegmentType(ext: string): FileType
  {
    if ext == "pdf" then Pdf
    else if ext in ["png", "jpg", "jpeg"] then Image
    else Unknown
  }

  lemma SegmentTypeCases(ext: string)
    ensures SegmentType(ext) == Pdf <==> ext == "pdf"
    ensures SegmentType(ext) == Image <==> ext == "png" || ext == "jpg" || ext == "jpeg"
  {
  }

  /** The storage service's `getFileType`: the lower-cased text after the
      last `.`. */
  function StorageFileType(name: string): FileType
  {
    SegmentType(AfterLastDot(Lower(name)))
  }

  /** The service calls a name a PDF exactly when its last `.`-segment is
      `pdf`, ignoring case. */
  lemma StorageFileTypePdf(name: string)
    ensures StorageFileType(name) == Pdf <==> TailIs(name, "pdf")
  {
    SegmentTypeCases(AfterLastDot(Lower(name)));
    AcceptedSegmentsDotFree();
    TailIsIff(name, "pdf");
  }

  /** The service calls a name an image exactly when its last `.`-segment
      is `png`, `jpg` or `jpeg`, ignoring case. */
  lemma StorageFileTypeImage(name: string)
    ensures StorageFileType(name) == Image <==> TailIs(name, "png") || TailIs(name, "jpg") || TailIs(name, "jpeg")
  {
    SegmentTypeCases(AfterLastDot(Lower(name)));
    AcceptedSegmentsDotFree();
    TailIsIff(name, "png");
    TailIsIff(name, "jpg");
    TailIsIff(name, "jpeg");
  }

  /** Putting a `.` in front of a segment gives the extension of the same
      type, and a supported extension exactly for an accepted segment. */
  lemma DottedSegmentType(x: string)
    ensures ExtensionType(['.'] + x) == SegmentType(x)
    ensures ['.'] + x in SUPPORTED_EXTENSIONS <==> SegmentType(x) != Unknown
  {
    assert ".pdf" == ['.'] + "pdf" && ".png" == ['.'] + "png";
    assert ".jpg" == ['.'] + "jpg" && ".jpeg" == ['.'] + "jpeg";
    forall y | y in ["pdf", "png", "jpg", "jpeg"] ensures ['.'] + x == ['.'] + y <==> x == y {
      if ['.'] + x == ['.'] + y {
        assert x == (['.'] + x)[1..];
      }
    }
  }

  /** The storage service's `isSupportedFile`: `'.'` plus the last segment
      must be a supported extension. */
  function IsSupportedFile(name: string): (r: bool)
    ensures r <==> StorageFileType(name) != Unknown
  {
    var ext := AfterLastDot(Lower(name));
    DottedSegmentType(ext);
    ['.'] + ext in SUPPORTED_EXTENSIONS
  }

  /** When the name has a `.` after its first character, both copies of
      `getFileType` agree. */
  lemma FileTypesAgree(name: string)
    requires exists k :: 1 <= k < |name| && name[k] == '.'
    ensures ManifestFileType(name) == StorageFileType(name)
  {
    var l := Lower(name);
    var k :| 1 <= k < |name| && name[k] == '.';
    assert l[k] == '.';
    ExtNameLower(name);
    if !IsDotDot(l) {
      ExtNameOfDotted(l, k);
      DottedSegmentType(AfterLastDot(l));
    }
  }

  /** They disagree on a bare `pdf` and on `.pdf`: the storage service calls
      both PDFs, the manifest script neither. */
  lemma FileTypesDisagree()
    ensures StorageFileType("pdf") == Pdf && ManifestFileType("pdf") == Unknown
    ensures StorageFileType(".pdf") == Pdf && ManifestFileType(".pdf") == Unknown
  {
    assert Lower("pdf") == "pdf";
    assert Lower(".pdf") == ".pdf";
    NoDotIsOwnTail("pdf");
    assert LastDotEnd(".pdf", 4) == 1 by {
      LastDotEndUnique(".pdf", 4, 1);
    }
    assert ".pdf"[1..] == "pdf";
  }
}
