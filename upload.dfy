/** The upload policy (middleware/upload.js): which files are accepted,
    the size limit, and the name a stored file gets. Node's `path.extname`
    (POSIX flavour) is modelled here since the filter depends on it. */
module Upload {
  import opened Common
  import opened Strings

  // ------------------------------------------------------- path.extname

  /** The path without its trailing slashes. */
  function TrimTrailingSlashes(path: string): (r: string)
    ensures |r| <= |path| && r == path[..|r|]
    ensures r == [] || r[|r| - 1] != '/'
    ensures forall i :: |r| <= i < |path| ==> path[i] == '/'
    ensures '/' !in path ==> r == path
  {
    if |path| > 0 && path[|path| - 1] == '/' then TrimTrailingSlashes(path[..|path| - 1]) else path
  }

  /** What follows the last slash. */
  function LastSegment(path: string): (r: string)
    ensures '/' !in r
    ensures |r| <= |path| && r == path[|path| - |r|..]
    ensures |r| < |path| ==> path[|path| - |r| - 1] == '/'
    ensures '/' !in path ==> r == path
  {
    match LastIndexOf(path, '/')
    case None => path
    case Some(i) => path[i + 1..]
  }

  /** `path.extname(p)`: in the last segment of the path (trailing slashes
      ignored), the text from the last dot to the end; empty when the segment
      has no dot, when its only dot-started part is the whole segment (a dot
      file such as ".png"), or when the segment is "..". */
  function ExtName(path: string): (ext: string)
    ensures ext == [] || (ext[0] == '.' && '.' !in ext[1..] && '/' !in ext)
  {
    var segment := LastSegment(TrimTrailingSlashes(path));
    if segment == ".." then ""
    else
      match LastIndexOf(segment, '.')
      case None => ""
      case Some(i) => if i == 0 then "" else segment[i..]
  }

  // ------------------------------------------------------- the file filter

  /** The alternatives of the regular expression `/jpeg|jpg|png|gif|csv|txt|json/`. */
  const AllowedExtensions: seq<string> := ["jpeg", "jpg", "png", "gif", "csv", "txt", "json"]

  const RejectMessage := "Only images or files are allowed in (jpeg, jpg, png, gif, csv, txt, json)"

  /** The extension test: the lower-cased extension CONTAINS one of the
      alternatives (the expression is not anchored). */
  predicate ExtensionAllowed(originalname: string): (b: bool)
    ensures b ==> |ExtName(originalname)| >= 4
  {
    var lowered := ToLower(ExtName(originalname));
    AllowedNeedsFourCharacters(lowered);
    exists w | w in AllowedExtensions :: Contains(lowered, w)
  }

  /** Every alternative has at least three letters and no dot, so an
      extension containing one is a dot and at least three characters. */
  lemma AllowedNeedsFourCharacters(ext: string)
    requires ext == [] || ext[0] == '.'
    ensures (exists w | w in AllowedExtensions :: Contains(ext, w)) ==> |ext| >= 4
  {
    if w :| w in AllowedExtensions && Contains(ext, w) {
      var i :| 0 <= i <= |ext| - |w| && OccursAt(ext, w, i);
      assert |w| >= 3 && w[0] != '.';
      assert ext[i] == w[0];
    }
  }

  /** The MIME test, case-sensitive. */
  predicate MimeAllowed(mimetype: string): (b: bool)
    ensures b ==> || StartsWith(mimetype, "image/")
                  || StartsWith(mimetype, "text/")
                  || StartsWith(mimetype, "application/")
  {
    || StartsWith(mimetype, "image/")
    || mimetype == "text/plain"
    || mimetype == "application/json"
    || mimetype == "text/csv"
    || mimetype == "application/vnd.ms-excel"
  }

  /** The filter's answer: `cb(null, true)` or `cb(new Error(message))`. */
  datatype Decision = Accept | Reject(message: string)

  /** `fileFilter`: a file is accepted if and only if both tests pass, and
      rejected with the one fixed message otherwise. */
  function FileFilter(originalname: string, mimetype: string): (d: Decision)
    ensures d == Accept <==> ExtensionAllowed(originalname) && MimeAllowed(mimetype)
    ensures d != Accept ==> d == Reject(RejectMessage)
  {
    if ExtensionAllowed(originalname) && MimeAllowed(mimetype) then Accept else Reject(RejectMessage)
  }

  /** The extension of `stem + ext` (other than ".."), for a stem without slashes and an
      extension made of a dot and a word without dots or slashes, is `ext`. */
  lemma {:induction false} ExtNameOfDottedName(stem: string, ext: string)
    requires stem != [] && '/' !in stem
    requires ext != [] && ext[0] == '.' && '.' !in ext[1..] && '/' !in ext
    requires stem + ext != ".."
    ensures ExtName(stem + ext) == ext
  {
    var s := stem + ext;
    assert '/' !in s by {
      forall i | 0 <= i < |s| ensures s[i] != '/' {
        if i >= |stem| { assert s[i] == ext[i - |stem|]; }
      }
    }
    assert s[|stem|] == '.';
    var i := LastIndexOf(s, '.');
    assert s[|stem| + 1..] == ext[1..];
    assert i.value == |stem|;
    assert s[|stem|..] == ext;
  }

  /** A name made of a slash-free stem and a dotted word passes the
      extension test when the lower-cased word contains an alternative. */
  lemma DottedNameAllowed(stem: string, ext: string, w: string, i: int)
    requires stem != [] && '/' !in stem
    requires |ext| >= 2 && ext[0] == '.' && '.' !in ext[1..] && '/' !in ext
    requires w in AllowedExtensions && OccursAt(ToLower(ext), w, i)
    ensures ExtName(stem + ext) == ext && ExtensionAllowed(stem + ext)
  {
    ExtNameOfDottedName(stem, ext);
  }

  lemma JsonlShape()
    ensures ".jsonl"[0] == '.' && '.' !in ".jsonl"[1..] && '/' !in ".jsonl"
    ensures OccursAt(ToLower(".jsonl"), "json", 1)
  {
    LowerCaseUnchanged(".jsonl");
    assert ".jsonl"[1..5] == "json";
  }

  /** The test is a substring test: any name ending in ".jsonl" passes. */
  lemma ExtensionTestUnanchored(stem: string)
    requires stem != [] && '/' !in stem
    ensures ExtName(stem + ".jsonl") == ".jsonl"
    ensures ExtensionAllowed(stem + ".jsonl")
  {
    JsonlShape();
    DottedNameAllowed(stem, ".jsonl", "json", 1);
  }

  lemma UpperPngShape()
    ensures ".PNG"[0] == '.' && '.' !in ".PNG"[1..] && '/' !in ".PNG"
    ensures OccursAt(ToLower(".PNG"), "png", 1)
  {
    var lowered := ToLower(".PNG");
    assert lowered[1] == 'p' && lowered[2] == 'n' && lowered[3] == 'g';
    assert lowered[1..4] == "png";
  }

  /** The extension is lower-cased before the test: ".PNG" passes. */
  lemma ExtensionTestIgnoresCase(stem: string)
    requires stem != [] && '/' !in stem
    ensures ExtName(stem + ".PNG") == ".PNG"
    ensures ExtensionAllowed(stem + ".PNG")
  {
    UpperPngShape();
    DottedNameAllowed(stem, ".PNG", "png", 1);
  }

  /** A name without an extension fails the extension test. */
  lemma EmptyExtensionRejected(name: string)
    requires ExtName(name) == ""
    ensures !ExtensionAllowed(name)
  {
    assert ToLower(ExtName(name)) == "";
  }

  /** A file name (no slash) without a dot after its first character has no
      extension, and fails the extension test. */
  lemma NoDotRejected(name: string)
    requires '/' !in name && (name == [] || '.' !in name[1..])
    ensures ExtName(name) == "" && !ExtensionAllowed(name)
  {
    if name != [] {
      assert forall k :: 1 <= k < |name| ==> name[k] == name[1..][k - 1];
    }
    EmptyExtensionRejected(name);
  }

  /** `path.extname("..")` is empty: the parent-directory name has no
      extension. */
  lemma DotDotRejected()
    ensures ExtName("..") == "" && !ExtensionAllowed("..")
  {
    assert '/' !in "..";
    EmptyExtensionRejected("..");
  }

  /** A name that is only an extension word, a dot file, or "..", has no
      extension, and fails the extension test. */
  lemma NoExtensionRejected()
    ensures ExtName("png") == "" && !ExtensionAllowed("png")
    ensures ExtName(".png") == "" && !ExtensionAllowed(".png")
    ensures ExtName("..") == "" && !ExtensionAllowed("..")
  {
    assert "png"[1..] == "ng" && ".png"[1..] == "png";
    NoDotRejected("png");
    NoDotRejected(".png");
    DotDotRejected();
  }

  /** The MIME test does not fold case. */
  lemma MimeTestCaseSensitive()
    ensures !MimeAllowed("IMAGE/PNG") && MimeAllowed("image/png")
  {
    assert "IMAGE/PNG"[..6][0] == 'I';
  }

  // ------------------------------------------------------- size and naming

  /** `limits: { fileSize: 2 * 1024 * 1024 }`, in bytes. */
  const FileSizeLimit := 2 * 1024 * 1024

  /** A file up to the limit is stored; a larger one is refused. */
  predicate WithinSizeLimit(size: nat) {
    size <= FileSizeLimit
  }

  lemma FileSizeLimitIsTwoMebibytes()
    ensures FileSizeLimit == 2097152
    ensures WithinSizeLimit(2097152) && !WithinSizeLimit(2097153)
  {
  }

  /** `Date.now() + path.extname(file.originalname)`: the name a stored
      file gets. */
  function StoredFilename(now: nat, originalname: string): (name: string)
    ensures var k := |name| - |ExtName(originalname)|;
            && k >= 1 && AllDigits(name[..k]) && (k > 1 ==> name[0] != '0')
            && name[k..] == ExtName(originalname)
  {
    var stamp := NatToString(now);
    assert (stamp + ExtName(originalname))[..|stamp|] == stamp;
    stamp + ExtName(originalname)
  }

  /** The stored name keeps the extension of the original name. */
  lemma {:induction false} StoredFilenameKeepsExtension(now: nat, originalname: string)
    ensures ExtName(StoredFilename(now, originalname)) == ExtName(originalname)
  {
    var d := NatToString(now);
    var e := ExtName(originalname);
    assert '/' !in d by {
      forall i | 0 <= i < |d| ensures d[i] != '/' {
        assert IsDigit(d[i]);
      }
    }
    if e == [] {
      assert d + e == d;
      assert '.' !in d by {
        forall i | 0 <= i < |d| ensures d[i] != '.' {
          assert IsDigit(d[i]);
        }
      }
      assert d != ".." by {
        assert IsDigit(d[0]);
      }
    } else {
      assert (d + e)[0] == d[0] && IsDigit(d[0]);
      ExtNameOfDottedName(d, e);
    }
  }

  /** So an accepted file is stored under a name whose extension passes the
      extension test too. */
  lemma StoredFilenamePassesFilter(now: nat, originalname: string)
    requires ExtensionAllowed(originalname)
    ensures ExtensionAllowed(StoredFilename(now, originalname))
  {
    StoredFilenameKeepsExtension(now, originalname);
  }
}
