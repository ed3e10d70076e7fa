/** The upload middleware (backend/src/middleware/multerCloudinaryMiddleware.js):
    where staged files go, what they are named, and which files a request
    may carry. */
module UploadMiddleware {
  import opened Wrappers
  import Text

  /** A file staged on the server's disk, as the middleware describes it. */
  datatype UploadedFile = UploadedFile(fieldname: string, originalname: string, mimetype: string, size: nat, path: string)

  /** One entry of `req.files`: a form field and the files sent under it. */
  datatype FieldFiles = FieldFiles(field: string, files: seq<UploadedFile>)

  /** `req.files`: the fields that carried files, in the order they arrived. */
  type Files = seq<FieldFiles>

  /** `req.files[field]`. */
  function Lookup(files: Files, field: string): (r: Option<seq<UploadedFile>>)
    ensures r.None? <==> forall i :: 0 <= i < |files| ==> files[i].field != field
    ensures r.Some? ==> exists i :: 0 <= i < |files| && files[i].field == field && files[i].files == r.value
  {
    if files == [] then None
    else if files[0].field == field then Some(files[0].files)
    else
      var r := Lookup(files[1..], field);
      assert forall i :: 1 <= i < |files| ==> files[i] == files[1..][i - 1];
      r
  }

  /** The stored paths of a field's files, in upload order. */
  function FilePaths(fs: seq<UploadedFile>): (r: seq<string>)
    ensures |r| == |fs| && forall i :: 0 <= i < |fs| ==> r[i] == fs[i].path
  {
    seq(|fs|, i requires 0 <= i < |fs| => fs[i].path)
  }

  // ---------------------------------------------------------------------
  // Configuration

  const AllowedTypes: seq<string> := ["image/png", "image/jpeg", "image/jpg", "video/webm", "audio/webm"]

  /** `limits.fileSize`: 50 MiB. */
  const FileSizeLimit: nat := 50 * 1024 * 1024

  /** The uploads directory next to the sources, used off the hosting platform. */
  const UploadsDir := "uploads"

  /** Where staged files are written: `/tmp` when `VERCEL` is "1". */
  function Destination(vercel: Option<string>): (dir: string)
    ensures dir == "/tmp" <==> vercel == Some("1")
  {
    if vercel == Some("1") then "/tmp" else UploadsDir
  }

  /** `.fields([...])`: how many files each form field may carry; other
      fields carry none. */
  function MaxCount(field: string): (r: Option<nat>)
    ensures r.Some? <==> field in {"thumbnail", "snapPhotos", "contentPayload"}
    ensures field == "thumbnail" ==> r == Some(1)
    ensures field == "snapPhotos" ==> r == Some(5)
    ensures field == "contentPayload" ==> r == Some(1)
  {
    if field == "thumbnail" then Some(1)
    else if field == "snapPhotos" then Some(5)
    else if field == "contentPayload" then Some(1)
    else None
  }

  datatype FilterResult = Accept | Reject(message: string)

  /** `fileFilter`: accepts a file exactly when its MIME type is listed. */
  function FileFilter(mimetype: string): (r: FilterResult)
    ensures r == Accept <==> mimetype in AllowedTypes
    ensures r != Accept ==> r == Reject("Invalid file type")
  {
    if mimetype in AllowedTypes then Accept else Reject("Invalid file type")
  }

  // ---------------------------------------------------------------------
  // Stored file names

  /** Index of the last occurrence of `c` in `s`. */
  function LastIndexOf(s: string, c: char): (r: Option<nat>)
    ensures r.None? <==> c !in s
    ensures r.Some? ==> r.value < |s| && s[r.value] == c && c !in s[r.value + 1..]
  {
    if s == [] then None
    else if s[|s| - 1] == c then Some(|s| - 1)
    else
      var r := LastIndexOf(s[..|s| - 1], c);
      assert s == s[..|s| - 1] + [s[|s| - 1]];
      r
  }

  /** `path.extname` (POSIX) of a name without a trailing '/': from the last
      '.' of its last segment to the end, or "" when that segment has no '.',
      when its last '.' is its first character, or when it is "..". The
      segment is taken after the last '/', so a name ending in '/' gets "",
      where Node would look at the segment before it; multer hands over
      `originalname` as a bare file name, so that case does not arise. */
  function Extname(name: string): (r: string)
    ensures r == [] || (r[0] == '.' && '.' !in r[1..] && '/' !in r)
    ensures |r| <= |name| && name[|name| - |r|..] == r
  {
    var base := Text.AfterLast(name, '/');
    Text.AfterLastIsSuffix(name, '/');
    match LastIndexOf(base, '.')
    case None => []
    case Some(d) =>
      if d == 0 || base == ".." then []
      else
        assert base[d..][1..] == base[d + 1..];
        assert base[|base| - |base[d..]|..] == base[d..];
        base[d..]
  }

  /** The extension is empty exactly when the last segment has no '.', its
      last '.' is its first character, or it is ".."; otherwise it runs from
      that last '.' to the end of the name. */
  lemma ExtnameEmptyIff(name: string)
    ensures var base := Text.AfterLast(name, '/');
      Extname(name) == [] <==> '.' !in base || LastIndexOf(base, '.') == Some(0) || base == ".."
    ensures var base := Text.AfterLast(name, '/');
      Extname(name) != [] ==> LastIndexOf(base, '.').Some? && Extname(name) == base[LastIndexOf(base, '.').value..]
  {
  }

  /** A bare file name `stem.ext` whose stem is not all dots keeps `.ext` as
      its extension, whatever dots the stem holds. */
  lemma ExtnameOfName(stem: string, ext: string)
    requires '/' !in stem + ext && '.' !in ext
    requires exists i :: 0 <= i < |stem| && stem[i] != '.'
    ensures Extname(stem + "." + ext) == "." + ext
  {
    var name := stem + "." + ext;
    Text.SplitWithoutSeparator(name, '/');
    assert Text.AfterLast(name, '/') == name;
    assert name[|stem|] == '.';
    assert name[|stem| + 1..] == ext;
    var d := LastIndexOf(name, '.');
    assert d.Some?;
    assert forall j :: |stem| < j < |name| ==> name[j] == ext[j - |stem| - 1];
    assert forall k :: 0 <= k <= |stem| ==> name[k..][|stem| - k] == '.';
    assert d == Some(|stem|);
    var i :| 0 <= i < |stem| && stem[i] != '.';
    assert name[i] != '.';
    assert name != "..";
    assert name[|stem|..] == "." + ext;
  }

  /** The `filename` callback: field name, a suffix made of the clock reading
      and the rounded random number, and the original extension. */
  function StoredFilename(fieldname: string, now: nat, random: nat, originalname: string): string {
    fieldname + "-" + (Text.Decimal(now) + "-" + Text.Decimal(random)) + Extname(originalname)
  }

  /** The stored name begins with the field name and a dash and ends with the
      original extension; what lies between splits on '-' into exactly two
      decimal numerals that read back as the clock reading and the random
      number. */
  lemma StoredFilenameShape(fieldname: string, now: nat, random: nat, originalname: string)
    ensures var n := StoredFilename(fieldname, now, random, originalname);
      var ext := Extname(originalname);
      Text.StartsWith(n, fieldname + "-") && |fieldname| + 1 <= |n| - |ext| && n[|n| - |ext|..] == ext
    ensures var n := StoredFilename(fieldname, now, random, originalname);
      var parts := Text.Split(n[|fieldname| + 1..|n| - |Extname(originalname)|], '-');
      && |parts| == 2 && Text.AllDigits(parts[0]) && Text.AllDigits(parts[1])
      && Text.ValueOf(parts[0]) == now && Text.ValueOf(parts[1]) == random
  {
    var n := StoredFilename(fieldname, now, random, originalname);
    var ext := Extname(originalname);
    var mid := Text.Decimal(now) + "-" + Text.Decimal(random);
    assert n == fieldname + "-" + mid + ext;
    assert n[|fieldname| + 1..|n| - |ext|] == mid;
    Text.DigitsHaveNoDash(Text.Decimal(now));
    Text.DigitsHaveNoDash(Text.Decimal(random));
    Text.SplitTwo(Text.Decimal(now), Text.Decimal(random), '-');
    Text.ValueOfDecimal(now);
    Text.ValueOfDecimal(random);
  }

  /** Two names for the same field and extension are equal only when the
      clock readings and the random numbers are: the suffix is unambiguous. */
  lemma StoredFilenameInjective(fieldname: string, n1: nat, r1: nat, n2: nat, r2: nat, o1: string, o2: string)
    requires Extname(o1) == Extname(o2)
    requires StoredFilename(fieldname, n1, r1, o1) == StoredFilename(fieldname, n2, r2, o2)
    ensures n1 == n2 && r1 == r2
  {
    var s1 := Text.Decimal(n1) + "-" + Text.Decimal(r1);
    var s2 := Text.Decimal(n2) + "-" + Text.Decimal(r2);
    MiddleCancels(fieldname + "-", s1, s2, Extname(o1));
    Text.DigitsHaveNoDash(Text.Decimal(n1));
    Text.DigitsHaveNoDash(Text.Decimal(r1));
    Text.DigitsHaveNoDash(Text.Decimal(n2));
    Text.DigitsHaveNoDash(Text.Decimal(r2));
    Text.SplitTwo(Text.Decimal(n1), Text.Decimal(r1), '-');
    Text.SplitTwo(Text.Decimal(n2), Text.Decimal(r2), '-');
    Text.DecimalInjective(n1, n2);
    Text.DecimalInjective(r1, r2);
  }

  /** Equal strings with the same prefix and suffix have the same middle. */
  lemma MiddleCancels(p: string, s1: string, s2: string, e: string)
    requires p + s1 + e == p + s2 + e
    ensures s1 == s2
  {
    assert |s1| == |s2|;
    assert s1 == (p + s1 + e)[|p|..|p| + |s1|];
    assert s2 == (p + s2 + e)[|p|..|p| + |s2|];
  }

  // ---------------------------------------------------------------------
  // Admission of a request's files

  /** A file as it arrives, before it is staged. */
  datatype Incoming = Incoming(fieldname: string, mimetype: string, size: nat)

  datatype UploadError =
    | UnexpectedField(field: string)  // a field not listed, or one over its count
    | InvalidFileType                 // refused by `fileFilter`
    | FileTooLarge(field: string)     // over `limits.fileSize`

  function CountField(files: seq<Incoming>, field: string): nat {
    if files == [] then 0
    else CountField(files[..|files| - 1], field) + (if files[|files| - 1].fieldname == field then 1 else 0)
  }

  /** The error the middleware raises for the `i`-th file, given the files
      before it: first the field's count, then the type, then the size. */
  function FileError(files: seq<Incoming>, i: nat): Option<UploadError>
    requires i < |files|
  {
    var f := files[i];
    var max := MaxCount(f.fieldname);
    if max.None? || CountField(files[..i + 1], f.fieldname) > max.value then Some(UnexpectedField(f.fieldname))
    else if FileFilter(f.mimetype) != Accept then Some(InvalidFileType)
    else if f.size > FileSizeLimit then Some(FileTooLarge(f.fieldname))
    else None
  }

  /** The files of one request, in arrival order: the first error raised
      ends the request; otherwise every file is staged. */
  function Admit(files: seq<Incoming>, from: nat): (r: Option<UploadError>)
    requires from <= |files|
    ensures r.None? <==> forall i :: from <= i < |files| ==> FileError(files, i).None?
    decreases |files| - from
  {
    if from == |files| then None
    else if FileError(files, from).Some? then FileError(files, from)
    else Admit(files, from + 1)
  }

  predicate Acceptable(f: Incoming) {
    MaxCount(f.fieldname).Some? && f.mimetype in AllowedTypes && f.size <= FileSizeLimit
  }

  lemma {:induction false} CountFieldPrefixMonotone(files: seq<Incoming>, i: nat, field: string)
    requires i <= |files|
    ensures CountField(files[..i], field) <= CountField(files, field)
    decreases |files|
  {
    if i < |files| {
      assert files[..|files| - 1][..i] == files[..i];
      CountFieldPrefixMonotone(files[..|files| - 1], i, field);
    } else {
      assert files[..i] == files;
    }
  }

  /** The last file of a field carries the field's total count. */
  lemma {:induction false} CountFieldAtLast(files: seq<Incoming>, field: string)
    requires CountField(files, field) > 0
    ensures exists i :: 0 <= i < |files| && files[i].fieldname == field
              && CountField(files[..i + 1], field) == CountField(files, field)
    decreases |files|
  {
    var n := |files|;
    if files[n - 1].fieldname == field {
      assert files[..n] == files;
    } else {
      CountFieldAtLast(files[..n - 1], field);
      var i :| 0 <= i < n - 1 && files[..n - 1][i].fieldname == field
                && CountField(files[..n - 1][..i + 1], field) == CountField(files[..n - 1], field);
      assert files[..n - 1][..i + 1] == files[..i + 1];
    }
  }

  /** A file with no error is acceptable, and its field's total count is
      within the maximum, once no file of the request has an error. */
  lemma AdmittedFileFits(files: seq<Incoming>, i: nat)
    requires i < |files|
    requires forall j :: 0 <= j < |files| ==> FileError(files, j).None?
    ensures Acceptable(files[i])
    ensures CountField(files, files[i].fieldname) <= MaxCount(files[i].fieldname).GetOr(0)
  {
    assert FileError(files, i).None?;
    var field := files[i].fieldname;
    if CountField(files, field) > 0 {
      CountFieldAtLast(files, field);
      var j :| 0 <= j < |files| && files[j].fieldname == field
               && CountField(files[..j + 1], field) == CountField(files, field);
      assert FileError(files, j).None?;
    }
  }

  /** An acceptable file whose field stays within its count raises no error. */
  lemma FittingFileAdmitted(files: seq<Incoming>, i: nat)
    requires i < |files| && Acceptable(files[i])
    requires CountField(files, files[i].fieldname) <= MaxCount(files[i].fieldname).GetOr(0)
    ensures FileError(files, i).None?
  {
    CountFieldPrefixMonotone(files, i + 1, files[i].fieldname);
  }

  /** A request's files are all staged exactly when every file is of an
      allowed type and within the size limit, comes under a listed field, and
      no field carries more files than its maximum count. */
  lemma AdmitIff(files: seq<Incoming>)
    ensures Admit(files, 0).None? <==>
      (forall i :: 0 <= i < |files| ==> Acceptable(files[i]))
      && (forall i :: 0 <= i < |files| ==>
            CountField(files, files[i].fieldname) <= MaxCount(files[i].fieldname).GetOr(0))
  {
    if Admit(files, 0).None? {
      forall i | 0 <= i < |files|
        ensures Acceptable(files[i])
        ensures CountField(files, files[i].fieldname) <= MaxCount(files[i].fieldname).GetOr(0)
      {
        AdmittedFileFits(files, i);
      }
    } else {
      forall i | 0 <= i < |files| && Acceptable(files[i])
        && CountField(files, files[i].fieldname) <= MaxCount(files[i].fieldname).GetOr(0)
        ensures FileError(files, i).None?
      {
        FittingFileAdmitted(files, i);
      }
    }
  }
}
