/**
 * The storage file name of an uploaded payment screenshot
 * (`upload_capture_to_storage`, which names the file before uploading it).
 * The date stamp (`strftime("%Y%m%d")`), the random hex id (`uuid4().hex`)
 * and the uploaded file's name are inputs.
 */
module Capture {
  import opened Wrappers
  import opened Seqs

  /** The characters of the class `[A-Za-z0-9_-]`. */
  predicate SafeChar(c: char) {
    ('A' <= c <= 'Z') || ('a' <= c <= 'z') || ('0' <= c <= '9') || c == '_' || c == '-'
  }

  predicate AllSafe(s: string) {
    forall i :: 0 <= i < |s| ==> SafeChar(s[i])
  }

  predicate IsAscii(c: char) { c as int < 128 }

  /** `s.encode("ascii", "ignore").decode()`: non-ASCII characters are dropped. */
  function AsciiOnly(s: string): string {
    Filter(IsAscii, s)
  }

  /** `re.sub(r"[^A-Za-z0-9_-]", "_", s)`: every character outside the class
      becomes one underscore. */
  function Underscored(s: string): (r: string)
    ensures |r| == |s| && AllSafe(r)
    ensures forall i :: 0 <= i < |s| && SafeChar(s[i]) ==> r[i] == s[i]
    ensures forall i :: 0 <= i < |s| && r[i] != s[i] ==> r[i] == '_'
    ensures AllSafe(s) ==> r == s
  {
    seq(|s|, i requires 0 <= i < |s| => if SafeChar(s[i]) then s[i] else '_')
  }

  /** The longest length kept of the sanitised name. */
  const MaxNameLength: nat := 50

  /** `[:50]`. */
  function Truncated(s: string): (r: string)
    ensures |r| == if |s| <= MaxNameLength then |s| else MaxNameLength
    ensures r == s[..|r|]
  {
    if |s| <= MaxNameLength then s else s[..MaxNameLength]
  }

  /** `safe_nombre`. */
  function Sanitize(name: string): string {
    Truncated(Underscored(AsciiOnly(name)))
  }

  /** The sanitised name only holds characters of the class, and at most 50. */
  lemma SanitizeSafe(name: string)
    ensures AllSafe(Sanitize(name)) && |Sanitize(name)| <= MaxNameLength
  {
    var u := Underscored(AsciiOnly(name));
    assert AllSafe(u);
  }

  /** A name that is already safe and short is kept as is. */
  lemma SanitizeKeepsSafe(name: string)
    requires AllSafe(name) && |name| <= MaxNameLength
    ensures Sanitize(name) == name
  {
    FilterAll(IsAscii, name);
    assert Underscored(name) == name;
  }

  /** Sanitising twice is sanitising once. */
  lemma SanitizeIdempotent(name: string)
    ensures Sanitize(Sanitize(name)) == Sanitize(name)
  {
    SanitizeSafe(name);
    SanitizeKeepsSafe(Sanitize(name));
  }

  /** A non-ASCII character is dropped and the rest is kept in order. */
  lemma AsciiDrops(a: string, c: char, b: string)
    requires !IsAscii(c)
    ensures AsciiOnly(a + [c] + b) == AsciiOnly(a) + AsciiOnly(b)
  {
    FilterConcat(IsAscii, a + [c], b);
    FilterConcat(IsAscii, a, [c]);
    assert Filter(IsAscii, [c]) == [];
  }

  /** ASCII text is kept as is. */
  lemma AsciiKeeps(s: string)
    requires forall i :: 0 <= i < |s| ==> IsAscii(s[i])
    ensures AsciiOnly(s) == s
  {
    FilterAll(IsAscii, s);
  }

  /** Characters outside the class become underscores. */
  lemma UnderscoreExample()
    ensures Underscored("Jos P.") == "Jos_P_"
  {
    var u := Underscored("Jos P.");
    assert u[3] == '_' && u[5] == '_';
  }

  /** "José P.": the accented letter is dropped and the space and the dot
      become underscores. */
  lemma SanitizeExample()
    ensures Sanitize("José P.") == "Jos_P_"
  {
    AsciiExample();
    UnderscoreExample();
  }

  lemma AsciiExample()
    ensures AsciiOnly("José P.") == "Jos P."
  {
    var a, b := "Jos", " P.";
    assert "José P." == a + ['é'] + b;
    AsciiDrops(a, 'é', b);
    AsciiThree('J', 'o', 's');
    AsciiThree(' ', 'P', '.');
    assert a + b == "Jos P.";
  }

  lemma AsciiThree(x: char, y: char, z: char)
    requires IsAscii(x) && IsAscii(y) && IsAscii(z)
    ensures AsciiOnly([x, y, z]) == [x, y, z]
  {
    var s := [x, y, z];
    assert forall i :: 0 <= i < |s| ==> s[i] == x || s[i] == y || s[i] == z;
    AsciiKeeps(s);
  }

  // ------------------------------------------------------------- extension

  /** The last index of `c` in `s`, or -1 (Python `str.rfind`). */
  function RFind(s: string, c: char): (r: int)
    ensures -1 <= r < |s|
    ensures r >= 0 ==> s[r] == c
    ensures forall k :: r < k < |s| ==> s[k] != c
  {
    if s == [] then -1
    else if s[|s| - 1] == c then |s| - 1
    else RFind(s[..|s| - 1], c)
  }

  /** The last `c` of `s` is at `j`. */
  lemma RFindAt(s: string, c: char, j: nat)
    requires j < |s| && s[j] == c
    requires forall k :: j < k < |s| ==> s[k] != c
    ensures RFind(s, c) == j
  {
  }

  /** No `c` in `s`. */
  lemma RFindNone(s: string, c: char)
    requires forall k :: 0 <= k < |s| ==> s[k] != c
    ensures RFind(s, c) == -1
  {
  }

  /** Some character strictly between `from` and `to` that is not a dot. */
  predicate HasNonDot(s: string, from: int, to: int)
    requires 0 <= from && to <= |s|
  {
    exists k :: from <= k < to && s[k] != '.'
  }

  /** `os.path.splitext(name)[1]` on POSIX: from the last dot of the last path
      component, unless that component is only dots before it (".bashrc"). */
  function Extension(name: string): (ext: string)
    ensures |ext| <= |name|
    ensures ext == [] || (ext[0] == '.' && ext == name[|name| - |ext|..])
    ensures forall k :: 0 < k < |ext| ==> ext[k] != '.' && ext[k] != '/'
  {
    var sep := RFind(name, '/');
    var dot := RFind(name, '.');
    if dot > sep && HasNonDot(name, sep + 1, dot) then name[dot..] else []
  }

  /** The extension is non-empty exactly when the last path component (the
      positions after the last `/`) has a dot with some other character
      before it. */
  lemma ExtensionNonEmpty(name: string)
    ensures Extension(name) != [] <==>
      exists k, j :: RFind(name, '/') < k < j < |name| && name[k] != '.' && name[j] == '.'
  {
    var sep := RFind(name, '/');
    var dot := RFind(name, '.');
    if Extension(name) != [] {
      var k :| sep + 1 <= k < dot && name[k] != '.';
      assert sep < k < dot < |name| && name[k] != '.' && name[dot] == '.';
    }
    forall k, j | sep < k < j < |name| && name[k] != '.' && name[j] == '.'
      ensures Extension(name) != []
    {
      ExtensionFromDot(name, k, j);
    }
  }

  /** A dot at `j` with a non-dot at `k` before it, both after the last `/`. */
  lemma ExtensionFromDot(name: string, k: int, j: int)
    requires RFind(name, '/') < k < j < |name| && name[k] != '.' && name[j] == '.'
    ensures Extension(name) != []
  {
    var sep := RFind(name, '/');
    var dot := RFind(name, '.');
    assert dot >= j;
    assert HasNonDot(name, sep + 1, dot);
  }

  lemma ExtensionExamples()
    ensures Extension("comprobante.png") == ".png"
    ensures Extension("a.tar.gz") == ".gz"
    ensures Extension(".bashrc") == ""
    ensures Extension("captura") == ""
  {
    var s1 := "comprobante.png";
    RFindAt(s1, '.', 11);
    RFindNone(s1, '/');
    assert s1[0] != '.';
    assert s1[11..] == ".png";
    var s2 := "a.tar.gz";
    RFindAt(s2, '.', 5);
    RFindNone(s2, '/');
    assert s2[0] != '.';
    assert s2[5..] == ".gz";
    var s3 := ".bashrc";
    RFindAt(s3, '.', 0);
    var s4 := "captura";
    RFindNone(s4, '.');
  }

  /** The extension used: the uploaded file's, or ".png" when the upload has
      no name attribute. */
  function UploadExtension(uploadName: Option<string>): string {
    match uploadName
    case Some(n) => Extension(n)
    case None => ".png"
  }

  /** Without a name the extension is ".png"; with one it is empty or a dotted
      tail of the name. */
  lemma UploadExtensionShape(uploadName: Option<string>)
    ensures var ext := UploadExtension(uploadName);
      && (uploadName.None? ==> ext == ".png")
      && (uploadName.Some? ==> ext == [] || (ext[0] == '.' && EndsWithText(uploadName.value, ext)))
  {
  }

  predicate EndsWithText(s: string, t: string) {
    |t| <= |s| && s[|s| - |t|..] == t
  }

  // -------------------------------------------------------------- file name

  /** `f"{fecha_str}_{safe_nombre}_{uid}{ext}"`, or without the name part when
      the sanitised name is empty. */
  function CaptureFileName(dateStamp: string, member: string, uid: string, ext: string): string {
    var safe := Sanitize(member);
    if safe != [] then dateStamp + "_" + safe + "_" + uid + ext
    else dateStamp + "_" + uid + ext
  }

  /** The file name is the date stamp, an underscore, the optional sanitised name
      with its underscore, the uid and the extension; so it starts with the stamp
      and ends with the uid and extension, and everything in it is from the
      class or a dot when the inputs are. */
  lemma FileNameShape(dateStamp: string, member: string, uid: string, ext: string)
    ensures var f := CaptureFileName(dateStamp, member, uid, ext);
      && f[..|dateStamp| + 1] == dateStamp + "_"
      && (Sanitize(member) != [] ==>
            f[|dateStamp| + 1..|dateStamp| + 2 + |Sanitize(member)|] == Sanitize(member) + "_")
      && f[|f| - |uid| - |ext|..] == uid + ext
      && |f| == |dateStamp| + 1 + (if Sanitize(member) == [] then 0 else |Sanitize(member)| + 1) + |uid| + |ext|
  {
    var safe := Sanitize(member);
    if safe != [] {
      JoinedWithName(dateStamp, safe, uid, ext);
    } else {
      Joined(dateStamp, uid, ext);
    }
  }

  lemma JoinedWithName(a: string, b: string, u: string, e: string)
    ensures var f := a + "_" + b + "_" + u + e;
      && f[..|a| + 1] == a + "_"
      && f[|a| + 1..|a| + 2 + |b|] == b + "_"
      && f[|f| - |u| - |e|..] == u + e
      && |f| == |a| + 1 + |b| + 1 + |u| + |e|
  {
    var f := a + "_" + b + "_" + u + e;
    assert f == (a + "_") + (b + "_") + (u + e);
  }

  lemma Joined(a: string, u: string, e: string)
    ensures var f := a + "_" + u + e;
      && f[..|a| + 1] == a + "_"
      && f[|f| - |u| - |e|..] == u + e
      && |f| == |a| + 1 + |u| + |e|
  {
    var f := a + "_" + u + e;
    assert f == (a + "_") + (u + e);
  }

  predicate NameChar(c: char) { SafeChar(c) || c == '.' }

  lemma FileNameChars(dateStamp: string, member: string, uid: string, ext: string)
    requires AllSafe(dateStamp) && AllSafe(uid)
    requires forall k :: 0 <= k < |ext| ==> NameChar(ext[k])
    ensures var f := CaptureFileName(dateStamp, member, uid, ext);
      forall k :: 0 <= k < |f| ==> NameChar(f[k])
  {
    SanitizeSafe(member);
  }
}
