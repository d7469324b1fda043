/**
 * The profile-picture upload settings of Backend/src/middlewares/upload.ts:
 * the extension filter, the stored file name and the size limit.
 *
 * `path.extname` is Node's POSIX version: the extension is taken from the
 * last path component (trailing slashes ignored), from its last '.' to its
 * end; a name whose only dot is its first character, and the name "..",
 * have none. The filter is the unanchored regular expression /jpeg|jpg|png/
 * tested against the lower-cased extension.
 */
module Upload {
  import opened Strings
  import opened Decimal

  const MsgSoloImagenes: string := "Solo se permiten imágenes .jpg, .jpeg o .png"

  /** The end of `p` once trailing '/' are dropped. */
  function TrimmedEnd(p: string, end: nat): (e: nat)
    requires end <= |p|
    ensures e <= end && (e == 0 || p[e - 1] != '/')
    ensures forall k :: e <= k < end ==> p[k] == '/'
  {
    if end == 0 || p[end - 1] != '/' then end else TrimmedEnd(p, end - 1)
  }

  /** The start of the last component of `p[..end]`: just after its last '/'. */
  function ComponentStart(p: string, end: nat): (s: nat)
    requires end <= |p|
    ensures s <= end && (s == 0 || p[s - 1] == '/')
    ensures forall k :: s <= k < end ==> p[k] != '/'
  {
    if end == 0 || p[end - 1] == '/' then end else ComponentStart(p, end - 1)
  }

  /** The index of the last '.' in `p[start..end]`, if any. */
  function LastDot(p: string, start: nat, end: nat): (d: int)
    requires start <= end <= |p|
    ensures d == -1 || (start <= d < end && p[d] == '.')
    ensures forall k :: (if d == -1 then start else d + 1) <= k < end ==> p[k] != '.'
    decreases end - start
  {
    if end == start then -1
    else if p[end - 1] == '.' then end - 1
    else LastDot(p, start, end - 1)
  }

  /** `path.extname(p)`. */
  function ExtName(p: string): (ext: string)
    ensures ext == [] || (ext[0] == '.' && forall k :: 1 <= k < |ext| ==> ext[k] != '.' && ext[k] != '/')
  {
    var end := TrimmedEnd(p, |p|);
    var start := ComponentStart(p, end);
    var dot := LastDot(p, start, end);
    if dot == -1 || dot == start || (dot == start + 1 && end == start + 2 && p[start] == '.') then []
    else p[dot..end]
  }

  /** A name of a non-empty stem without '/' and an extension without '.' or '/' has that extension. */
  lemma ExtNameOfStemAndExtension(stem: string, e: string)
    requires stem != [] && forall k :: 0 <= k < |stem| ==> stem[k] != '/'
    requires forall k :: 0 <= k < |e| ==> e[k] != '.' && e[k] != '/'
    requires !(stem == "." && e == [])
    ensures ExtName(stem + "." + e) == "." + e
  {
    var p := stem + "." + e;
    var d := |stem|;
    assert p[d] == '.';
    assert forall k :: d < k < |p| ==> p[k] == e[k - d - 1];
    var end := TrimmedEnd(p, |p|);
    if e == [] {
      assert p[|p| - 1] == '.';
    } else {
      assert p[|p| - 1] == e[|e| - 1];
    }
    assert end == |p|;
    var start := ComponentStart(p, end);
    assert forall k :: 0 <= k < |p| ==> p[k] != '/';
    assert start == 0;
    var dot := LastDot(p, start, end);
    assert dot == d;
    assert !(dot == start + 1 && end == start + 2 && p[start] == '.') by {
      if d == 1 && e == [] {
        assert stem == [p[0]];
      }
    }
    assert p[d..] == "." + e;
  }

  /** A name without a '.' has no extension. */
  lemma NoDotNoExtension(p: string)
    requires forall k :: 0 <= k < |p| ==> p[k] != '.'
    ensures ExtName(p) == []
  {
  }

  /** A name whose only '.' starts it, such as ".png", has no extension. */
  lemma LeadingDotOnlyNoExtension(e: string)
    requires forall k :: 0 <= k < |e| ==> e[k] != '.' && e[k] != '/'
    ensures ExtName("." + e) == []
  {
    var p := "." + e;
    assert forall k :: 1 <= k < |p| ==> p[k] == e[k - 1];
    var end := TrimmedEnd(p, |p|);
    assert end == |p| by {
      if e == [] { assert p[|p| - 1] == '.'; } else { assert p[|p| - 1] == e[|e| - 1]; }
    }
    assert ComponentStart(p, end) == 0;
    assert forall k :: 1 <= k < |p| ==> p[k] != '.';
    assert p[0] == '.';
    assert LastDot(p, 0, end) == 0;
  }

  /** The `fileFilter` test: the lower-cased extension contains "jpeg", "jpg" or "png". */
  predicate Allowed(originalName: string) {
    var ext := ToLower(ExtName(originalName));
    Includes(ext, "jpeg") || Includes(ext, "jpg") || Includes(ext, "png")
  }

  /** The filter's answer for a file: accepted, or rejected with its message. */
  function FileFilter(originalName: string): (r: Verdict)
    ensures r.Accept? <==> Allowed(originalName)
    ensures r.Reject? ==> r.message == MsgSoloImagenes
  {
    if Allowed(originalName) then Accept else Reject(MsgSoloImagenes)
  }

  datatype Verdict = Accept | Reject(message: string)

  /** A file without an extension is rejected: no pattern occurs in the empty string. */
  lemma NoExtensionRejected(originalName: string)
    requires ExtName(originalName) == []
    ensures FileFilter(originalName) == Reject(MsgSoloImagenes)
  {
    assert !OccursAt([], "jpeg", 0) && !OccursAt([], "jpg", 0) && !OccursAt([], "png", 0);
  }

  /**
   * Upper-case extensions pass: a file whose extension is ".PNG" is accepted.
   * By `ExtNameOfStemAndExtension`, "foto.PNG" is such a file.
   */
  lemma UpperCasePngAccepted(name: string)
    requires ExtName(name) == ".PNG"
    ensures FileFilter(name) == Accept
  {
    assert ToLower(".PNG") == ".png";
    assert OccursAt(".png", "png", 1);
  }

  /** The filter is unanchored: a file whose extension is ".pngx", such as "x.pngx", is accepted too. */
  lemma UnanchoredMatch(name: string)
    requires ExtName(name) == ".pngx"
    ensures FileFilter(name) == Accept
  {
    assert ToLower(".pngx") == ".pngx";
    assert OccursAt(".pngx", "png", 1);
  }

  /** A file whose extension is ".gif", such as "foto.gif", is rejected. */
  lemma GifRejected(name: string)
    requires ExtName(name) == ".gif"
    ensures FileFilter(name) == Reject(MsgSoloImagenes)
  {
    assert ToLower(".gif") == ".gif";
    NoImagePattern(".gif");
  }

  /** An extension without 'j' or 'p' contains none of the three patterns. */
  lemma NoImagePattern(ext: string)
    requires forall k :: 0 <= k < |ext| ==> ext[k] != 'j' && ext[k] != 'p'
    ensures !Contains(ext, "jpeg") && !Contains(ext, "jpg") && !Contains(ext, "png")
  {
    forall i ensures !OccursAt(ext, "jpeg", i) && !OccursAt(ext, "jpg", i) && !OccursAt(ext, "png", i) {
      if 0 <= i <= |ext| - 3 {
        assert ext[i..i + 3][0] == ext[i];
      }
      if 0 <= i <= |ext| - 4 {
        assert ext[i..i + 4][0] == ext[i];
      }
    }
  }

  /** `Date.now() + "-" + Math.round(Math.random() * 1e9)`, with the rounded random number as a parameter. */
  function UniqueSuffix(nowMs: nat, rounded: nat): (s: string)
    ensures forall k :: 0 <= k < |s| ==> s[k] != '.' && s[k] != '/'
  {
    NatToText(nowMs) + "-" + NatToText(rounded)
  }

  /** The stored name: field name, '-', suffix, and the original extension with its case kept. */
  function StoredName(fieldname: string, suffix: string, originalName: string): (name: string)
    ensures |name| > |fieldname| + |suffix|
  {
    fieldname + "-" + suffix + ExtName(originalName)
  }

  /** The stored file has the original's extension, so the filter's verdict on it is the same. */
  lemma StoredNameKeepsExtension(fieldname: string, suffix: string, originalName: string)
    requires forall k :: 0 <= k < |fieldname| ==> fieldname[k] != '.' && fieldname[k] != '/'
    requires forall k :: 0 <= k < |suffix| ==> suffix[k] != '.' && suffix[k] != '/'
    ensures ExtName(StoredName(fieldname, suffix, originalName)) == ExtName(originalName)
    ensures Allowed(StoredName(fieldname, suffix, originalName)) == Allowed(originalName)
  {
    var stem := fieldname + "-" + suffix;
    assert forall k :: 0 <= k < |stem| ==> stem[k] != '.' && stem[k] != '/';
    var ext := ExtName(originalName);
    if ext == [] {
      assert StoredName(fieldname, suffix, originalName) == stem;
      NoDotNoExtension(stem);
    } else {
      var e := ext[1..];
      assert ext == "." + e;
      assert StoredName(fieldname, suffix, originalName) == stem + "." + e;
      ExtNameOfStemAndExtension(stem, e);
    }
  }
}
