/**
 * The images API route: the directory listing filtered by the case-insensitive,
 * end-anchored extension pattern `\.(png|jpg|jpeg)$`, or a 500 error when the
 * directory cannot be read.
 */
module ImagesRoute {
  import opened Results
  import opened Sequences

  // ---------------------------------------------------------------------
  // The extension pattern
  // ---------------------------------------------------------------------

  /**
   * Case folding as a non-unicode `/i` regex does it for these letters: only ASCII
   * letters fold (a non-ASCII character never folds onto an ASCII one).
   */
  function Lower(c: char): char {
    if 'A' <= c <= 'Z' then (c as int + 32) as char else c
  }

  /** s equals the lower-case word w up to case. */
  predicate FoldsTo(s: string, w: string) {
    |s| == |w| && forall k :: 0 <= k < |s| ==> Lower(s[k]) == w[k]
  }

  const Extensions: seq<string> := [".png", ".jpg", ".jpeg"]

  /** Reference reading of the regex: some position i where the rest of the name is one alternative. */
  predicate PatternMatchesAt(name: string, i: nat)
    requires i <= |name|
  {
    exists e :: e in Extensions && FoldsTo(name[i..], e)
  }

  predicate RegexTest(name: string) {
    exists i :: 0 <= i <= |name| && PatternMatchesAt(name, i)
  }

  /** The name ends with the lower-case suffix w, up to case. */
  predicate EndsWithFolded(name: string, w: string) {
    |w| <= |name| && FoldsTo(name[|name| - |w|..], w)
  }

  /** `/\.(png|jpg|jpeg)$/i.test(file)` as a suffix test. */
  predicate IsImageFile(name: string) {
    EndsWithFolded(name, ".png") || EndsWithFolded(name, ".jpg") || EndsWithFolded(name, ".jpeg")
  }

  /** The suffix test is the regex: a match anywhere must run to the end, so it is a suffix. */
  lemma IsImageFileIsRegexTest(name: string)
    ensures IsImageFile(name) <==> RegexTest(name)
  {
    if RegexTest(name) {
      var i :| 0 <= i <= |name| && PatternMatchesAt(name, i);
      var e :| e in Extensions && FoldsTo(name[i..], e);
      assert |name| - |e| == i;
    }
    if IsImageFile(name) {
      var e := if EndsWithFolded(name, ".png") then ".png" else if EndsWithFolded(name, ".jpg") then ".jpg" else ".jpeg";
      assert e in Extensions;
      assert PatternMatchesAt(name, |name| - |e|);
    }
  }

  /** Names that agree up to ASCII case. */
  predicate SameUpToCase(a: string, b: string) {
    |a| == |b| && forall k :: 0 <= k < |a| ==> Lower(a[k]) == Lower(b[k])
  }

  lemma SuffixUpToCase(a: string, b: string, w: string)
    requires SameUpToCase(a, b)
    ensures EndsWithFolded(a, w) <==> EndsWithFolded(b, w)
  {
    if |w| <= |a| {
      var n := |a| - |w|;
      forall k | 0 <= k < |w|
        ensures Lower(a[n..][k]) == Lower(b[n..][k])
      {
        assert a[n..][k] == a[n + k] && b[n..][k] == b[n + k];
      }
    }
  }

  /** Two names that agree up to ASCII case are both images or both not. */
  lemma CaseInsensitive(a: string, b: string)
    requires SameUpToCase(a, b)
    ensures IsImageFile(a) <==> IsImageFile(b)
  {
    SuffixUpToCase(a, b, ".png");
    SuffixUpToCase(a, b, ".jpg");
    SuffixUpToCase(a, b, ".jpeg");
  }

  /** The pattern is anchored at the end: a name whose last character is not a letter of an extension is dropped. */
  lemma AnchoredAtEnd(name: string)
    requires |name| > 0 && Lower(name[|name| - 1]) != 'g'
    ensures !IsImageFile(name)
  {
    assert forall w :: w in Extensions ==> w[|w| - 1] == 'g';
    forall w | w in Extensions && |w| <= |name|
      ensures !FoldsTo(name[|name| - |w|..], w)
    {
      assert name[|name| - |w|..][|w| - 1] == name[|name| - 1];
    }
  }

  /** "X.PNG" and "y.JpEg" are kept. */
  lemma UpperCaseExamples()
    ensures IsImageFile("X.PNG") && IsImageFile("y.JpEg")
  {
    var a, b := "X.PNG", "y.JpEg";
    assert a[|a| - 4..] == ".PNG" && b[|b| - 5..] == ".JpEg";
    assert Lower('P') == 'p' && Lower('N') == 'n' && Lower('G') == 'g' && Lower('J') == 'j' && Lower('E') == 'e';
    assert FoldsTo(".PNG", ".png");
    assert FoldsTo(".JpEg", ".jpeg");
  }

  /** "a.png.bak" and "b.gif" are dropped. */
  lemma DroppedExamples()
    ensures !IsImageFile("a.png.bak") && !IsImageFile("b.gif")
  {
    AnchoredAtEnd("a.png.bak");
    AnchoredAtEnd("b.gif");
  }

  // ---------------------------------------------------------------------
  // GET /api/images
  // ---------------------------------------------------------------------

  /** The image names of a listing, in listing order. */
  function ImageFiles(files: seq<string>): (r: seq<string>)
    ensures forall f :: f in r <==> f in files && IsImageFile(f)
  {
    Keep(files, (f: string) => IsImageFile(f))
  }

  /** The kept names are the listing at increasing positions: order is preserved. */
  lemma ImageFilesKeepOrder(files: seq<string>)
    ensures var idx := KeptIndices(files, (f: string) => IsImageFile(f));
      && |ImageFiles(files)| == |idx| && Increasing(idx)
      && (forall k :: 0 <= k < |idx| ==> idx[k] < |files| && ImageFiles(files)[k] == files[idx[k]])
      && (forall i :: 0 <= i < |files| ==> (IsImageFile(files[i]) <==> i in idx))
  {
    KeepSelects(files, (f: string) => IsImageFile(f));
  }

  /** The JSON body the route sends. */
  datatype Body = FileList(names: seq<string>) | ErrorBody(error: string)

  datatype Response = Response(status: nat, body: Body)

  /** `response.ok`: a 2xx status. */
  predicate Ok(r: Response) { 200 <= r.status <= 299 }

  const ReadFailed: string := "Failed to read images directory"

  /**
   * `GET()`; `listing` stands for `fs.readdirSync` on the images directory
   * (None: it threw).
   */
  function Get(listing: Option<seq<string>>): (r: Response)
    ensures Ok(r) <==> listing.Some?
    ensures listing.Some? ==> r.body == FileList(ImageFiles(listing.value))
    ensures listing.None? ==> r == Response(500, ErrorBody(ReadFailed))
  {
    match listing
    case None => Response(500, ErrorBody(ReadFailed))
    case Some(files) => Response(200, FileList(ImageFiles(files)))
  }
}
