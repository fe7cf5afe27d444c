/**
 * The regular expressions the image filter applies to a link's raw `href`.
 *
 * Both revisions of the pattern have the same shape: a directory marker, an
 * unbounded run of non-line-terminator characters (`.*`), an image extension,
 * and then either the end of the string (`$`) or, in the later revision, an
 * optional query string (`(\?.*)?$`). `String.prototype.match` with such a
 * pattern searches for a match starting at any position (the pattern is not
 * anchored at its start), is case-sensitive, and `.` never matches a line
 * terminator.
 *
 * The matcher is written twice: once the way a backtracking engine searches
 * (SearchFrom, MatchesAt, RunThenExtension, ExtensionAt, TailAt), and once as
 * a declarative statement of what a match is (MatchSpan, Matches). Test and
 * Matches are proved to agree on every string.
 */
module LinkPattern {
  import opened Text

  /**
   * `dirs` are the alternatives of the directory marker, `exts` the
   * alternatives of the extension, and `optionalQuery` says whether
   * `(\?.*)?` precedes the final `$`.
   */
  datatype PathPattern = PathPattern(dirs: seq<string>, exts: seq<string>, optionalQuery: bool)

  /** `/blob/.*\.(png|jpe?g)$` (gh-image.user.js and github-image-preview.user.js). */
  const BlobImage := PathPattern(["/blob/"], [".png", ".jpg", ".jpeg"], false)

  /** `/(blob|raw)/.*\.(png|jpe?g|gif)(\?.*)?$` (github-image-viewer.user.js). */
  const BlobOrRawImage := PathPattern(["/blob/", "/raw/"], [".png", ".jpg", ".jpeg", ".gif"], true)

  // ---------------------------------------------------------------------------
  // The search, stage by stage

  /** What follows the extension: `$`, or `(\?.*)?$` when the query is allowed. */
  predicate TailAt(p: PathPattern, s: string, m: nat)
    requires m <= |s|
  {
    m == |s| || (p.optionalQuery && s[m] == '?' && NoLineTerminatorIn(s, m + 1, |s|))
  }

  /** One of the extensions starts at `j` and the tail matches after it. */
  predicate ExtensionAt(p: PathPattern, s: string, j: nat)
    requires j <= |s|
  {
    exists e :: e in p.exts && OccursAt(s, j, e) && TailAt(p, s, j + |e|)
  }

  /** `.*` consumes `s[k..j]` for some `j` at which ExtensionAt holds. */
  predicate RunThenExtension(p: PathPattern, s: string, k: nat)
    requires k <= |s|
    decreases |s| - k
  {
    ExtensionAt(p, s, k) || (k < |s| && !IsLineTerminator(s[k]) && RunThenExtension(p, s, k + 1))
  }

  /** The whole pattern matches starting exactly at `i`. */
  predicate MatchesAt(p: PathPattern, s: string, i: nat)
    requires i <= |s|
  {
    exists d :: d in p.dirs && OccursAt(s, i, d) && RunThenExtension(p, s, i + |d|)
  }

  /** Some match starts at or after `i`. */
  predicate SearchFrom(p: PathPattern, s: string, i: nat)
    requires i <= |s|
    decreases |s| - i
  {
    MatchesAt(p, s, i) || (i < |s| && SearchFrom(p, s, i + 1))
  }

  /** `s.match(pattern)` is not `null`. */
  predicate Test(p: PathPattern, s: string) {
    SearchFrom(p, s, 0)
  }

  // ---------------------------------------------------------------------------
  // What a match is

  /** `.*` covers `s[k..j]`, the extension `e` starts at `j`, and the tail matches after it. */
  ghost predicate RunEndsAt(p: PathPattern, s: string, k: nat, j: nat, e: string) {
    k <= j && e in p.exts && OccursAt(s, j, e) && NoLineTerminatorIn(s, k, j) && TailAt(p, s, j + |e|)
  }

  /**
   * The directory marker `d` starts at `i`, `.*` covers `s[i + |d|..j]`, the
   * extension `e` starts at `j`, and the tail matches after it.
   */
  ghost predicate MatchSpan(p: PathPattern, s: string, i: nat, d: string, j: nat, e: string) {
    d in p.dirs && OccursAt(s, i, d) && RunEndsAt(p, s, i + |d|, j, e)
  }

  ghost predicate Matches(p: PathPattern, s: string) {
    exists i: nat, d, j: nat, e :: MatchSpan(p, s, i, d, j, e)
  }

  // ---------------------------------------------------------------------------
  // The search finds exactly the matches

  lemma {:induction false} RunThenExtensionSound(p: PathPattern, s: string, k: nat)
    requires k <= |s| && RunThenExtension(p, s, k)
    decreases |s| - k
    ensures exists j: nat, e :: RunEndsAt(p, s, k, j, e)
  {
    if ExtensionAt(p, s, k) {
      var e :| e in p.exts && OccursAt(s, k, e) && TailAt(p, s, k + |e|);
      assert RunEndsAt(p, s, k, k, e);
    } else {
      RunThenExtensionSound(p, s, k + 1);
      var j: nat, e :| RunEndsAt(p, s, k + 1, j, e);
      assert RunEndsAt(p, s, k, j, e);
    }
  }

  lemma {:induction false} RunThenExtensionComplete(p: PathPattern, s: string, k: nat, j: nat, e: string)
    requires k <= |s| && RunEndsAt(p, s, k, j, e)
    decreases j - k
    ensures RunThenExtension(p, s, k)
  {
    if j == k {
      assert ExtensionAt(p, s, k);
    } else {
      assert !IsLineTerminator(s[k]);
      assert RunEndsAt(p, s, k + 1, j, e);
      RunThenExtensionComplete(p, s, k + 1, j, e);
    }
  }

  lemma MatchesAtSound(p: PathPattern, s: string, i: nat)
    requires i <= |s| && MatchesAt(p, s, i)
    ensures exists d, j: nat, e :: MatchSpan(p, s, i, d, j, e)
  {
    var d :| d in p.dirs && OccursAt(s, i, d) && RunThenExtension(p, s, i + |d|);
    RunThenExtensionSound(p, s, i + |d|);
    var j: nat, e :| RunEndsAt(p, s, i + |d|, j, e);
    assert MatchSpan(p, s, i, d, j, e);
  }

  lemma MatchesAtComplete(p: PathPattern, s: string, i: nat, d: string, j: nat, e: string)
    requires i <= |s| && MatchSpan(p, s, i, d, j, e)
    ensures MatchesAt(p, s, i)
  {
    RunThenExtensionComplete(p, s, i + |d|, j, e);
  }

  lemma {:induction false} SearchFromSound(p: PathPattern, s: string, i: nat)
    requires i <= |s| && SearchFrom(p, s, i)
    decreases |s| - i
    ensures exists i': nat, d, j: nat, e :: i <= i' && MatchSpan(p, s, i', d, j, e)
  {
    if MatchesAt(p, s, i) {
      MatchesAtSound(p, s, i);
      var d, j: nat, e :| MatchSpan(p, s, i, d, j, e);
      assert i <= i && MatchSpan(p, s, i, d, j, e);
    } else {
      SearchFromSound(p, s, i + 1);
      var i': nat, d, j: nat, e :| i + 1 <= i' && MatchSpan(p, s, i', d, j, e);
      assert i <= i' && MatchSpan(p, s, i', d, j, e);
    }
  }

  lemma {:induction false} SearchFromComplete(p: PathPattern, s: string, i: nat, i': nat, d: string, j: nat, e: string)
    requires i <= i' <= |s| && MatchSpan(p, s, i', d, j, e)
    decreases i' - i
    ensures SearchFrom(p, s, i)
  {
    if i == i' {
      MatchesAtComplete(p, s, i, d, j, e);
    } else {
      SearchFromComplete(p, s, i + 1, i', d, j, e);
    }
  }

  /** The search succeeds on exactly the strings that contain a match. */
  lemma TestCorrect(p: PathPattern, s: string)
    ensures Test(p, s) <==> Matches(p, s)
  {
    if Test(p, s) {
      SearchFromSound(p, s, 0);
    }
    if Matches(p, s) {
      var i: nat, d, j: nat, e :| MatchSpan(p, s, i, d, j, e);
      SearchFromComplete(p, s, 0, i, d, j, e);
    }
  }

  // ---------------------------------------------------------------------------
  // What every match implies

  /**
   * A link the pattern accepts contains one of its directory markers, and
   * unless it contains a `?` it ends with one of its extensions.
   */
  lemma MatchNeedsDirAndSuffix(p: PathPattern, s: string)
    requires Test(p, s)
    ensures exists i: nat, d :: d in p.dirs && OccursAt(s, i, d)
    ensures !Includes(s, "?") ==> exists e :: e in p.exts && EndsWith(s, e)
  {
    TestCorrect(p, s);
    var i: nat, d, j: nat, e :| MatchSpan(p, s, i, d, j, e);
    assert d in p.dirs && OccursAt(s, i, d);
    var m := j + |e|;
    if m < |s| {
      assert s[m..m + 1] == "?";
      assert OccursAt(s, m, "?");
    } else {
      assert EndsWith(s, e);
    }
  }

  /** Without the optional query, an accepted link ends with one of the extensions. */
  lemma MatchNeedsSuffix(p: PathPattern, s: string)
    requires !p.optionalQuery && Test(p, s)
    ensures exists e :: e in p.exts && EndsWith(s, e)
  {
    TestCorrect(p, s);
    var i: nat, d, j: nat, e :| MatchSpan(p, s, i, d, j, e);
    assert EndsWith(s, e);
  }

  /** No directory marker or extension of `p` contains a line terminator. */
  predicate LiteralsOnOneLine(p: PathPattern) {
    (forall d, c :: d in p.dirs && c in d ==> !IsLineTerminator(c))
    && (forall e, c :: e in p.exts && c in e ==> !IsLineTerminator(c))
  }

  /**
   * Because `.` refuses line terminators, an accepted link has a directory
   * marker from which everything to the end of the string lies on one line:
   * a line break anywhere after the last marker makes the link refused.
   */
  lemma MatchLiesOnLastLine(p: PathPattern, s: string)
    requires LiteralsOnOneLine(p)
    requires Test(p, s)
    ensures exists i: nat, d :: d in p.dirs && OccursAt(s, i, d) && NoLineTerminatorIn(s, i, |s|)
  {
    TestCorrect(p, s);
    var i: nat, d, j: nat, e :| MatchSpan(p, s, i, d, j, e);
    forall k | i <= k < |s| ensures !IsLineTerminator(s[k]) {
      if k < i + |d| {
        assert s[k] == d[k - i] && d[k - i] in d;
      } else if j <= k < j + |e| {
        assert s[k] == e[k - j] && e[k - j] in e;
      }
    }
  }

  /** Both revisions satisfy the premise of MatchLiesOnLastLine. */
  lemma RevisionsOnOneLine()
    ensures LiteralsOnOneLine(BlobImage) && LiteralsOnOneLine(BlobOrRawImage)
  {
  }

  /** A match span at a known place, built from its parts. */
  lemma SpanOfParts(p: PathPattern, s: string, prefix: string, d: string, path: string, e: string, query: string)
    requires s == prefix + d + path + e + query
    requires d in p.dirs && e in p.exts
    requires NoLineTerminatorIn(path, 0, |path|)
    requires TailAt(p, s, |prefix| + |d| + |path| + |e|)
    ensures Test(p, s)
  {
    var i, j := |prefix|, |prefix| + |d| + |path|;
    assert s[i..i + |d|] == d;
    assert s[j..j + |e|] == e;
    forall k | i + |d| <= k < j ensures !IsLineTerminator(s[k]) {
      assert s[k] == path[k - i - |d|];
    }
    assert MatchSpan(p, s, i, d, j, e);
    TestCorrect(p, s);
  }

  // ---------------------------------------------------------------------------
  // The two revisions

  /**
   * A link the first pattern accepts contains `/blob/` and ends with `.png`,
   * `.jpg` or `.jpeg`: `/raw/` links, `.gif` and `.svg` images, upper-case
   * extensions and links whose query string follows the extension are refused.
   */
  lemma BlobImageNeedsBlobAndSuffix(s: string)
    requires Test(BlobImage, s)
    ensures Includes(s, "/blob/")
    ensures EndsWith(s, ".png") || EndsWith(s, ".jpg") || EndsWith(s, ".jpeg")
  {
    MatchNeedsDirAndSuffix(BlobImage, s);
    MatchNeedsSuffix(BlobImage, s);
    var i: nat, d :| d in BlobImage.dirs && OccursAt(s, i, d);
    assert d == "/blob/";
  }

  /** Every `<anything>/blob/<one line>.png|.jpg|.jpeg` is accepted by the first pattern. */
  lemma BlobImageAccepts(prefix: string, path: string, e: string)
    requires e in BlobImage.exts
    requires NoLineTerminatorIn(path, 0, |path|)
    ensures Test(BlobImage, prefix + "/blob/" + path + e)
  {
    var s := prefix + "/blob/" + path + e;
    assert s == prefix + "/blob/" + path + e + [];
    SpanOfParts(BlobImage, s, prefix, "/blob/", path, e, []);
  }

  /**
   * A link the later pattern accepts contains `/blob/` or `/raw/`; when it has
   * no `?`, it ends with `.png`, `.jpg`, `.jpeg` or `.gif`.
   */
  lemma BlobOrRawImageNeedsDirAndSuffix(s: string)
    requires Test(BlobOrRawImage, s)
    ensures Includes(s, "/blob/") || Includes(s, "/raw/")
    ensures !Includes(s, "?") ==>
      EndsWith(s, ".png") || EndsWith(s, ".jpg") || EndsWith(s, ".jpeg") || EndsWith(s, ".gif")
  {
    MatchNeedsDirAndSuffix(BlobOrRawImage, s);
    var i: nat, d :| d in BlobOrRawImage.dirs && OccursAt(s, i, d);
    assert d == "/blob/" || d == "/raw/";
  }

  /**
   * Every `<anything>/blob/<one line><ext>` and `<anything>/raw/<one line><ext>`,
   * with `<ext>` one of `.png`, `.jpg`, `.jpeg`, `.gif` and optionally followed
   * by a one-line query string `?...`, is accepted by the later pattern.
   */
  lemma BlobOrRawImageAccepts(prefix: string, d: string, path: string, e: string, query: string)
    requires d in BlobOrRawImage.dirs && e in BlobOrRawImage.exts
    requires NoLineTerminatorIn(path, 0, |path|)
    requires query == [] || (query[0] == '?' && NoLineTerminatorIn(query, 1, |query|))
    ensures Test(BlobOrRawImage, prefix + d + path + e + query)
  {
    var s := prefix + d + path + e + query;
    var m := |prefix| + |d| + |path| + |e|;
    if query != [] {
      assert s[m] == '?';
      forall k | m + 1 <= k < |s| ensures !IsLineTerminator(s[k]) {
        assert s[k] == query[k - m];
      }
    }
    SpanOfParts(BlobOrRawImage, s, prefix, d, path, e, query);
  }

  /** The later revision accepts every link the first one accepted. */
  lemma BlobImageImpliesBlobOrRawImage(s: string)
    requires Test(BlobImage, s)
    ensures Test(BlobOrRawImage, s)
  {
    TestCorrect(BlobImage, s);
    var i: nat, d, j: nat, e :| MatchSpan(BlobImage, s, i, d, j, e);
    assert MatchSpan(BlobOrRawImage, s, i, d, j, e);
    TestCorrect(BlobOrRawImage, s);
  }

  /**
   * The extension test is case-sensitive and knows no `.svg`: a link ending in
   * `.PNG` or `.svg` is refused by the first pattern, and by the later one
   * unless a query string follows the matched extension.
   */
  lemma UpperCaseAndSvgRefused(s: string)
    requires EndsWith(s, ".PNG") || EndsWith(s, ".svg")
    ensures !Test(BlobImage, s)
    ensures !Includes(s, "?") ==> !Test(BlobOrRawImage, s)
  {
    NoImageSuffix(s);
    if Test(BlobImage, s) {
      BlobImageNeedsBlobAndSuffix(s);
      assert false;
    }
    if !Includes(s, "?") && Test(BlobOrRawImage, s) {
      BlobOrRawImageNeedsDirAndSuffix(s);
      assert false;
    }
  }

  lemma NoImageSuffix(s: string)
    requires EndsWith(s, ".PNG") || EndsWith(s, ".svg")
    ensures !EndsWith(s, ".png") && !EndsWith(s, ".jpg") && !EndsWith(s, ".jpeg") && !EndsWith(s, ".gif")
  {
    var n := |s|;
    if EndsWith(s, ".PNG") {
      assert s[n - 1] == ".PNG"[3];
    } else {
      assert s[n - 3] == ".svg"[1] && s[n - 2] == ".svg"[2];
    }
  }
}
