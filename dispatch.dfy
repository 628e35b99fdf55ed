/**
 * The stream transform exported by packages/state/plugins/dependencies.js
 * (lines 184-215): every file gets a site path and is dispatched on the text
 * after its last `.` to the HTML, CSS or script scanner.
 */
module Dispatch {
  import opened Text
  import opened Optional
  import opened Classify
  import opened Css
  import opened Manifest
  import opened Html

  /** A file of the stream: an empty (`isNull`) one, a streaming one, or one whose contents are buffered. */
  datatype File = NullFile | StreamFile | Buffered(path: string, base: string, contents: string)

  /** What the scan leaves for a file: `undefined`, four buckets, or the two internal buckets of `processJS`. */
  datatype FileData =
    | Undefined
    | Buckets(refs: Refs)
    | InternalOnly(internalAssets: seq<string>, internalLinks: seq<string>)

  /** What the transform pushes for one file: the file itself, or the pair `[sitePath, data]`. */
  datatype Output = PassThrough(file: File) | Entry(sitePath: string, data: FileData)

  /** The scanner context and the HTML parser (`cheerio.load`). */
  datatype Env = Env(ctx: Context, parse: string -> Document)

  // ---------------------------------------------------------------------
  // Site paths

  /** `s.substring(n)`: the suffix after `n` characters, empty when `n` is past the end. */
  function Substring(s: string, n: nat): (r: string)
    ensures n <= |s| ==> s == s[..n] + r
    ensures n > |s| ==> r == ""
  {
    if n <= |s| then s[n..] else ""
  }

  /** `c` matches the lower-case ASCII letter `lower` under a non-unicode `/i` regular expression. */
  predicate FoldsTo(c: char, lower: char)
    requires 'a' <= lower <= 'z'
  {
    c == lower || c == (lower as int - 32) as char
  }

  predicate FoldsToWord(s: string, i: nat, word: string)
    requires forall k :: 0 <= k < |word| ==> 'a' <= word[k] <= 'z'
  {
    i + |word| <= |s| && forall k :: 0 <= k < |word| ==> FoldsTo(s[i + k], word[k])
  }

  /** The characters `.` does not match: the line terminators. */
  predicate IsLineTerminator(c: char)
  {
    c == '\n' || c == '\r' || c == '\U{2028}' || c == '\U{2029}'
  }

  /** `/\/index.html?/i` matches at `i` (the `l?` aside). */
  predicate IndexPageAt(s: string, i: nat)
  {
    i + 10 <= |s| && s[i] == '/' && FoldsToWord(s, i + 1, "index") && !IsLineTerminator(s[i + 6])
    && FoldsToWord(s, i + 7, "htm")
  }

  /** The length of the match at `i`: the optional `l` is taken when present. */
  function IndexPageLength(s: string, i: nat): (n: nat)
    requires IndexPageAt(s, i)
    ensures n == 10 || n == 11
    ensures i + n <= |s|
  {
    if i + 11 <= |s| && FoldsTo(s[i + 10], 'l') then 11 else 10
  }

  /** The leftmost match at or after `from`. */
  function FirstIndexPage(s: string, from: nat): (r: Option<nat>)
    ensures r.Some? ==> from <= r.value && IndexPageAt(s, r.value)
    ensures r.Some? ==> forall i: nat :: from <= i < r.value ==> !IndexPageAt(s, i)
    ensures r.None? ==> forall i: nat :: from <= i ==> !IndexPageAt(s, i)
    decreases |s| - from
  {
    if from + 10 > |s| then None
    else if IndexPageAt(s, from) then Some(from)
    else FirstIndexPage(s, from + 1)
  }

  /** `s.replace(/\/index.html?/i, "/")`: only the leftmost match becomes `/`. */
  function RewriteIndexPage(s: string): (r: string)
    ensures (forall i: nat :: !IndexPageAt(s, i)) ==> r == s
  {
    match FirstIndexPage(s, 0)
    case None => s
    case Some(i) => s[..i] + "/" + s[i + IndexPageLength(s, i)..]
  }

  /** `file.sitePath`. */
  function SitePath(path: string, base: string): string
  {
    RewriteIndexPage(Substring(path, |base|))
  }

  /** The replacement acts on the leftmost match and keeps everything around it. */
  lemma RewriteIndexPageShape(s: string, i: nat)
    requires IndexPageAt(s, i)
    requires forall j: nat :: j < i ==> !IndexPageAt(s, j)
    ensures RewriteIndexPage(s) == s[..i] + "/" + s[i + IndexPageLength(s, i)..]
    ensures |RewriteIndexPage(s)| == |s| + 1 - IndexPageLength(s, i)
  {
  }

  /** A position where `/` is missing, or `i` does not follow it, starts no match. */
  lemma NoIndexPageAt(s: string, j: nat)
    requires j + 10 > |s| || s[j] != '/' || !FoldsTo(s[j + 1], 'i')
    ensures !IndexPageAt(s, j)
  {
    assert "index"[0] == 'i';
  }

  /** In `/about/index.html` the first match is the one at the second `/`. */
  lemma AboutIndexPage()
    ensures IndexPageAt("/about/index.html", 6)
    ensures forall j: nat :: j < 6 ==> !IndexPageAt("/about/index.html", j)
    ensures IndexPageLength("/about/index.html", 6) == 11
  {
    var about := "/about/index.html";
    forall j: nat | j < 6
      ensures !IndexPageAt(about, j)
    {
      NoIndexPageAt(about, j);
    }
    assert FoldsToWord(about, 7, "index") by {
      assert about[7..12] == "index";
    }
    assert FoldsToWord(about, 13, "htm") by {
      assert about[13..16] == "htm";
    }
  }

  lemma AboutRewritten()
    ensures RewriteIndexPage("/about/index.html") == "/about/"
  {
    var about := "/about/index.html";
    AboutIndexPage();
    RewriteIndexPageShape(about, 6);
    assert about[..6] + "/" + about[17..] == "/about/";
  }

  /** An index page below the base becomes its directory. */
  lemma SitePathDirectory()
    ensures SitePath("/site/about/index.html", "/site") == "/about/"
  {
    assert Substring("/site/about/index.html", 5) == "/about/index.html";
    AboutRewritten();
  }

  /** In `/INDEX.HTM` the match starts at once and has no `l`. */
  lemma UpperCaseIndexPage()
    ensures IndexPageAt("/INDEX.HTM", 0)
    ensures IndexPageLength("/INDEX.HTM", 0) == 10
  {
    var page := "/INDEX.HTM";
    assert FoldsToWord(page, 1, "index") by {
      assert page[1..6] == "INDEX";
    }
    assert FoldsToWord(page, 7, "htm") by {
      assert page[7..10] == "HTM";
    }
  }

  /** The match ignores case and the trailing `l` is optional. */
  lemma SitePathUpperCase()
    ensures SitePath("/site/INDEX.HTM", "/site") == "/"
  {
    var page := "/INDEX.HTM";
    assert Substring("/site/INDEX.HTM", 5) == page;
    UpperCaseIndexPage();
    RewriteIndexPageShape(page, 0);
    assert page[..0] + "/" + page[10..] == "/";
  }

  /** A path shorter than the base has the empty site path. */
  lemma SitePathShortPath()
    ensures SitePath("/s", "/site") == ""
  {
    assert !IndexPageAt("", 0);
  }
  // ---------------------------------------------------------------------
  // Dispatch

  /** `file.path.split(".").pop()`. */
  function Extension(path: string): (ext: string)
    ensures '.' !in ext
  {
    var parts := Split(path, '.');
    parts[|parts| - 1]
  }

  lemma {:induction false} JoinEndsWithLast(parts: seq<string>, sep: string)
    requires |parts| >= 2
    ensures EndsWith(Join(parts, sep), sep + parts[|parts| - 1])
    decreases |parts|
  {
    if |parts| > 2 {
      JoinEndsWithLast(parts[1..], sep);
    }
  }

  /**
   * The extension is the part of the path after its last `.`, or the whole
   * path when it has no `.`.
   */
  lemma ExtensionIsLastPart(path: string)
    ensures '.' in path ==> EndsWith(path, "." + Extension(path))
    ensures '.' !in path ==> Extension(path) == path
  {
    var parts := Split(path, '.');
    if |parts| >= 2 {
      JoinEndsWithLast(parts, ".");
    }
  }

  /** What the scanners make of a buffered file. */
  function FileResult(path: string, contents: string, env: Env): FileData
    requires Extension(path) == "html" ==> WellFormed(env.parse(contents))
  {
    var opts := env.ctx.opts;
    var ext := Extension(path);
    if ext == "html" then Buckets(HtmlScan(env.parse(contents), env.ctx))
    else if ext == "css" then
      match CssScan(StripWhitespace(contents), opts, 0, Empty)
      case None => Undefined
      case Some(r) => Buckets(r)
    else if ext == "js" && IsOn(opts, "scan_js") then
      var r := ManifestScan(Empty, StripWhitespace(contents), env.ctx.files, opts, true);
      InternalOnly(r.internalAssets, r.internalLinks)
    else Buckets(Empty)
  }

  predicate Parsable(file: File, env: Env)
  {
    file.Buffered? && Extension(file.path) == "html" ==> WellFormed(env.parse(file.contents))
  }

  /** The transform callback for one file. */
  function TransformFile(file: File, env: Env): Output
    requires Parsable(file, env)
  {
    match file
    case NullFile => PassThrough(file)
    case StreamFile => PassThrough(file)
    case Buffered(path, base, contents) => Entry(SitePath(path, base), FileResult(path, contents, env))
  }

  /** Files of kinds the transform does not read are pushed on unchanged. */
  lemma TransformPassesUnread(file: File, env: Env)
    requires !file.Buffered?
    ensures TransformFile(file, env) == PassThrough(file)
  {
  }

  /** Only `.html`, `.css` and (with `scan_js`) `.js` are scanned: anything else, `.htm` included, has four empty buckets. */
  lemma UnscannedExtensions(path: string, contents: string, env: Env)
    requires Extension(path) != "html" && Extension(path) != "css"
    requires Extension(path) == "js" ==> !IsOn(env.ctx.opts, "scan_js")
    ensures FileResult(path, contents, env) == Buckets(Empty)
  {
  }

  /** A stylesheet's data is `undefined` exactly when the scanner meets an ignored value. */
  lemma CssUndefined(path: string, contents: string, env: Env)
    requires Extension(path) == "css"
    ensures FileResult(path, contents, env) == Undefined <==>
      exists v :: v in CssCandidates(StripWhitespace(contents), 0) && Ignored(v, env.ctx.opts)
  {
    CssScanDecomposed(StripWhitespace(contents), env.ctx.opts, 0, Empty);
  }

  /** A script file reports only manifest names it contains, never the root and never an external bucket. */
  lemma ScriptResult(path: string, contents: string, env: Env, v: string)
    requires Extension(path) == "js" && IsOn(env.ctx.opts, "scan_js")
    ensures var d := FileResult(path, contents, env);
      d.InternalOnly? &&
      (v in d.internalAssets <==>
         (v in env.ctx.files && v != "/" && Contains(StripWhitespace(contents), v) &&
          !Ignored(v, env.ctx.opts) && HasAssetExtension(v))) &&
      (v in d.internalLinks <==>
         (v in env.ctx.files && v != "/" && Contains(StripWhitespace(contents), v) &&
          !Ignored(v, env.ctx.opts) && !HasAssetExtension(v)))
  {
    var text := StripWhitespace(contents);
    ManifestMembership(Empty, text, env.ctx.files, env.ctx.opts, true, InternalAssets, v);
    ManifestMembership(Empty, text, env.ctx.files, env.ctx.opts, true, InternalLinks, v);
  }

  /** The transform, calling the imperative scanners. */
  method Transform(file: File, env: Env) returns (out: Output)
    requires Parsable(file, env)
    ensures out == TransformFile(file, env)
  {
    if file.NullFile? || file.StreamFile? {
      return PassThrough(file);
    }
    var sitePath := Substring(file.path, |file.base|);
    sitePath := RewriteIndexPage(sitePath);
    var ext := Extension(file.path);
    var data := Buckets(Empty);
    if ext == "html" {
      var r := ProcessHTML(env.parse(file.contents), env.ctx);
      data := Buckets(r);
    } else if ext == "css" {
      var r := ProcessCSS(StripWhitespace(file.contents), env.ctx.opts);
      data := if r.None? then Undefined else Buckets(r.value);
    } else if ext == "js" && "scan_js" in env.ctx.opts && env.ctx.opts["scan_js"] == Bool(true) {
      var assets, links := ProcessJS(StripWhitespace(file.contents), env.ctx.opts, env.ctx.files);
      data := InternalOnly(assets, links);
    }
    out := Entry(sitePath, data);
  }
}
