/**
 * The document scanner `processHTML` (packages/state/plugins/dependencies.js,
 * lines 81-182). The parsed document is the sequence of its elements in
 * document order; every `$(selector).each` pass walks that sequence once and
 * feeds the values it finds to `addURL`, in the order of the source: anchors,
 * `link`, `[src]`, `[srcset]`, meta refresh, inline styles and, when
 * `scan_js` is strictly `true`, inline scripts.
 */
module Html {
  import opened Text
  import opened Optional
  import opened Classify
  import opened Css
  import opened Manifest

  /**
   * One element of the parsed document: its tag name, its attributes (names
   * kept in their case, values not entity-decoded) and what `.html()` gives.
   */
  datatype Element = Element(tag: string, attrs: map<string, string>, html: string)

  type Document = seq<Element>

  /** What the scan reads besides the document: the options, the manifest and the `srcset` parser. */
  datatype Context = Context(opts: Options, files: seq<string>, parseSrcset: string -> seq<string>)

  /** The `$(selector).each` passes, in the order `processHTML` runs them. */
  datatype Pass = Anchors | Links | Sources | SourceSets | Refreshes | Styles | Scripts

  /** The selector of each pass: `a`, `link`, `[src]`, `[srcset]`, `meta[http-equiv='refresh']`, `style`, `script`. */
  predicate Selects(p: Pass, e: Element)
  {
    match p
    case Anchors => e.tag == "a"
    case Links => e.tag == "link"
    case Sources => "src" in e.attrs
    case SourceSets => "srcset" in e.attrs
    case Refreshes => e.tag == "meta" && "http-equiv" in e.attrs && e.attrs["http-equiv"] == "refresh"
    case Styles => e.tag == "style"
    case Scripts => e.tag == "script"
  }

  /** Anchors and `link` elements carry `href`, and refresh `meta` elements carry `content`. */
  predicate WellFormedElement(e: Element)
  {
    && ((Selects(Anchors, e) || Selects(Links, e)) ==> "href" in e.attrs)
    && (Selects(Refreshes, e) ==> "content" in e.attrs)
  }

  predicate WellFormed(doc: Document)
  {
    forall i :: 0 <= i < |doc| ==> WellFormedElement(doc[i])
  }

  /** Lines 136-143: the first `;`-separated part that starts with `url=`, less those four characters. */
  function RefreshTarget(parts: seq<string>): (r: Option<string>)
    ensures r.None? <==> forall i :: 0 <= i < |parts| ==> !StartsWith(parts[i], "url=")
    ensures r.Some? ==> exists i :: 0 <= i < |parts| && StartsWith(parts[i], "url=") && r.value == parts[i][4..] &&
                                    forall j :: 0 <= j < i ==> !StartsWith(parts[j], "url=")
  {
    if parts == [] then None
    else if StartsWith(parts[0], "url=") then Some(parts[0][4..])
    else
      var r := RefreshTarget(parts[1..]);
      assert forall i :: 0 < i < |parts| ==> parts[i] == parts[1..][i - 1];
      r
  }

  /** Line 154: `style.slice(urlIndex + 5, endIndex - 1)`, empty when the bounds cross. */
  function StyleSlice(style: string, u: nat, e: nat): string
    requires u + 4 <= e <= |style|
  {
    if u + 5 <= e - 1 then style[u + 5..e - 1] else ""
  }

  /** The cursor loop of the inline-style pass (lines 147-158), pairing `url(` with `);`. */
  function StyleScan(acc: Refs, style: string, start: nat, opts: Options): Refs
    decreases |style| - start
  {
    if start >= |style| then acc
    else
      match NextUrl(style, start, ");")
      case None => acc
      case Some((u, e)) => StyleScan(AddURL(acc, StyleSlice(style, u, e), true, opts), style, e, opts)
  }

  /** The values the inline-style loop extracts from cursor `start` on. */
  function StyleCandidates(style: string, start: nat): seq<string>
    decreases |style| - start
  {
    if start >= |style| then []
    else
      match NextUrl(style, start, ");")
      case None => []
      case Some((u, e)) => [StyleSlice(style, u, e)] + StyleCandidates(style, e)
  }

  /** The loop stops where `NextUrl` finds nothing. */
  lemma StyleScanStops(acc: Refs, style: string, start: nat, opts: Options)
    requires NextUrl(style, start, ");").None?
    ensures StyleScan(acc, style, start, opts) == acc
  {
  }

  /** One round of the loop adds the slice between `url(` and `);` and moves the cursor to the `);`. */
  lemma StyleScanStep(acc: Refs, style: string, start: nat, opts: Options, u: nat, e: nat)
    requires start < |style|
    requires NextUrl(style, start, ");") == Some((u, e))
    requires u + 4 <= e <= |style|
    ensures StyleScan(acc, style, start, opts) == StyleScan(AddURL(acc, StyleSlice(style, u, e), true, opts), style, e, opts)
  {
  }

  lemma {:induction false} StyleScanDecomposed(acc: Refs, style: string, start: nat, opts: Options)
    ensures StyleScan(acc, style, start, opts) == AddAll(acc, StyleCandidates(style, start), true, opts)
    decreases |style| - start
  {
    if start < |style| {
      match NextUrl(style, start, ");")
      case None =>
      case Some((u, e)) =>
        var url := StyleSlice(style, u, e);
        StyleScanDecomposed(AddURL(acc, url, true, opts), style, e, opts);
        AddAllCons(acc, url, StyleCandidates(style, e), true, opts);
    }
  }

  /** What one element contributes to one pass. */
  function Visit(p: Pass, acc: Refs, e: Element, ctx: Context): Refs
    requires WellFormedElement(e)
  {
    if !Selects(p, e) then acc
    else
      match p
      case Anchors =>
        var href := e.attrs["href"];
        if href == "" || Contains(href, "#") then acc else AddURL(acc, href, false, ctx.opts)
      case Links =>
        var href := e.attrs["href"];
        if href == "" then acc else AddURL(acc, href, true, ctx.opts)
      case Sources => AddURL(acc, e.attrs["src"], true, ctx.opts)
      case SourceSets => AddAll(acc, ctx.parseSrcset(e.attrs["srcset"]), true, ctx.opts)
      case Refreshes =>
        (match RefreshTarget(Split(e.attrs["content"], ';'))
         case None => acc
         case Some(target) => AddURL(acc, target, false, ctx.opts))
      case Styles => StyleScan(acc, StripWhitespace(e.html), 0, ctx.opts)
      case Scripts => ManifestScan(acc, e.html, ctx.files, ctx.opts, false)
  }

  /** Whether a pass feeds `addURL` assets (`true`) or links (`false`). */
  function IsAssetPass(p: Pass): bool
  {
    !(p == Anchors || p == Refreshes)
  }

  /**
   * The values one element offers to `addURL` in one of the passes that use
   * it: a non-empty anchor `href` without `#`, a non-empty `link` `href`,
   * every `src`, the parsed `srcset` URLs, the refresh target, the inline-style
   * slices.
   */
  function Candidates(p: Pass, e: Element, ctx: Context): seq<string>
    requires WellFormedElement(e) && p != Scripts
  {
    if !Selects(p, e) then []
    else
      match p
      case Anchors =>
        var href := e.attrs["href"];
        if href == "" || Contains(href, "#") then [] else [href]
      case Links =>
        var href := e.attrs["href"];
        if href == "" then [] else [href]
      case Sources => [e.attrs["src"]]
      case SourceSets => ctx.parseSrcset(e.attrs["srcset"])
      case Refreshes =>
        (match RefreshTarget(Split(e.attrs["content"], ';'))
         case None => []
         case Some(target) => [target])
      case Styles => StyleCandidates(StripWhitespace(e.html), 0)
  }

  /** Every pass other than inline scripts is extraction followed by `addURL`. */
  lemma VisitDecomposed(p: Pass, acc: Refs, e: Element, ctx: Context)
    requires WellFormedElement(e) && p != Scripts
    ensures Visit(p, acc, e, ctx) == AddAll(acc, Candidates(p, e, ctx), IsAssetPass(p), ctx.opts)
  {
    if Selects(p, e) {
      match p
      case Styles => StyleScanDecomposed(acc, StripWhitespace(e.html), 0, ctx.opts);
      case SourceSets =>
      case Anchors => AddAllAtMostOne(acc, Candidates(p, e, ctx), false, ctx.opts);
      case Refreshes => AddAllAtMostOne(acc, Candidates(p, e, ctx), false, ctx.opts);
      case Links => AddAllAtMostOne(acc, Candidates(p, e, ctx), true, ctx.opts);
      case Sources => AddAllAtMostOne(acc, Candidates(p, e, ctx), true, ctx.opts);
    }
  }

  lemma AddAllAtMostOne(acc: Refs, xs: seq<string>, isAsset: bool, opts: Options)
    requires |xs| <= 1
    ensures AddAll(acc, xs, isAsset, opts) == if xs == [] then acc else AddURL(acc, xs[0], isAsset, opts)
  {
    if xs != [] {
      assert xs[1..] == [];
    }
  }

  /** One `$(selector).each` pass over the first `|els|` elements. */
  function RunPass(p: Pass, acc: Refs, els: Document, ctx: Context): Refs
    requires WellFormed(els)
    decreases |els|
  {
    if els == [] then acc
    else Visit(p, RunPass(p, acc, els[..|els| - 1], ctx), els[|els| - 1], ctx)
  }

  /** `processHTML($, options, files)`. */
  function HtmlScan(doc: Document, ctx: Context): Refs
    requires WellFormed(doc)
  {
    var anchors := RunPass(Anchors, Empty, doc, ctx);
    var links := RunPass(Links, anchors, doc, ctx);
    var sources := RunPass(Sources, links, doc, ctx);
    var sourceSets := RunPass(SourceSets, sources, doc, ctx);
    var refreshes := RunPass(Refreshes, sourceSets, doc, ctx);
    var styles := RunPass(Styles, refreshes, doc, ctx);
    if IsOn(ctx.opts, "scan_js") then RunPass(Scripts, styles, doc, ctx) else styles
  }

  // ---------------------------------------------------------------------
  // Properties

  lemma VisitDuplicateFree(p: Pass, acc: Refs, e: Element, ctx: Context)
    requires WellFormedElement(e) && DuplicateFree(acc)
    ensures DuplicateFree(Visit(p, acc, e, ctx))
  {
    if p == Scripts {
      ManifestDuplicateFree(acc, e.html, ctx.files, ctx.opts, false);
    } else {
      VisitDecomposed(p, acc, e, ctx);
      AddAllDuplicateFree(acc, Candidates(p, e, ctx), IsAssetPass(p), ctx.opts);
    }
  }

  lemma {:induction false} RunPassDuplicateFree(p: Pass, acc: Refs, els: Document, ctx: Context)
    requires WellFormed(els) && DuplicateFree(acc)
    ensures DuplicateFree(RunPass(p, acc, els, ctx))
    decreases |els|
  {
    if els != [] {
      RunPassDuplicateFree(p, acc, els[..|els| - 1], ctx);
      VisitDuplicateFree(p, RunPass(p, acc, els[..|els| - 1], ctx), els[|els| - 1], ctx);
    }
  }

  /** No bucket of a scanned page holds a value twice. */
  lemma HtmlDuplicateFree(doc: Document, ctx: Context)
    requires WellFormed(doc)
    ensures DuplicateFree(HtmlScan(doc, ctx))
  {
    var anchors := RunPass(Anchors, Empty, doc, ctx);
    var links := RunPass(Links, anchors, doc, ctx);
    var sources := RunPass(Sources, links, doc, ctx);
    var sourceSets := RunPass(SourceSets, sources, doc, ctx);
    var refreshes := RunPass(Refreshes, sourceSets, doc, ctx);
    var styles := RunPass(Styles, refreshes, doc, ctx);
    RunPassDuplicateFree(Anchors, Empty, doc, ctx);
    RunPassDuplicateFree(Links, anchors, doc, ctx);
    RunPassDuplicateFree(Sources, links, doc, ctx);
    RunPassDuplicateFree(SourceSets, sources, doc, ctx);
    RunPassDuplicateFree(Refreshes, sourceSets, doc, ctx);
    RunPassDuplicateFree(Styles, refreshes, doc, ctx);
    RunPassDuplicateFree(Scripts, styles, doc, ctx);
  }

  lemma VisitClassified(p: Pass, acc: Refs, e: Element, ctx: Context)
    requires WellFormedElement(e) && Classified(acc, ctx.opts)
    requires p == Scripts ==> forall f :: f in ctx.files ==> !IsExternalUri(f)
    ensures Classified(Visit(p, acc, e, ctx), ctx.opts)
  {
    if p == Scripts {
      ManifestClassified(acc, e.html, ctx.files, ctx.opts, false);
    } else {
      VisitDecomposed(p, acc, e, ctx);
      AddAllClassified(acc, Candidates(p, e, ctx), IsAssetPass(p), ctx.opts);
    }
  }

  lemma {:induction false} RunPassClassified(p: Pass, acc: Refs, els: Document, ctx: Context)
    requires WellFormed(els) && Classified(acc, ctx.opts)
    requires p == Scripts ==> forall f :: f in ctx.files ==> !IsExternalUri(f)
    ensures Classified(RunPass(p, acc, els, ctx), ctx.opts)
    decreases |els|
  {
    if els != [] {
      RunPassClassified(p, acc, els[..|els| - 1], ctx);
      VisitClassified(p, RunPass(p, acc, els[..|els| - 1], ctx), els[|els| - 1], ctx);
    }
  }

  /**
   * No ignored value reaches any bucket, and the external buckets hold
   * exactly the values `isExternalUri` accepts, provided the manifest (read
   * only by the inline-script pass) names no external-looking file.
   */
  lemma HtmlClassified(doc: Document, ctx: Context)
    requires WellFormed(doc)
    requires IsOn(ctx.opts, "scan_js") ==> forall f :: f in ctx.files ==> !IsExternalUri(f)
    ensures Classified(HtmlScan(doc, ctx), ctx.opts)
  {
    var anchors := RunPass(Anchors, Empty, doc, ctx);
    var links := RunPass(Links, anchors, doc, ctx);
    var sources := RunPass(Sources, links, doc, ctx);
    var sourceSets := RunPass(SourceSets, sources, doc, ctx);
    var refreshes := RunPass(Refreshes, sourceSets, doc, ctx);
    var styles := RunPass(Styles, refreshes, doc, ctx);
    RunPassClassified(Anchors, Empty, doc, ctx);
    RunPassClassified(Links, anchors, doc, ctx);
    RunPassClassified(Sources, links, doc, ctx);
    RunPassClassified(SourceSets, sources, doc, ctx);
    RunPassClassified(Refreshes, sourceSets, doc, ctx);
    RunPassClassified(Styles, refreshes, doc, ctx);
    if IsOn(ctx.opts, "scan_js") {
      RunPassClassified(Scripts, styles, doc, ctx);
    }
  }

  lemma {:induction false} RunPassIgnoresManifest(p: Pass, acc: Refs, els: Document, ctx: Context, files: seq<string>)
    requires WellFormed(els) && p != Scripts
    ensures RunPass(p, acc, els, ctx) == RunPass(p, acc, els, ctx.(files := files))
    decreases |els|
  {
    if els != [] {
      RunPassIgnoresManifest(p, acc, els[..|els| - 1], ctx, files);
    }
  }

  /** With `scan_js` not strictly `true`, the manifest has no influence on a page's result. */
  lemma HtmlIgnoresManifest(doc: Document, ctx: Context, files: seq<string>)
    requires WellFormed(doc) && !IsOn(ctx.opts, "scan_js")
    ensures HtmlScan(doc, ctx) == HtmlScan(doc, ctx.(files := files))
  {
    var ctx' := ctx.(files := files);
    var anchors := RunPass(Anchors, Empty, doc, ctx);
    var links := RunPass(Links, anchors, doc, ctx);
    var sources := RunPass(Sources, links, doc, ctx);
    var sourceSets := RunPass(SourceSets, sources, doc, ctx);
    var refreshes := RunPass(Refreshes, sourceSets, doc, ctx);
    RunPassIgnoresManifest(Anchors, Empty, doc, ctx, files);
    RunPassIgnoresManifest(Links, anchors, doc, ctx, files);
    RunPassIgnoresManifest(Sources, links, doc, ctx, files);
    RunPassIgnoresManifest(SourceSets, sources, doc, ctx, files);
    RunPassIgnoresManifest(Refreshes, sourceSets, doc, ctx, files);
    RunPassIgnoresManifest(Styles, refreshes, doc, ctx, files);
  }

  // ---------------------------------------------------------------------
  // Examples

  /** A page holding the single element `e`, scanned with no options and no manifest. */
  function ScanOne(e: Element, parse: string -> seq<string>): Refs
    requires WellFormedElement(e)
  {
    HtmlScan([e], Context(map[], [], parse))
  }

  lemma RunPassOne(p: Pass, acc: Refs, e: Element, ctx: Context)
    requires WellFormedElement(e)
    ensures RunPass(p, acc, [e], ctx) == Visit(p, acc, e, ctx)
  {
    assert [e][..0] == [];
  }

  /** A one-element page goes through the element once per pass, in the order of the passes. */
  lemma ScanOneVisits(e: Element, parse: string -> seq<string>,
                      anchors: Refs, links: Refs, sources: Refs, sourceSets: Refs, refreshes: Refs, styles: Refs)
    requires WellFormedElement(e)
    requires anchors == Visit(Anchors, Empty, e, Context(map[], [], parse))
    requires links == Visit(Links, anchors, e, Context(map[], [], parse))
    requires sources == Visit(Sources, links, e, Context(map[], [], parse))
    requires sourceSets == Visit(SourceSets, sources, e, Context(map[], [], parse))
    requires refreshes == Visit(Refreshes, sourceSets, e, Context(map[], [], parse))
    requires styles == Visit(Styles, refreshes, e, Context(map[], [], parse))
    ensures ScanOne(e, parse) == styles
  {
    var ctx := Context(map[], [], parse);
    RunPassOne(Anchors, Empty, e, ctx);
    RunPassOne(Links, anchors, e, ctx);
    RunPassOne(Sources, links, e, ctx);
    RunPassOne(SourceSets, sources, e, ctx);
    RunPassOne(Refreshes, sourceSets, e, ctx);
    RunPassOne(Styles, refreshes, e, ctx);
  }

  lemma VisitUnselected(p: Pass, acc: Refs, e: Element, ctx: Context)
    requires WellFormedElement(e) && !Selects(p, e)
    ensures Visit(p, acc, e, ctx) == acc
  {
  }

  /** `<a href="#top">` contributes nothing. */
  lemma FragmentAnchorExample(e: Element, parse: string -> seq<string>)
    requires e == Element("a", map["href" := "#top"], "")
    ensures WellFormedElement(e) && ScanOne(e, parse) == Empty
  {
    var ctx := Context(map[], [], parse);
    ContainsChar("#top", '#');
    assert Visit(Anchors, Empty, e, ctx) == Empty;
    VisitUnselected(Links, Empty, e, ctx);
    VisitUnselected(Sources, Empty, e, ctx);
    VisitUnselected(SourceSets, Empty, e, ctx);
    VisitUnselected(Refreshes, Empty, e, ctx);
    VisitUnselected(Styles, Empty, e, ctx);
    ScanOneVisits(e, parse, Empty, Empty, Empty, Empty, Empty, Empty);
  }

  /** `<a href="/pricing">` is an internal link. */
  lemma PageAnchorExample(e: Element, parse: string -> seq<string>)
    requires e == Element("a", map["href" := "/pricing"], "")
    ensures WellFormedElement(e) && ScanOne(e, parse) == Refs([], [], ["/pricing"], [])
  {
    var ctx := Context(map[], [], parse);
    ContainsChar("/pricing", '#');
    assert !IsExternalUri("/pricing") by {
      ExternalByLetterRun("/pricing");
    }
    var r := Visit(Anchors, Empty, e, ctx);
    assert r == Refs([], [], ["/pricing"], []);
    VisitUnselected(Links, r, e, ctx);
    VisitUnselected(Sources, r, e, ctx);
    VisitUnselected(SourceSets, r, e, ctx);
    VisitUnselected(Refreshes, r, e, ctx);
    VisitUnselected(Styles, r, e, ctx);
    ScanOneVisits(e, parse, r, r, r, r, r, r);
  }

  /** A refresh `meta` whose first `url=` part names an internal page adds that page as an internal link. */
  lemma RefreshVisit(e: Element, ctx: Context, before: string, target: string)
    requires WellFormedElement(e) && Selects(Refreshes, e)
    requires e.attrs["content"] == before + ";url=" + target
    requires ';' !in before && ';' !in target && !StartsWith(before, "url=")
    requires !IsExternalUri(target) && !Ignored(target, ctx.opts)
    ensures Visit(Refreshes, Empty, e, ctx) == Refs([], [], [target], [])
  {
    var parts := [before, "url=" + target];
    assert Split(e.attrs["content"], ';') == parts by {
      assert ';' !in "url=" + target;
      SplitJoin(parts, ';');
      assert Join(parts, [';']) == before + ";url=" + target;
    }
    assert RefreshTarget(parts) == Some(target) by {
      assert StartsWith("url=" + target, "url=") by {
        assert ("url=" + target)[..4] == "url=";
      }
      assert ("url=" + target)[4..] == target;
      assert parts[1..] == ["url=" + target];
    }
  }

  /** `/new-page` has no scheme, so it is internal. */
  lemma NewPageInternal(target: string)
    requires target == "/new-page"
    ensures !IsExternalUri(target)
  {
    ExternalByLetterRun(target);
  }

  /** The refresh pass alone turns `content="0;url=/new-page"` into one internal link. */
  lemma NewPageRefresh(e: Element, ctx: Context, delay: string, target: string)
    requires delay == "0" && target == "/new-page"
    requires e == Element("meta", map["http-equiv" := "refresh", "content" := delay + ";url=" + target], "")
    requires ctx.opts == map[]
    ensures WellFormedElement(e)
    ensures Visit(Refreshes, Empty, e, ctx) == Refs([], [], [target], [])
  {
    NewPageInternal(target);
    NothingIgnoredByDefault(target, "");
    RefreshVisit(e, ctx, delay, target);
  }

  /** A page whose one element only the refresh pass selects scans to what that pass adds. */
  lemma RefreshOnly(e: Element, parse: string -> seq<string>, r: Refs)
    requires WellFormedElement(e) && e.tag == "meta" && "src" !in e.attrs && "srcset" !in e.attrs
    requires r == Visit(Refreshes, Empty, e, Context(map[], [], parse))
    ensures ScanOne(e, parse) == r
  {
    var ctx := Context(map[], [], parse);
    VisitUnselected(Anchors, Empty, e, ctx);
    VisitUnselected(Links, Empty, e, ctx);
    VisitUnselected(Sources, Empty, e, ctx);
    VisitUnselected(SourceSets, Empty, e, ctx);
    VisitUnselected(Styles, r, e, ctx);
    ScanOneVisits(e, parse, Empty, Empty, Empty, Empty, r, r);
  }

  /** `<meta http-equiv="refresh" content="0;url=/new-page">` is an internal link to `/new-page`. */
  lemma RefreshExample(e: Element, parse: string -> seq<string>, delay: string, target: string)
    requires delay == "0" && target == "/new-page"
    requires e == Element("meta", map["http-equiv" := "refresh", "content" := delay + ";url=" + target], "")
    ensures WellFormedElement(e) && ScanOne(e, parse) == Refs([], [], [target], [])
  {
    NewPageRefresh(e, Context(map[], [], parse), delay, target);
    RefreshOnly(e, parse, Refs([], [], [target], []));
  }

  /** A `srcset` that parses into two distinct internal URLs adds both, in order, as internal assets. */
  lemma SrcsetVisit(e: Element, ctx: Context, a: string, b: string)
    requires WellFormedElement(e) && Selects(SourceSets, e)
    requires ctx.parseSrcset(e.attrs["srcset"]) == [a, b] && a != b
    requires !IsExternalUri(a) && !IsExternalUri(b) && !Ignored(a, ctx.opts) && !Ignored(b, ctx.opts)
    ensures Visit(SourceSets, Empty, e, ctx) == Refs([a, b], [], [], [])
  {
    AddAllCons(Empty, a, [b], true, ctx.opts);
    AddAllCons(Refs([a], [], [], []), b, [], true, ctx.opts);
  }

  /** Both URLs of `srcset="/a.jpg 1x, /b.jpg 2x"` are internal assets. */
  lemma SrcsetExample(e: Element, parse: string -> seq<string>)
    requires e == Element("img", map["srcset" := "/a.jpg 1x, /b.jpg 2x"], "")
    requires parse("/a.jpg 1x, /b.jpg 2x") == ["/a.jpg", "/b.jpg"]
    ensures WellFormedElement(e) && ScanOne(e, parse) == Refs(["/a.jpg", "/b.jpg"], [], [], [])
  {
    var ctx := Context(map[], [], parse);
    VisitUnselected(Anchors, Empty, e, ctx);
    VisitUnselected(Links, Empty, e, ctx);
    VisitUnselected(Sources, Empty, e, ctx);
    assert !IsExternalUri("/a.jpg") by {
      ExternalByLetterRun("/a.jpg");
    }
    assert !IsExternalUri("/b.jpg") by {
      ExternalByLetterRun("/b.jpg");
    }
    SrcsetVisit(e, ctx, "/a.jpg", "/b.jpg");
    var r := Refs(["/a.jpg", "/b.jpg"], [], [], []);
    VisitUnselected(Refreshes, r, e, ctx);
    VisitUnselected(Styles, r, e, ctx);
    ScanOneVisits(e, parse, Empty, Empty, Empty, r, r, r);
  }

  // ---------------------------------------------------------------------
  // The imperative scanner

  /** The `[srcset]` callback: every parsed URL as an asset. */
  method VisitSrcset(data: References, parsed: seq<string>, opts: Options)
    modifies data
    ensures data.Value() == AddAll(old(data.Value()), parsed, true, opts)
  {
    ghost var goal := AddAll(data.Value(), parsed, true, opts);
    for i := 0 to |parsed|
      invariant AddAll(data.Value(), parsed[i..], true, opts) == goal
    {
      assert parsed[i..][1..] == parsed[i + 1..];
      data.Add(parsed[i], true, opts);
    }
  }

  /** The meta-refresh callback over the `;`-separated parts of `content`. */
  method VisitRefresh(data: References, parts: seq<string>, opts: Options)
    modifies data
    ensures data.Value() == match RefreshTarget(parts)
                            case None => old(data.Value())
                            case Some(target) => AddURL(old(data.Value()), target, false, opts)
  {
    var i := 0;
    while i < |parts|
      invariant i <= |parts|
      invariant RefreshTarget(parts[i..]) == RefreshTarget(parts)
      invariant data.Value() == old(data.Value())
    {
      if IndexOf(parts[i], "url=", 0) == 0 {
        assert StartsWith(parts[i], "url=");
        data.Add(parts[i][4..], false, opts);
        return;
      }
      assert !MatchAt(parts[i], "url=", 0);
      assert !StartsWith(parts[i], "url=");
      assert parts[i..][1..] == parts[i + 1..];
      i := i + 1;
    }
  }

  /** The inline-style callback on the text with white space removed. */
  method VisitStyle(data: References, style: string, opts: Options)
    modifies data
    ensures data.Value() == StyleScan(old(data.Value()), style, 0, opts)
  {
    ghost var start := data.Value();
    var startIndex := 0;
    while startIndex < |style|
      invariant startIndex <= |style|
      invariant StyleScan(data.Value(), style, startIndex, opts) == StyleScan(start, style, 0, opts)
      decreases |style| - startIndex
    {
      var urlIndex := IndexOf(style, "url(", startIndex);
      if urlIndex == -1 {
        NextUrlMissing(style, startIndex, ");", urlIndex);
        StyleScanStops(data.Value(), style, startIndex, opts);
        break;
      }
      var endIndex := IndexOf(style, ");", urlIndex);
      if endIndex == -1 {
        NextUrlMissing(style, startIndex, ");", urlIndex);
        StyleScanStops(data.Value(), style, startIndex, opts);
        break;
      }
      NextUrlFound(style, startIndex, ");", urlIndex, endIndex);
      assert startIndex <= urlIndex && urlIndex + 4 <= endIndex <= |style|;
      var url := StyleSlice(style, urlIndex, endIndex);
      StyleScanStep(data.Value(), style, startIndex, opts, urlIndex, endIndex);
      data.Add(url, true, opts);
      startIndex := endIndex;
    }
  }

  /** The body of one `.each` callback, on the `data` object. */
  method VisitElement(data: References, p: Pass, e: Element, ctx: Context)
    requires WellFormedElement(e)
    modifies data
    ensures data.Value() == Visit(p, old(data.Value()), e, ctx)
  {
    if !Selects(p, e) {
      return;
    }
    var opts := ctx.opts;
    match p
    case Anchors =>
      var href := e.attrs["href"];
      if href == "" || Contains(href, "#") {
        return;
      }
      data.Add(href, false, opts);
    case Links =>
      var href := e.attrs["href"];
      if href == "" {
        return;
      }
      data.Add(href, true, opts);
    case Sources =>
      data.Add(e.attrs["src"], true, opts);
    case SourceSets =>
      VisitSrcset(data, ctx.parseSrcset(e.attrs["srcset"]), opts);
    case Refreshes =>
      VisitRefresh(data, Split(e.attrs["content"], ';'), opts);
    case Styles =>
      VisitStyle(data, StripWhitespace(e.html), opts);
    case Scripts =>
      ScanManifest(data, e.html, ctx.files, opts, false);
  }

  /** `$(selector).each(callback)` for one pass. */
  method RunPassOn(data: References, p: Pass, doc: Document, ctx: Context)
    requires WellFormed(doc)
    modifies data
    ensures data.Value() == RunPass(p, old(data.Value()), doc, ctx)
  {
    ghost var start := data.Value();
    for i := 0 to |doc|
      invariant WellFormed(doc[..i])
      invariant data.Value() == RunPass(p, start, doc[..i], ctx)
    {
      assert doc[..i + 1][..i] == doc[..i];
      VisitElement(data, p, doc[i], ctx);
    }
    assert doc[..|doc|] == doc;
  }

  /** `processHTML($, options, files)`. */
  method ProcessHTML(doc: Document, ctx: Context) returns (r: Refs)
    requires WellFormed(doc)
    ensures r == HtmlScan(doc, ctx)
  {
    var data := new References();
    RunPassOn(data, Anchors, doc, ctx);
    RunPassOn(data, Links, doc, ctx);
    RunPassOn(data, Sources, doc, ctx);
    RunPassOn(data, SourceSets, doc, ctx);
    RunPassOn(data, Refreshes, doc, ctx);
    RunPassOn(data, Styles, doc, ctx);
    if IsOn(ctx.opts, "scan_js") {
      RunPassOn(data, Scripts, doc, ctx);
    }
    r := data.Value();
  }
}
