/**
 * The URL classifier and the ignore rules of the dependency scanner
 * (packages/state/plugins/dependencies.js), and the four-bucket record every
 * extractor fills.
 */
module Classify {
  import opened Text

  /** A configuration value: only the boolean `true` switches an option on (`=== true`). */
  datatype OptionValue = Bool(b: bool) | NonBool

  type Options = map<string, OptionValue>

  /** `name in options && options[name] === true` */
  predicate IsOn(opts: Options, name: string)
  {
    name in opts && opts[name] == Bool(true)
  }

  // ---------------------------------------------------------------------
  // External test: /(^[a-zA-Z]{0,5}:)\//

  /** The pattern matches with exactly `k` letters before the colon. */
  predicate SchemePrefixAt(v: string, k: nat)
  {
    k <= 5 && k + 2 <= |v| && AllAsciiLetters(v[..k]) && v[k] == ':' && v[k + 1] == '/'
  }

  /** `isExternalUri`: 0 to 5 ASCII letters, a colon and a slash at the start of the value. */
  predicate IsExternalUri(v: string)
  {
    exists k: nat | k <= 5 :: SchemePrefixAt(v, k)
  }

  /** Length of the run of ASCII letters the value starts with. */
  function LetterRun(v: string): (n: nat)
    ensures n <= |v| && AllAsciiLetters(v[..n])
    ensures n < |v| ==> !IsAsciiLetter(v[n])
  {
    if v == [] || !IsAsciiLetter(v[0]) then 0
    else
      var n := 1 + LetterRun(v[1..]);
      assert v[..n] == [v[0]] + v[1..][..n - 1];
      n
  }

  /** The letters before the colon are exactly the leading letter run. */
  lemma SchemePrefixIsLetterRun(v: string, k: nat)
    requires SchemePrefixAt(v, k)
    ensures k == LetterRun(v)
  {
    var n := LetterRun(v);
    forall j | 0 <= j < k
      ensures IsAsciiLetter(v[j])
    {
      assert v[..k][j] == v[j];
    }
    forall j | 0 <= j < n
      ensures IsAsciiLetter(v[j])
    {
      assert v[..n][j] == v[j];
    }
  }

  /**
   * A scanner-free reading of the pattern: the leading letter run is at most
   * five long and is followed by ":/".
   */
  lemma ExternalByLetterRun(v: string)
    ensures IsExternalUri(v) <==>
      var n := LetterRun(v); n <= 5 && n + 2 <= |v| && v[n] == ':' && v[n + 1] == '/'
  {
    var n := LetterRun(v);
    if IsExternalUri(v) {
      var k: nat :| k <= 5 && SchemePrefixAt(v, k);
      SchemePrefixIsLetterRun(v, k);
    } else if n <= 5 && n + 2 <= |v| && v[n] == ':' && v[n + 1] == '/' {
      assert SchemePrefixAt(v, n);
    }
  }

  /** A six-letter scheme such as `abcdef://x` is not external. */
  lemma LongSchemeIsInternal(v: string)
    requires |v| >= 6 && AllAsciiLetters(v[..6])
    ensures !IsExternalUri(v)
  {
    forall k: nat | k <= 5
      ensures !SchemePrefixAt(v, k)
    {
      assert v[..6][k] == v[k];
    }
  }

  /** A scheme of up to five letters, or none at all, followed by `:/` is external. */
  lemma ExternalExamples()
    ensures IsExternalUri("https://x") && IsExternalUri("://x")
  {
    assert SchemePrefixAt("https://x", 5);
    assert SchemePrefixAt("://x", 0);
  }

  /** `mailto:` references are internal: `mailto` has six letters. */
  lemma MailtoIsInternal()
    ensures !IsExternalUri("mailto:a@b")
  {
    var v := "mailto:a@b";
    assert v[..6] == "mailto";
    LongSchemeIsInternal(v);
  }

  /** Protocol-relative references (`//cdn/x`) are internal. */
  lemma ProtocolRelativeIsInternal()
    ensures !IsExternalUri("//cdn/x")
  {
    ExternalByLetterRun("//cdn/x");
  }

  lemma SixLetterSchemeIsInternal()
    ensures !IsExternalUri("abcdef://x")
  {
    var v := "abcdef://x";
    assert v[..6] == "abcdef";
    LongSchemeIsInternal(v);
  }

  // ---------------------------------------------------------------------
  // Asset heuristic of the manifest matcher: /\.[a-zA-Z]{2,4}$/

  predicate ExtensionAt(f: string, k: nat)
  {
    k + 1 <= |f| && f[|f| - k - 1] == '.' && AllAsciiLetters(f[|f| - k..])
  }

  /** The file name ends in a dot and 2 to 4 ASCII letters. */
  predicate HasAssetExtension(f: string)
  {
    exists k: nat | 2 <= k <= 4 :: ExtensionAt(f, k)
  }

  // ---------------------------------------------------------------------
  // Ignore rules (lines 9-25)

  predicate IgnoreInlineSvg(url: string, opts: Options)
  {
    IsOn(opts, "ignore_inline_svg") && StartsWith(url, "data:image/svg+xml")
  }

  predicate IgnoreMailto(url: string, opts: Options)
  {
    IsOn(opts, "ignore_mailto") && Contains(url, "mailto:")
  }

  predicate IgnoreCCEditorLinks(url: string, opts: Options)
  {
    IsOn(opts, "ignore_cc_editor_links") && Contains(url, "cloudcannon:")
  }

  /** `ignoreChecks`: nothing is dropped unless one of the three options is strictly `true`. */
  predicate Ignored(url: string, opts: Options)
  {
    IgnoreInlineSvg(url, opts) || IgnoreMailto(url, opts) || IgnoreCCEditorLinks(url, opts)
  }

  /** A value is dropped only under one of the three options, set to `true`. */
  lemma IgnoredNeedsOption(url: string, opts: Options)
    ensures Ignored(url, opts) ==>
      IsOn(opts, "ignore_inline_svg") || IsOn(opts, "ignore_mailto") || IsOn(opts, "ignore_cc_editor_links")
  {
  }

  /** With no options nothing is ignored, and an option set to anything but `true` is off. */
  lemma NothingIgnoredByDefault(url: string, name: string)
    ensures !Ignored(url, map[])
    ensures !IsOn(map[name := NonBool], name) && !IsOn(map[name := Bool(false)], name)
  {
  }

  // ---------------------------------------------------------------------
  // The four buckets

  datatype Bucket = InternalAssets | ExternalAssets | InternalLinks | ExternalLinks

  predicate IsAssetBucket(b: Bucket)
  {
    b == InternalAssets || b == ExternalAssets
  }

  predicate IsExternalBucket(b: Bucket)
  {
    b == ExternalAssets || b == ExternalLinks
  }

  /** The `data` record: "Internal Assets", "External Assets", "Internal Links", "External Links". */
  datatype Refs = Refs(internalAssets: seq<string>, externalAssets: seq<string>,
                       internalLinks: seq<string>, externalLinks: seq<string>)

  const Empty := Refs([], [], [], [])

  function Get(r: Refs, b: Bucket): seq<string>
  {
    match b
    case InternalAssets => r.internalAssets
    case ExternalAssets => r.externalAssets
    case InternalLinks => r.internalLinks
    case ExternalLinks => r.externalLinks
  }

  function Put(r: Refs, b: Bucket, s: seq<string>): (r': Refs)
    ensures Get(r', b) == s
    ensures forall b' :: b' != b ==> Get(r', b') == Get(r, b')
  {
    match b
    case InternalAssets => r.(internalAssets := s)
    case ExternalAssets => r.(externalAssets := s)
    case InternalLinks => r.(internalLinks := s)
    case ExternalLinks => r.(externalLinks := s)
  }

  /** The bucket `addURL` picks: asset-ness from the caller, external-ness from `isExternalUri`. */
  function Destination(url: string, isAsset: bool): (b: Bucket)
    ensures IsAssetBucket(b) == isAsset
    ensures IsExternalBucket(b) == IsExternalUri(url)
  {
    if isAsset then (if IsExternalUri(url) then ExternalAssets else InternalAssets)
    else (if IsExternalUri(url) then ExternalLinks else InternalLinks)
  }

  /** `if (!(data[dest].includes(url))) data[dest].push(url)` */
  function Insert(r: Refs, b: Bucket, url: string): (r': Refs)
    ensures url in Get(r', b)
    ensures Get(r', b) == if url in Get(r, b) then Get(r, b) else Get(r, b) + [url]
    ensures forall b' :: b' != b ==> Get(r', b') == Get(r, b')
  {
    if url in Get(r, b) then r else Put(r, b, Get(r, b) + [url])
  }

  predicate NoDuplicates(s: seq<string>)
  {
    forall i, j :: 0 <= i < j < |s| ==> s[i] != s[j]
  }

  /** No bucket holds a value twice. */
  predicate DuplicateFree(r: Refs)
  {
    forall b :: NoDuplicates(Get(r, b))
  }

  lemma InsertDuplicateFree(r: Refs, b: Bucket, url: string)
    requires DuplicateFree(r)
    ensures DuplicateFree(Insert(r, b, url))
  {
    var r' := Insert(r, b, url);
    forall b' ensures NoDuplicates(Get(r', b')) {
      if b' == b && url !in Get(r, b) {
        var s := Get(r, b);
        assert NoDuplicates(s);
        forall i, j | 0 <= i < j < |s| + 1 ensures (s + [url])[i] != (s + [url])[j] {
          if j == |s| {
            assert s[i] in s;
          }
        }
      }
    }
  }

  /**
   * `addURL(url, isAsset)`: an ignored value changes nothing; any other value
   * ends up in its destination bucket, appended only when absent; the other
   * buckets do not change.
   */
  function AddURL(r: Refs, url: string, isAsset: bool, opts: Options): Refs
  {
    if Ignored(url, opts) then r else Insert(r, Destination(url, isAsset), url)
  }

  /**
   * An ignored value changes nothing; any other value is in its destination
   * bucket afterwards; the other buckets do not change.
   */
  lemma AddURLEffect(r: Refs, url: string, isAsset: bool, opts: Options)
    ensures var r' := AddURL(r, url, isAsset, opts);
      && (Ignored(url, opts) ==> r' == r)
      && (!Ignored(url, opts) ==> url in Get(r', Destination(url, isAsset)))
      && (forall b :: b != Destination(url, isAsset) ==> Get(r', b) == Get(r, b))
  {
  }

  /** `addURL` only appends: every bucket keeps its old contents, in order, as a prefix. */
  lemma AddURLGrows(r: Refs, url: string, isAsset: bool, opts: Options, b: Bucket)
    ensures Get(r, b) <= Get(AddURL(r, url, isAsset, opts), b)
    ensures |Get(AddURL(r, url, isAsset, opts), b)| <= |Get(r, b)| + 1
  {
  }

  /** A value is in a bucket after `addURL` iff it was before, or it is the accepted url routed there. */
  lemma AddURLMembership(r: Refs, url: string, isAsset: bool, opts: Options, b: Bucket, v: string)
    ensures v in Get(AddURL(r, url, isAsset, opts), b) <==>
      v in Get(r, b) || (v == url && !Ignored(url, opts) && b == Destination(url, isAsset))
  {
  }

  lemma AddURLDuplicateFree(r: Refs, url: string, isAsset: bool, opts: Options)
    requires DuplicateFree(r)
    ensures DuplicateFree(AddURL(r, url, isAsset, opts))
  {
    if !Ignored(url, opts) {
      InsertDuplicateFree(r, Destination(url, isAsset), url);
    }
  }

  /** `addURL` on each value in turn. */
  function AddAll(r: Refs, urls: seq<string>, isAsset: bool, opts: Options): Refs
    decreases |urls|
  {
    if urls == [] then r
    else AddAll(AddURL(r, urls[0], isAsset, opts), urls[1..], isAsset, opts)
  }

  lemma AddAllCons(r: Refs, u: string, rest: seq<string>, isAsset: bool, opts: Options)
    ensures AddAll(r, [u] + rest, isAsset, opts) == AddAll(AddURL(r, u, isAsset, opts), rest, isAsset, opts)
  {
    assert ([u] + rest)[1..] == rest;
  }

  lemma {:induction false} AddAllMembership(r: Refs, urls: seq<string>, isAsset: bool, opts: Options, b: Bucket, v: string)
    ensures v in Get(AddAll(r, urls, isAsset, opts), b) <==>
      v in Get(r, b) || (v in urls && !Ignored(v, opts) && b == Destination(v, isAsset))
    decreases |urls|
  {
    if urls != [] {
      var head, tail := urls[0], urls[1..];
      var r' := AddURL(r, head, isAsset, opts);
      assert AddAll(r, urls, isAsset, opts) == AddAll(r', tail, isAsset, opts);
      AddAllMembership(r', tail, isAsset, opts, b, v);
      AddURLMembership(r, head, isAsset, opts, b, v);
      assert v in urls <==> v == head || v in tail by {
        assert urls == [head] + tail;
      }
    }
  }

  lemma {:induction false} AddAllDuplicateFree(r: Refs, urls: seq<string>, isAsset: bool, opts: Options)
    requires DuplicateFree(r)
    ensures DuplicateFree(AddAll(r, urls, isAsset, opts))
    decreases |urls|
  {
    if urls != [] {
      AddURLDuplicateFree(r, urls[0], isAsset, opts);
      AddAllDuplicateFree(AddURL(r, urls[0], isAsset, opts), urls[1..], isAsset, opts);
    }
  }

  /**
   * What `addURL` guarantees of every stored value: it is not ignored, and it
   * sits in an external bucket exactly when `isExternalUri` holds of it.
   */
  predicate Classified(r: Refs, opts: Options)
  {
    forall b, v :: v in Get(r, b) ==> Routed(b, v, opts)
  }

  /** `v` may sit in bucket `b`: it is not ignored, and the bucket is external iff `v` is. */
  predicate Routed(b: Bucket, v: string, opts: Options)
  {
    !Ignored(v, opts) && IsExternalBucket(b) == IsExternalUri(v)
  }

  lemma AddURLClassified(r: Refs, url: string, isAsset: bool, opts: Options)
    requires Classified(r, opts)
    ensures Classified(AddURL(r, url, isAsset, opts), opts)
  {
    var r' := AddURL(r, url, isAsset, opts);
    forall b, v | v in Get(r', b)
      ensures Routed(b, v, opts)
    {
      AddURLMembership(r, url, isAsset, opts, b, v);
    }
  }

  lemma {:induction false} AddAllClassified(r: Refs, urls: seq<string>, isAsset: bool, opts: Options)
    requires Classified(r, opts)
    ensures Classified(AddAll(r, urls, isAsset, opts), opts)
    decreases |urls|
  {
    if urls != [] {
      AddURLClassified(r, urls[0], isAsset, opts);
      AddAllClassified(AddURL(r, urls[0], isAsset, opts), urls[1..], isAsset, opts);
    }
  }

  /** The `data` object an extractor fills; its arrays only ever grow by `push`. */
  class References {
    var internalAssets: seq<string>
    var externalAssets: seq<string>
    var internalLinks: seq<string>
    var externalLinks: seq<string>

    function Value(): Refs
      reads this
    {
      Refs(internalAssets, externalAssets, internalLinks, externalLinks)
    }

    constructor ()
      ensures Value() == Empty
    {
      internalAssets, externalAssets, internalLinks, externalLinks := [], [], [], [];
    }

    /** `if (!(data[dest].includes(url))) data[dest].push(url)` */
    method Push(dest: Bucket, url: string)
      modifies this
      ensures Value() == Insert(old(Value()), dest, url)
    {
      match dest
      case InternalAssets =>
        if url !in internalAssets { internalAssets := internalAssets + [url]; }
      case ExternalAssets =>
        if url !in externalAssets { externalAssets := externalAssets + [url]; }
      case InternalLinks =>
        if url !in internalLinks { internalLinks := internalLinks + [url]; }
      case ExternalLinks =>
        if url !in externalLinks { externalLinks := externalLinks + [url]; }
    }

    /** The `addURL` closure of `processHTML`. */
    method Add(url: string, isAsset: bool, opts: Options)
      modifies this
      ensures Value() == AddURL(old(Value()), url, isAsset, opts)
    {
      if Ignored(url, opts) {
        return;
      }
      var dest := InternalAssets;
      if isAsset {
        if IsExternalUri(url) {
          dest := ExternalAssets;
        }
      } else {
        if IsExternalUri(url) {
          dest := ExternalLinks;
        } else {
          dest := InternalLinks;
        }
      }
      Push(dest, url);
    }
  }
}
