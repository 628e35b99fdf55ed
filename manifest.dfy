/**
 * Manifest matching: `processJS` (packages/state/plugins/dependencies.js,
 * lines 27-50) and the inline-script pass of `processHTML` (lines 160-180)
 * test every known site file name for substring containment in script text.
 * The two code paths differ only in that `processJS` skips the root `/`.
 */
module Manifest {
  import opened Text
  import opened Classify

  /** The bucket a matched file name goes to: an asset when it ends in `.` and 2-4 letters. */
  function ManifestBucket(filename: string): (b: Bucket)
    ensures b == InternalAssets || b == InternalLinks
    ensures IsAssetBucket(b) == HasAssetExtension(filename)
  {
    if HasAssetExtension(filename) then InternalAssets else InternalLinks
  }

  /** Whether `filename` is reported for script `text`. */
  predicate Matches(text: string, filename: string, opts: Options, skipRoot: bool)
  {
    !(skipRoot && filename == "/") && Contains(text, filename) && !Ignored(filename, opts)
  }

  /** The `files.forEach` callback for one file name. */
  function ManifestStep(acc: Refs, text: string, filename: string, opts: Options, skipRoot: bool): Refs
  {
    if Matches(text, filename, opts, skipRoot) then Insert(acc, ManifestBucket(filename), filename) else acc
  }

  /** The whole `files.forEach` loop over the first `|files|` manifest entries. */
  function ManifestScan(acc: Refs, text: string, files: seq<string>, opts: Options, skipRoot: bool): Refs
    decreases |files|
  {
    if files == [] then acc
    else ManifestStep(ManifestScan(acc, text, files[..|files| - 1], opts, skipRoot), text, files[|files| - 1], opts, skipRoot)
  }

  /** Matching never touches the two external buckets. */
  lemma {:induction false} ManifestKeepsExternal(acc: Refs, text: string, files: seq<string>, opts: Options, skipRoot: bool)
    ensures var r := ManifestScan(acc, text, files, opts, skipRoot);
      r.externalAssets == acc.externalAssets && r.externalLinks == acc.externalLinks
    decreases |files|
  {
    if files != [] {
      ManifestKeepsExternal(acc, text, files[..|files| - 1], opts, skipRoot);
    }
  }

  /**
   * A value is in a bucket after matching iff it was there before, or it is a
   * manifest file name that matches the text and belongs in that bucket.
   */
  lemma {:induction false} ManifestMembership(acc: Refs, text: string, files: seq<string>, opts: Options,
                                              skipRoot: bool, b: Bucket, v: string)
    ensures v in Get(ManifestScan(acc, text, files, opts, skipRoot), b) <==>
      v in Get(acc, b) || (v in files && Matches(text, v, opts, skipRoot) && b == ManifestBucket(v))
    decreases |files|
  {
    if files != [] {
      var front := files[..|files| - 1];
      ManifestMembership(acc, text, front, opts, skipRoot, b, v);
      assert files == front + [files[|files| - 1]];
    }
  }

  lemma {:induction false} ManifestDuplicateFree(acc: Refs, text: string, files: seq<string>, opts: Options, skipRoot: bool)
    requires DuplicateFree(acc)
    ensures DuplicateFree(ManifestScan(acc, text, files, opts, skipRoot))
    decreases |files|
  {
    if files != [] {
      var front := files[..|files| - 1];
      ManifestDuplicateFree(acc, text, front, opts, skipRoot);
      var last := files[|files| - 1];
      if Matches(text, last, opts, skipRoot) {
        InsertDuplicateFree(ManifestScan(acc, text, front, opts, skipRoot), ManifestBucket(last), last);
      }
    }
  }

  /** One stored value after matching: it was stored before, or it is a matched internal file name. */
  lemma ManifestClassifiedValue(acc: Refs, text: string, files: seq<string>, opts: Options, skipRoot: bool,
                                b: Bucket, v: string)
    requires Classified(acc, opts)
    requires forall f :: f in files ==> !IsExternalUri(f)
    requires v in Get(ManifestScan(acc, text, files, opts, skipRoot), b)
    ensures Routed(b, v, opts)
  {
    ManifestMembership(acc, text, files, opts, skipRoot, b, v);
    if v !in Get(acc, b) {
      assert v in files && !IsExternalUri(v) && b == ManifestBucket(v);
    }
  }

  /** Matched file names keep `addURL`'s routing when no manifest entry looks external. */
  lemma ManifestClassified(acc: Refs, text: string, files: seq<string>, opts: Options, skipRoot: bool)
    requires Classified(acc, opts)
    requires forall f :: f in files ==> !IsExternalUri(f)
    ensures Classified(ManifestScan(acc, text, files, opts, skipRoot), opts)
  {
    forall b, v | v in Get(ManifestScan(acc, text, files, opts, skipRoot), b)
      ensures Routed(b, v, opts)
    {
      ManifestClassifiedValue(acc, text, files, opts, skipRoot, b, v);
    }
  }

  /** `processJS` never reports the root `/`. */
  lemma ProcessJSSkipsRoot(text: string, files: seq<string>, opts: Options, b: Bucket)
    ensures "/" !in Get(ManifestScan(Empty, text, files, opts, true), b)
  {
    ManifestMembership(Empty, text, files, opts, true, b, "/");
  }

  /** The loop body shared by both code paths, on the `data` object. */
  method ScanManifest(data: References, text: string, files: seq<string>, opts: Options, skipRoot: bool)
    modifies data
    ensures data.Value() == ManifestScan(old(data.Value()), text, files, opts, skipRoot)
  {
    ghost var start := data.Value();
    for i := 0 to |files|
      invariant data.Value() == ManifestScan(start, text, files[..i], opts, skipRoot)
    {
      assert files[..i + 1][..i] == files[..i];
      var filename := files[i];
      if skipRoot && filename == "/" {
        continue;
      }
      if Contains(text, filename) {
        if Ignored(filename, opts) {
          continue;
        }
        var dest := InternalLinks;
        if HasAssetExtension(filename) {
          dest := InternalAssets;
        }
        data.Push(dest, filename);
      }
    }
    assert files[..|files|] == files;
  }

  /** `processJS(content, options, files)`: only the two internal buckets exist in its result. */
  method ProcessJS(content: string, opts: Options, files: seq<string>) returns (internalAssets: seq<string>, internalLinks: seq<string>)
    ensures internalAssets == ManifestScan(Empty, content, files, opts, true).internalAssets
    ensures internalLinks == ManifestScan(Empty, content, files, opts, true).internalLinks
  {
    var data := new References();
    ScanManifest(data, content, files, opts, true);
    internalAssets, internalLinks := data.internalAssets, data.internalLinks;
  }
}
