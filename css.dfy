/**
 * The stylesheet scanner `processCSS` (packages/state/plugins/dependencies.js,
 * lines 52-80) and the cursor step it shares with the inline-style pass of
 * `processHTML`.
 */
module Css {
  import opened Text
  import opened Optional
  import opened Classify

  /**
   * One step of the cursor loops: the first `url(` at or after `start` and the
   * first `close` at or after that `url(`. The result is absent exactly when
   * no `url(` at or after `start` is followed by a `close`.
   */
  function NextUrl(s: string, start: nat, close: string): (r: Option<(nat, nat)>)
    requires |close| > 0 && close[0] == ')'
    ensures r.Some? ==> start <= r.value.0 && r.value.0 + 4 <= r.value.1
    ensures r.Some? ==> MatchAt(s, "url(", r.value.0) && MatchAt(s, close, r.value.1)
  {
    var u := IndexOf(s, "url(", start);
    if u == -1 then None
    else
      var e := IndexOf(s, close, u);
      if e == -1 then None
      else
        assert s[u..u + 4] == "url(";
        assert forall i :: u <= i < u + 4 ==> s[i] == s[u..u + 4][i - u];
        assert s[e..e + |close|][0] == ')';
        Some((u, e))
  }

  /**
   * The pair is the leftmost `url(` and the first `close` after it, and
   * nothing is found exactly when no `url(` at or after `start` is followed
   * by a `close`.
   */
  lemma NextUrlLeftmost(s: string, start: nat, close: string)
    requires |close| > 0 && close[0] == ')'
    ensures var r := NextUrl(s, start, close);
      r.Some? ==> forall i: nat :: start <= i < r.value.0 ==> !MatchAt(s, "url(", i)
    ensures var r := NextUrl(s, start, close);
      r.Some? ==> forall i: nat :: r.value.0 <= i < r.value.1 ==> !MatchAt(s, close, i)
    ensures NextUrl(s, start, close).None? <==>
      forall u: nat, e: nat :: start <= u <= e && MatchAt(s, "url(", u) ==> !MatchAt(s, close, e)
  {
  }

  /** Both searches succeeding is exactly the pair `NextUrl` returns. */
  lemma NextUrlFound(s: string, start: nat, close: string, u: int, e: int)
    requires |close| > 0 && close[0] == ')'
    requires u == IndexOf(s, "url(", start) && u != -1
    requires e == IndexOf(s, close, u) && e != -1
    ensures NextUrl(s, start, close) == Some((u as nat, e as nat))
  {
  }

  /** Either search failing is exactly `NextUrl` returning nothing. */
  lemma NextUrlMissing(s: string, start: nat, close: string, u: int)
    requires |close| > 0 && close[0] == ')'
    requires u == IndexOf(s, "url(", start)
    requires u == -1 || IndexOf(s, close, u) == -1
    ensures NextUrl(s, start, close).None?
  {
  }

  /** Lines 67-69: a value that starts with a quote loses its first and its last character. */
  function Unquote(url: string): (r: string)
    ensures !StartsWith(url, "\"") && !StartsWith(url, "'") ==> r == url
    ensures StartsWith(url, "\"") || StartsWith(url, "'") ==>
      |r| == (if |url| >= 2 then |url| - 2 else 0) && forall i :: 0 <= i < |r| ==> r[i] == url[i + 1]
  {
    if StartsWith(url, "\"") || StartsWith(url, "'") then
      (if |url| >= 2 then url[1..|url| - 1] else "")
    else url
  }

  /**
   * The scanning loop of `processCSS` from cursor `start` with the buckets
   * filled so far: `None` is the `undefined` returned when a value is ignored.
   */
  function CssScan(content: string, opts: Options, start: nat, acc: Refs): Option<Refs>
    decreases |content| - start
  {
    if start >= |content| then Some(acc)
    else
      match NextUrl(content, start, ")")
      case None => Some(acc)
      case Some((u, e)) =>
        var url := Unquote(content[u + 4..e]);
        if Ignored(url, opts) then None
        else CssScan(content, opts, e, Insert(acc, Destination(url, true), url))
  }

  /** The values the scanner extracts from cursor `start` on, ignore rules aside. */
  function CssCandidates(content: string, start: nat): seq<string>
    decreases |content| - start
  {
    if start >= |content| then []
    else
      match NextUrl(content, start, ")")
      case None => []
      case Some((u, e)) => [Unquote(content[u + 4..e])] + CssCandidates(content, e)
  }

  /** Where `NextUrl` finds nothing, the scan stops with the buckets so far and extracts nothing more. */
  lemma CssScanStops(content: string, opts: Options, start: nat, acc: Refs)
    requires start >= |content| || NextUrl(content, start, ")").None?
    ensures CssScan(content, opts, start, acc) == Some(acc)
    ensures CssCandidates(content, start) == []
  {
  }

  /** One round of the loop: the unquoted value between `url(` and `)` is classified, or stops the scan. */
  lemma CssScanStep(content: string, opts: Options, start: nat, acc: Refs, u: nat, e: nat)
    requires start < |content|
    requires NextUrl(content, start, ")") == Some((u, e))
    requires u + 4 <= e <= |content|
    ensures var url := Unquote(content[u + 4..e]);
      CssScan(content, opts, start, acc) ==
        if Ignored(url, opts) then None else CssScan(content, opts, e, Insert(acc, Destination(url, true), url))
  {
  }

  /** One round of the extraction. */
  lemma CssCandidatesStep(content: string, start: nat, u: nat, e: nat)
    requires start < |content|
    requires NextUrl(content, start, ")") == Some((u, e))
    requires u + 4 <= e <= |content|
    ensures CssCandidates(content, start) == [Unquote(content[u + 4..e])] + CssCandidates(content, e)
  {
  }

  /**
   * The scanner is extraction followed by classification: it returns
   * `undefined` iff some extracted value is ignored, and otherwise adds every
   * extracted value, in order, as an asset.
   */
  lemma {:induction false} CssScanDecomposed(content: string, opts: Options, start: nat, acc: Refs)
    ensures var cands := CssCandidates(content, start);
      CssScan(content, opts, start, acc) ==
        if exists v :: v in cands && Ignored(v, opts) then None
        else Some(AddAll(acc, cands, true, opts))
    decreases |content| - start
  {
    var next := if start < |content| then NextUrl(content, start, ")") else None;
    if next.None? {
      CssScanStops(content, opts, start, acc);
    } else {
      var u, e := next.value.0, next.value.1;
      assert MatchAt(content, ")", e);
      CssScanStep(content, opts, start, acc, u, e);
      CssCandidatesStep(content, start, u, e);
      var url := Unquote(content[u + 4..e]);
      var rest := CssCandidates(content, e);
      assert url in [url] + rest;
      if !Ignored(url, opts) {
        var acc' := Insert(acc, Destination(url, true), url);
        CssScanDecomposed(content, opts, e, acc');
        AddAllCons(acc, url, rest, true, opts);
        assert forall v :: v in [url] + rest <==> v == url || v in rest;
      }
    }
  }

  /** A stylesheet only ever fills the two asset buckets. */
  lemma {:induction false} CssOnlyAssets(content: string, opts: Options, start: nat, acc: Refs)
    requires CssScan(content, opts, start, acc).Some?
    ensures var r := CssScan(content, opts, start, acc).value;
      r.internalLinks == acc.internalLinks && r.externalLinks == acc.externalLinks
    decreases |content| - start
  {
    if start < |content| {
      match NextUrl(content, start, ")")
      case None =>
      case Some((u, e)) =>
        var url := Unquote(content[u + 4..e]);
        CssOnlyAssets(content, opts, e, Insert(acc, Destination(url, true), url));
    }
  }

  lemma {:induction false} CssDuplicateFree(content: string, opts: Options, start: nat, acc: Refs)
    requires DuplicateFree(acc)
    requires CssScan(content, opts, start, acc).Some?
    ensures DuplicateFree(CssScan(content, opts, start, acc).value)
    decreases |content| - start
  {
    if start < |content| {
      match NextUrl(content, start, ")")
      case None =>
      case Some((u, e)) =>
        var url := Unquote(content[u + 4..e]);
        InsertDuplicateFree(acc, Destination(url, true), url);
        CssDuplicateFree(content, opts, e, Insert(acc, Destination(url, true), url));
    }
  }

  /** Every stored value is routed by `isExternalUri`, and no stored value is ignored. */
  lemma CssClassified(content: string, opts: Options, start: nat, acc: Refs)
    requires Classified(acc, opts)
    requires CssScan(content, opts, start, acc).Some?
    ensures Classified(CssScan(content, opts, start, acc).value, opts)
  {
    CssScanDecomposed(content, opts, start, acc);
    AddAllClassified(acc, CssCandidates(content, start), true, opts);
  }

  /** A stylesheet without `url(` yields four empty buckets. */
  lemma CssWithoutUrl(content: string, opts: Options)
    requires !Contains(content, "url(")
    ensures CssScan(content, opts, 0, Empty) == Some(Empty)
  {
    if |content| > 0 {
      assert NextUrl(content, 0, ")").None?;
    }
  }

  /**
   * A stylesheet whose scan finds exactly one pair (one `url(` at `u`, the first `)` after it at `e`, and no
   * `url(` before `u` or from `e` on) yields the text between them, unquoted, as its one asset.
   */
  lemma SingleUrl(content: string, opts: Options, u: nat, e: nat)
    requires u + 4 <= e
    requires MatchAt(content, "url(", u) && MatchAt(content, ")", e)
    requires forall i: nat :: i < u || e <= i ==> !MatchAt(content, "url(", i)
    requires forall i: nat :: u <= i < e ==> !MatchAt(content, ")", i)
    requires !Ignored(Unquote(content[u + 4..e]), opts)
    ensures var url := Unquote(content[u + 4..e]);
      CssScan(content, opts, 0, Empty) == Some(Insert(Empty, Destination(url, true), url))
  {
    IndexOfIs(content, "url(", 0, u);
    IndexOfIs(content, ")", u, e);
    NextUrlFound(content, 0, ")", u, e);
    var url := Unquote(content[u + 4..e]);
    CssScanStep(content, opts, 0, Empty, u, e);
    assert IndexOf(content, "url(", e) == -1;
    NextUrlMissing(content, e, ")", -1);
    CssScanStops(content, opts, e, Insert(Empty, Destination(url, true), url));
  }

  /** The rule `a{background:url(<q>)}` yields the one value `q` stands for, as an asset. */
  lemma BackgroundUrl(q: string, opts: Options)
    requires ')' !in q && !Ignored(Unquote(q), opts)
    ensures var url := Unquote(q);
      CssScan("a{background:url(" + q + ")}", opts, 0, Empty) == Some(Insert(Empty, Destination(url, true), url))
  {
    var pre := "a{background:url(";
    var content := pre + q + ")}";
    var e := |pre| + |q|;
    assert content[17..e] == q;
    assert MatchAt(content, "url(", 13) by {
      assert content[13..17] == pre[13..17] == "url(";
    }
    assert MatchAt(content, ")", e) by {
      assert content[e..e + 1] == ")";
    }
    forall i: nat | i < 13
      ensures !MatchAt(content, "url(", i)
    {
      assert content[i..i + 4][0] == pre[i] && content[i..i + 4][1] == pre[i + 1];
    }
    forall i: nat | 13 <= i < e
      ensures !MatchAt(content, ")", i)
    {
      assert content[i..i + 1][0] == content[i];
      if i < 17 {
        assert content[i] == pre[i];
      } else {
        assert content[i] == q[i - 17];
      }
    }
    assert |content| == e + 2;
    assert forall i: nat :: e <= i ==> !MatchAt(content, "url(", i);
    SingleUrl(content, opts, 13, e);
  }

  /** The first asset stored lands alone in the bucket `isExternalUri` picks. */
  lemma FirstAsset(v: string)
    ensures Insert(Empty, Destination(v, true), v) ==
      if IsExternalUri(v) then Refs([], [v], [], []) else Refs([v], [], [], [])
  {
  }

  /**
   * An unquoted internal value, as in `a{background:url(/img/x.png)}`, is
   * the one internal asset of the rule.
   */
  lemma UnquotedBackground(v: string, opts: Options)
    requires ')' !in v && v != [] && v[0] != '"' && v[0] != '\''
    requires !IsExternalUri(v) && !Ignored(v, opts)
    ensures CssScan("a{background:url(" + v + ")}", opts, 0, Empty) == Some(Refs([v], [], [], []))
  {
    assert Unquote(v) == v by {
      assert v[..1] == [v[0]];
    }
    FirstAsset(v);
    BackgroundUrl(v, opts);
  }

  /**
   * A quoted external value, as in
   * `a{background:url("http://cdn.example.com/x.png")}`, is the one external
   * asset of the rule, without its quotes.
   */
  lemma QuotedBackground(v: string, opts: Options)
    requires ')' !in v && '"' !in v
    requires IsExternalUri(v) && !Ignored(v, opts)
    ensures CssScan("a{background:url(" + ("\"" + v + "\"") + ")}", opts, 0, Empty) == Some(Refs([], [v], [], []))
  {
    var q := "\"" + v + "\"";
    assert Unquote(q) == v by {
      assert q[..1] == "\"";
      assert q[1..|q| - 1] == v;
    }
    assert ')' !in q;
    FirstAsset(v);
    BackgroundUrl(q, opts);
  }

  /** The two values of the examples above meet the conditions. */
  lemma BackgroundExamples()
    ensures !IsExternalUri("/img/x.png")
    ensures IsExternalUri("http://cdn.example.com/x.png")
  {
    ExternalByLetterRun("/img/x.png");
    assert SchemePrefixAt("http://cdn.example.com/x.png", 4);
  }

  /** `processCSS(content, options)`. */
  method ProcessCSS(content: string, opts: Options) returns (r: Option<Refs>)
    ensures r == CssScan(content, opts, 0, Empty)
  {
    var data := new References();
    var startIndex := 0;
    while startIndex < |content|
      invariant startIndex <= |content|
      invariant CssScan(content, opts, startIndex, data.Value()) == CssScan(content, opts, 0, Empty)
      decreases |content| - startIndex
    {
      var urlIndex := IndexOf(content, "url(", startIndex);
      if urlIndex == -1 {
        break;
      }
      var endIndex := IndexOf(content, ")", urlIndex);
      if endIndex == -1 {
        break;
      }
      NextUrlFound(content, startIndex, ")", urlIndex, endIndex);
      var url := Unquote(content[urlIndex + 4..endIndex]);
      if Ignored(url, opts) {
        return None;
      }
      var dest := if IsExternalUri(url) then ExternalAssets else InternalAssets;
      data.Push(dest, url);
      startIndex := endIndex;
    }
    r := Some(data.Value());
  }
}
