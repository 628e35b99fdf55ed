# Site reference scanner and translation check, in Dafny

This project models two parts of the cloudcannon-suite build tools.

**The dependency scanner** is `packages/state/plugins/dependencies.js`. For every
rendered site file it derives a site path. It then sorts every URL embedded in the
file into four buckets: Internal Assets, External Assets, Internal Links and
External Links. The model has the following pieces:

- `Classify`: the external test `isExternalUri`, the opt-in ignore rules, and
  `addURL`'s routing. The bucket record is a value `Refs`. The mutable `data`
  object is the class `References`.
- `Css`: the stylesheet scanner `processCSS`, a cursor loop over `url(` … `)`.
  Its `undefined` result for an ignored value is modelled as `None`.
- `Html`: `processHTML`. The document is a sequence of element records (tag,
  attribute map, inner html) in document order. It runs seven `$(selector).each`
  passes: anchors, `link`, `[src]`, `[srcset]`, meta refresh, inline `<style>`,
  and inline `<script>` when `scan_js` is strictly `true`.
- `Manifest`: the manifest substring matcher. It is shared by `processJS` (which
  skips `/`) and the inline-script pass (which does not).
- `Dispatch`: the per-file transform. It covers the site path (base prefix
  removed, then the first match of `/\/index.html?/i` replaced by `/`; the
  regex's `.` is unescaped, so it matches any character but a line terminator,
  as in `/index_htm`)
  and dispatch on the text after the last `.`.

Each imperative routine is a method proved equal to a specification function.
The properties are lemmas about those functions:

- no bucket holds duplicates;
- every stored value is unignored and routed by `isExternalUri`;
- a stylesheet is `undefined` iff one of its extracted values is ignored;
- the manifest does not matter when `scan_js` is off.

**The translation check** is in `packages/i18n/index.js`. It is modelled as:

- `Locales`: `readLocalesFromDir`, which wraps each entry as `{translation, count: 0}`;
- `Check`: `compareTranslations`, and the per-locale tally, flag and summary line
  of `i18n:check`;
- `Legacy`: the sorted-key export and file-name mapping of
  `i18n:legacy-save-to-properties-files`.

JSON values are the datatype `JsonValue.Json`.

Quirks of the code that the model keeps:

- Only the extension `html` is dispatched to the HTML scanner; an `htm` file
  gets four empty buckets.
- The refresh callback returns after the first `url=` part of one element,
  which ends that callback only; every `meta[http-equiv='refresh']` element
  contributes.
- A quoted CSS value loses its first and last characters, whether or not the
  last one is a matching quote.
- Inline `<style>` text is not passed to `processCSS`. It pairs `url(` with
  `);` and slices `[urlIndex + 5, endIndex - 1)`.
- Inline scripts are neither stripped of white space nor skip `/`.

## Model

| member | source | states |
|---|---|---|
| `Text.IndexOf` | packages/state/plugins/dependencies.js:61-62 | the result is -1 iff no match at or after `from`; otherwise it is the leftmost match at or after `from` |
| `Text.IndexOfIs` | packages/state/plugins/dependencies.js:61-62 | a match at `k` with none between `from` and `k` is what `indexOf` returns |
| `Text.ContainsIndexOf` | packages/state/plugins/dependencies.js:36 | `includes` holds iff `indexOf` from 0 is not -1 |
| `Text.ContainsChar` | packages/state/plugins/dependencies.js:110 | a one-character needle is contained iff the character occurs |
| `Text.StripWhitespace` | packages/state/plugins/dependencies.js:146 | the result holds no character of JavaScript's `\s` class, holds every other character of the input and nothing else, and is no longer than the input |
| `Text.StripOne` | packages/state/plugins/dependencies.js:146 | one character is kept iff it is not white space |
| `Text.StripConcat` | packages/state/plugins/dependencies.js:146 | stripping a concatenation strips each part and keeps them in order; with `StripOne` this makes stripping the order- and count-keeping filter |
| `Text.StripWhitespaceIdle` | packages/state/plugins/dependencies.js:206 | text without white space is unchanged by stripping |
| `Text.StripWhitespaceIdempotent` | packages/state/plugins/dependencies.js:206 | stripping twice is stripping once |
| `Text.FirstIndex` | packages/state/plugins/dependencies.js:136 | the first occurrence of the separator: it is there and not before |
| `Text.Split` | packages/state/plugins/dependencies.js:136 | `split` on one character gives at least one part, no part holds the separator, and joining the parts gives back the input |
| `Text.SplitJoin` | packages/state/plugins/dependencies.js:199 | splitting a join of separator-free parts gives back the parts |
| `Text.ReplaceChar` | packages/i18n/index.js:147 | every occurrence of one character becomes another; the length and all other characters are kept |
| `Text.LessIrreflexive` | packages/i18n/index.js:133 | the default sort order is irreflexive |
| `Text.LessTransitive` | packages/i18n/index.js:133 | the default sort order is transitive |
| `Text.LessTotal` | packages/i18n/index.js:133 | any two distinct strings are ordered one way or the other |
| `Text.NatToString` | packages/i18n/index.js:258 | a counter prints as one or more decimal digits, without a leading zero, whose decimal value is the counter |
| `Classify.LetterRun` | packages/state/plugins/dependencies.js:6 | the leading run of ASCII letters is maximal |
| `Classify.SchemePrefixIsLetterRun` | packages/state/plugins/dependencies.js:6 | the letters before `:/` are exactly the leading letter run |
| `Classify.ExternalByLetterRun` | packages/state/plugins/dependencies.js:5-7 | `isExternalUri(v)` holds iff the leading ASCII-letter run has at most 5 letters and is followed by `:/` |
| `Classify.LongSchemeIsInternal` | packages/state/plugins/dependencies.js:5-7 | a value starting with six letters is never external |
| `Classify.ExternalExamples` | packages/state/plugins/dependencies.js:5-7 | `https://x` and `://x` are external |
| `Classify.MailtoIsInternal` | packages/state/plugins/dependencies.js:5-7 | `mailto:a@b` is not external |
| `Classify.ProtocolRelativeIsInternal` | packages/state/plugins/dependencies.js:5-7 | `//cdn/x` is not external |
| `Classify.SixLetterSchemeIsInternal` | packages/state/plugins/dependencies.js:5-7 | `abcdef://x` is not external |
| `Classify.IgnoredNeedsOption` | packages/state/plugins/dependencies.js:9-25 | a value is ignored only when one of the three options is strictly `true` |
| `Classify.NothingIgnoredByDefault` | packages/state/plugins/dependencies.js:9-25 | with no options nothing is ignored; an option set to `false` or to a non-boolean is off |
| `Classify.Put` | packages/state/plugins/dependencies.js:104-106 | replacing one bucket leaves the other three unchanged |
| `Classify.Destination` | packages/state/plugins/dependencies.js:92-103 | the chosen bucket is an asset bucket iff `isAsset`, and an external bucket iff `isExternalUri(url)` |
| `Classify.Insert` | packages/state/plugins/dependencies.js:104-106 | the url is in the bucket afterwards; it is appended only when absent; other buckets are unchanged |
| `Classify.InsertDuplicateFree` | packages/state/plugins/dependencies.js:104-106 | inserting keeps every bucket duplicate-free |
| `Classify.AddURLEffect` | packages/state/plugins/dependencies.js:88-107 | an ignored url changes nothing; otherwise the url is in its destination bucket; all other buckets are unchanged |
| `Classify.AddURLGrows` | packages/state/plugins/dependencies.js:88-107 | every bucket keeps its old contents as a prefix and grows by at most one |
| `Classify.AddURLMembership` | packages/state/plugins/dependencies.js:88-107 | a value is in a bucket afterwards iff it was before, or it is the unignored url routed to that bucket |
| `Classify.AddURLDuplicateFree` | packages/state/plugins/dependencies.js:88-107 | `addURL` keeps every bucket duplicate-free |
| `Classify.AddURLClassified` | packages/state/plugins/dependencies.js:88-107 | `addURL` keeps every stored value unignored and in an external bucket iff it is external |
| `Classify.AddAllCons` | packages/state/plugins/dependencies.js:129-132 | adding a list is adding its head, then its tail |
| `Classify.AddAllMembership` | packages/state/plugins/dependencies.js:129-132 | after adding a list, a bucket holds its old values plus exactly the unignored list values routed to it |
| `Classify.AddAllDuplicateFree` | packages/state/plugins/dependencies.js:129-132 | adding a list keeps the buckets duplicate-free |
| `Classify.AddAllClassified` | packages/state/plugins/dependencies.js:129-132 | adding a list keeps every stored value classified |
| `Classify.References.constructor` | packages/state/plugins/dependencies.js:82-87 | a fresh `data` object has four empty buckets |
| `Classify.References.Push` | packages/state/plugins/dependencies.js:104-106 | the new buckets are the old ones with `url` inserted into `dest` |
| `Classify.References.Add` | packages/state/plugins/dependencies.js:88-107 | the new buckets are `AddURL` of the old ones |
| `Css.NextUrl` | packages/state/plugins/dependencies.js:61-65 | a found pair is a `url(` at or after the cursor and a closing delimiter at least four characters later |
| `Css.NextUrlLeftmost` | packages/state/plugins/dependencies.js:61-65 | the pair is the leftmost `url(` and the first delimiter after it; nothing is found iff no `url(` at or after the cursor has a delimiter after it |
| `Css.NextUrlFound` | packages/state/plugins/dependencies.js:61-65 | both `indexOf` calls succeeding is the pair `NextUrl` returns |
| `Css.NextUrlMissing` | packages/state/plugins/dependencies.js:63-65 | either `indexOf` failing means `NextUrl` finds nothing |
| `Css.Unquote` | packages/state/plugins/dependencies.js:67-69 | a value starting with `'` or `"` loses its first and last characters (or becomes empty if shorter than 2); any other value is unchanged |
| `Css.CssScanStops` | packages/state/plugins/dependencies.js:60-65 | when no `url(` … `)` pair remains, the scan returns the buckets so far and extracts nothing more |
| `Css.CssScanStep` | packages/state/plugins/dependencies.js:66-77 | one loop round either returns `undefined` for an ignored value or inserts it as an asset and moves the cursor to the `)` |
| `Css.CssCandidatesStep` | packages/state/plugins/dependencies.js:66-77 | the extracted values are the unquoted text of the first pair, then those after its `)` |
| `Css.CssScanDecomposed` | packages/state/plugins/dependencies.js:59-79 | `processCSS` is `undefined` iff some extracted value is ignored; otherwise it adds every extracted value, in order, as an asset |
| `Css.CssOnlyAssets` | packages/state/plugins/dependencies.js:73-76 | a stylesheet leaves both link buckets unchanged |
| `Css.CssDuplicateFree` | packages/state/plugins/dependencies.js:73-76 | the stylesheet buckets are duplicate-free |
| `Css.CssClassified` | packages/state/plugins/dependencies.js:70-76 | every stylesheet value stored is unignored and routed by `isExternalUri` |
| `Css.CssWithoutUrl` | packages/state/plugins/dependencies.js:59-79 | a stylesheet without `url(` yields four empty buckets |
| `Css.SingleUrl` | packages/state/plugins/dependencies.js:59-79 | a stylesheet whose scan finds one pair (no `url(` before it, none from its `)` on) yields that one unquoted value as its only asset |
| `Css.BackgroundUrl` | packages/state/plugins/dependencies.js:59-79 | `a{background:url(q)}` with `q` free of `)` yields the unquoted `q` as its one asset |
| `Css.FirstAsset` | packages/state/plugins/dependencies.js:73-76 | the first asset stored is alone in the bucket `isExternalUri` picks |
| `Css.UnquotedBackground` | packages/state/plugins/dependencies.js:59-79 | an unquoted internal value such as `/img/x.png` is the one Internal Asset |
| `Css.QuotedBackground` | packages/state/plugins/dependencies.js:67-76 | a double-quoted external value is the one External Asset, without its quotes |
| `Css.BackgroundExamples` | packages/state/plugins/dependencies.js:5-7 | `/img/x.png` is internal and `http://cdn.example.com/x.png` is external |
| `Css.ProcessCSS` | packages/state/plugins/dependencies.js:52-80 | the cursor loop returns exactly the scan specification from cursor 0 with empty buckets |
| `Manifest.ManifestBucket` | packages/state/plugins/dependencies.js:40-43 | a matched file name is an Internal Asset iff it ends in `.` and 2–4 ASCII letters, otherwise an Internal Link |
| `Manifest.ManifestKeepsExternal` | packages/state/plugins/dependencies.js:27-50 | manifest matching never changes the external buckets |
| `Manifest.ManifestMembership` | packages/state/plugins/dependencies.js:32-48 | a value is in a bucket afterwards iff it was before, or it is a manifest name contained in the text, not ignored, not the skipped root, and of that bucket's kind |
| `Manifest.ManifestDuplicateFree` | packages/state/plugins/dependencies.js:44-46 | matching keeps the buckets duplicate-free |
| `Manifest.ManifestClassifiedValue` | packages/state/plugins/dependencies.js:164-177 | a value stored after matching is unignored and in the bucket its kind and `isExternalUri` pick |
| `Manifest.ManifestClassified` | packages/state/plugins/dependencies.js:164-177 | when no manifest entry looks external, matching keeps every stored value classified |
| `Manifest.ProcessJSSkipsRoot` | packages/state/plugins/dependencies.js:33-35 | `processJS` never reports `/` |
| `Manifest.ScanManifest` | packages/state/plugins/dependencies.js:164-177 | the `forEach` loop leaves the buckets equal to the matching specification over the whole manifest |
| `Manifest.ProcessJS` | packages/state/plugins/dependencies.js:27-50 | the two returned buckets are the internal buckets of matching with the root skipped |
| `Html.RefreshTarget` | packages/state/plugins/dependencies.js:136-143 | the target is absent iff no part starts with `url=`; otherwise it is the first such part without its first four characters |
| `Html.StyleScanStops` | packages/state/plugins/dependencies.js:149-153 | the inline-style loop stops when no `url(` … `);` pair remains |
| `Html.StyleScanStep` | packages/state/plugins/dependencies.js:149-157 | one round adds the slice `[urlIndex+5, endIndex-1)` as an asset and moves the cursor to the `);` |
| `Html.StyleScanDecomposed` | packages/state/plugins/dependencies.js:145-159 | the inline-style pass adds its extracted slices in order through `addURL` |
| `Html.VisitDecomposed` | packages/state/plugins/dependencies.js:108-159 | each pass except scripts feeds its candidates to `addURL`: an anchor `href` unless empty or containing `#` (as a link), a non-empty `link` `href`, every `src`, every parsed `srcset` URL, the refresh target (as a link), the style slices |
| `Html.AddAllAtMostOne` | packages/state/plugins/dependencies.js:108-125 | adding zero or one candidate is doing nothing or one `addURL` |
| `Html.VisitDuplicateFree` | packages/state/plugins/dependencies.js:108-180 | one element of one pass keeps the buckets duplicate-free |
| `Html.RunPassDuplicateFree` | packages/state/plugins/dependencies.js:108-180 | one pass keeps the buckets duplicate-free |
| `Html.HtmlDuplicateFree` | packages/state/plugins/dependencies.js:81-182 | no bucket of a scanned page holds a value twice |
| `Html.VisitClassified` | packages/state/plugins/dependencies.js:108-180 | one element of one pass keeps every stored value classified |
| `Html.RunPassClassified` | packages/state/plugins/dependencies.js:108-180 | one pass keeps every stored value classified |
| `Html.HtmlClassified` | packages/state/plugins/dependencies.js:81-182 | no ignored value is stored, and a value sits in an external bucket iff it is external, given a manifest with no external-looking entries |
| `Html.RunPassIgnoresManifest` | packages/state/plugins/dependencies.js:108-159 | the passes other than scripts do not read the manifest |
| `Html.HtmlIgnoresManifest` | packages/state/plugins/dependencies.js:160-180 | with `scan_js` not strictly `true`, the page result does not depend on the manifest |
| `Html.RunPassOne` | packages/state/plugins/dependencies.js:108-180 | a pass over a one-element page visits that element |
| `Html.ScanOneVisits` | packages/state/plugins/dependencies.js:81-182 | a one-element page goes through the element once per pass, in pass order |
| `Html.VisitUnselected` | packages/state/plugins/dependencies.js:108-180 | an element the selector does not match changes nothing |
| `Html.FragmentAnchorExample` | packages/state/plugins/dependencies.js:108-114 | `<a href="#top">` contributes nothing |
| `Html.PageAnchorExample` | packages/state/plugins/dependencies.js:108-114 | `<a href="/pricing">` gives Internal Links = [`/pricing`] |
| `Html.RefreshVisit` | packages/state/plugins/dependencies.js:134-144 | `content="<p>;url=<t>"` with an internal `t` adds `t` as the one Internal Link |
| `Html.NewPageInternal` | packages/state/plugins/dependencies.js:5-7 | `/new-page` is not external |
| `Html.NewPageRefresh` | packages/state/plugins/dependencies.js:134-144 | the refresh pass turns `content="0;url=/new-page"` into the one Internal Link `/new-page` |
| `Html.RefreshOnly` | packages/state/plugins/dependencies.js:81-182 | a one-element page that only the refresh pass selects scans to what that pass adds |
| `Html.RefreshExample` | packages/state/plugins/dependencies.js:134-144 | `content="0;url=/new-page"` gives Internal Links = [`/new-page`] |
| `Html.SrcsetVisit` | packages/state/plugins/dependencies.js:126-133 | a `srcset` parsed into two distinct internal URLs adds both, in order, as Internal Assets |
| `Html.SrcsetExample` | packages/state/plugins/dependencies.js:126-133 | `srcset="/a.jpg 1x, /b.jpg 2x"` gives Internal Assets = [`/a.jpg`, `/b.jpg`] |
| `Html.VisitSrcset` | packages/state/plugins/dependencies.js:129-132 | the `srcset` loop adds every parsed URL as an asset |
| `Html.VisitRefresh` | packages/state/plugins/dependencies.js:134-144 | the meta loop adds the first `url=` target as a link and stops, or changes nothing |
| `Html.VisitStyle` | packages/state/plugins/dependencies.js:145-159 | the inline-style cursor loop leaves the buckets equal to its scan specification |
| `Html.VisitElement` | packages/state/plugins/dependencies.js:108-180 | one `.each` callback leaves the buckets equal to the visit specification |
| `Html.RunPassOn` | packages/state/plugins/dependencies.js:108-180 | one `$(selector).each` leaves the buckets equal to the pass specification |
| `Html.ProcessHTML` | packages/state/plugins/dependencies.js:81-182 | the result is the seven passes in source order, the script pass only with `scan_js` strictly `true` |
| `Dispatch.Substring` | packages/state/plugins/dependencies.js:196 | the site path is what follows the base prefix, or empty when the path is shorter |
| `Dispatch.IndexPageLength` | packages/state/plugins/dependencies.js:197 | a match is 10 characters long, or 11 with the optional `l` |
| `Dispatch.FirstIndexPage` | packages/state/plugins/dependencies.js:197 | the match found is the leftmost at or after `from`; none is found iff there is no match |
| `Dispatch.RewriteIndexPage` | packages/state/plugins/dependencies.js:197 | a path without a match is unchanged |
| `Dispatch.RewriteIndexPageShape` | packages/state/plugins/dependencies.js:197 | only the leftmost match becomes `/`; the text around it is kept |
| `Dispatch.NoIndexPageAt` | packages/state/plugins/dependencies.js:197 | no match starts where `/` followed by `i` or `I` is missing |
| `Dispatch.AboutIndexPage` | packages/state/plugins/dependencies.js:197 | in `/about/index.html` the leftmost match is `/index.html` at index 6 |
| `Dispatch.AboutRewritten` | packages/state/plugins/dependencies.js:197 | `/about/index.html` becomes `/about/` |
| `Dispatch.SitePathDirectory` | packages/state/plugins/dependencies.js:196-197 | `/site/about/index.html` below base `/site` has site path `/about/` |
| `Dispatch.UpperCaseIndexPage` | packages/state/plugins/dependencies.js:197 | `/INDEX.HTM` matches at once, without the `l` |
| `Dispatch.SitePathUpperCase` | packages/state/plugins/dependencies.js:196-197 | `/site/INDEX.HTM` has site path `/` |
| `Dispatch.SitePathShortPath` | packages/state/plugins/dependencies.js:196-197 | a path shorter than its base has the empty site path |
| `Dispatch.Extension` | packages/state/plugins/dependencies.js:199 | the extension holds no `.` |
| `Dispatch.JoinEndsWithLast` | packages/state/plugins/dependencies.js:199 | a join of two or more parts ends with the separator and the last part |
| `Dispatch.ExtensionIsLastPart` | packages/state/plugins/dependencies.js:199 | the extension is what follows the last `.`, or the whole path when it has none |
| `Dispatch.TransformPassesUnread` | packages/state/plugins/dependencies.js:189-194 | null and streaming files are pushed on unchanged |
| `Dispatch.UnscannedExtensions` | packages/state/plugins/dependencies.js:200-210 | any extension other than `html`, `css`, or `js` with `scan_js`, including `htm`, gives four empty buckets |
| `Dispatch.CssUndefined` | packages/state/plugins/dependencies.js:204-206 | a stylesheet's data is `undefined` iff some value extracted from its stripped text is ignored |
| `Dispatch.ScriptResult` | packages/state/plugins/dependencies.js:207-210 | a script file with `scan_js` yields only Internal Assets and Internal Links, holding exactly the non-root manifest names contained in the stripped text, not ignored, split by the extension test |
| `Dispatch.Transform` | packages/state/plugins/dependencies.js:188-214 | the transform pushes what the specification gives: the file itself, or the site path and the data |
| `JsonValue.Get` | packages/i18n/index.js:208-209 | a property read is present iff the value is an object with that key, and is then its value |
| `JsonValue.StrictEqualsMeaning` | packages/i18n/index.js:211 | `===` holds iff both reads are equal and neither is an object or array |
| `Locales.LocaleKey` | packages/i18n/index.js:80 | the key plus `.json` is the file name |
| `Locales.WrapUnwrap` | packages/i18n/index.js:88-95 | wrapping keeps every key and translation, and every count starts at 0 |
| `Locales.WrapEntries` | packages/i18n/index.js:88-95 | the in-place rewriting loop gives exactly the wrapped locale |
| `Locales.LoadFails` | packages/i18n/index.js:69-101 | loading reports an error iff some `*.json` file cannot be read |
| `Locales.LoadContents` | packages/i18n/index.js:69-97 | without a read error, the locales are exactly the parsed `*.json` files, keyed by name without `.json`, each wrapped |
| `Locales.LoadStaysFailed` | packages/i18n/index.js:74-78 | once a read has failed, later files do not change the outcome |
| `Locales.ReadLocalesFromDir` | packages/i18n/index.js:62-102 | the loop over the listing gives the load specification |
| `Check.SourceLookup` | packages/i18n/index.js:192-196 | the lookup is `source.keys` when `source.version` is truthy, else the whole source |
| `Check.Compare` | packages/i18n/index.js:202-214 | `missing` iff there is no target; with version ≤ 1 a present target is `current`; above 1 it is `current` iff the two `original` fields are strictly equal, else `outdated`; never `unused` |
| `Check.CountInsert` | packages/i18n/index.js:239 | recording a new key raises exactly its state's count by one |
| `Check.RecordState` | packages/i18n/index.js:238-240 | recording a key bumps its counter, and keeps "all current" iff the new state is current |
| `Check.BumpRecords` | packages/i18n/index.js:239-240 | bumping the counter of a new source key keeps the counters equal to the counts of recorded states |
| `Check.CountIs` | packages/i18n/index.js:239 | a counter is the size of the set of keys in that state |
| `Check.KeysIn` | packages/i18n/index.js:239 | the keys in a state are exactly those recorded with it, as many as the counter |
| `Check.SourceStates` | packages/i18n/index.js:232-250 | source keys are exactly those missing, current or outdated; the others are unused |
| `Check.StatesDisjoint` | packages/i18n/index.js:240 | the missing, current and outdated key sets are pairwise disjoint |
| `Check.CountsPartition` | packages/i18n/index.js:232-250 | missing + current + outdated is the number of source keys; unused counts the other keys |
| `Check.CountZero` | packages/i18n/index.js:257-267 | a counter is zero iff no key is in that state |
| `Check.ReportKeys` | packages/i18n/index.js:232-250 | every key of either side has exactly one state: `unused` iff not a source key, `missing` iff absent from the locale |
| `Check.ReportTally` | packages/i18n/index.js:219-250 | missing + current + outdated == sourceTotal, and unused is the number of locale keys outside the source |
| `Check.ReportMissing` | packages/i18n/index.js:232-242 | missing is the number of source keys the locale lacks |
| `Check.ReportCurrent` | packages/i18n/index.js:220-247 | the flag is true iff nothing is missing, outdated or unused |
| `Check.ReportFlatVersion` | packages/i18n/index.js:207-213 | with version ≤ 1 nothing is outdated and current counts the shared keys |
| `Check.SummaryItemsCount` | packages/i18n/index.js:257-267 | at most three items, and none iff the three counters are zero |
| `Check.SummaryNeverUndefined` | packages/i18n/index.js:252-275 | a locale that is not current has at least one item and logs the warning line |
| `Check.BehindSummary` | packages/i18n/index.js:255-275 | a report behind on some counter logs the warning line with its items |
| `Check.SummaryUpToDate` | packages/i18n/index.js:252-253 | every current locale logs the up-to-date line |
| `Check.SummaryOneItem` | packages/i18n/index.js:272-273 | a locale behind on exactly one counter logs the warning line with that one item alone |
| `Check.ThreeItems` | packages/i18n/index.js:257-267 | for any counters, a non-zero missing count is the first item and a non-zero unused count the last; with all three non-zero the items are missing, outdated, unused |
| `Check.TwoItemList` | packages/i18n/index.js:270-271 | any two items print as `a and b` |
| `Check.ThreeItemList` | packages/i18n/index.js:270-271 | any three items print as `a, b and c` |
| `Check.ItemsTwoThreeOne` | packages/i18n/index.js:257-267 | example: counts 2/3/1 give the items `2 missing`, `3 outdated`, `1 unused` |
| `Check.SummaryThreeItems` | packages/i18n/index.js:255-274 | example: counts 2/3/1 for `es` log `2 missing, 3 outdated and 1 unused` |
| `Check.DistinctSize` | packages/i18n/index.js:221 | `sourceKeys.length` is the number of source keys |
| `Check.ElemsStep` | packages/i18n/index.js:232-233 | one more key in the list adds that key to its elements |
| `Check.SourceFoldKeys` | packages/i18n/index.js:232-242 | the source loop records each source key with its state and deletes exactly the source keys from the translations |
| `Check.DistinctLast` | packages/i18n/index.js:232-233 | a duplicate-free key list does not repeat its last key |
| `Check.SourceFoldCurrent` | packages/i18n/index.js:238 | the running flag says whether every recorded state is current |
| `Check.SourceFoldCounts` | packages/i18n/index.js:239 | the running counters count the recorded states |
| `Check.SourcePass` | packages/i18n/index.js:232-242 | the source loop records every source key with its state, keeps the non-source keys, and leaves matching flag and counters |
| `Check.ExtraPass` | packages/i18n/index.js:244-250 | the leftover loop marks every leftover key `unused` and counts it once, keeping flag and counters exact |
| `Check.ReportFromTally` | packages/i18n/index.js:218-250 | a tally recording every key's state is the locale's report |
| `Check.KeyStatesExt` | packages/i18n/index.js:240-248 | a map recording every key's state is the `keys` object |
| `Check.ReportOfKeys` | packages/i18n/index.js:218-230 | the report is assembled from the recorded keys, flag and counters, with `total` the locale size before deletion |
| `Check.CheckLocale` | packages/i18n/index.js:218-250 | one locale's loop body gives that locale's report, with `total` the size before deletion |
| `Check.MessagesLength` | packages/i18n/index.js:252-276 | one message per locale |
| `Check.MessagesLine` | packages/i18n/index.js:252-276 | the i-th message is the one for the i-th locale's report |
| `Check.MessagesFrame` | packages/i18n/index.js:252-276 | the messages depend only on the listed locales' reports |
| `Check.MessagesStep` | packages/i18n/index.js:252-276 | one more locale appends its message |
| `Check.Record` | packages/i18n/index.js:219-276 | storing a report and logging its message keeps the log equal to the messages of the reports |
| `Check.ReportedStep` | packages/i18n/index.js:219 | storing the report of a known locale keeps every stored report right |
| `Check.ReportedAll` | packages/i18n/index.js:216-277 | once every locale has a report, the output is each locale's report |
| `Check.CheckAll` | packages/i18n/index.js:216-277 | the output has one report per locale, each its locale's report, and the log is their messages in locale order |
| `Check.CheckNext` | packages/i18n/index.js:216-250 | the next locale's report is stored alongside the earlier ones |
| `Legacy.PrependSorted` | packages/i18n/index.js:133 | a key below all others can go in front of a sorted list |
| `Legacy.InsertSorted` | packages/i18n/index.js:133 | insertion into a sorted list keeps it sorted and adds exactly the new key |
| `Legacy.SortedUnique` | packages/i18n/index.js:133 | two sorted lists of the same keys are equal |
| `Legacy.NoKeys` | packages/i18n/index.js:133 | a list with no elements is empty |
| `Legacy.LessNotEqual` | packages/i18n/index.js:133 | ordered strings are distinct |
| `Legacy.LeastInsert` | packages/i18n/index.js:133 | the least key of a set with one more key is the smaller of the two |
| `Legacy.Least` | packages/i18n/index.js:133 | the least key precedes every other key of the set |
| `Legacy.SortedKeys` | packages/i18n/index.js:133 | the sorted keys are strictly increasing and are exactly the keys of the set |
| `Legacy.SortKeys` | packages/i18n/index.js:133 | sorting gives the unique sorted order of the keys |
| `Legacy.PropertiesFor` | packages/i18n/index.js:134-140 | entry i is key i with its `translation` |
| `Legacy.PropertiesSorted` | packages/i18n/index.js:133-140 | the exported entries are one per key, in the strictly increasing order of `sort()` |
| `Legacy.PropertiesCoverKeys` | packages/i18n/index.js:133-140 | a key has an entry iff it is a key of the locale |
| `Legacy.PropertiesValues` | packages/i18n/index.js:138 | each entry holds the translation, not the `{translation, count}` record |
| `Legacy.PropertiesForStep` | packages/i18n/index.js:134-139 | one more key appends one more entry |
| `Legacy.LocaleProperties` | packages/i18n/index.js:131-140 | the loop over the sorted keys gives the locale's properties |
| `Legacy.LegacyFileName` | packages/i18n/index.js:142-147 | with `n` the name (`th_TH` for `th`), the file name is `n` with every `-` replaced by `_`, followed by `.properties`; it holds no `-` |
| `Legacy.LegacyFileNamePlain` | packages/i18n/index.js:142-147 | a name other than `th` without `-` keeps its spelling |
| `Legacy.LegacyFileNameThai` | packages/i18n/index.js:142-144 | `th` writes `th_TH.properties` |
| `Legacy.LegacyFileNameRegion` | packages/i18n/index.js:147 | `pt-BR` writes `pt_BR.properties` |
| `Legacy.LegacyFileNameShared` | packages/i18n/index.js:142-147 | `th`, `th-TH` and `th_TH` all write the same file |
| `Legacy.Occurrences` | packages/i18n/index.js:127 | a count of occurrences never exceeds the length |
| `Legacy.ExportsMembership` | packages/i18n/index.js:126-150 | a file is written iff it belongs to a name other than the default language, with that locale's sorted properties |
| `Legacy.ExportsCount` | packages/i18n/index.js:126-130 | one write per listed name, less the times the default language is listed |
| `Legacy.LegacyExport` | packages/i18n/index.js:126-151 | the loop over the locale names gives the export specification |

## Left out

- The HTML parser (cheerio) is not part of this model. The parsed document is a
  parameter: a sequence of elements in document order. Selector matching is
  exact string comparison on tag names and attribute names and values. The
  selector library's case-insensitive match of the `http-equiv` value is not
  modelled.
- The `srcset` parser is not part of this model. It is a function-typed
  parameter that returns the URL list; its own errors are not modelled.
- Anchors and `link` elements without `href`, and refresh `meta` elements
  without `content`, are excluded by `Html.WellFormed`. For these the code
  throws or stores `undefined`.
- Stream plumbing: `file.contents.toString(encoding)`, `this.push` and the
  callback are not modelled. The transform returns what it would push.
- Strings are sequences of Unicode scalar values, not UTF-16 code units.
  Lengths, slices and the sort order therefore differ from JavaScript's only
  for characters above U+FFFF.
- `Text.Less`: compares code points. JavaScript's default sort compares UTF-16
  code units. The two orders differ only between characters above U+FFFF and
  those in U+E000–U+FFFF.
- JSON numbers are integers. Locale files whose top level is not an object are
  not modelled.
- `Check.Compare`: requires that no `original` is read from `null`. The code
  throws there.
- `Check.SourceLookup`: a `keys` that is not an object gives `None`. The check
  loop is modelled on an object lookup only. With a missing `keys` the code
  throws on `Object.keys(undefined)`.
- `readLocalesFromDir` runs its reads concurrently with `async.each`. The model
  reads in listing order and stops at the first read error. Malformed JSON is
  logged and skipped. The log text and colours are not modelled.
- The gulp tasks and their sequencing are not modelled. Also left out: `fs`
  and `del` I/O, browser-sync serve and reload, watch tasks, the
  `i18n:generate` and `i18n:translate` pipelines, the remote word-wrap service,
  `prop.stringify` and `props2json`.
- The error logs that reference the undefined `dir` (index.js lines 178 and
  300) are an I/O error path and are not modelled.
- Check.Target: JavaScript objects are modelled as maps of their own keys. A
  read such as `translations[sourceKey]` (index.js line 235) that would find an
  inherited property like `toString` or `constructor` is `Missing` in the model.
  In the code such a read is a truthy function: it counts as current, or throws
  at line 209 when `source_version` is above 1.
- Legacy.PropertiesFor: the entries are a sequence in `sort()` order. The `json`
  object built at index.js line 138 would drop a `__proto__` key, and it
  enumerates integer-like keys first, in numeric order. The order in which
  `prop.stringify` then sees the entries is not modelled.
- Legacy.LegacyExport: the code writes the files concurrently with `async.each`.
  The model lists the writes in `localeNames` order. When two names map to one
  file (`th`, `th-TH`, `th_TH`), the code leaves it undetermined which write
  lands last.
- The properties export hands the entries to `prop.stringify`. Its file
  contents are not modelled. `fs.writeFile` is modelled as a `Write` record.
