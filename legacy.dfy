/**
 * The `i18n:legacy-save-to-properties-files` task (packages/i18n/index.js,
 * lines 120-151): every loaded locale except the default language is written
 * as a properties file whose entries are the translations in sorted key order.
 */
module Legacy {
  import opened Text
  import opened JsonValue
  import opened Locales

  // ---------------------------------------------------------------------
  // Sorted keys

  /** Each key comes strictly before the ones after it. */
  predicate StrictlySorted(s: seq<string>)
  {
    forall i, j :: 0 <= i < j < |s| ==> Less(s[i], s[j])
  }

  /** `k` goes in front of a sorted sequence whose first element it precedes. */
  lemma PrependSorted(k: string, s: seq<string>)
    requires StrictlySorted(s)
    requires forall x :: x in s ==> Less(k, x)
    ensures StrictlySorted([k] + s)
  {
    var r := [k] + s;
    forall i, j | 0 <= i < j < |r|
      ensures Less(r[i], r[j])
    {
      if i > 0 {
        assert r[i] == s[i - 1] && r[j] == s[j - 1];
      } else {
        assert r[j] in s;
      }
    }
  }

  /** Inserting a new key into a sorted sequence at its place. */
  function InsertSorted(s: seq<string>, k: string): (r: seq<string>)
    requires StrictlySorted(s)
    requires k !in s
    ensures StrictlySorted(r)
    ensures |r| == |s| + 1
    ensures forall x :: x in r <==> x in s || x == k
    decreases |s|
  {
    if s == [] then [k]
    else if Less(k, s[0]) then
      assert forall x :: x in s ==> Less(k, x) by {
        forall x | x in s
          ensures Less(k, x)
        {
          var j :| 0 <= j < |s| && s[j] == x;
          if j > 0 {
            LessTransitive(k, s[0], x);
          }
        }
      }
      PrependSorted(k, s);
      [k] + s
    else
      assert StrictlySorted(s[1..]) by {
        forall i, j | 0 <= i < j < |s[1..]|
          ensures Less(s[1..][i], s[1..][j])
        {
          assert s[1..][i] == s[i + 1] && s[1..][j] == s[j + 1];
        }
      }
      var rest := InsertSorted(s[1..], k);
      assert forall x :: x in rest ==> Less(s[0], x) by {
        forall x | x in rest
          ensures Less(s[0], x)
        {
          if x == k {
            LessTotal(k, s[0]);
          } else {
            var j :| 1 <= j < |s| && s[j] == x;
          }
        }
      }
      PrependSorted(s[0], rest);
      assert s == [s[0]] + s[1..];
      [s[0]] + rest
  }

  /** Two strictly sorted sequences of the same keys are equal: the sorted order is unique. */
  lemma {:induction false} SortedUnique(a: seq<string>, b: seq<string>)
    requires StrictlySorted(a) && StrictlySorted(b)
    requires forall x :: x in a <==> x in b
    ensures a == b
    decreases |a|
  {
    if a == [] {
      NoKeys(b);
    } else {
      assert a[0] in b;
      assert b != [];
      assert b[0] in a;
      if a[0] != b[0] {
        var i :| 0 <= i < |a| && a[i] == b[0];
        var j :| 0 <= j < |b| && b[j] == a[0];
        assert Less(a[0], b[0]);
        assert Less(b[0], a[0]);
        LessTransitive(a[0], b[0], a[0]);
        LessIrreflexive(a[0]);
      }
      forall x
        ensures x in a[1..] <==> x in b[1..]
      {
        if x in a[1..] {
          var i :| 1 <= i < |a| && a[i] == x;
          LessNotEqual(a[0], x);
          assert x in a;
          var j :| 0 <= j < |b| && b[j] == x;
          assert j != 0;
          assert b[1..][j - 1] == x;
        }
        if x in b[1..] {
          var j :| 1 <= j < |b| && b[j] == x;
          LessNotEqual(b[0], x);
          assert x in b;
          var i :| 0 <= i < |a| && a[i] == x;
          assert i != 0;
          assert a[1..][i - 1] == x;
        }
      }
      assert StrictlySorted(a[1..]) by {
        forall i, j | 0 <= i < j < |a[1..]|
          ensures Less(a[1..][i], a[1..][j])
        {
          assert a[1..][i] == a[i + 1] && a[1..][j] == a[j + 1];
        }
      }
      assert StrictlySorted(b[1..]) by {
        forall i, j | 0 <= i < j < |b[1..]|
          ensures Less(b[1..][i], b[1..][j])
        {
          assert b[1..][i] == b[i + 1] && b[1..][j] == b[j + 1];
        }
      }
      SortedUnique(a[1..], b[1..]);
      assert a == [a[0]] + a[1..] && b == [b[0]] + b[1..];
    }
  }

  lemma NoKeys(s: seq<string>)
    ensures (forall x :: x !in s) ==> s == []
  {
    if s != [] {
      assert s[0] in s;
    }
  }

  lemma LessNotEqual(a: string, b: string)
    requires Less(a, b)
    ensures a != b
  {
    if a == b {
      LessIrreflexive(a);
    }
  }

  /** `m` is in `keys` and precedes every other key of it. */
  predicate IsLeast(m: string, keys: set<string>)
  {
    m in keys && forall x :: x in keys ==> x == m || Less(m, x)
  }

  /** Adding `y` to a set whose least key is `m` makes the smaller of the two the least. */
  lemma LeastInsert(y: string, m: string, rest: set<string>)
    requires IsLeast(m, rest)
    ensures IsLeast(if Less(y, m) then y else m, rest + {y})
  {
    LessTotal(y, m);
    if Less(y, m) {
      forall x | x in rest
        ensures x == y || Less(y, x)
      {
        if x != m {
          LessTransitive(y, m, x);
        }
      }
    }
  }

  /** The least key of a non-empty set. */
  ghost function Least(keys: set<string>): (m: string)
    requires keys != {}
    ensures IsLeast(m, keys)
    decreases |keys|
  {
    var y :| y in keys;
    var rest := keys - {y};
    if rest == {} then
      assert keys == {y};
      y
    else
      var m := Least(rest);
      LeastInsert(y, m, rest);
      assert rest + {y} == keys;
      if Less(y, m) then y else m
  }

  /** `Object.keys(locale).sort()` as a value: the keys from least to greatest. */
  ghost function SortedKeys(keys: set<string>): (s: seq<string>)
    ensures StrictlySorted(s)
    ensures forall x :: x in s <==> x in keys
    ensures |s| == |keys|
    decreases |keys|
  {
    if keys == {} then []
    else
      var m := Least(keys);
      var rest := SortedKeys(keys - {m});
      assert forall x :: x in rest ==> Less(m, x);
      PrependSorted(m, rest);
      [m] + rest
  }

  /** `Object.keys(locale).sort()`, building the sorted array one key at a time. */
  method SortKeys(keys: set<string>) returns (sorted: seq<string>)
    ensures sorted == SortedKeys(keys)
  {
    sorted := [];
    var pending := keys;
    while pending != {}
      invariant pending <= keys
      invariant StrictlySorted(sorted)
      invariant forall x :: x in sorted <==> x in keys && x !in pending
      decreases pending
    {
      var key :| key in pending;
      sorted := InsertSorted(sorted, key);
      pending := pending - {key};
    }
    SortedUnique(sorted, SortedKeys(keys));
  }

  // ---------------------------------------------------------------------
  // The properties of one locale

  /** One entry of the `json` object: a key and its translation. */
  type Property = (string, Json)

  /** The entries the loop writes for the keys `keys`, in that order. */
  function PropertiesFor(locale: Locale, keys: seq<string>): (r: seq<Property>)
    requires forall k :: k in keys ==> k in locale
    ensures |r| == |keys|
    ensures forall i :: 0 <= i < |keys| ==> r[i] == (keys[i], locale[keys[i]].translation)
    decreases |keys|
  {
    if keys == [] then []
    else
      var key := keys[|keys| - 1];
      PropertiesFor(locale, keys[..|keys| - 1]) + [(key, locale[key].translation)]
  }

  /** The `json` object written for a locale, in key order. */
  ghost function Properties(locale: Locale): seq<Property>
  {
    PropertiesFor(locale, SortedKeys(locale.Keys))
  }

  /** The entries come in strictly increasing key order, one per key of the locale. */
  lemma PropertiesSorted(locale: Locale)
    ensures var p := Properties(locale);
      |p| == |locale| && forall i, j :: 0 <= i < j < |p| ==> Less(p[i].0, p[j].0)
  {
    var keys := SortedKeys(locale.Keys);
    var p := Properties(locale);
    forall i, j | 0 <= i < j < |p|
      ensures Less(p[i].0, p[j].0)
    {
      assert p[i].0 == keys[i] && p[j].0 == keys[j];
    }
  }

  /** Every key of the locale has an entry, and every entry is a key of the locale. */
  lemma PropertiesCoverKeys(locale: Locale, k: string)
    ensures var p := Properties(locale);
      k in locale <==> exists i :: 0 <= i < |p| && p[i].0 == k
  {
    var keys := SortedKeys(locale.Keys);
    var p := Properties(locale);
    if k in locale {
      var i :| 0 <= i < |keys| && keys[i] == k;
      assert p[i].0 == k;
    }
  }

  /** Each entry holds the translation, not the wrapping `{translation, count}` record. */
  lemma PropertiesValues(locale: Locale)
    ensures var p := Properties(locale);
      forall i :: 0 <= i < |p| ==> p[i].0 in locale && p[i].1 == Unwrap(locale)[p[i].0]
  {
  }

  /** The loop's step: one more key appends one more entry. */
  lemma PropertiesForStep(locale: Locale, keys: seq<string>, i: nat)
    requires i < |keys|
    requires forall k :: k in keys ==> k in locale
    ensures PropertiesFor(locale, keys[..i + 1]) == PropertiesFor(locale, keys[..i]) + [(keys[i], locale[keys[i]].translation)]
  {
    assert keys[..i + 1][..i] == keys[..i];
  }

  /** Lines 131-139: the loop over the sorted keys. */
  method LocaleProperties(locale: Locale) returns (json: seq<Property>)
    ensures json == Properties(locale)
  {
    var keys := SortKeys(locale.Keys);
    json := [];
    for i := 0 to |keys|
      invariant json == PropertiesFor(locale, keys[..i])
    {
      PropertiesForStep(locale, keys, i);
      var key := keys[i];
      json := json + [(key, locale[key].translation)];
    }
    assert keys[..|keys|] == keys;
  }

  // ---------------------------------------------------------------------
  // File names

  /** Lines 141-147: `th` becomes `th_TH`, every `-` becomes `_`, and `.properties` is appended. */
  function LegacyFileName(localeName: string): (f: string)
    ensures EndsWith(f, ".properties")
    ensures '-' !in f
    ensures var n := if localeName == "th" then "th_TH" else localeName;
      && |f| == |n| + 11 && f[|n|..] == ".properties"
      && forall i :: 0 <= i < |n| ==> f[i] == (if n[i] == '-' then '_' else n[i])
  {
    var name := if localeName == "th" then "th_TH" else localeName;
    var base := ReplaceChar(name, '-', '_');
    assert forall i :: 0 <= i < |base| ==> base[i] != '-';
    assert (base + ".properties")[|base|..] == ".properties";
    base + ".properties"
  }

  /** A name without `-` other than `th` keeps its spelling. */
  lemma LegacyFileNamePlain(localeName: string)
    requires '-' !in localeName && localeName != "th"
    ensures LegacyFileName(localeName) == localeName + ".properties"
  {
    var base := ReplaceChar(localeName, '-', '_');
    assert base == localeName;
  }

  lemma LegacyFileNameThai()
    ensures LegacyFileName("th") == "th_TH" + ".properties"
  {
    LegacyFileNamePlain("th_TH");
  }

  /** A region suffix keeps its letters behind an underscore. */
  lemma LegacyFileNameRegion()
    ensures LegacyFileName("pt-BR") == "pt_BR" + ".properties"
  {
    var r := ReplaceChar("pt-BR", '-', '_');
    assert r[2] == '_';
    assert r == "pt_BR";
  }

  /** Distinct locale names can share a file: `th`, `th-TH` and `th_TH` all write `th_TH.properties`. */
  lemma LegacyFileNameShared()
    ensures LegacyFileName("th") == LegacyFileName("th-TH") == LegacyFileName("th_TH")
  {
    assert ReplaceChar("th_TH", '-', '_') == "th_TH";
    assert ReplaceChar("th-TH", '-', '_') == "th_TH";
  }

  // ---------------------------------------------------------------------
  // The export

  /** One `fs.writeFile`: the file name and the entries handed to `prop.stringify`. */
  datatype Write = Write(fileName: string, properties: seq<Property>)

  /** The locales other than the default language that the export reads. */
  predicate Exportable(localeNames: seq<string>, locales: map<string, Locale>, defaultLanguage: string)
  {
    forall n :: n in localeNames && n != defaultLanguage ==> n in locales
  }

  /** The files written for the first `|localeNames|` names, in order. */
  ghost function Exports(localeNames: seq<string>, locales: map<string, Locale>, defaultLanguage: string): seq<Write>
    requires Exportable(localeNames, locales, defaultLanguage)
    decreases |localeNames|
  {
    if localeNames == [] then []
    else
      var front := localeNames[..|localeNames| - 1];
      var name := localeNames[|localeNames| - 1];
      assert Exportable(front, locales, defaultLanguage);
      Exports(front, locales, defaultLanguage) +
        (if name == defaultLanguage then [] else [Write(LegacyFileName(name), Properties(locales[name]))])
  }

  /**
   * A file is written exactly for each name other than the default language,
   * with that locale's sorted properties.
   */
  lemma {:induction false} ExportsMembership(localeNames: seq<string>, locales: map<string, Locale>,
                                             defaultLanguage: string, w: Write)
    requires Exportable(localeNames, locales, defaultLanguage)
    ensures w in Exports(localeNames, locales, defaultLanguage) <==>
      exists n :: n in localeNames && n != defaultLanguage && n in locales &&
        w == Write(LegacyFileName(n), Properties(locales[n]))
    decreases |localeNames|
  {
    if localeNames != [] {
      var front := localeNames[..|localeNames| - 1];
      var name := localeNames[|localeNames| - 1];
      assert localeNames == front + [name];
      ExportsMembership(front, locales, defaultLanguage, w);
    }
  }

  /** One file per name other than the default language. */
  lemma {:induction false} ExportsCount(localeNames: seq<string>, locales: map<string, Locale>, defaultLanguage: string)
    requires Exportable(localeNames, locales, defaultLanguage)
    ensures |Exports(localeNames, locales, defaultLanguage)| == |localeNames| - Occurrences(localeNames, defaultLanguage)
    decreases |localeNames|
  {
    if localeNames != [] {
      ExportsCount(localeNames[..|localeNames| - 1], locales, defaultLanguage);
    }
  }

  /** How often `x` occurs in `s`. */
  function Occurrences(s: seq<string>, x: string): (n: nat)
    ensures n <= |s|
    decreases |s|
  {
    if s == [] then 0 else Occurrences(s[..|s| - 1], x) + (if s[|s| - 1] == x then 1 else 0)
  }

  /** Lines 126-150: the loop over the locale names. */
  method LegacyExport(localeNames: seq<string>, locales: map<string, Locale>, defaultLanguage: string)
    returns (writes: seq<Write>)
    requires Exportable(localeNames, locales, defaultLanguage)
    ensures writes == Exports(localeNames, locales, defaultLanguage)
  {
    writes := [];
    for i := 0 to |localeNames|
      invariant writes == Exports(localeNames[..i], locales, defaultLanguage)
    {
      assert localeNames[..i + 1][..i] == localeNames[..i];
      var localeName := localeNames[i];
      if localeName == defaultLanguage {
        continue;
      }
      var json := LocaleProperties(locales[localeName]);
      writes := writes + [Write(LegacyFileName(localeName), json)];
    }
    assert localeNames[..|localeNames|] == localeNames;
  }
}
