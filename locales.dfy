/**
 * `readLocalesFromDir` (packages/i18n/index.js, lines 62-102): every `*.json`
 * file of the locale directory becomes a locale keyed by its name without
 * `.json`, whose top-level entries are wrapped as `{translation, count: 0}`.
 */
module Locales {
  import opened Text
  import opened Optional
  import opened JsonValue

  /** A loaded locale: entry key to wrapped entry. */
  type Locale = map<string, Entry>

  /** The outcome of reading and parsing one file. */
  datatype ReadResult = ReadFailed | Malformed | Parsed(obj: map<string, Json>)

  /** One file of the directory listing with what reading it gives. */
  datatype DirFile = DirFile(name: string, read: ReadResult)

  /** `/\.json$/.test(name)`. */
  predicate IsJsonFile(name: string)
  {
    EndsWith(name, ".json")
  }

  /** `name.replace(/\.json$/, "")`. */
  function LocaleKey(name: string): (key: string)
    requires IsJsonFile(name)
    ensures key + ".json" == name
  {
    name[..|name| - 5]
  }

  /** Lines 88-95: each top-level entry becomes `{translation: value, count: 0}`. */
  function Wrap(obj: map<string, Json>): Locale
  {
    map k | k in obj :: Entry(obj[k], 0)
  }

  /** The translations of a locale. */
  function Unwrap(locale: Locale): map<string, Json>
  {
    map k | k in locale :: locale[k].translation
  }

  /** Wrapping keeps every key and value and starts every counter at zero. */
  lemma WrapUnwrap(obj: map<string, Json>)
    ensures Unwrap(Wrap(obj)) == obj
    ensures forall k :: k in Wrap(obj) ==> Wrap(obj)[k].count == 0
  {
  }

  /** The wrapping loop over the keys of a parsed object. */
  method WrapEntries(obj: map<string, Json>) returns (locale: Locale)
    ensures locale == Wrap(obj)
  {
    locale := map[];
    var pending := obj.Keys;
    while pending != {}
      invariant pending <= obj.Keys
      invariant locale == map k | k in obj.Keys - pending :: Entry(obj[k], 0)
      decreases pending
    {
      var localeKey :| localeKey in pending;
      locale := locale[localeKey := Entry(obj[localeKey], 0)];
      pending := pending - {localeKey};
    }
  }

  /** The loaded locales after the first `|files|` files, or `None` once a read has failed. */
  function Load(files: seq<DirFile>): Option<map<string, Locale>>
    decreases |files|
  {
    if files == [] then Some(map[])
    else
      match Load(files[..|files| - 1])
      case None => None
      case Some(locales) =>
        var f := files[|files| - 1];
        if !IsJsonFile(f.name) then Some(locales)
        else
          match f.read
          case ReadFailed => None
          case Malformed => Some(locales)
          case Parsed(obj) => Some(locales[LocaleKey(f.name) := Wrap(obj)])
  }

  predicate DistinctNames(files: seq<DirFile>)
  {
    forall i, j :: 0 <= i < j < |files| ==> files[i].name != files[j].name
  }

  /** The error reaches `done` iff some `*.json` file cannot be read. */
  lemma {:induction false} LoadFails(files: seq<DirFile>)
    ensures Load(files).None? <==>
      exists i :: 0 <= i < |files| && IsJsonFile(files[i].name) && files[i].read.ReadFailed?
    decreases |files|
  {
    if files != [] {
      var front := files[..|files| - 1];
      LoadFails(front);
      assert forall i :: 0 <= i < |front| ==> front[i] == files[i];
    }
  }

  /**
   * Without a read error, the locales are exactly the `*.json` files that
   * parse, keyed by name without `.json`, each holding its wrapped entries.
   */
  lemma {:induction false} LoadContents(files: seq<DirFile>, key: string)
    requires DistinctNames(files)
    requires Load(files).Some?
    ensures key in Load(files).value <==>
      exists i :: 0 <= i < |files| && files[i].name == key + ".json" && files[i].read.Parsed?
    ensures forall i :: 0 <= i < |files| && files[i].name == key + ".json" && files[i].read.Parsed? ==>
      Load(files).value[key] == Wrap(files[i].read.obj)
    decreases |files|
  {
    if files != [] {
      var front := files[..|files| - 1];
      var f := files[|files| - 1];
      assert forall i :: 0 <= i < |front| ==> front[i] == files[i];
      LoadContents(front, key);
      if IsJsonFile(f.name) {
        assert LocaleKey(f.name) == key <==> f.name == key + ".json" by {
          if f.name == key + ".json" {
            assert LocaleKey(f.name) + ".json" == key + ".json";
            assert LocaleKey(f.name) == (key + ".json")[..|key|];
          }
        }
      } else {
        assert f.name != key + ".json" by {
          assert EndsWith(key + ".json", ".json") by {
            assert (key + ".json")[|key|..] == ".json";
          }
        }
      }
    }
  }

  /** `readLocalesFromDir`: the loop over the listing, wrapping each parsed file. */
  method ReadLocalesFromDir(files: seq<DirFile>) returns (r: Option<map<string, Locale>>)
    ensures r == Load(files)
  {
    var returnedLocales: map<string, Locale> := map[];
    for i := 0 to |files|
      invariant Load(files[..i]) == Some(returnedLocales)
    {
      assert files[..i + 1][..i] == files[..i];
      var filename := files[i].name;
      if !IsJsonFile(filename) {
        continue;
      }
      match files[i].read
      case ReadFailed =>
        assert Load(files[..i + 1]) == None;
        LoadStaysFailed(files, i + 1);
        return None;
      case Malformed =>
      case Parsed(obj) =>
        var locale := WrapEntries(obj);
        returnedLocales := returnedLocales[LocaleKey(filename) := locale];
    }
    assert files[..|files|] == files;
    r := Some(returnedLocales);
  }

  /** Once a read has failed, later files do not change the outcome. */
  lemma {:induction false} LoadStaysFailed(files: seq<DirFile>, n: nat)
    requires n <= |files| && Load(files[..n]).None?
    ensures Load(files).None?
    decreases |files| - n
  {
    if n < |files| {
      assert files[..n + 1][..n] == files[..n];
      LoadStaysFailed(files, n + 1);
    } else {
      assert files[..n] == files;
    }
  }
}
