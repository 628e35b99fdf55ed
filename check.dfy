/**
 * The `i18n:check` task (packages/i18n/index.js, lines 189-277): every key of
 * the source locale is classified against each target locale as missing,
 * current or outdated, leftover target keys are unused, and each locale gets
 * a tally, an "all current" flag and a one-line summary.
 */
module Check {
  import opened Text
  import opened Optional
  import opened JsonValue
  import opened Locales

  /** The four states written to `keys` and counted in `states`. */
  datatype State = Missing | Current | Outdated | Unused

  /**
   * Lines 192-196: `source.keys` when `source.version` is truthy, else the
   * whole source object. `None` stands for a `keys` that is not an object.
   */
  function SourceLookup(source: map<string, Json>): (r: Option<map<string, Json>>)
    ensures !("version" in source && Truthy(source["version"])) ==> r == Some(source)
    ensures "version" in source && Truthy(source["version"]) ==>
      (r.Some? <==> "keys" in source && source["keys"].JObject?) &&
      (r.Some? ==> r.value == source["keys"].fields)
  {
    if "version" in source && Truthy(source["version"]) then
      if "keys" in source && source["keys"].JObject? then Some(source["keys"].fields) else None
    else Some(source)
  }

  /** No property is read from `null` when comparing this source value with this target. */
  predicate Comparable(source: Json, target: Option<Entry>, version: int)
  {
    version > 1 && target.Some? ==> !source.JNull? && !target.value.translation.JNull?
  }

  /** `compareTranslations(source, target)` under `config.i18n.source_version == version`. */
  function Compare(source: Json, target: Option<Entry>, version: int): (s: State)
    requires Comparable(source, target, version)
    ensures s != Unused
    ensures s == Missing <==> target.None?
    ensures version <= 1 && target.Some? ==> s == Current
    ensures version > 1 && target.Some? ==>
      (s == Current <==> StrictEquals(Get(source, "original"), Get(target.value.translation, "original")))
  {
    if target.None? then Missing
    else if version > 1 then
      (if StrictEquals(Get(source, "original"), Get(target.value.translation, "original")) then Current else Outdated)
    else Current
  }

  /** The target entry `translations[key]`, if any. */
  function Target(translations: Locale, key: string): Option<Entry>
  {
    if key in translations then Some(translations[key]) else None
  }

  /** Every source key can be compared with the locale. */
  predicate Safe(lookup: map<string, Json>, translations: Locale, version: int)
  {
    forall k :: k in lookup ==> Comparable(lookup[k], Target(translations, k), version)
  }

  /** The state recorded for `k`: compared when it is a source key, unused otherwise. */
  function StateOf(lookup: map<string, Json>, translations: Locale, version: int, k: string): State
    requires Safe(lookup, translations, version)
  {
    if k in lookup then Compare(lookup[k], Target(translations, k), version) else Unused
  }

  /** `output[localeCode].keys`. */
  function KeyStates(lookup: map<string, Json>, translations: Locale, version: int): map<string, State>
    requires Safe(lookup, translations, version)
  {
    map k | k in lookup.Keys + translations.Keys :: StateOf(lookup, translations, version, k)
  }

  /** How many keys have state `s`. */
  function CountOf(keys: map<string, State>, s: State): nat
  {
    |set k | k in keys && keys[k] == s|
  }

  /** Every recorded key is current. */
  predicate AllCurrent(keys: map<string, State>)
  {
    forall k :: k in keys ==> keys[k] == Current
  }

  datatype Counts = Counts(missing: nat, current: nat, outdated: nat, unused: nat)

  /** `states[state]++`. */
  function Bump(c: Counts, s: State): Counts
  {
    match s
    case Missing => c.(missing := c.missing + 1)
    case Current => c.(current := c.current + 1)
    case Outdated => c.(outdated := c.outdated + 1)
    case Unused => c.(unused := c.unused + 1)
  }

  /** `output[localeCode]`. */
  datatype Report = Report(current: bool, sourceTotal: nat, total: nat, states: Counts, keys: map<string, State>)

  /** The report of one locale, stated by key: the flag holds iff every key is current. */
  function ReportOf(lookup: map<string, Json>, translations: Locale, version: int): Report
    requires Safe(lookup, translations, version)
  {
    var keys := KeyStates(lookup, translations, version);
    Report(AllCurrent(keys),
           |lookup|, |translations|,
           Counts(CountOf(keys, Missing), CountOf(keys, Current), CountOf(keys, Outdated), CountOf(keys, Unused)),
           keys)
  }

  // ---------------------------------------------------------------------
  // Properties of the report

  lemma CountInsert(keys: map<string, State>, k: string, s: State, t: State)
    requires k !in keys
    ensures CountOf(keys[k := s], t) == CountOf(keys, t) + (if s == t then 1 else 0)
  {
    var keys' := keys[k := s];
    var before := set j | j in keys && keys[j] == t;
    var after := set j | j in keys' && keys'[j] == t;
    if s == t {
      assert after == before + {k};
    } else {
      assert after == before;
    }
  }

  /** Recording the state of a new key bumps its counter and keeps the "all current" reading. */
  lemma RecordState(keys: map<string, State>, k: string, s: State)
    requires k !in keys
    ensures forall t :: CountOf(keys[k := s], t) == CountOf(keys, t) + (if s == t then 1 else 0)
    ensures AllCurrent(keys[k := s]) <==> AllCurrent(keys) && s == Current
  {
    forall t {
      CountInsert(keys, k, s, t);
    }
    var keys' := keys[k := s];
    if AllCurrent(keys') {
      assert keys'[k] == s;
      forall j | j in keys
        ensures keys[j] == Current
      {
        assert keys'[j] == keys[j];
      }
    }
  }

  /** Bumping the counter of a new source key's state keeps the counters equal to the counts of the recorded states. */
  lemma BumpRecords(keys: map<string, State>, k: string, s: State)
    requires k !in keys
    requires s != Unused
    ensures var keys' := keys[k := s];
      Bump(Counts(CountOf(keys, Missing), CountOf(keys, Current), CountOf(keys, Outdated), 0), s)
        == Counts(CountOf(keys', Missing), CountOf(keys', Current), CountOf(keys', Outdated), 0)
  {
    CountInsert(keys, k, s, Missing);
    CountInsert(keys, k, s, Current);
    CountInsert(keys, k, s, Outdated);
  }

  /** A counter is the size of any set that holds exactly the keys in that state. */
  lemma CountIs(keys: map<string, State>, s: State, members: set<string>)
    requires forall k :: k in members <==> k in keys && keys[k] == s
    ensures CountOf(keys, s) == |members|
  {
    assert (set k | k in keys && keys[k] == s) == members;
  }

  /** The keys in state `s`. */
  function KeysIn(keys: map<string, State>, s: State): (r: set<string>)
    ensures forall k :: k in r <==> k in keys && keys[k] == s
    ensures |r| == CountOf(keys, s)
  {
    set k | k in keys && keys[k] == s
  }

  /** The source keys are exactly those missing, current or outdated. */
  lemma SourceStates(keys: map<string, State>, source: set<string>)
    requires source <= keys.Keys
    requires forall k :: k in keys ==> (keys[k] == Unused <==> k !in source)
    ensures KeysIn(keys, Missing) + KeysIn(keys, Current) + KeysIn(keys, Outdated) == source
    ensures KeysIn(keys, Unused) == keys.Keys - source
  {
    var m, c, o := KeysIn(keys, Missing), KeysIn(keys, Current), KeysIn(keys, Outdated);
    forall k | k in source
      ensures k in m + c + o
    {
      assert k in keys && keys[k] != Unused;
    }
  }

  /** No key is in two states. */
  lemma StatesDisjoint(keys: map<string, State>)
    ensures KeysIn(keys, Missing) * KeysIn(keys, Current) == {}
    ensures (KeysIn(keys, Missing) + KeysIn(keys, Current)) * KeysIn(keys, Outdated) == {}
  {
  }

  /** The counters of the source states add up to the number of source keys. */
  lemma CountsPartition(keys: map<string, State>, source: set<string>)
    requires source <= keys.Keys
    requires forall k :: k in keys ==> (keys[k] == Unused <==> k !in source)
    ensures CountOf(keys, Missing) + CountOf(keys, Current) + CountOf(keys, Outdated) == |source|
    ensures CountOf(keys, Unused) == |keys.Keys - source|
  {
    var m, c, o := KeysIn(keys, Missing), KeysIn(keys, Current), KeysIn(keys, Outdated);
    SourceStates(keys, source);
    StatesDisjoint(keys);
    assert |m + c| == |m| + |c|;
    assert |m + c + o| == |m + c| + |o|;
    assert |KeysIn(keys, Unused)| == CountOf(keys, Unused);
  }

  /** A counter is zero iff no key is in that state. */
  lemma CountZero(keys: map<string, State>, s: State)
    ensures CountOf(keys, s) == 0 <==> forall k :: k in keys ==> keys[k] != s
  {
    var members := set j | j in keys && keys[j] == s;
    if k :| k in keys && keys[k] == s {
      assert k in members;
      assert |members| > 0;
    } else {
      assert members == {};
    }
  }

  /** Every key of either side has exactly one state, and only non-source keys are unused. */
  lemma ReportKeys(lookup: map<string, Json>, translations: Locale, version: int)
    requires Safe(lookup, translations, version)
    ensures var r := ReportOf(lookup, translations, version);
      && r.keys.Keys == lookup.Keys + translations.Keys
      && (forall k :: k in r.keys ==> (r.keys[k] == Unused <==> k !in lookup))
      && (forall k :: k in r.keys ==> (r.keys[k] == Missing <==> k !in translations))
  {
  }

  /** The source keys split into missing, current and outdated; the unused keys are the target keys outside the source. */
  lemma ReportTally(lookup: map<string, Json>, translations: Locale, version: int)
    requires Safe(lookup, translations, version)
    ensures var r := ReportOf(lookup, translations, version);
      && r.states.missing + r.states.current + r.states.outdated == r.sourceTotal
      && r.states.unused == |translations.Keys - lookup.Keys|
  {
    var keys := KeyStates(lookup, translations, version);
    ReportKeys(lookup, translations, version);
    CountsPartition(keys, lookup.Keys);
    assert keys.Keys - lookup.Keys == translations.Keys - lookup.Keys;
  }

  /** The missing keys are the source keys the locale lacks. */
  lemma ReportMissing(lookup: map<string, Json>, translations: Locale, version: int)
    requires Safe(lookup, translations, version)
    ensures ReportOf(lookup, translations, version).states.missing == |lookup.Keys - translations.Keys|
  {
    var keys := KeyStates(lookup, translations, version);
    ReportKeys(lookup, translations, version);
    CountIs(keys, Missing, lookup.Keys - translations.Keys);
  }

  /** `current` holds iff nothing is missing, outdated or unused. */
  lemma ReportCurrent(lookup: map<string, Json>, translations: Locale, version: int)
    requires Safe(lookup, translations, version)
    ensures var r := ReportOf(lookup, translations, version);
      r.current <==> r.states.missing == 0 && r.states.outdated == 0 && r.states.unused == 0
  {
    var keys := KeyStates(lookup, translations, version);
    CountZero(keys, Missing);
    CountZero(keys, Outdated);
    CountZero(keys, Unused);
  }

  /** With `source_version` at most 1 nothing is outdated: present means current. */
  lemma ReportFlatVersion(lookup: map<string, Json>, translations: Locale, version: int)
    requires Safe(lookup, translations, version) && version <= 1
    ensures var r := ReportOf(lookup, translations, version);
      r.states.outdated == 0 && r.states.current == |lookup.Keys * translations.Keys|
  {
    var keys := KeyStates(lookup, translations, version);
    CountIs(keys, Outdated, {});
    CountIs(keys, Current, lookup.Keys * translations.Keys);
  }

  // ---------------------------------------------------------------------
  // Summary line

  /** The non-zero counters, as `logMessages` collects them (lines 257-267). */
  function SummaryItems(c: Counts): seq<string>
  {
    (if c.missing != 0 then [NatToString(c.missing) + " missing"] else [])
    + (if c.outdated != 0 then [NatToString(c.outdated) + " outdated"] else [])
    + (if c.unused != 0 then [NatToString(c.unused) + " unused"] else [])
  }

  /** At most three items, and none exactly when the three counters are zero. */
  lemma SummaryItemsCount(c: Counts)
    ensures |SummaryItems(c)| <= 3
    ensures |SummaryItems(c)| == 0 <==> c.missing == 0 && c.outdated == 0 && c.unused == 0
  {
  }

  /** Lines 270-274; an empty list prints `logMessages[0]`, that is `undefined`. */
  function EnglishList(items: seq<string>): string
  {
    if |items| > 1 then Join(items[..|items| - 1], ", ") + " and " + items[|items| - 1]
    else if |items| == 1 then items[0]
    else "undefined"
  }

  /** Line 253. */
  function UpToDateLine(localeCode: string): string
  {
    "\U{2705}  '" + localeCode + "' is all up to date"
  }

  /** Line 269 followed by the list of counters. */
  function WarningLine(localeCode: string, list: string): string
  {
    "\U{26A0}\U{FE0F}  '" + localeCode + "' translations include " + list
  }

  /** The message logged for a locale: it is up to date, or it is behind by the counters. */
  datatype Message = UpToDate(localeCode: string) | Behind(localeCode: string, states: Counts)

  /** Which of the two messages a report gives (line 252). */
  function MessageOf(localeCode: string, r: Report): Message
  {
    if r.current then UpToDate(localeCode) else Behind(localeCode, r.states)
  }

  /** The text of a message. */
  function MessageText(m: Message): string
  {
    match m
    case UpToDate(code) => UpToDateLine(code)
    case Behind(code, states) => WarningLine(code, EnglishList(SummaryItems(states)))
  }

  /** The line logged for a locale. */
  function Summary(localeCode: string, r: Report): string
  {
    MessageText(MessageOf(localeCode, r))
  }

  /** A locale that is not current always has a counter to report, so `undefined` is never printed. */
  lemma SummaryNeverUndefined(lookup: map<string, Json>, translations: Locale, version: int, localeCode: string)
    requires Safe(lookup, translations, version)
    ensures var r := ReportOf(lookup, translations, version);
      !r.current ==>
        (|SummaryItems(r.states)| >= 1 &&
         Summary(localeCode, r) == WarningLine(localeCode, EnglishList(SummaryItems(r.states))))
  {
    var r := ReportOf(lookup, translations, version);
    ReportCurrent(lookup, translations, version);
    if !r.current {
      BehindSummary(localeCode, r);
    }
  }

  /** A report that is not current because some counter is non-zero logs the warning line. */
  lemma BehindSummary(localeCode: string, r: Report)
    requires !r.current
    requires r.current <==> r.states.missing == 0 && r.states.outdated == 0 && r.states.unused == 0
    ensures |SummaryItems(r.states)| >= 1
    ensures Summary(localeCode, r) == WarningLine(localeCode, EnglishList(SummaryItems(r.states)))
  {
    SummaryItemsCount(r.states);
  }

  /** A current locale logs the up-to-date line (line 253). */
  lemma SummaryUpToDate(localeCode: string, r: Report)
    requires r.current
    ensures Summary(localeCode, r) == UpToDateLine(localeCode)
  {
  }

  /** A locale behind on exactly one counter logs that one item alone (line 273). */
  lemma SummaryOneItem(localeCode: string, r: Report)
    requires !r.current && |SummaryItems(r.states)| == 1
    ensures Summary(localeCode, r) == WarningLine(localeCode, SummaryItems(r.states)[0])
  {
  }

  /** The items come in the order missing, outdated, unused (lines 257-267). */
  lemma ThreeItems(c: Counts)
    ensures c.missing != 0 ==> SummaryItems(c)[0] == NatToString(c.missing) + " missing"
    ensures c.unused != 0 ==> SummaryItems(c)[|SummaryItems(c)| - 1] == NatToString(c.unused) + " unused"
    ensures c.missing != 0 && c.outdated != 0 && c.unused != 0 ==>
      SummaryItems(c) == [NatToString(c.missing) + " missing", NatToString(c.outdated) + " outdated",
                          NatToString(c.unused) + " unused"]
  {
  }

  /** Two items are joined by ` and ` (line 271). */
  lemma TwoItemList(a: string, b: string)
    ensures EnglishList([a, b]) == a + " and " + b
  {
    var items := [a, b];
    assert items[..|items| - 1] == [a];
    assert Join([a], ", ") == a;
  }

  /** Three items: the first two joined by `, `, then ` and ` and the last (line 271). */
  lemma ThreeItemList(a: string, b: string, c: string)
    ensures EnglishList([a, b, c]) == a + ", " + b + " and " + c
  {
    var items := [a, b, c];
    assert items[..|items| - 1] == [a, b];
    assert [a, b][1..] == [b];
    assert Join([b], ", ") == b;
    assert Join([a, b], ", ") == a + ", " + b;
    assert EnglishList(items) == Join([a, b], ", ") + " and " + c;
  }

  /** Counts 2/3/1 give the items `2 missing`, `3 outdated`, `1 unused`. */
  lemma ItemsTwoThreeOne(c: Counts)
    requires c == Counts(2, 0, 3, 1)
    ensures SummaryItems(c) == ["2 missing", "3 outdated", "1 unused"]
  {
    ThreeItems(c);
    assert NatToString(2) + " missing" == "2 missing";
    assert NatToString(3) + " outdated" == "3 outdated";
    assert NatToString(1) + " unused" == "1 unused";
  }

  /** Counts 2/3/1 for `es` log `2 missing, 3 outdated and 1 unused`. */
  lemma SummaryThreeItems(localeCode: string, r: Report)
    requires localeCode == "es" && r == Report(false, 5, 4, Counts(2, 0, 3, 1), map[])
    ensures Summary(localeCode, r) == WarningLine(localeCode, "2 missing, 3 outdated and 1 unused")
  {
    var items := SummaryItems(r.states);
    ItemsTwoThreeOne(r.states);
    ThreeItemList(items[0], items[1], items[2]);
    assert items[0] + ", " + items[1] + " and " + items[2] == "2 missing, 3 outdated and 1 unused";
  }

  // ---------------------------------------------------------------------
  // The imperative tally

  /** The elements of a key list. */
  ghost function Elems(keys: seq<string>): set<string>
  {
    set k | k in keys
  }

  /** `sourceKeys` lists the keys of `lookup` once each, as `Object.keys` does. */
  ghost predicate Enumerates<V>(keys: seq<string>, m: map<string, V>)
  {
    (forall i, j :: 0 <= i < j < |keys| ==> keys[i] != keys[j]) && Elems(keys) == m.Keys
  }

  lemma {:induction false} DistinctSize(keys: seq<string>)
    requires forall i, j :: 0 <= i < j < |keys| ==> keys[i] != keys[j]
    ensures |Elems(keys)| == |keys|
    decreases |keys|
  {
    if keys != [] {
      var front := keys[..|keys| - 1];
      DistinctSize(front);
      assert Elems(keys) == Elems(front) + {keys[|keys| - 1]};
    }
  }

  lemma ElemsStep(keys: seq<string>, j: nat)
    requires j < |keys|
    ensures Elems(keys[..j + 1]) == Elems(keys[..j]) + {keys[j]}
  {
    assert keys[..j + 1] == keys[..j] + [keys[j]];
  }

  /** The variables of the source-key loop. */
  datatype Tally = Tally(current: bool, counts: Counts, keys: map<string, State>, remaining: Locale)

  /** Lines 232-242 over the first `|ks|` source keys, deleting each from the translations. */
  function SourceFold(lookup: map<string, Json>, translations: Locale, version: int, ks: seq<string>): Tally
    requires Safe(lookup, translations, version)
    requires forall k :: k in ks ==> k in lookup
    decreases |ks|
  {
    if ks == [] then Tally(true, Counts(0, 0, 0, 0), map[], translations)
    else
      var t := SourceFold(lookup, translations, version, ks[..|ks| - 1]);
      var k := ks[|ks| - 1];
      var state := Compare(lookup[k], Target(translations, k), version);
      Tally(t.current && state == Current, Bump(t.counts, state), t.keys[k := state], t.remaining - {k})
  }

  /** The loop records every source key once, with its state, and deletes exactly the source keys. */
  lemma {:induction false} SourceFoldKeys(lookup: map<string, Json>, translations: Locale, version: int, ks: seq<string>)
    requires Safe(lookup, translations, version)
    requires forall k :: k in ks ==> k in lookup
    ensures var t := SourceFold(lookup, translations, version, ks);
      && t.keys.Keys == Elems(ks)
      && (forall k :: k in t.keys ==> t.keys[k] == StateOf(lookup, translations, version, k))
      && t.remaining.Keys == translations.Keys - Elems(ks)
      && (forall k :: k in t.remaining ==> t.remaining[k] == translations[k])
    decreases |ks|
  {
    if ks != [] {
      SourceFoldKeys(lookup, translations, version, ks[..|ks| - 1]);
      ElemsStep(ks, |ks| - 1);
      assert ks[..|ks|] == ks;
    }
  }

  /** The last source key is not among the earlier ones. */
  lemma DistinctLast(ks: seq<string>)
    requires ks != []
    requires forall i, j :: 0 <= i < j < |ks| ==> ks[i] != ks[j]
    ensures ks[|ks| - 1] !in Elems(ks[..|ks| - 1])
  {
  }

  /** `current` says whether every recorded state is current. */
  lemma {:induction false} SourceFoldCurrent(lookup: map<string, Json>, translations: Locale, version: int, ks: seq<string>)
    requires Safe(lookup, translations, version)
    requires forall k :: k in ks ==> k in lookup
    requires forall i, j :: 0 <= i < j < |ks| ==> ks[i] != ks[j]
    ensures var t := SourceFold(lookup, translations, version, ks);
      t.current == AllCurrent(t.keys)
    decreases |ks|
  {
    if ks != [] {
      var front := ks[..|ks| - 1];
      var k := ks[|ks| - 1];
      SourceFoldCurrent(lookup, translations, version, front);
      SourceFoldKeys(lookup, translations, version, front);
      DistinctLast(ks);
      var t := SourceFold(lookup, translations, version, front);
      RecordState(t.keys, k, Compare(lookup[k], Target(translations, k), version));
    }
  }

  /** The counters count the recorded states. */
  lemma {:induction false} SourceFoldCounts(lookup: map<string, Json>, translations: Locale, version: int, ks: seq<string>)
    requires Safe(lookup, translations, version)
    requires forall k :: k in ks ==> k in lookup
    requires forall i, j :: 0 <= i < j < |ks| ==> ks[i] != ks[j]
    ensures var t := SourceFold(lookup, translations, version, ks);
      t.counts == Counts(CountOf(t.keys, Missing), CountOf(t.keys, Current), CountOf(t.keys, Outdated), 0)
    decreases |ks|
  {
    if ks != [] {
      var front := ks[..|ks| - 1];
      var k := ks[|ks| - 1];
      SourceFoldCounts(lookup, translations, version, front);
      SourceFoldKeys(lookup, translations, version, front);
      DistinctLast(ks);
      var t := SourceFold(lookup, translations, version, front);
      BumpRecords(t.keys, k, Compare(lookup[k], Target(translations, k), version));
    }
  }

  /** Lines 232-242: the loop over the source keys. */
  method SourcePass(lookup: map<string, Json>, sourceKeys: seq<string>, translations: Locale, version: int)
    returns (current: bool, counts: Counts, keys: map<string, State>, remaining: Locale)
    requires Enumerates(sourceKeys, lookup)
    requires Safe(lookup, translations, version)
    ensures keys.Keys == lookup.Keys
    ensures forall k :: k in keys ==> keys[k] == StateOf(lookup, translations, version, k)
    ensures remaining.Keys == translations.Keys - lookup.Keys
    ensures current == AllCurrent(keys)
    ensures counts == Counts(CountOf(keys, Missing), CountOf(keys, Current), CountOf(keys, Outdated), 0)
  {
    current := true;
    counts := Counts(0, 0, 0, 0);
    keys := map[];
    remaining := translations;
    assert forall k :: k in sourceKeys ==> k in Elems(sourceKeys);
    for j := 0 to |sourceKeys|
      invariant Tally(current, counts, keys, remaining) == SourceFold(lookup, translations, version, sourceKeys[..j])
    {
      assert sourceKeys[..j + 1][..j] == sourceKeys[..j];
      var sourceKey := sourceKeys[j];
      SourceFoldKeys(lookup, translations, version, sourceKeys[..j]);
      assert sourceKey !in Elems(sourceKeys[..j]);
      var targetTranslation := Target(remaining, sourceKey);
      assert targetTranslation == Target(translations, sourceKey);
      var state := Compare(lookup[sourceKey], targetTranslation, version);
      current := current && state == Current;
      counts := Bump(counts, state);
      keys := keys[sourceKey := state];
      remaining := remaining - {sourceKey};
    }
    assert sourceKeys[..|sourceKeys|] == sourceKeys;
    SourceFoldKeys(lookup, translations, version, sourceKeys);
    SourceFoldCounts(lookup, translations, version, sourceKeys);
    SourceFoldCurrent(lookup, translations, version, sourceKeys);
  }

  /** Lines 244-250: every key left in the translations is recorded as unused. */
  method ExtraPass(ghost lookup: map<string, Json>, ghost translations: Locale, ghost version: int,
                   current0: bool, counts0: Counts, keys0: map<string, State>, extraKeys: set<string>)
    returns (current: bool, counts: Counts, keys: map<string, State>)
    requires Safe(lookup, translations, version)
    requires keys0.Keys == lookup.Keys && extraKeys == translations.Keys - lookup.Keys
    requires forall k :: k in keys0 ==> keys0[k] == StateOf(lookup, translations, version, k)
    requires current0 == AllCurrent(keys0)
    requires counts0 == Counts(CountOf(keys0, Missing), CountOf(keys0, Current), CountOf(keys0, Outdated), 0)
    ensures keys.Keys == lookup.Keys + translations.Keys
    ensures forall k :: k in keys ==> keys[k] == StateOf(lookup, translations, version, k)
    ensures current == AllCurrent(keys)
    ensures counts == Counts(CountOf(keys, Missing), CountOf(keys, Current), CountOf(keys, Outdated), CountOf(keys, Unused))
  {
    current, counts, keys := current0, counts0, keys0;
    CountZero(keys0, Unused);
    var pending := extraKeys;
    while pending != {}
      invariant pending <= extraKeys
      invariant keys.Keys == lookup.Keys + (extraKeys - pending)
      invariant forall k :: k in keys ==> keys[k] == StateOf(lookup, translations, version, k)
      invariant current == AllCurrent(keys)
      invariant counts == Counts(CountOf(keys, Missing), CountOf(keys, Current), CountOf(keys, Outdated), CountOf(keys, Unused))
      decreases pending
    {
      var extraKey :| extraKey in pending;
      current := false;
      RecordState(keys, extraKey, Unused);
      keys := keys[extraKey := Unused];
      counts := Bump(counts, Unused);
      pending := pending - {extraKey};
    }
  }

  /** A tally that records the state of every key of either side is the report of the locale. */
  lemma ReportFromTally(lookup: map<string, Json>, translations: Locale, version: int,
                        current: bool, counts: Counts, keys: map<string, State>)
    requires Safe(lookup, translations, version)
    requires keys.Keys == lookup.Keys + translations.Keys
    requires forall k :: k in keys ==> keys[k] == StateOf(lookup, translations, version, k)
    requires current == AllCurrent(keys)
    requires counts == Counts(CountOf(keys, Missing), CountOf(keys, Current), CountOf(keys, Outdated), CountOf(keys, Unused))
    ensures Report(current, |lookup|, |translations|, counts, keys) == ReportOf(lookup, translations, version)
  {
    KeyStatesExt(lookup, translations, version, keys);
    ReportOfKeys(lookup, translations, version, current, counts, keys);
  }

  lemma KeyStatesExt(lookup: map<string, Json>, translations: Locale, version: int, keys: map<string, State>)
    requires Safe(lookup, translations, version)
    requires keys.Keys == lookup.Keys + translations.Keys
    requires forall k :: k in keys ==> keys[k] == StateOf(lookup, translations, version, k)
    ensures keys == KeyStates(lookup, translations, version)
  {
  }

  lemma ReportOfKeys(lookup: map<string, Json>, translations: Locale, version: int,
                     current: bool, counts: Counts, keys: map<string, State>)
    requires Safe(lookup, translations, version)
    requires keys == KeyStates(lookup, translations, version)
    requires current == AllCurrent(keys)
    requires counts == Counts(CountOf(keys, Missing), CountOf(keys, Current), CountOf(keys, Outdated), CountOf(keys, Unused))
    ensures Report(current, |lookup|, |translations|, counts, keys) == ReportOf(lookup, translations, version)
  {
  }

  /** The body of the `localeCodes` loop for one locale (lines 218-250). */
  method CheckLocale(lookup: map<string, Json>, sourceKeys: seq<string>, translations: Locale, version: int)
    returns (r: Report)
    requires Enumerates(sourceKeys, lookup)
    requires Safe(lookup, translations, version)
    ensures r == ReportOf(lookup, translations, version)
  {
    var total := |translations|;
    var current, counts, keys, remaining := SourcePass(lookup, sourceKeys, translations, version);
    current, counts, keys := ExtraPass(lookup, translations, version, current, counts, keys, remaining.Keys);
    DistinctSize(sourceKeys);
    ReportFromTally(lookup, translations, version, current, counts, keys);
    r := Report(current, |sourceKeys|, total, counts, keys);
  }

  /** The messages logged for the locales `codes`, in order, from their reports in `output`. */
  function Messages(output: map<string, Report>, codes: seq<string>): seq<Message>
    requires forall code :: code in codes ==> code in output
    decreases |codes|
  {
    if codes == [] then []
    else
      var code := codes[|codes| - 1];
      Messages(output, codes[..|codes| - 1]) + [MessageOf(code, output[code])]
  }

  /** One message per locale. */
  lemma {:induction false} MessagesLength(output: map<string, Report>, codes: seq<string>)
    requires forall code :: code in codes ==> code in output
    ensures |Messages(output, codes)| == |codes|
    decreases |codes|
  {
    if codes != [] {
      MessagesLength(output, codes[..|codes| - 1]);
    }
  }

  /** Message `i` is the one of the report of the `i`-th locale. */
  lemma {:induction false} MessagesLine(output: map<string, Report>, codes: seq<string>, i: nat)
    requires forall code :: code in codes ==> code in output
    requires i < |codes|
    ensures |Messages(output, codes)| == |codes|
    ensures Messages(output, codes)[i] == MessageOf(codes[i], output[codes[i]])
    decreases |codes|
  {
    MessagesLength(output, codes);
    var front := codes[..|codes| - 1];
    MessagesLength(output, front);
    if i < |front| {
      MessagesLine(output, front, i);
      assert codes[i] == front[i];
    }
  }

  /** The messages depend only on the reports of the listed locales. */
  lemma {:induction false} MessagesFrame(output: map<string, Report>, output': map<string, Report>, codes: seq<string>)
    requires forall code :: code in codes ==> code in output && code in output' && output[code] == output'[code]
    ensures Messages(output, codes) == Messages(output', codes)
    decreases |codes|
  {
    if codes != [] {
      MessagesFrame(output, output', codes[..|codes| - 1]);
    }
  }

  /** Recording one more report and its message keeps the log equal to the messages of the reports. */
  lemma MessagesStep(before: map<string, Report>, codes: seq<string>, code: string, report: Report)
    requires forall c :: c in codes ==> c in before
    requires code !in codes
    ensures var output := before[code := report];
      Messages(output, codes + [code]) == Messages(before, codes) + [MessageOf(code, report)]
  {
    var output := before[code := report];
    MessagesFrame(before, output, codes);
    assert (codes + [code])[..|codes|] == codes;
  }

  /** The log holds the messages of the reports in `output` for the locales `codes`, each recorded once. */
  ghost predicate Logged(codes: seq<string>, output: map<string, Report>, log: seq<Message>)
  {
    output.Keys == Elems(codes) &&
    (forall code :: code in codes ==> code in output) &&
    log == Messages(output, codes)
  }

  /** Lines 222-276 for `localeCodes[i]`: store the report and log its message. */
  method Record(localeCodes: seq<string>, i: nat, report: Report, output: map<string, Report>, log: seq<Message>)
    returns (output': map<string, Report>, log': seq<Message>)
    requires forall m, n :: 0 <= m < n < |localeCodes| ==> localeCodes[m] != localeCodes[n]
    requires i < |localeCodes|
    requires Logged(localeCodes[..i], output, log)
    ensures output' == output[localeCodes[i] := report]
    ensures Logged(localeCodes[..i + 1], output', log')
  {
    var localeCode := localeCodes[i];
    ElemsStep(localeCodes, i);
    assert localeCodes[..i + 1] == localeCodes[..i] + [localeCode];
    MessagesStep(output, localeCodes[..i], localeCode, report);
    output' := output[localeCode := report];
    log' := log + [MessageOf(localeCode, report)];
  }

  /**
   * The loop over all locales: the report of each, kept in `output`, and the
   * logged messages in the order of `localeCodes`.
   */
  method CheckAll(lookup: map<string, Json>, sourceKeys: seq<string>, locales: map<string, Locale>,
                  localeCodes: seq<string>, version: int)
    returns (output: map<string, Report>, log: seq<Message>)
    requires Enumerates(sourceKeys, lookup)
    requires Enumerates(localeCodes, locales)
    requires forall code :: code in locales ==> Safe(lookup, locales[code], version)
    ensures output.Keys == locales.Keys
    ensures forall code :: code in locales ==> output[code] == ReportOf(lookup, locales[code], version)
    ensures forall code :: code in localeCodes ==> code in output
    ensures log == Messages(output, localeCodes)
  {
    output := map[];
    log := [];
    assert Logged(localeCodes[..0], output, log) by { assert localeCodes[..0] == []; }
    for i := 0 to |localeCodes|
      invariant Logged(localeCodes[..i], output, log)
      invariant Reported(lookup, locales, version, output)
    {
      var report := CheckNext(lookup, sourceKeys, locales, localeCodes, version, i, output);
      output, log := Record(localeCodes, i, report, output, log);
    }
    assert localeCodes[..|localeCodes|] == localeCodes;
    ReportedAll(lookup, locales, version, output);
  }

  /** Once every locale has a stored report, the output is the report of each locale. */
  lemma ReportedAll(lookup: map<string, Json>, locales: map<string, Locale>, version: int,
                    output: map<string, Report>)
    requires Reported(lookup, locales, version, output)
    requires output.Keys == locales.Keys
    ensures forall code :: code in locales ==> output[code] == ReportOf(lookup, locales[code], version)
  {
    forall code | code in locales
      ensures output[code] == ReportOf(lookup, locales[code], version)
    {
      assert code in output;
    }
  }

  /** Every stored report is the report of a known locale. */
  ghost predicate Reported(lookup: map<string, Json>, locales: map<string, Locale>, version: int,
                           output: map<string, Report>)
  {
    forall code :: code in output ==>
      code in locales && Safe(lookup, locales[code], version) && output[code] == ReportOf(lookup, locales[code], version)
  }

  /** Lines 218-250 for `localeCodes[i]`: the report of that locale, stored beside the earlier ones. */
  method CheckNext(lookup: map<string, Json>, sourceKeys: seq<string>, locales: map<string, Locale>,
                   localeCodes: seq<string>, version: int, i: nat, output: map<string, Report>)
    returns (report: Report)
    requires Enumerates(sourceKeys, lookup)
    requires Enumerates(localeCodes, locales)
    requires forall code :: code in locales ==> Safe(lookup, locales[code], version)
    requires i < |localeCodes|
    requires Reported(lookup, locales, version, output)
    ensures Reported(lookup, locales, version, output[localeCodes[i] := report])
  {
    var code := localeCodes[i];
    assert code in Elems(localeCodes) by {
      assert localeCodes[i] in localeCodes;
    }
    assert Safe(lookup, locales[code], version);
    report := CheckLocale(lookup, sourceKeys, locales[code], version);
    ReportedStep(lookup, locales, version, output, code, report);
  }

  /** Storing the report of one more known locale keeps every stored report right. */
  lemma ReportedStep(lookup: map<string, Json>, locales: map<string, Locale>, version: int,
                     output: map<string, Report>, code: string, report: Report)
    requires Reported(lookup, locales, version, output)
    requires code in locales && Safe(lookup, locales[code], version)
    requires report == ReportOf(lookup, locales[code], version)
    ensures Reported(lookup, locales, version, output[code := report])
  {
    var output' := output[code := report];
    forall c | c in output'
      ensures c in locales && Safe(lookup, locales[c], version) && output'[c] == ReportOf(lookup, locales[c], version)
    {
      if c != code {
        assert output'[c] == output[c];
      }
    }
  }
}
