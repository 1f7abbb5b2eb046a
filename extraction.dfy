/**
 * `extract`, after the document has been parsed: every `<switch>` is a list
 * of `<text>` children; the first child without a `systemLanguage` attribute
 * gives the default lines, every tagged child gives one language's lines,
 * and the i-th default line is paired with the i-th line of each language.
 * The pairs land in `translations["new"]` (key -> language -> text); keys
 * that end in a year whose translations all end in that year are copied,
 * year removed, into `translations["title"]`.
 */
module Extraction {
  import opened Wrappers
  import opened Strings
  import opened Dicts

  /**
   * One `<text>` child: its `systemLanguage` attribute ("" when the attribute
   * is missing or empty, the two cases the source treats alike) and the line
   * strings `extract_text_from_node` returns for it.
   */
  datatype TextElement = TextElement(systemLanguage: string, lines: seq<string>)

  /** The `<text>` children of one `<switch>`, in document order. */
  type Switch = seq<TextElement>

  /** `translations["new"]` while it is being filled: default text -> translations, in key insertion order. */
  type Table = Dict<Translations>

  /**
   * `normalize_text`, which is not part of this model, as a parameter, together
   * with the value its `case_insensitive` parameter takes when a caller
   * leaves it out (the translated lines are normalized that way).
   */
  datatype TextOps = TextOps(normalize: (string, bool) -> string, defaultCaseInsensitive: bool)

  /**
   * The dictionary `extract` returns: "new" is left out when empty, "title" is
   * always there. "new" keeps its key insertion order, which decides which of
   * two colliding keys a later title pass keeps.
   */
  datatype Extraction = Extraction(newTexts: Option<Table>, title: map<string, Translations>)

  /** `[normalize_text(text, flag) for text in lines]` */
  function NormalizeLines(lines: seq<string>, ops: TextOps, flag: bool): seq<string> {
    seq(|lines|, i requires 0 <= i < |lines| => ops.normalize(lines[i], flag))
  }

  /** The index of the first element at or after `i` with no language tag. */
  function FirstDefault(sw: Switch, i: nat): (r: Option<nat>)
    requires i <= |sw|
    ensures r.Some? ==> i <= r.value < |sw| && sw[r.value].systemLanguage == ""
    ensures r.Some? ==> forall j :: i <= j < r.value ==> sw[j].systemLanguage != ""
    ensures r.None? ==> forall j :: i <= j < |sw| ==> sw[j].systemLanguage != ""
    decreases |sw| - i
  {
    if i == |sw| then None
    else if sw[i].systemLanguage == "" then Some(i)
    else FirstDefault(sw, i + 1)
  }

  /** `default_texts`: the normalized lines of the first untagged element, `None` when there is none. */
  function DefaultTexts(sw: Switch, caseInsensitive: bool, ops: TextOps): Option<seq<string>> {
    match FirstDefault(sw, 0)
    case None => None
    case Some(i) => Some(NormalizeLines(sw[i].lines, ops, caseInsensitive))
  }

  /** `switch_translations` after the first `n` elements: each tagged element overwrites its language's lines. */
  function SwitchTranslations(sw: Switch, ops: TextOps, n: nat): Dict<seq<string>>
    requires n <= |sw|
  {
    if n == 0 then Empty()
    else
      var prev := SwitchTranslations(sw, ops, n - 1);
      var e := sw[n - 1];
      if e.systemLanguage == "" then prev
      else Put(prev, e.systemLanguage, NormalizeLines(e.lines, ops, ops.defaultCaseInsensitive))
  }

  /** Each language is listed once, in the order of its first tagged element. */
  lemma {:induction false} SwitchTranslationsValid(sw: Switch, ops: TextOps, n: nat)
    requires n <= |sw|
    ensures Valid(SwitchTranslations(sw, ops, n))
  {
    if n > 0 {
      SwitchTranslationsValid(sw, ops, n - 1);
    }
  }

  /** The switch gets past the three `continue`s of the switch loop and counts as processed. */
  predicate Contributes(sw: Switch, caseInsensitive: bool, ops: TextOps) {
    && |sw| > 0
    && DefaultTexts(sw, caseInsensitive, ops).Some?
    && |DefaultTexts(sw, caseInsensitive, ops).value| > 0
    && |SwitchTranslations(sw, ops, |sw|).items| > 0
  }

  /** The key a default line is filed under: lower-cased when the extraction is case-insensitive. */
  function KeyOf(text: string, caseInsensitive: bool): (r: string)
    ensures |r| == |text|
    ensures !caseInsensitive ==> r == text
    ensures caseInsensitive ==> forall i :: 0 <= i < |text| ==> r[i] == LowerChar(text[i])
  {
    if caseInsensitive then Lower(text) else text
  }

  /** `translations["new"].setdefault(key, {})[lang] = text` */
  function SetEntry(t: Table, key: string, lang: string, text: string): (r: Table)
    ensures key in r.items && lang in r.items[key] && r.items[key][lang] == text
  {
    Put(t, key, (if key in t.items then t.items[key] else map[])[lang := text])
  }

  /**
   * `setdefault(key, {})[lang] = text` adds `key` if it was missing and `lang`
   * under it, and leaves every other key, and every other language of `key`,
   * as it was.
   */
  lemma SetEntryFrame(t: Table, key: string, lang: string, text: string)
    ensures var r := SetEntry(t, key, lang, text);
      && (Valid(t) ==> Valid(r))
      && r.items.Keys == t.items.Keys + {key}
      && r.items[key].Keys == (if key in t.items then t.items[key].Keys else {}) + {lang}
      && (key in t.items ==> forall l :: l in t.items[key] && l != lang ==> r.items[key][l] == t.items[key][l])
      && (forall k :: k in t.items && k != key ==> r.items[k] == t.items[k])
  {
  }

  /** The inner loop over the default lines for one language, after the first `n` indices. */
  function FillLang(t: Table, defaults: seq<string>, lang: string, translated: seq<string>, caseInsensitive: bool, n: nat): Table
    requires n <= |defaults|
  {
    if n == 0 then t
    else
      var prev := FillLang(t, defaults, lang, translated, caseInsensitive, n - 1);
      var i := n - 1;
      if defaults[i] == "" || i >= |translated| then prev
      else SetEntry(prev, KeyOf(defaults[i], caseInsensitive), lang, translated[i])
  }

  /** The loop over the languages of `switch_translations`, in insertion order, after the first `m`. */
  function FillSwitch(t: Table, defaults: seq<string>, st: Dict<seq<string>>, caseInsensitive: bool, m: nat): Table
    requires Valid(st) && m <= |st.order|
  {
    if m == 0 then t
    else
      var lang := st.order[m - 1];
      FillLang(FillSwitch(t, defaults, st, caseInsensitive, m - 1), defaults, lang, st.items[lang], caseInsensitive, |defaults|)
  }

  /** What one switch does to `translations["new"]`. */
  function ApplySwitch(t: Table, sw: Switch, caseInsensitive: bool, ops: TextOps): Table {
    if !Contributes(sw, caseInsensitive, ops) then t
    else
      var st := SwitchTranslations(sw, ops, |sw|);
      SwitchTranslationsValid(sw, ops, |sw|);
      FillSwitch(t, DefaultTexts(sw, caseInsensitive, ops).value, st, caseInsensitive, |st.order|)
  }

  /** `translations["new"]` after the first `n` switches. */
  function NewTable(switches: seq<Switch>, caseInsensitive: bool, ops: TextOps, n: nat): Table
    requires n <= |switches|
  {
    if n == 0 then Empty()
    else ApplySwitch(NewTable(switches, caseInsensitive, ops, n - 1), switches[n - 1], caseInsensitive, ops)
  }

  /** `processed_switches` after the first `n` switches. */
  function Processed(switches: seq<Switch>, caseInsensitive: bool, ops: TextOps, n: nat): (r: nat)
    requires n <= |switches|
    ensures r <= n
  {
    if n == 0 then 0
    else Processed(switches, caseInsensitive, ops, n - 1) + if Contributes(switches[n - 1], caseInsensitive, ops) then 1 else 0
  }

  /**
   * The test of the title pass: at least four characters, the last four are
   * digits, the key is more than the bare year, and every non-empty
   * translation ends with that year.
   */
  predicate Promoted(key: string, mapping: Translations) {
    && |key| >= 4
    && AllDigits(Tail4(key))
    && key != Tail4(key)
    && Unsuffixed(mapping, Tail4(key)) == {}
  }

  /** The languages whose non-empty translation does not end with `year`. */
  function Unsuffixed(mapping: Translations, year: string): set<string> {
    set lang | lang in mapping && mapping[lang] != "" && !EndsWith(mapping[lang], year)
  }

  /** `{lang: value[:-4] for lang, value in mapping.items()}` */
  function YearFree(mapping: Translations): Translations {
    map lang | lang in mapping :: Init4(mapping[lang])
  }

  /** `title_translations` after the title loop has visited the first `n` keys of "new". */
  function InlineTitles(t: Table, n: nat): map<string, Translations>
    requires Valid(t) && n <= |t.order|
  {
    Rekey(t, n, Promoted, Init4, YearFree)
  }

  /** The j-th key of "new" is promoted to title `title`. */
  predicate PromotesTo(t: Table, j: nat, title: string) {
    LandsIn(t, j, Promoted, Init4, title)
  }

  /** The last of the first `n` keys of "new" promoted to `title`, if any. */
  function LastPromoting(t: Table, n: nat, title: string): Option<nat>
    requires n <= |t.order|
  {
    LastLanding(t, n, Promoted, Init4, title)
  }

  /** The whole of `extract` after parsing. */
  function Extracted(switches: seq<Switch>, caseInsensitive: bool, ops: TextOps): Extraction {
    var t := NewTable(switches, caseInsensitive, ops, |switches|);
    NewTableWellFormed(switches, caseInsensitive, ops, |switches|);
    Extraction(if |t.items| == 0 then None else Some(t), InlineTitles(t, |t.order|))
  }

  // ---------------------------------------------------------------------------
  // The loops of `extract`.
  // ---------------------------------------------------------------------------

  /** The search for the default lines in `extract`: the lines of the first untagged `<text>`, normalized with the caller's case flag. */
  method FindDefaultTexts(textElements: Switch, caseInsensitive: bool, ops: TextOps) returns (defaultTexts: Option<seq<string>>)
    ensures defaultTexts == DefaultTexts(textElements, caseInsensitive, ops)
  {
    defaultTexts := None;
    var i := 0;
    while i < |textElements|
      invariant i <= |textElements|
      invariant FirstDefault(textElements, 0) == FirstDefault(textElements, i)
    {
      var textElem := textElements[i];
      if textElem.systemLanguage == "" {
        defaultTexts := Some(NormalizeLines(textElem.lines, ops, caseInsensitive));
        return;
      }
      i := i + 1;
    }
  }

  /** The loop of `extract` that fills `switch_translations`: each tagged `<text>` sets its language's normalized lines; a later one with the same language wins. */
  method CollectTranslations(textElements: Switch, ops: TextOps) returns (switchTranslations: Dict<seq<string>>)
    ensures switchTranslations == SwitchTranslations(textElements, ops, |textElements|)
  {
    switchTranslations := Empty();
    var i := 0;
    while i < |textElements|
      invariant i <= |textElements|
      invariant switchTranslations == SwitchTranslations(textElements, ops, i)
    {
      var systemLang := textElements[i].systemLanguage;
      ghost var prev := switchTranslations;
      if systemLang != "" {
        switchTranslations := Put(switchTranslations, systemLang, NormalizeLines(textElements[i].lines, ops, ops.defaultCaseInsensitive));
      }
      assert switchTranslations == SwitchTranslations(textElements, ops, i + 1) by {
        assert SwitchTranslations(textElements, ops, i + 1) ==
          if systemLang == "" then prev
          else Put(prev, systemLang, NormalizeLines(textElements[i].lines, ops, ops.defaultCaseInsensitive));
      }
      i := i + 1;
    }
  }

  /** The merge loop of `extract`, outer level: over the languages of `switch_translations` in insertion order. */
  method MergeSwitch(table: Table, defaultTexts: seq<string>, switchTranslations: Dict<seq<string>>, caseInsensitive: bool)
    returns (merged: Table)
    requires Valid(switchTranslations)
    ensures merged == FillSwitch(table, defaultTexts, switchTranslations, caseInsensitive, |switchTranslations.order|)
  {
    merged := table;
    var m := 0;
    while m < |switchTranslations.order|
      invariant m <= |switchTranslations.order|
      invariant merged == FillSwitch(table, defaultTexts, switchTranslations, caseInsensitive, m)
    {
      var lang := switchTranslations.order[m];
      merged := MergeLanguage(merged, defaultTexts, lang, switchTranslations.items[lang], caseInsensitive);
      m := m + 1;
    }
  }

  /** The merge loop of `extract`, inner level: the default line at index i, when non-empty, is paired with the `lang` line at index i. */
  method MergeLanguage(table: Table, defaultTexts: seq<string>, lang: string, translatedTexts: seq<string>, caseInsensitive: bool)
    returns (merged: Table)
    ensures merged == FillLang(table, defaultTexts, lang, translatedTexts, caseInsensitive, |defaultTexts|)
  {
    merged := table;
    var index := 0;
    while index < |defaultTexts|
      invariant index <= |defaultTexts|
      invariant merged == FillLang(table, defaultTexts, lang, translatedTexts, caseInsensitive, index)
    {
      var defaultText := defaultTexts[index];
      if defaultText != "" && index < |translatedTexts| {
        var key := if caseInsensitive then Lower(defaultText) else defaultText;
        var entry := if key in merged.items then merged.items[key] else map[];
        merged := Put(merged, key, entry[lang := translatedTexts[index]]);
      }
      index := index + 1;
    }
  }

  /** The title loop of `extract`: copy every promoted key into the title table, year removed; a later key wins. */
  method DeriveTitles(table: Table) returns (titleTranslations: map<string, Translations>)
    requires Valid(table)
    ensures titleTranslations == InlineTitles(table, |table.order|)
  {
    titleTranslations := map[];
    var i := 0;
    while i < |table.order|
      invariant i <= |table.order|
      invariant titleTranslations == InlineTitles(table, i)
    {
      var key := table.order[i];
      var mapping := table.items[key];
      if key != "" && |key| >= 4 && AllDigits(Tail4(key)) {
        var year := Tail4(key);
        if key != year {
          // `all(...)` over the non-empty translations: none fails to end with the year
          if Unsuffixed(mapping, year) == {} {
            titleTranslations := titleTranslations[Init4(key) := YearFree(mapping)];
          }
        }
      }
      i := i + 1;
    }
  }

  /** `extract` from the list of switches on: the switch loop, the title loop and the final shaping. */
  method Extract(switches: seq<Switch>, caseInsensitive: bool, ops: TextOps) returns (result: Extraction, processed: nat)
    ensures result == Extracted(switches, caseInsensitive, ops)
    ensures processed == Processed(switches, caseInsensitive, ops, |switches|)
  {
    var table: Table := Empty();
    processed := 0;
    var s := 0;
    while s < |switches|
      invariant s <= |switches|
      invariant table == NewTable(switches, caseInsensitive, ops, s)
      invariant processed == Processed(switches, caseInsensitive, ops, s)
    {
      var textElements := switches[s];
      if |textElements| > 0 {
        var defaultTexts := FindDefaultTexts(textElements, caseInsensitive, ops);
        if defaultTexts.Some? && |defaultTexts.value| > 0 {
          var switchTranslations := CollectTranslations(textElements, ops);
          SwitchTranslationsValid(textElements, ops, |textElements|);
          if |switchTranslations.items| > 0 {
            processed := processed + 1;
            table := MergeSwitch(table, defaultTexts.value, switchTranslations, caseInsensitive);
          }
        }
      }
      s := s + 1;
    }
    NewTableWellFormed(switches, caseInsensitive, ops, |switches|);
    var titleTranslations := DeriveTitles(table);
    var newTexts := if |table.items| == 0 then None else Some(table);
    result := Extraction(newTexts, titleTranslations);
  }

  // ---------------------------------------------------------------------------
  // What the model promises.
  // ---------------------------------------------------------------------------

  /** Every key of "new" is non-empty and every inner map holds at least one language. */
  ghost predicate WellFormed(t: Table) {
    && Valid(t)
    && forall key :: key in t.items ==> key != "" && |t.items[key]| > 0
  }

  /** `setdefault(key, {})[lang] = text` on a non-empty key keeps the table well formed. */
  lemma SetEntryWellFormed(t: Table, key: string, lang: string, text: string)
    requires WellFormed(t) && key != ""
    ensures WellFormed(SetEntry(t, key, lang, text))
  {
    var r := SetEntry(t, key, lang, text);
    assert lang in r.items[key];
  }

  lemma {:induction false} FillLangWellFormed(t: Table, defaults: seq<string>, lang: string, translated: seq<string>, caseInsensitive: bool, n: nat)
    requires WellFormed(t) && n <= |defaults|
    ensures WellFormed(FillLang(t, defaults, lang, translated, caseInsensitive, n))
  {
    if n > 0 {
      FillLangWellFormed(t, defaults, lang, translated, caseInsensitive, n - 1);
      var i := n - 1;
      if defaults[i] != "" && i < |translated| {
        SetEntryWellFormed(FillLang(t, defaults, lang, translated, caseInsensitive, i), KeyOf(defaults[i], caseInsensitive), lang, translated[i]);
      }
    }
  }

  lemma {:induction false} FillSwitchWellFormed(t: Table, defaults: seq<string>, st: Dict<seq<string>>, caseInsensitive: bool, m: nat)
    requires WellFormed(t) && Valid(st) && m <= |st.order|
    ensures WellFormed(FillSwitch(t, defaults, st, caseInsensitive, m))
  {
    if m > 0 {
      FillSwitchWellFormed(t, defaults, st, caseInsensitive, m - 1);
      var lang := st.order[m - 1];
      FillLangWellFormed(FillSwitch(t, defaults, st, caseInsensitive, m - 1), defaults, lang, st.items[lang], caseInsensitive, |defaults|);
    }
  }

  /** "new" only ever holds non-empty keys, each with at least one translation. */
  lemma {:induction false} NewTableWellFormed(switches: seq<Switch>, caseInsensitive: bool, ops: TextOps, n: nat)
    requires n <= |switches|
    ensures WellFormed(NewTable(switches, caseInsensitive, ops, n))
  {
    if n > 0 {
      NewTableWellFormed(switches, caseInsensitive, ops, n - 1);
      var sw := switches[n - 1];
      if Contributes(sw, caseInsensitive, ops) {
        var st := SwitchTranslations(sw, ops, |sw|);
        SwitchTranslationsValid(sw, ops, |sw|);
        FillSwitchWellFormed(NewTable(switches, caseInsensitive, ops, n - 1), DefaultTexts(sw, caseInsensitive, ops).value, st, caseInsensitive, |st.order|);
      }
    }
  }

  /** The text stored for (`key`, `lang`), if any. */
  function Lookup(t: Table, key: string, lang: string): Option<string> {
    if key in t.items && lang in t.items[key] then Some(t.items[key][lang]) else None
  }

  /** Index `i` of the default lines writes under `key`: a non-empty line, filed under `key`, with a translated line at the same index. */
  predicate Writes(defaults: seq<string>, translated: seq<string>, caseInsensitive: bool, i: nat, key: string) {
    i < |defaults| && defaults[i] != "" && i < |translated| && KeyOf(defaults[i], caseInsensitive) == key
  }

  /** The last of the first `n` indices that writes under `key`, if any. */
  function LastWrite(defaults: seq<string>, translated: seq<string>, caseInsensitive: bool, n: nat, key: string): (r: Option<nat>)
    requires n <= |defaults|
    ensures r.Some? ==> r.value < n && Writes(defaults, translated, caseInsensitive, r.value, key)
    ensures r.Some? ==> forall j :: r.value < j < n ==> !Writes(defaults, translated, caseInsensitive, j, key)
    ensures r.None? ==> forall j :: 0 <= j < n ==> !Writes(defaults, translated, caseInsensitive, j, key)
  {
    if n == 0 then None
    else if Writes(defaults, translated, caseInsensitive, n - 1, key) then Some(n - 1)
    else LastWrite(defaults, translated, caseInsensitive, n - 1, key)
  }

  /**
   * One language's pass over the default lines sets (`key`, `lang`) to the
   * translated line of the LAST index that writes under `key`, and leaves
   * every other pair, and every other language, as it was.
   */
  lemma {:induction false} FillLangEffect(t: Table, defaults: seq<string>, lang: string, translated: seq<string>, caseInsensitive: bool, n: nat, key: string, l: string)
    requires n <= |defaults|
    ensures Lookup(FillLang(t, defaults, lang, translated, caseInsensitive, n), key, l) ==
      if l == lang && LastWrite(defaults, translated, caseInsensitive, n, key).Some?
      then Some(translated[LastWrite(defaults, translated, caseInsensitive, n, key).value])
      else Lookup(t, key, l)
  {
    if n > 0 {
      FillLangEffect(t, defaults, lang, translated, caseInsensitive, n - 1, key, l);
    }
  }

  /** The languages' passes, in insertion order: each language only touches its own pairs. */
  lemma {:induction false} FillSwitchEffect(t: Table, defaults: seq<string>, st: Dict<seq<string>>, caseInsensitive: bool, m: nat, key: string, l: string)
    requires Valid(st) && m <= |st.order|
    ensures Lookup(FillSwitch(t, defaults, st, caseInsensitive, m), key, l) ==
      if l in st.order[..m] && LastWrite(defaults, st.items[l], caseInsensitive, |defaults|, key).Some?
      then Some(st.items[l][LastWrite(defaults, st.items[l], caseInsensitive, |defaults|, key).value])
      else Lookup(t, key, l)
  {
    if m > 0 {
      var lang := st.order[m - 1];
      var prev := FillSwitch(t, defaults, st, caseInsensitive, m - 1);
      FillSwitchEffect(t, defaults, st, caseInsensitive, m - 1, key, l);
      FillLangEffect(prev, defaults, lang, st.items[lang], caseInsensitive, |defaults|, key, l);
      PrefixStep(st, m, l);
    }
  }

  /**
   * What one switch does to "new": nothing at all unless it contributes;
   * otherwise (`key`, `lang`) becomes the `lang` line at the last index whose
   * default line is non-empty, files under `key` and has a `lang` line, and
   * every other pair keeps what earlier switches left (later switch wins).
   */
  lemma SwitchEffect(t: Table, sw: Switch, caseInsensitive: bool, ops: TextOps, key: string, lang: string)
    ensures Lookup(ApplySwitch(t, sw, caseInsensitive, ops), key, lang) ==
      var st := SwitchTranslations(sw, ops, |sw|);
      var defaults := DefaultTexts(sw, caseInsensitive, ops);
      if Contributes(sw, caseInsensitive, ops) && lang in st.items
         && LastWrite(defaults.value, st.items[lang], caseInsensitive, |defaults.value|, key).Some?
      then Some(st.items[lang][LastWrite(defaults.value, st.items[lang], caseInsensitive, |defaults.value|, key).value])
      else Lookup(t, key, lang)
  {
    if Contributes(sw, caseInsensitive, ops) {
      var st := SwitchTranslations(sw, ops, |sw|);
      SwitchTranslationsValid(sw, ops, |sw|);
      FillSwitchEffect(t, DefaultTexts(sw, caseInsensitive, ops).value, st, caseInsensitive, |st.order|, key, lang);
      assert st.order[..|st.order|] == st.order;
    }
  }

  /** The last of the first `n` elements tagged `lang`, if any. */
  function LastTagged(sw: Switch, n: nat, lang: string): (r: Option<nat>)
    requires n <= |sw|
    ensures r.Some? ==> r.value < n && sw[r.value].systemLanguage == lang
    ensures r.Some? ==> forall j :: r.value < j < n ==> sw[j].systemLanguage != lang
    ensures r.None? ==> forall j :: 0 <= j < n ==> sw[j].systemLanguage != lang
  {
    if n == 0 then None
    else if sw[n - 1].systemLanguage == lang then Some(n - 1)
    else LastTagged(sw, n - 1, lang)
  }

  /**
   * `switch_translations` has a language exactly when some element is tagged
   * with it, and holds the normalized lines of the LAST such element.
   */
  lemma {:induction false} SwitchTranslationsEntry(sw: Switch, ops: TextOps, n: nat, lang: string)
    requires n <= |sw| && lang != ""
    ensures lang in SwitchTranslations(sw, ops, n).items <==> LastTagged(sw, n, lang).Some?
    ensures lang in SwitchTranslations(sw, ops, n).items ==>
      SwitchTranslations(sw, ops, n).items[lang] == NormalizeLines(sw[LastTagged(sw, n, lang).value].lines, ops, ops.defaultCaseInsensitive)
  {
    if n > 0 {
      SwitchTranslationsEntry(sw, ops, n - 1, lang);
    }
  }

  /** `switch_translations` is empty exactly when no element carries a language tag. */
  lemma {:induction false} SwitchTranslationsEmpty(sw: Switch, ops: TextOps, n: nat)
    requires n <= |sw|
    ensures |SwitchTranslations(sw, ops, n).items| == 0 <==> forall j :: 0 <= j < n ==> sw[j].systemLanguage == ""
  {
    if n > 0 {
      SwitchTranslationsEmpty(sw, ops, n - 1);
      var lang := sw[n - 1].systemLanguage;
      if lang != "" {
        assert lang in SwitchTranslations(sw, ops, n).items;
      }
    }
  }

  /**
   * A switch is processed exactly when it has a `<text>` child without a
   * language tag, the first such child has at least one line, and some child
   * has a language tag; every other switch leaves "new" untouched.
   */
  lemma Contribution(sw: Switch, caseInsensitive: bool, ops: TextOps, t: Table)
    ensures Contributes(sw, caseInsensitive, ops) <==>
      && FirstDefault(sw, 0).Some?
      && |sw[FirstDefault(sw, 0).value].lines| > 0
      && exists j :: 0 <= j < |sw| && sw[j].systemLanguage != ""
    ensures !Contributes(sw, caseInsensitive, ops) ==> ApplySwitch(t, sw, caseInsensitive, ops) == t
  {
    SwitchTranslationsEmpty(sw, ops, |sw|);
  }

  /** A title comes from the last key of "new" promoted to it, with `value[:-4]` for every language. */
  lemma InlineTitleEntry(t: Table, n: nat, title: string)
    requires Valid(t) && n <= |t.order|
    ensures title in InlineTitles(t, n) <==> LastPromoting(t, n, title).Some?
    ensures title in InlineTitles(t, n) ==>
      var j := LastPromoting(t, n, title).value;
      && j < n && PromotesTo(t, j, title)
      && (forall i :: j < i < n ==> !PromotesTo(t, i, title))
      && InlineTitles(t, n)[title] == YearFree(t.items[t.order[j]])
  {
    RekeyEntry(t, n, Promoted, Init4, YearFree, title);
  }

  /** A bare year such as "2020" is never promoted, so the title table never has an empty key. */
  lemma {:induction false} NoEmptyTitle(t: Table, n: nat)
    requires Valid(t) && n <= |t.order|
    ensures "" !in InlineTitles(t, n)
    ensures forall key, mapping :: IsYear(key) ==> !Promoted(key, mapping)
  {
    if n > 0 {
      NoEmptyTitle(t, n - 1);
    }
  }

  /**
   * "new" is dropped exactly when empty; when kept, it is a valid ordered dict
   * whose keys are non-empty and each has a translation.
   */
  lemma ExtractedShape(switches: seq<Switch>, caseInsensitive: bool, ops: TextOps)
    ensures var r := Extracted(switches, caseInsensitive, ops);
      && "" !in r.title
      && (r.newTexts.Some? ==> |r.newTexts.value.items| > 0 && WellFormed(r.newTexts.value))
      && (r.newTexts.None? <==> NewTable(switches, caseInsensitive, ops, |switches|).items == map[])
  {
    var t := NewTable(switches, caseInsensitive, ops, |switches|);
    NewTableWellFormed(switches, caseInsensitive, ops, |switches|);
    NoEmptyTitle(t, |t.order|);
  }

  /** The COVID-19 example: a `normalize_text` that changes nothing, and one switch with an English default and a Spanish line. */
  const IdentityOps := TextOps((s: string, flag: bool) => s, true)
  const CovidSwitch := [TextElement("", ["COVID-19 pandemic 2020"]), TextElement("es", ["Pandemia de COVID-19 2020"])]

  lemma CovidNewTable()
    ensures NewTable([CovidSwitch], true, IdentityOps, 1)
      == Dict(["covid-19 pandemic 2020"], map["covid-19 pandemic 2020" := map["es" := "Pandemia de COVID-19 2020"]])
  {
    var ops, sw := IdentityOps, CovidSwitch;
    var en, es := "COVID-19 pandemic 2020", "Pandemia de COVID-19 2020";
    var key := "covid-19 pandemic 2020";
    assert Lower(en) == key;
    var defaults := NormalizeLines([en], ops, true);
    assert |defaults| == 1 && defaults[0] == en;
    assert defaults == [en];
    var lines := NormalizeLines([es], ops, true);
    assert |lines| == 1 && lines[0] == es;
    assert lines == [es];
    assert FirstDefault(sw, 0) == Some(0);
    assert DefaultTexts(sw, true, ops) == Some([en]);
    assert SwitchTranslations(sw, ops, 1) == Empty();
    var st := SwitchTranslations(sw, ops, 2);
    assert st == Put(Empty(), "es", [es]);
    assert Contributes(sw, true, ops);
    var filled := Dict([key], map[key := map["es" := es]]);
    assert FillSwitch(Empty(), [en], st, true, 0) == Empty();
    assert FillLang(Empty(), [en], "es", [es], true, 1) == filled;
    assert ApplySwitch(Empty(), sw, true, ops) == filled;
    assert NewTable([sw], true, ops, 0) == Empty();
  }

  lemma CovidTitles()
    ensures var t := Dict(["covid-19 pandemic 2020"], map["covid-19 pandemic 2020" := map["es" := "Pandemia de COVID-19 2020"]]);
      Valid(t) && InlineTitles(t, 1) == map["covid-19 pandemic " := map["es" := "Pandemia de COVID-19 "]]
  {
    var key, es := "covid-19 pandemic 2020", "Pandemia de COVID-19 2020";
    assert Tail4(key) == "2020";
    assert EndsWith(es, "2020");
    assert Unsuffixed(map["es" := es], "2020") == {};
    assert Init4(key) == "covid-19 pandemic ";
    assert Init4(es) == "Pandemia de COVID-19 ";
    assert Promoted(key, map["es" := es]);
    assert YearFree(map["es" := es]) == map["es" := "Pandemia de COVID-19 "];
  }

  /**
   * In the COVID-19 example the key is lower-cased and the title key keeps
   * the blank before the year, since this pass does not strip.
   */
  lemma CovidExample()
    ensures Extracted([CovidSwitch], true, IdentityOps) == Extraction(
      Some(Dict(["covid-19 pandemic 2020"], map["covid-19 pandemic 2020" := map["es" := "Pandemia de COVID-19 2020"]])),
      map["covid-19 pandemic " := map["es" := "Pandemia de COVID-19 "]])
  {
    CovidNewTable();
    CovidTitles();
  }
}
