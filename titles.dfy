/**
 * The stand-alone title/year helpers: `make_title_translations` turns entries
 * whose key and translations share a trailing year into year-free titles, and
 * `get_titles_translations` puts a year back on for new default texts.
 */
module Titles {
  import opened Wrappers
  import opened Strings
  import opened Dicts

  /**
   * The test of make_title_translations: a key of at least five characters
   * whose last four are digits, and every translation's last four characters
   * are digits equal to them (an empty map passes). The guards `not key` and
   * `key == year` in the source can never fire once the length is at least 5.
   */
  predicate Promotable(key: string, mapping: Translations) {
    && |key| >= 5
    && AllDigits(Tail4(key))
    && OffYear(mapping, Tail4(key)) == {}
  }

  /** The languages whose translation does not end in four digits equal to `year`. */
  function OffYear(mapping: Translations, year: string): set<string> {
    set lang | lang in mapping && !(AllDigits(Tail4(mapping[lang])) && Tail4(mapping[lang]) == year)
  }

  /** Where a promoted entry is stored: `key[:-4].strip()`. */
  function TitleKey(key: string): string {
    Strip(Init4(key))
  }

  /** The translations of a promoted entry: `text[:-4].strip()` per language. */
  function StripYear(mapping: Translations): Translations {
    map lang | lang in mapping :: Strip(Init4(mapping[lang]))
  }

  /** The j-th key of `entries` is promoted and stored under title `t`. */
  predicate PromotesTo(entries: Dict<Translations>, j: nat, t: string) {
    LandsIn(entries, j, Promotable, TitleKey, t)
  }

  /** The last of the first `n` keys that is promoted to title `t`, if any. */
  function LastPromoting(entries: Dict<Translations>, n: nat, t: string): Option<nat>
    requires n <= |entries.order|
  {
    LastLanding(entries, n, Promotable, TitleKey, t)
  }

  /** The title table once the loop of make_title_translations has visited the first `n` keys. */
  function TitleTable(entries: Dict<Translations>, n: nat): map<string, Translations>
    requires Valid(entries) && n <= |entries.order|
  {
    Rekey(entries, n, Promotable, TitleKey, StripYear)
  }

  /** make_title_translations: one pass over the entries in insertion order, later titles overwriting earlier ones. */
  method MakeTitleTranslations(entries: Dict<Translations>) returns (titles: map<string, Translations>)
    requires Valid(entries)
    ensures titles == TitleTable(entries, |entries.order|)
  {
    titles := map[];
    var i := 0;
    while i < |entries.order|
      invariant i <= |entries.order|
      invariant titles == TitleTable(entries, i)
    {
      var key := entries.order[i];
      var mapping := entries.items[key];
      if |key| >= 5 {
        var year := Tail4(key);
        if AllDigits(year) {
          // `all(...)` over the translations: no language is off the year
          if OffYear(mapping, year) == {} {
            titles := titles[TitleKey(key) := StripYear(mapping)];
          }
        }
      }
      i := i + 1;
    }
  }

  /**
   * A title is present exactly when some key is promoted to it, and it holds
   * the stripped translations of the LAST such key.
   */
  lemma TitleTableEntry(entries: Dict<Translations>, n: nat, t: string)
    requires Valid(entries) && n <= |entries.order|
    ensures t in TitleTable(entries, n) <==> LastPromoting(entries, n, t).Some?
    ensures t in TitleTable(entries, n) ==>
      var j := LastPromoting(entries, n, t).value;
      && j < n && PromotesTo(entries, j, t)
      && (forall i :: j < i < n ==> !PromotesTo(entries, i, t))
      && TitleTable(entries, n)[t] == StripYear(entries.items[entries.order[j]])
  {
    RekeyEntry(entries, n, Promotable, TitleKey, StripYear, t);
  }

  /** Keys that collapse to the same title count once: there are never more titles than keys. */
  lemma TitleTableSize(entries: Dict<Translations>, n: nat)
    requires Valid(entries) && n <= |entries.order|
    ensures |TitleTable(entries, n)| <= n
  {
    RekeySize(entries, n, Promotable, TitleKey, StripYear);
  }

  /** `d.get(k)` */
  function Get(d: map<string, Translations>, k: string): Option<Translations> {
    if k in d then Some(d[k]) else None
  }

  /** `titles.get(key) or titles.get(key.strip())`: an empty first map counts as missing. */
  function FindTitle(titles: map<string, Translations>, key: string): (r: Option<Translations>)
    ensures key in titles && |titles[key]| > 0 ==> r == Some(titles[key])
    ensures (key !in titles || |titles[key]| == 0) && Strip(key) in titles ==> r == Some(titles[Strip(key)])
    ensures (key !in titles || |titles[key]| == 0) && Strip(key) !in titles ==> r.None?
  {
    var first := Get(titles, key);
    if first.Some? && |first.value| > 0 then first else Get(titles, Strip(key))
  }

  /** The base title get_titles_translations looks up for a text: `text[:-4].strip()`. */
  function BaseOf(text: string): string {
    Strip(Init4(text))
  }

  /** get_titles_translations builds an entry for `text`: it is longer than 4, ends in 4 digits, and its base has a non-empty title map. */
  predicate Reconstructs(titles: map<string, Translations>, text: string) {
    && |text| > 4
    && AllDigits(Tail4(text))
    && FindTitle(titles, BaseOf(text)).Some?
    && |FindTitle(titles, BaseOf(text)).value| > 0
  }

  /** Every title translation followed by a blank and `year`. */
  function WithYear(values: Translations, year: string): Translations {
    map lang | lang in values :: values[lang] + " " + year
  }

  /** What get_titles_translations returns once its loop has visited `texts`; a repeated text rewrites the same entry. */
  function TitlesTranslations(titles: map<string, Translations>, texts: seq<string>): map<string, Translations>
  {
    if |texts| == 0 then map[]
    else
      var text := texts[|texts| - 1];
      var prev := TitlesTranslations(titles, texts[..|texts| - 1]);
      if Reconstructs(titles, text) then prev[text := WithYear(FindTitle(titles, BaseOf(text)).value, Tail4(text))]
      else prev
  }

  /** get_titles_translations: the loop over the default texts. */
  method GetTitlesTranslations(titles: map<string, Translations>, defaultTexts: seq<string>)
    returns (result: map<string, Translations>)
    ensures result == TitlesTranslations(titles, defaultTexts)
  {
    result := map[];
    var i := 0;
    while i < |defaultTexts|
      invariant i <= |defaultTexts|
      invariant result == TitlesTranslations(titles, defaultTexts[..i])
    {
      var text := defaultTexts[i];
      if |text| > 4 && AllDigits(Tail4(text)) {
        var year := Tail4(text);
        var key := Strip(Init4(text));
        var translations := FindTitle(titles, key);
        if translations.Some? && |translations.value| > 0 {
          result := result[text := WithYear(translations.value, year)];
        }
      }
      assert defaultTexts[..i + 1][..i] == defaultTexts[..i];
      i := i + 1;
    }
    assert defaultTexts[..i] == defaultTexts;
  }

  /** The second lookup, on `key.strip()`, never finds anything the first missed: the key is already stripped. */
  lemma SecondLookupRedundant(titles: map<string, Translations>, text: string)
    ensures FindTitle(titles, BaseOf(text)) == Get(titles, BaseOf(text))
  {
    StripIdempotent(Init4(text));
  }

  /** The loop's own view: a text has an entry exactly when it occurs and passes `Reconstructs`, built from its title map. */
  lemma {:induction false} TitlesTranslationsFold(titles: map<string, Translations>, texts: seq<string>, text: string)
    ensures text in TitlesTranslations(titles, texts) <==> text in texts && Reconstructs(titles, text)
    ensures text in TitlesTranslations(titles, texts) ==>
      TitlesTranslations(titles, texts)[text] == WithYear(FindTitle(titles, BaseOf(text)).value, Tail4(text))
  {
    if |texts| > 0 {
      var init := texts[..|texts| - 1];
      var last := texts[|texts| - 1];
      TitlesTranslationsFold(titles, init, text);
      assert texts == init + [last];
      assert text in texts <==> text in init || text == last;
    }
  }

  /**
   * get_titles_translations produces an entry exactly for the default texts
   * longer than 4 that end in 4 digits and whose stripped prefix has a
   * non-empty title map; the entry has that map's languages, each value
   * followed by a blank and the text's year.
   */
  lemma TitlesTranslationsEntry(titles: map<string, Translations>, texts: seq<string>, text: string)
    ensures text in TitlesTranslations(titles, texts) <==>
      text in texts && |text| > 4 && AllDigits(Tail4(text)) && BaseOf(text) in titles && |titles[BaseOf(text)]| > 0
    ensures text in TitlesTranslations(titles, texts) ==>
      var values := titles[BaseOf(text)];
      var r := TitlesTranslations(titles, texts)[text];
      && r.Keys == values.Keys
      && forall lang :: lang in r ==> r[lang] == values[lang] + " " + Tail4(text)
  {
    SecondLookupRedundant(titles, text);
    TitlesTranslationsFold(titles, texts, text);
  }

  /**
   * An entry `base + " " + year` whose translations are `b + " " + year`
   * (no surrounding whitespace on `base` or any `b`) is promoted to the title
   * `base` with the translations `b`.
   */
  lemma YearEntryPromoted(base: string, year: string, bases: Translations)
    requires IsYear(year) && Unpadded(base)
    requires forall lang :: lang in bases ==> Unpadded(bases[lang])
    ensures Promotable(base + " " + year, WithYear(bases, year))
    ensures TitleKey(base + " " + year) == base
    ensures StripYear(WithYear(bases, year)) == bases
  {
    YearSuffix(base, year);
    StripBlankSuffix(base);
    var mapping := WithYear(bases, year);
    forall lang | lang in mapping
      ensures AllDigits(Tail4(mapping[lang])) && Tail4(mapping[lang]) == year
      ensures Strip(Init4(mapping[lang])) == bases[lang]
    {
      YearSuffix(bases[lang], year);
      StripBlankSuffix(bases[lang]);
    }
    assert OffYear(mapping, year) == {};
  }

  /** The title table holds `base -> bases` when the year entry is the last key promoted to `base`. */
  lemma TitleOfYearEntry(entries: Dict<Translations>, i: nat, base: string, year: string, bases: Translations)
    requires Valid(entries) && i < |entries.order|
    requires IsYear(year) && Unpadded(base)
    requires forall lang :: lang in bases ==> Unpadded(bases[lang])
    requires entries.order[i] == base + " " + year
    requires entries.items[base + " " + year] == WithYear(bases, year)
    requires forall j :: i < j < |entries.order| ==> !PromotesTo(entries, j, base)
    ensures base in TitleTable(entries, |entries.order|)
    ensures TitleTable(entries, |entries.order|)[base] == bases
  {
    YearEntryPromoted(base, year, bases);
    assert PromotesTo(entries, i, base);
    TitleTableEntry(entries, |entries.order|, base);
  }

  /** A title `base` with a non-empty map reconstructs `base + " " + y` with the year put back in every language. */
  lemma ReconstructYear(titles: map<string, Translations>, base: string, bases: Translations, year: string)
    requires IsYear(year) && Unpadded(base)
    requires base in titles && titles[base] == bases && |bases| > 0
    ensures TitlesTranslations(titles, [base + " " + year]) == map[base + " " + year := WithYear(bases, year)]
  {
    var text := base + " " + year;
    YearSuffix(base, year);
    StripBlankSuffix(base);
    assert BaseOf(text) == base;
    assert FindTitle(titles, base) == Some(bases);
    assert [text][..0] == [];
  }

  /**
   * The round trip of the two docstring examples: an entry `base + " " + year`
   * whose translations are `b + " " + year` becomes the title `base` with the
   * translations `b`, and reconstructing any year-bearing `base + " " + y`
   * gives back `b + " " + y` in every language. It needs a non-empty
   * translation map (an empty one is promoted but never reconstructed) and
   * no later key collapsing to the same title.
   */
  lemma RoundTrip(entries: Dict<Translations>, i: nat, base: string, year: string, bases: Translations, newYear: string)
    requires Valid(entries) && i < |entries.order|
    requires IsYear(year) && IsYear(newYear)
    requires Unpadded(base) && |bases| > 0
    requires forall lang :: lang in bases ==> Unpadded(bases[lang])
    requires entries.order[i] == base + " " + year
    requires entries.items[base + " " + year] == WithYear(bases, year)
    requires forall j :: i < j < |entries.order| ==> !PromotesTo(entries, j, base)
    ensures TitlesTranslations(TitleTable(entries, |entries.order|), [base + " " + newYear])
      == map[base + " " + newYear := WithYear(bases, newYear)]
  {
    var titles := TitleTable(entries, |entries.order|);
    TitleOfYearEntry(entries, i, base, year, bases);
    ReconstructYear(titles, base, bases, newYear);
  }

  /** With the same year, the round trip gives back the original translations (the docstrings' own pair). */
  lemma RoundTripSameYear(entries: Dict<Translations>, i: nat, base: string, year: string, bases: Translations)
    requires Valid(entries) && i < |entries.order|
    requires IsYear(year) && Unpadded(base) && |bases| > 0
    requires forall lang :: lang in bases ==> Unpadded(bases[lang])
    requires entries.order[i] == base + " " + year
    requires entries.items[base + " " + year] == WithYear(bases, year)
    requires forall j :: i < j < |entries.order| ==> !PromotesTo(entries, j, base)
    ensures var key := base + " " + year;
      var r := TitlesTranslations(TitleTable(entries, |entries.order|), [key]);
      key in r && r[key] == entries.items[key]
  {
    RoundTrip(entries, i, base, year, bases, year);
  }
}
