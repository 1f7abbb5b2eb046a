# SvgTranslate translation core in Dafny

This project models three parts of SvgTranslate, a tool that harvests translations from the
language `<switch>` blocks of SVG files and writes them back into other files.

- **`extract`**: the part after parsing. Each `<switch>` is a sequence of `<text>` children. Each child has a
  `systemLanguage` tag (`""` when the tag is absent or empty) and the lines of text it holds.
  - The first untagged child gives the default lines.
  - Each tagged child gives one language's lines; a later child with the same language replaces an earlier one.
  - The default line at index i, when non-empty, is paired with each language's line at index i. Empty default
    lines are skipped without renumbering, and a language with no line at index i gets nothing for it.
  - The pairs are merged into `translations["new"]`, a map from key to language to text. The key is lower-cased when
    extraction is case-insensitive. Merging uses `setdefault`, so only an identical (key, language) pair is overwritten.
  - A second pass copies keys that end in a year into `translations["title"]`, with the year removed.
    Every non-empty translation of such a key must end in the same year.
- **`make_title_translations` / `get_titles_translations`**:
  - `make_title_translations` turns the entries whose key and translations share a trailing four-digit year into
    year-free titles. Key and values are cut before the year and stripped.
  - `get_titles_translations` puts a year back on new default texts that match a title.
- **`start_injects`**: runs the injector over a list of files and writes each result. Each file goes to exactly one of
  three counters: saved, not saved, or nested-tspan error. The per-file stats are recorded under the file's name.

Python dicts iterate in insertion order, and that order decides which of two colliding writes wins. So `"new"` (both
while it is filled and in the result of `extract`), the per-switch language table and the input of
`make_title_translations` are modelled as `Dicts.Dict`: a map plus its key order. `Dicts.Put` is `d[k] = v`.

The loops are imperative methods. Each loop except the default-text search is proved equal to a fold over the prefix
of its input that it has visited (`TitleTable`, `TitlesTranslations`, `SwitchTranslations`, `FillLang`, `FillSwitch`, `NewTable`, `InlineTitles`,
`Count`, `FilesStats`); `FindDefaultTexts` instead keeps the search invariant that the first untagged child found from
position 0 is the first one found from the current position. Lemmas then characterise each fold entry by entry: when an entry exists, and which write it
comes from (always the last one). Both title passes are the same re-keying loop over a dict (keep some keys, move them
to a new key, transform the value). That loop is proved once, generically, as `Dicts.Rekey`.

The title pass inside `extract` files a key under `key[:-4]` and its translations as `value[:-4]`, without stripping.
The default line `"COVID-19 pandemic 2020"` therefore gives the title key `"covid-19 pandemic "`, with its trailing
blank, and the value `"Pandemia de COVID-19 "`. `make_title_translations` strips both. The model follows the code
(`Extraction.CovidExample`).

The docstring of `get_titles_translations` shows an `"en"` entry in its output. The code only emits the languages of
the title map, and the model follows the code (`Titles.TitlesTranslationsEntry`).

Python's string operations are modelled on ASCII:
- `str.isdigit` is `'0'..'9'`;
- `str.strip` removes the characters Python counts as ASCII whitespace;
- `str.lower` maps `'A'..'Z'`;
- `s[-4:]` and `s[:-4]` are `Tail4` and `Init4`, including their behaviour on strings shorter than four.

## Model

| member | source | states |
|---|---|---|
| Strings.Tail4 | CopySvgTranslate/titles.py:36 | `s[-4:]` has length min(4, len s) and is the suffix of `s` of that length |
| Strings.Init4 | CopySvgTranslate/titles.py:45 | `s[:-4]` has length max(0, len s - 4) and `s` is `s[:-4]` followed by `s[-4:]` |
| Strings.Lower | CopySvgTranslate/extraction/extractor.py:81 | lower-casing keeps the length and maps each character on its own |
| Strings.Strip | CopySvgTranslate/titles.py:45-46 | `str.strip()` never lengthens a string; that it removes only end whitespace, leaves none at either end and is idempotent is stated by `StripSplits`, `StripIsUnpadded` and `StripIdempotent` |
| Strings.StripSplits | CopySvgTranslate/titles.py:45-46 | `s` is some whitespace, then `strip(s)`, then some whitespace: the result is `s` with only a leading and a trailing run of whitespace removed |
| Strings.StripIsUnpadded | CopySvgTranslate/titles.py:45-46 | the result of `strip()` has no whitespace at either end |
| Strings.StripIdempotent | CopySvgTranslate/titles.py:83-84 | stripping twice gives the same string as stripping once |
| Strings.StripBlankSuffix | CopySvgTranslate/titles.py:45-46 | a string with no surrounding whitespace followed by one blank strips back to itself |
| Strings.YearSuffix | CopySvgTranslate/titles.py:36-46 | for `s + " " + y` with a four-character `y`, `[-4:]` is `y` and `[:-4]` is `s + " "` |
| Dicts.Empty | CopySvgTranslate/extraction/extractor.py:34 | an empty dict is valid and holds nothing |
| Dicts.Put | CopySvgTranslate/extraction/extractor.py:62 | `d[k] = v`: the value is set; a new key goes to the end of the order and an existing key keeps its place; validity is kept |
| Dicts.PrefixStep | CopySvgTranslate/extraction/extractor.py:71 | iterating a dict in insertion order meets each key once: the key at position m was not among the earlier keys |
| Dicts.LastLanding | CopySvgTranslate/titles.py:32-45 | the result is the last visited key that is kept and moved to the given slot, and none after it is; None when no key is |
| Dicts.RekeyEntry | CopySvgTranslate/titles.py:32-48 | after the re-keying loop, a slot is filled iff some key lands in it, and it holds the transformed value of the last such key |
| Dicts.RekeySize | CopySvgTranslate/titles.py:32-48 | the re-keying loop never fills more slots than it visits keys |
| Titles.MakeTitleTranslations | CopySvgTranslate/titles.py:30-50 | the returned map is the title table of all entries, visited in insertion order |
| Titles.TitleTableEntry | CopySvgTranslate/titles.py:32-48 | a title is present iff some key is promoted to it (length at least 5, last four characters digits, every translation's last four characters digits equal to them; an empty map qualifies); it holds the stripped, year-free translations of the last such key, and no later key is promoted to it |
| Titles.TitleTableSize | CopySvgTranslate/titles.py:32-45 | there are never more titles than entries; keys whose stripped prefixes coincide collapse |
| Titles.GetTitlesTranslations | CopySvgTranslate/titles.py:78-88 | the returned map is the reconstruction over all default texts, visited in order |
| Titles.FindTitle | CopySvgTranslate/titles.py:84 | `get(key) or get(key.strip())`: the map under `key` when it is there and non-empty, otherwise the map under `key.strip()` if there is one, otherwise nothing |
| Titles.SecondLookupRedundant | CopySvgTranslate/titles.py:83-84 | the fallback lookup on `key.strip()` finds nothing the first lookup missed |
| Titles.TitlesTranslationsFold | CopySvgTranslate/titles.py:80-86 | a text has an entry iff it occurs among the default texts and passes the length, digit and non-empty-title tests; the entry is its title map with the year appended |
| Titles.TitlesTranslationsEntry | CopySvgTranslate/titles.py:80-86 | an entry exists iff the text occurs, is longer than 4, ends in four digits and its stripped prefix has a non-empty title map; the entry has exactly that map's languages, each value followed by a blank and the text's last four characters |
| Titles.YearEntryPromoted | CopySvgTranslate/titles.py:36-48 | a key `b + " " + y` whose translations are `b_l + " " + y` (unpadded bases) is promoted to title `b` with the translations `b_l` |
| Titles.TitleOfYearEntry | CopySvgTranslate/titles.py:32-48 | such a key, when no later key is promoted to `b`, leaves `b -> {l: b_l}` in the title table |
| Titles.ReconstructYear | CopySvgTranslate/titles.py:80-86 | a title `b` with a non-empty map reconstructs `b + " " + y` as `{l: b_l + " " + y}` and nothing else |
| Titles.RoundTrip | CopySvgTranslate/titles.py:14-69 | the two functions chained: from the entry `b + " " + y`, any year `y'` is rebuilt as `{l: b_l + " " + y'}` |
| Titles.RoundTripSameYear | CopySvgTranslate/titles.py:14-69 | with the same year, the round trip gives back exactly the original translations of the key |
| Extraction.FirstDefault | CopySvgTranslate/extraction/extractor.py:43-51 | the result is the first child without a language tag at or after the start, and every child before it is tagged; None when all are tagged |
| Extraction.FindDefaultTexts | CopySvgTranslate/extraction/extractor.py:42-51 | the default lines are the normalized lines of the first untagged child only, or None when there is none |
| Extraction.CollectTranslations | CopySvgTranslate/extraction/extractor.py:56-65 | the per-switch language table equals the fold over all children |
| Extraction.SwitchTranslationsValid | CopySvgTranslate/extraction/extractor.py:56-65 | the language table lists each language once, exactly those it holds |
| Extraction.LastTagged | CopySvgTranslate/extraction/extractor.py:57-62 | the result is the last child tagged with the language, and none after it is; None when none is |
| Extraction.SwitchTranslationsEntry | CopySvgTranslate/extraction/extractor.py:57-65 | a language is present iff some child is tagged with it, with the normalized lines of the last such child |
| Extraction.SwitchTranslationsEmpty | CopySvgTranslate/extraction/extractor.py:57-68 | the language table is empty iff no child carries a language tag |
| Extraction.Contribution | CopySvgTranslate/extraction/extractor.py:39-68 | a switch is processed iff it has an untagged child, the first one has at least one line, and some child is tagged; any other switch leaves "new" unchanged |
| Extraction.Processed | CopySvgTranslate/extraction/extractor.py:35-70 | the processed-switch counter never exceeds the number of switches seen |
| Extraction.MergeLanguage | CopySvgTranslate/extraction/extractor.py:72-82 | the inner loop leaves "new" equal to the fold over all default lines for one language |
| Extraction.MergeSwitch | CopySvgTranslate/extraction/extractor.py:71-82 | the outer loop leaves "new" equal to the fold over all languages in insertion order |
| Extraction.LastWrite | CopySvgTranslate/extraction/extractor.py:72-81 | the result is the last index whose default line is non-empty, files under the key and has a translated line; no later index writes the key |
| Extraction.FillLangEffect | CopySvgTranslate/extraction/extractor.py:72-82 | after one language's pass, (key, lang) holds the translated line at the last index that writes the key; every other pair and language is unchanged |
| Extraction.FillSwitchEffect | CopySvgTranslate/extraction/extractor.py:71-82 | after all languages, (key, l) is set by l's own pass when l is in the table, else unchanged |
| Extraction.SwitchEffect | CopySvgTranslate/extraction/extractor.py:37-82 | one switch changes (key, lang) only if it is processed, lang is tagged and some default line writes the key; the later switch wins |
| Extraction.KeyOf | CopySvgTranslate/extraction/extractor.py:81 | the key has the default line's length; it is the line itself when case-sensitive and its character-by-character lower-casing otherwise |
| Extraction.SetEntry | CopySvgTranslate/extraction/extractor.py:82 | `setdefault(key, {})[lang] = text`: afterwards `key` is present and maps `lang` to `text` |
| Extraction.SetEntryFrame | CopySvgTranslate/extraction/extractor.py:82 | the same write keeps the dict valid, adds only `key` (if missing) and `lang` under it, and leaves every other key and every other language of `key` unchanged |
| Extraction.SetEntryWellFormed | CopySvgTranslate/extraction/extractor.py:81-82 | `setdefault(key, {})[lang] = text` on a non-empty key keeps "new" well formed |
| Extraction.FillLangWellFormed | CopySvgTranslate/extraction/extractor.py:72-82 | one language's pass keeps "new" well formed: non-empty keys, each with at least one language |
| Extraction.FillSwitchWellFormed | CopySvgTranslate/extraction/extractor.py:71-82 | the pass over all languages keeps "new" well formed |
| Extraction.NewTableWellFormed | CopySvgTranslate/extraction/extractor.py:73-82 | every key of "new" is non-empty and has at least one translation |
| Extraction.DeriveTitles | CopySvgTranslate/extraction/extractor.py:84-97 | the title loop's result equals the inline-title fold over all keys of "new" |
| Extraction.InlineTitleEntry | CopySvgTranslate/extraction/extractor.py:84-97 | a title is present iff some key is promoted to it (length at least 4, last four characters digits, not the bare year, every non-empty translation ending with the year); it holds `value[:-4]` of every language of the last such key |
| Extraction.NoEmptyTitle | CopySvgTranslate/extraction/extractor.py:86-91 | a bare year is never promoted, so "title" never has an empty key |
| Extraction.ExtractedShape | CopySvgTranslate/extraction/extractor.py:99-105 | "title" has no empty key; "new" is dropped exactly when it is empty, and when kept it is a valid ordered dict whose keys are non-empty and each has a translation |
| Extraction.Extract | CopySvgTranslate/extraction/extractor.py:34-105 | the returned translations ("new" with its key insertion order, and "title") and the processed counter equal the folds over all switches |
| Extraction.CovidNewTable | CopySvgTranslate/extraction/extractor.py:37-82 | the COVID-19 switch gives `new["covid-19 pandemic 2020"]["es"] == "Pandemia de COVID-19 2020"` |
| Extraction.CovidTitles | CopySvgTranslate/extraction/extractor.py:84-97 | that entry gives the title `"covid-19 pandemic "` with `"Pandemia de COVID-19 "` |
| Extraction.CovidExample | CopySvgTranslate/extraction/extractor.py:34-105 | the whole extraction of the COVID-19 switch |
| Batch.OutputPath | svg_translate/injection/batch.py:41 | the output path is never empty |
| Batch.Classify | svg_translate/injection/batch.py:43-60 | a file is nested iff no tree came back and its error is the nested-tspan tag, saved iff a tree came back and was written, and not saved in every other case |
| Batch.FinalStats | svg_translate/injection/batch.py:39-62 | "file_path" is the output path when the file is saved and `""` otherwise; a failed write sets "error" to "write-failed"; every other stat is kept, and no key other than "file_path" and (after a failed write) "error" is added |
| Batch.Count | svg_translate/injection/batch.py:43-60 | no counter exceeds the number of files |
| Batch.StartInjects | svg_translate/injection/batch.py:23-77 | the three counters and the per-file stats equal the counts and the stats fold over all files |
| Batch.CountsPartition | svg_translate/injection/batch.py:43-60 | every file increments exactly one counter: saved + not saved + nested equals the number of files |
| Batch.LastNamed | svg_translate/injection/batch.py:48-62 | the result is the last file with the name, and none after it has it; None when none has |
| Batch.FilesStatsEntry | svg_translate/injection/batch.py:48-62 | a name has stats iff some file has it, and they are the final stats of the last such file |
| Batch.FilesStatsSize | svg_translate/injection/batch.py:48-62 | there are never more stats entries than files |
| Batch.ThreeFiles | svg_translate/injection/batch.py:39-62 | one nested-error file, one saved file and one failed write count one each, give three entries, the saved path `out/b.svg` and the error tag `write-failed` |

## Left out

- Locating the file, parsing it with lxml and querying `<switch>`/`<text>` by XPath (extractor.py lines 15-31), including the `None` results. The model starts from the parsed list of switches.
- `normalize_text` and `extract_text_from_node` are not part of this model. The first is a function parameter (`TextOps.normalize`); the second is the `lines` each `TextElement` carries. The translated lines are normalized with the parameter's own default for the case flag (`TextOps.defaultCaseInsensitive`), as line 63 does.
- Logging, the tqdm progress bar and the language-set diagnostics at extractor.py lines 107-116: they only print.
- The internals of `inject` and of `tree.write`. Each file comes as a `FileRun`: its name, whether a tree came back, the stats, and whether the write succeeds.
- Batch.OutputPath: `Path` joining and `file.name` are not modelled. The output path is the directory, a `/` and the given name, and `file.name` is given with the file.
- Batch.StatValue: stats values other than the strings under "error" and "file_path" are opaque, because the loop never reads them.
- The `overwrite` and `translations` arguments of `start_injects` only reach `inject`, so they are not modelled.
- The iteration order of the dicts returned as plain maps (`"title"`, the results of both title functions, `files_stats`, each per-file stats dict and the inner language dicts) is not modelled: no code in the modelled core iterates them.
- Strings.Lower, Strings.Strip, Strings.IsDigit: Unicode case mapping, Unicode whitespace and Unicode digits are not modelled; they cover ASCII only.
- The guards `not key` and `key == year` in `make_title_translations` cannot fire once the length is at least 5. The model's test (`Promotable`) leaves them out.
- `SvgTranslate/__init__.py` only re-exports names.
