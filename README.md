# update_songlist: a verified model of the reconciliation core

`update_songlist.py` brings a song catalogue (`songlist.json`, a list of
entries with a title, a pack, aliases, a difficulty record and an id) into
line with two tab-separated files: `info.tsv` lists the songs that should be
there, and `difficulty.tsv` gives their chart ratings. The tool indexes the
catalogue by normalised title and by a punctuation-free key. It finds every
`info.tsv` title that has no entry and asks, title by title, which pack the
song belongs to. It then allocates an id in that pack and inserts the new
entry after the pack's last entry. Finally it overlays the ratings from
`difficulty.tsv` onto every entry it can match.

The Dafny modules follow that structure:

| module | file | what it holds |
|---|---|---|
| `Wrappers` | wrappers.dfy | `Option` |
| `Chars` | chars.dfy | the character classes the normalisers use (`\s`, `\w`, `\d`, `lower()`, the listed punctuation, the full-width blocks) |
| `Normalize` | normalize.dfy | `normalize_title`, `normalize_key`, `pack_to_id_prefix` |
| `Catalogue` | catalogue.dfy | entries, the title map, the key map and the pack list of `load_songlist` |
| `Ids` | ids.dfy | the `^(.+)_(\d+)$` id grammar, `last_index_of_pack`, `get_pack_prefix_and_next_num`, the new-pack numbering, `new_song_entry` |
| `Matcher` | matcher.dfy | `find_song_by_title` and the filter that collects the missing titles |
| `Difficulty` | difficulty.dfy | the line parser and fold of `load_difficulty_tsv`, and `find_difficulty_for_song` |
| `Overlay` | overlay.dfy | `apply_difficulties`, in place on an array of entries |
| `Reconcile` | reconcile.dfy | one answered pack prompt of `main`: the new-pack and existing-pack branches |

Each loop of the source outside the two lookup cascades is a `method` with
a `for` or `while` loop. It is proved equal to a specification function, and the
properties the source promises are lemmas about those functions. The search
loops inside the cascades (lines 53-56 and 168-170) are the recursive
functions `Matcher.FirstPrefixAt` and `Difficulty.FirstRelated`. The cascades (`find_song_by_title`,
`find_difficulty_for_song`) and the normalisers are functions. Each is paired
with an independent reference definition, stated by search over the
catalogue or the table, or with an idempotence or round-trip lemma.

The lookups are proved once for any pair of normalisers `nt`, `nk` (and the
overlay for any lookup function). The concrete members then instantiate them
with `NormalizeTitle` and `NormalizeKey`.

The source functions are defined by these Dafny functions, and the table
below lists the lemmas and methods about them:

| source function | Dafny definition |
|---|---|
| `normalize_title` | `Normalize.NormalizeTitle` |
| `normalize_key` | `Normalize.NormalizeKey` |
| `pack_to_id_prefix` | `Normalize.PackToIdPrefix` |
| `find_song_by_title` | `Matcher.FindSongByTitle` (an instance of `Matcher.FindWith`) |
| one line of `load_difficulty_tsv` | `Difficulty.ParseLine` and `Difficulty.Absorb` |
| `find_difficulty_for_song` | `Difficulty.FindDifficulty` (through `Difficulty.FindByKey`) |
| `new_song_entry` | `Ids.NewSongEntry` |
| one answered prompt of `main` | `Reconcile.Step` |

## Model

| member | source | states |
|---|---|---|
| Normalize.NormalizeTitleShape | update_songlist.py:20-25 | the normalised title has no leading or trailing blank, only plain spaces, and never two in a row; it splits into exactly the words of the input, so each blank run between words becomes one space; it keeps every non-blank character in order; it is "" exactly when the input is all blanks (so "" for "") |
| Normalize.NormalizeTitleIdempotent | update_songlist.py:20-25 | normalising a normalised title changes nothing |
| Normalize.NormalizeKeyOnePass | update_songlist.py:28-36 | the three substitutions and lower() equal one filter that keeps the characters that are not blank, not listed punctuation, outside U+3000-U+303F and U+FF00-U+FFEF, and word characters, then lower-cases them |
| Normalize.NormalizeKeyChars | update_songlist.py:28-36 | every character of a key is a lower-case word character that is neither blank nor listed punctuation nor full-width |
| Normalize.NormalizeKeyIdempotent | update_songlist.py:28-36 | a key is its own key |
| Normalize.NormalizeKeyConcat | update_songlist.py:28-36 | the key of a concatenation is the concatenation of the keys |
| Normalize.NormalizeKeyOfTitle | update_songlist.py:20-36 | normalising the title first does not change the key |
| Normalize.PackToIdPrefixShape | update_songlist.py:91-96 | the prefix is never ""; it has no blank or "-", no "__", and no "_" at either end |
| Normalize.PackToIdPrefixWords | update_songlist.py:91-96 | the prefix is the words of the pack name (its maximal runs of characters other than whitespace, "-" and "_") joined by single "_", or "Pack" when the name has no word ("My New Pack" gives "My_New_Pack", " Fresh Pack" gives "Fresh_Pack") |
| Normalize.PackToIdPrefixFallback | update_songlist.py:91-96 | a pack name made only of blanks, hyphens and underscores, "" included, gives the fallback "Pack" |
| Normalize.PackToIdPrefixFixed | update_songlist.py:91-96 | a string already of that shape is its own prefix |
| Normalize.PackToIdPrefixIdempotent | update_songlist.py:91-96 | applying the conversion twice equals applying it once |
| Normalize.PackToIdPrefixJoins | update_songlist.py:91-96 | two words of prefix shape joined by one blank or "-" become the two words joined by "_" ("Fresh Pack" gives "Fresh_Pack") |
| Catalogue.BuildIndex | update_songlist.py:64-87 | the loop returns the title map, the key map and the pack list the specification functions define |
| Catalogue.BuildMaps | update_songlist.py:67-80 | the title and key maps after the loop over every entry, for any normalisers |
| Catalogue.RegisterEntry | update_songlist.py:68-80 | one round of the loop: the title overwrites its slot; the key, and then the alias titles and keys, are added only where absent |
| Catalogue.RegisterAliases | update_songlist.py:74-80 | the alias loop adds each alias title and key only where absent and not "" |
| Catalogue.CollectPacks | update_songlist.py:81-87 | the pack loop returns the specification's pack list |
| Catalogue.AddAbsentLookup | update_songlist.py:74-80 | after the alias loop a name maps to its old owner if it had one, else to this entry if one of its aliases normalises to the name, else to nothing |
| Catalogue.TitleIndexIsReference | update_songlist.py:67-77 | the title map sends t to the last entry titled t; failing that, to the first entry with an alias t; "" is never a key |
| Catalogue.KeyIndexIsReference | update_songlist.py:67-80 | the key map sends k to the first entry whose title or one of whose aliases has key k; "" is never a key |
| Catalogue.PacksInFirstSeenOrder | update_songlist.py:81-87 | the pack list is duplicate-free, holds exactly the non-empty packs of the catalogue, and lists them in order of first appearance |
| Ids.NatToStringRoundTrip | update_songlist.py:288 | the decimal rendering of a number parses back to it and has no leading zero |
| Ids.CanonicalRoundTrip | update_songlist.py:261 | a canonical digit string is the rendering of its value |
| Ids.ParseIdAccepts | update_songlist.py:116-117 | every "prefix_digits" with a non-empty, newline-free prefix matches the id pattern, with the prefix and the value of the digits, also with one final newline |
| Ids.ParseIdSound | update_songlist.py:116-117 | every match is of that form: a non-empty, newline-free prefix, "_", a run of digits and at most one final newline |
| Ids.MakeIdParses | update_songlist.py:288 | an id built from a prefix and a number parses back to that prefix and number |
| Ids.LastIndexOfPack | update_songlist.py:99-105 | the loop returns the specification's last position of the pack |
| Ids.LastPackIndexMeaning | update_songlist.py:99-105 | the result is -1 exactly when no entry has the pack; otherwise the entry there has the pack and none after it does |
| Ids.GetPackPrefixAndNextNum | update_songlist.py:108-122 | the loop returns the prefix and the number one past the maximum that the scan specification defines |
| Ids.PackScanMeaning | update_songlist.py:108-122 | the next number is above every numeric suffix of an id in the pack; with no positive suffix the prefix is the converted pack name; otherwise the prefix is that of the first id carrying the maximal suffix |
| Ids.PackScanDefault | update_songlist.py:108-122 | with no positive suffix in the pack the new id is the converted pack name followed by "_1" |
| Ids.PackNewIdFresh | update_songlist.py:108-122 | the id allocated for an existing pack differs from every id already in that pack |
| Ids.PackNewIdExample | update_songlist.py:108-122 | a pack holding P_1, P_3 and P_4 receives P_5 |
| Ids.NextNewPackNumber | update_songlist.py:280-287 | the loop of the new-pack branch returns the specification's number |
| Ids.NewPackNumberMeaning | update_songlist.py:280-287 | the number is at least this run's count of new entries in the pack plus one, exceeds every numeric suffix in the pack, and equals one of those two candidates |
| Ids.NewPackIdFresh | update_songlist.py:279-288 | the id the new-pack branch builds differs from every id already in that pack |
| Matcher.FindSongIsReference | update_songlist.py:39-57 | over the maps load_songlist builds, the lookup is the reference search: the title owner, else the key owner, else (for keys of four or more characters) the first entry whose title key is prefix-related, with its own position |
| Matcher.IndexOfScan | update_songlist.py:53-56 | data.index of the entry the scan stops at is the scan position |
| Matcher.FindSongSoundAndComplete | update_songlist.py:39-57 | a hit is a valid position holding that entry, and the entry matches the title; there is no hit exactly when no entry matches by title, alias, key or (for long keys) prefix |
| Matcher.TitlePrefixIsKeyPrefix | update_songlist.py:51-55 | a title that extends the query is prefix-related to it by key |
| Matcher.EmptyKeyEntryMatchesAll | update_songlist.py:52-56 | an entry whose key is "" answers every key of four or more characters that reaches the scan, so the hit is at or before it |
| Matcher.FindSongOfNormalized | update_songlist.py:43-57 | looking up the normalised title gives the same answer as looking up the raw title |
| Matcher.CollectMissing | update_songlist.py:243-251 | the loop returns the specification's list of missing titles |
| Matcher.MissingTitlesMeaning | update_songlist.py:243-251 | a title is in the missing list exactly when it is the non-empty normalised title of some row that the lookup does not find; each is tidy |
| Difficulty.SplitOnJoin | update_songlist.py:137 | joining the pieces of a split with the separator gives back the line, and no piece holds the separator |
| Difficulty.JoinOnSplit | update_songlist.py:137 | splitting a join of separator-free pieces gives back the pieces |
| Difficulty.ParseLineMeaning | update_songlist.py:134-154 | a line is kept exactly when it has at least four tab fields whose second to fourth parse; its key is the key of the first field's text before its first "." (the whole field when it has none); the row holds those numbers, and at is set exactly when a fifth field parses; the line-end strip leaves no final newline or carriage return |
| Difficulty.KeyPosNone | update_songlist.py:155 | a key has no position in the table exactly when it is not among its keys |
| Difficulty.AbsorbGet | update_songlist.py:155-156 | one line changes only the row of its own key: a new key is added, and an old row is replaced only when the new row has at and the old one lacks it |
| Difficulty.LoadDifficulty | update_songlist.py:131-157 | the loop returns the fold of the parsed lines |
| Difficulty.FoldKeys | update_songlist.py:131-157 | the table's keys are the keys of the kept lines in first-seen order, without repeats |
| Difficulty.FoldWinner | update_songlist.py:131-157 | the row of a key is the first line with that key carrying at, or else the first line with that key |
| Difficulty.LoadMapMeaning | update_songlist.py:125-157 | for the table of a file: keys in first-seen order, distinct, and each key's row as just described |
| Difficulty.FindByKeySound | update_songlist.py:160-171 | a row found belongs to a key equal to the query, or, for a query of four or more characters not in the table, to the first key in table order prefix-related to it; a key present in the table always gets its own row |
| Difficulty.FindByKeyNone | update_songlist.py:160-171 | there is no row exactly when the key is "", or it is absent and either shorter than four characters or prefix-related to no key of the table |
| Difficulty.EmptyKeyRowAnswersLongKeys | update_songlist.py:167-170 | a row stored under "" answers every key of four or more characters |
| Difficulty.FindDifficultyOfLoaded | update_songlist.py:131-166 | a title whose key has rows in the file gets the winning row of that key |
| Overlay.ApplyDifficulties | update_songlist.py:174-193 | the array afterwards is each old entry overlaid with its row, and the returned count is the number of entries that find a row |
| Overlay.ApplyWith | update_songlist.py:176-193 | the same loop for any lookup function |
| Overlay.OverlayFacts | update_songlist.py:177-191 | only ratings change; unmatched entries are untouched; a matched entry gets the row's ez, hd and in, and at becomes the row's number or "" |
| Overlay.MatchCountCounts | update_songlist.py:176-193 | the count is the number of matched positions and at most the number of entries |
| Overlay.OverlayIdempotent | update_songlist.py:174-193 | a second overlay changes nothing and counts the same entries |
| Overlay.OverlayOfLoaded | update_songlist.py:131-193 | an entry whose key has rows in the file gets the winning row's ratings |
| Reconcile.ChosenPackMeaning | update_songlist.py:261 | an answer picks a pack exactly when it is the decimal rendering of a menu number 1..n, and then it picks that menu entry |
| Reconcile.StepRetries | update_songlist.py:266-308 | the prompt repeats exactly when the stripped answer is "0" with an empty pack name, or when it is not "0" and no menu number |
| Reconcile.Decide | update_songlist.py:264-307 | the imperative step accepts exactly when the specification step does, and yields its state; otherwise the state is unchanged |
| Reconcile.CreateEntry | update_songlist.py:276-297 | the new-pack branch computes the specification's create step |
| Reconcile.ChooseEntry | update_songlist.py:298-307 | the existing-pack branch computes the specification's choose step |
| Reconcile.PlaceAfterPack | update_songlist.py:291-305 | the entry is inserted right after the pack's last entry, or, when the pack is absent, appended (new-pack branch) or put first (existing-pack branch, as insert(0) does) |
| Reconcile.InitialPacksPresent | update_songlist.py:81-87 | every pack on the menu built by load_songlist has an entry in the catalogue |
| Reconcile.PlaceFacts | update_songlist.py:289-295 | an insertion grows the catalogue by exactly the new entry, keeps the others in order, records the entry, and leaves it the last of its pack |
| Reconcile.CreateStepFacts | update_songlist.py:276-297 | the new-pack branch inserts after the pack's last entry or at the end, the id is new within the pack, a new pack name joins the menu, and every menu pack still has an entry |
| Reconcile.ChooseStepFacts | update_songlist.py:298-307 | a chosen pack always has an entry, so the new entry goes right after its last one; the id is new within the pack; the menu is unchanged |
| Reconcile.ResolveFacts | update_songlist.py:264-307 | every accepted answer inserts exactly one entry after the last of its pack, with a fresh id in that pack, and keeps every menu pack present |

## Left out

- Reading and writing files, `json.load`/`json.dump`, `date.today()`, `Path.exists`, the stdout reconfiguration and every `print`. These are I/O. The decision to write the file back (lines 312-332) is I/O as well.
- The console loop itself: `input()`, the EOF that skips the remaining titles, and the re-prompt. `Step` returning `None` stands for a re-prompt, and `Step` applies `.strip()` to both answers. A run is a sequence of such steps.
- `float()`: the rating parser is a parameter `parse: string -> Option<real>`, and ratings are `real`, not IEEE doubles.
- Unicode tables: `IsSpace` is Python's exact whitespace set. `IsWordChar` is Python's `\w` on ASCII, Latin-1, hiragana and katakana (iteration marks and ー included), the CJK unified ideographs with Extension A, and Hangul syllables; letters and digits of other scripts (Greek, Cyrillic, the other CJK extensions and so on) are not word characters in the model, so the model's keys drop them where Python keeps them. `Lower` lower-cases ASCII and Latin-1 only. `IsDigit` is ASCII only: Python's `\d` and `int()` also accept non-ASCII digits, and those are not modelled.
- Normalize.NormalizeKeyIdempotent: holds because `Lower` maps each character to one character. Python's `str.lower()` does not always do so (`"İ".lower()` is "i" followed by U+0307, which is not a word character), so for such input Python's `normalize_key` is not idempotent; the lemma is a fact of the character-by-character approximation.
- Normalize.NormalizeKeyConcat: holds because `Lower` works character by character. Python's final-sigma rule lower-cases "Σ" by its context ("ΑΣ" gives "ας" while "Α" and "Σ" give "α" and "σ"), so for such input Python's key of a concatenation differs; the lemma is a fact of the approximation.
- Matcher.TitlePrefixIsKeyPrefix: is proved from `NormalizeKeyConcat` and rests on the same approximation. Under the final-sigma rule the key of "ΑΣ" is "ας" and that of "ΑΣΑ" is "ασα", so in Python the first is no prefix of the second.
- Dynamic typing: entries are typed records, so keys other than the modelled fields are not kept. A 难度 that is missing or not a dictionary is `None`, and that is all the `isinstance` check at line 182 distinguishes.
- `load_info_tsv` (lines 196-207): the rows reach `CollectMissing` as their title strings.
- Ids are kept fresh within their pack only. The source does not prevent two packs that convert to the same prefix from sharing an id, and neither does the model.
- `find_difficulty_for_song` takes a `data` argument it never uses; `FindDifficulty` drops it.
- The title and key maps are not updated when new entries are inserted, in the source as in the model. A later title of the same run is looked up against the catalogue as first loaded.
- `pack_choice_map` is modelled as `ChosenPack` over the current pack list. Every entry the source adds to the map is the pack at that menu position, so the two agree.
- Ids.NewSongEntry: builds the fixed new-entry record of lines 210-220 and states nothing beyond its fields.
- The new-pack branch matches ids with `^.+_(\d+)$` and the existing-pack scan with `^(.+)_(\d+)$`. Both accept the same strings with the same digit group, so both go through `ParseId`.
