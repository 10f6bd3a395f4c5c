/**
 * find_song_by_title: the lookup cascade from a title to a catalogue entry
 * (exact normalised title, then exact key, then a two-way key prefix scan),
 * and the filter of main that keeps the titles nothing matches.
 */
module Matcher {
  import opened Wrappers
  import opened Normalize
  import opened Catalogue

  /** sk.startswith(key) or key.startswith(sk). */
  predicate PrefixRelated(sk: string, key: string) {
    key <= sk || sk <= key
  }

  /** The first position from i on whose title key is prefix-related to key. */
  function FirstPrefixAt(data: seq<Song>, key: string, i: nat, nk: string -> string): (r: Option<nat>)
    requires i <= |data|
    ensures r.Some? ==> i <= r.value < |data|
    decreases |data| - i
  {
    if i == |data| then None
    else if PrefixRelated(nk(data[i].title), key) then Some(i)
    else FirstPrefixAt(data, key, i + 1, nk)
  }

  /** FirstPrefixAt finds the first related entry from i on, and fails only
      when there is none. */
  lemma {:induction false} FirstPrefixAtFacts(data: seq<Song>, key: string, i: nat, nk: string -> string)
    requires i <= |data|
    ensures var r := FirstPrefixAt(data, key, i, nk);
      (r.Some? ==> PrefixRelated(nk(data[r.value].title), key)) &&
      (forall j :: i <= j < |data| && (r.None? || j < r.value) ==>
        !PrefixRelated(nk(data[j].title), key))
    decreases |data| - i
  {
    if i < |data| && !PrefixRelated(nk(data[i].title), key) {
      FirstPrefixAtFacts(data, key, i + 1, nk);
    }
  }

  /** data.index(song): the first position holding an equal entry. */
  function IndexOf(data: seq<Song>, song: Song): (r: nat)
    requires song in data
    ensures r < |data| && data[r] == song
  {
    if data[0] == song then 0 else 1 + IndexOf(data[1..], song)
  }

  lemma {:induction false} IndexOfFirst(data: seq<Song>, song: Song, j: nat)
    requires song in data && j < |data| && data[j] == song
    ensures IndexOf(data, song) <= j
  {
    if data[0] != song {
      assert data[1..][j - 1] == song;
      IndexOfFirst(data[1..], song, j - 1);
    }
  }

  /** The position data.index returns for the entry the scan found is the
      scan position: an earlier equal entry has the same title and would
      have been found first. */
  lemma IndexOfScan(data: seq<Song>, key: string, nk: string -> string)
    requires FirstPrefixAt(data, key, 0, nk).Some?
    ensures var i := FirstPrefixAt(data, key, 0, nk).value; IndexOf(data, data[i]) == i
  {
    var i := FirstPrefixAt(data, key, 0, nk).value;
    FirstPrefixAtFacts(data, key, 0, nk);
    IndexOfFirst(data, data[i], i);
  }

  /** The lookup cascade of find_song_by_title, for any pair of normalisers. */
  function FindWith(title: string, titles: map<string, Hit>, data: seq<Song>, keys: map<string, Hit>,
                    nt: string -> string, nk: string -> string): Option<Hit> {
    var norm := nt(title);
    if norm != [] && norm in titles then Some(titles[norm])
    else
      var key := nk(title);
      if key == [] then None
      else if key in keys then Some(keys[key])
      else if |key| >= 4 then
        match FirstPrefixAt(data, key, 0, nk)
        case Some(i) => Some(Hit(IndexOf(data, data[i]), data[i]))
        case None => None
      else None
  }

  /** find_song_by_title. */
  function FindSongByTitle(title: string, titles: map<string, Hit>, data: seq<Song>, keys: map<string, Hit>): Option<Hit> {
    FindWith(title, titles, data, keys, NormalizeTitle, NormalizeKey)
  }

  // ---------------------------------------------------------------------
  // The cascade against the catalogue, stated by search
  // ---------------------------------------------------------------------

  /** What the lookup returns over the maps load_songlist builds: the entry
      that owns the normalised title, else the entry that owns the key, else
      (for keys of four or more characters) the first entry whose title key
      is prefix-related, each with its position. */
  function FindReference(title: string, data: seq<Song>, nt: string -> string, nk: string -> string): Option<Hit> {
    match TitleReference(data, |data|, nt(title), nt)
    case Some(h) => Some(h)
    case None =>
      var key := nk(title);
      match KeyReference(data, |data|, key, nk)
      case Some(h) => Some(h)
      case None =>
        if |key| >= 4 then
          match FirstPrefixAt(data, key, 0, nk)
          case Some(i) => Some(Hit(i, data[i]))
          case None => None
        else None
  }

  lemma FindWithIsReference(title: string, data: seq<Song>, nt: string -> string, nk: string -> string)
    ensures FindWith(title, TitleIndexUpTo(data, |data|, nt), data, KeyIndexUpTo(data, |data|, nk), nt, nk) ==
      FindReference(title, data, nt, nk)
  {
    var key := nk(title);
    TitleIndexIsReference(data, |data|, nt(title), nt);
    KeyIndexIsReference(data, |data|, key, nk);
    if FirstPrefixAt(data, key, 0, nk).Some? {
      IndexOfScan(data, key, nk);
    }
  }

  /** Over the maps load_songlist builds, find_song_by_title is the search
      FindReference describes. */
  lemma FindSongIsReference(title: string, data: seq<Song>)
    ensures FindSongByTitle(title, TitleIndex(data), data, KeyIndex(data)) ==
      FindReference(title, data, NormalizeTitle, NormalizeKey)
  {
    FindWithIsReference(title, data, NormalizeTitle, NormalizeKey);
  }

  /** The entry matches the query title in one of the ways the cascade
      looks for, for any pair of normalisers. */
  predicate MatchesWith(song: Song, title: string, nt: string -> string, nk: string -> string) {
    var norm := nt(title);
    var key := nk(title);
    (norm != [] && (nt(song.title) == norm || HasName(song.aliases, norm, nt))) ||
    (key != [] && HasKey(song, key, nk)) ||
    (|key| >= 4 && PrefixRelated(nk(song.title), key))
  }

  /** The entry matches the query title: same normalised title or alias,
      same key for its title or an alias, or (for keys of four or more
      characters) a title key prefix-related to the query's. */
  predicate Matches(song: Song, title: string) {
    MatchesWith(song, title, NormalizeTitle, NormalizeKey)
  }

  lemma {:induction false} LastTitleAtNone(data: seq<Song>, n: nat, t: string, nt: string -> string)
    requires n <= |data| && LastTitleAt(data, n, t, nt).None?
    ensures forall i :: 0 <= i < n ==> nt(data[i].title) != t
  {
    if n > 0 {
      LastTitleAtNone(data, n - 1, t, nt);
    }
  }

  lemma {:induction false} FirstAliasAtNone(data: seq<Song>, n: nat, t: string, nt: string -> string)
    requires n <= |data| && FirstAliasAt(data, n, t, nt).None?
    ensures forall i :: 0 <= i < n ==> !HasName(data[i].aliases, t, nt)
  {
    if n > 0 {
      FirstAliasAtNone(data, n - 1, t, nt);
    }
  }

  lemma {:induction false} FirstKeyAtNone(data: seq<Song>, n: nat, k: string, nk: string -> string)
    requires n <= |data| && FirstKeyAt(data, n, k, nk).None?
    ensures forall i :: 0 <= i < n ==> !HasKey(data[i], k, nk)
  {
    if n > 0 {
      FirstKeyAtNone(data, n - 1, k, nk);
    }
  }

  lemma FindWithSoundAndComplete(title: string, data: seq<Song>, nt: string -> string, nk: string -> string)
    ensures var r := FindWith(title, TitleIndexUpTo(data, |data|, nt), data, KeyIndexUpTo(data, |data|, nk), nt, nk);
      (r.Some? ==> r.value.index < |data| && data[r.value.index] == r.value.song && MatchesWith(r.value.song, title, nt, nk)) &&
      (r.None? <==> forall i :: 0 <= i < |data| ==> !MatchesWith(data[i], title, nt, nk))
  {
    FindWithIsReference(title, data, nt, nk);
    var norm := nt(title);
    var key := nk(title);
    var lt := LastTitleAt(data, |data|, norm, nt);
    var fa := FirstAliasAt(data, |data|, norm, nt);
    var fk := FirstKeyAt(data, |data|, key, nk);
    FirstPrefixAtFacts(data, key, 0, nk);
    if lt.None? {
      LastTitleAtNone(data, |data|, norm, nt);
    }
    if fa.None? {
      FirstAliasAtNone(data, |data|, norm, nt);
    }
    if fk.None? {
      FirstKeyAtNone(data, |data|, key, nk);
    }
  }

  /** Over the built maps, a hit is the entry at its position and matches
      the query; no hit means no entry matches. */
  lemma FindSongSoundAndComplete(title: string, data: seq<Song>)
    ensures var r := FindSongByTitle(title, TitleIndex(data), data, KeyIndex(data));
      (r.Some? ==> r.value.index < |data| && data[r.value.index] == r.value.song && Matches(r.value.song, title)) &&
      (r.None? <==> forall i :: 0 <= i < |data| ==> !Matches(data[i], title))
  {
    FindWithSoundAndComplete(title, data, NormalizeTitle, NormalizeKey);
  }

  /** A title that is the start of an entry's title reaches that entry's key
      by the prefix scan: "The Mountain Eater" finds "The Mountain Eater from
      MUSYNC". */
  lemma TitlePrefixIsKeyPrefix(query: string, rest: string)
    ensures PrefixRelated(NormalizeKey(query + rest), NormalizeKey(query))
  {
    NormalizeKeyConcat(query, rest);
  }

  /** An entry whose title has the empty key is prefix-related to every key,
      so a query that reaches the scan always finds an entry at or before it. */
  lemma EmptyKeyEntryMatchesAll(title: string, titles: map<string, Hit>, data: seq<Song>, keys: map<string, Hit>, j: nat)
    requires j < |data| && NormalizeKey(data[j].title) == []
    requires NormalizeTitle(title) !in titles && NormalizeKey(title) !in keys && |NormalizeKey(title)| >= 4
    ensures FindSongByTitle(title, titles, data, keys).Some?
    ensures FindSongByTitle(title, titles, data, keys).value.index <= j
  {
    var key := NormalizeKey(title);
    FirstPrefixAtFacts(data, key, 0, NormalizeKey);
    assert PrefixRelated(NormalizeKey(data[j].title), key);
    var i := FirstPrefixAt(data, key, 0, NormalizeKey).value;
    IndexOfScan(data, key, NormalizeKey);
  }

  /** Matching a title already normalised gives the same answer: the
      missing-row filter of main passes normalised titles. */
  lemma FindSongOfNormalized(title: string, titles: map<string, Hit>, data: seq<Song>, keys: map<string, Hit>)
    ensures FindSongByTitle(NormalizeTitle(title), titles, data, keys) == FindSongByTitle(title, titles, data, keys)
  {
    NormalizeTitleIdempotent(title);
    NormalizeKeyOfTitle(title);
  }

  // ---------------------------------------------------------------------
  // The missing-row filter of main
  // ---------------------------------------------------------------------

  /** The normalised titles (under nt) of the rows, in row order, that are
      non-empty and lost. */
  function MissingUpTo(rows: seq<string>, nt: string -> string, lost: string -> bool): seq<string> {
    if rows == [] then []
    else
      var before := MissingUpTo(rows[..|rows| - 1], nt, lost);
      var t := nt(rows[|rows| - 1]);
      if t != [] && lost(t) then before + [t] else before
  }

  /** The titles the lookup does not find. */
  function NotFound(titles: map<string, Hit>, data: seq<Song>, keys: map<string, Hit>): string -> bool {
    (t: string) => FindSongByTitle(t, titles, data, keys).None?
  }

  /** The normalised titles of the rows, in row order, that are non-empty
      and that the lookup does not find. */
  function MissingTitles(rows: seq<string>, titles: map<string, Hit>, data: seq<Song>, keys: map<string, Hit>): seq<string> {
    MissingUpTo(rows, NormalizeTitle, NotFound(titles, data, keys))
  }

  /** The filter of main over the rows of info.tsv. */
  method CollectMissing(rows: seq<string>, titles: map<string, Hit>, data: seq<Song>, keys: map<string, Hit>)
    returns (missing: seq<string>)
    ensures missing == MissingTitles(rows, titles, data, keys)
  {
    ghost var lost := NotFound(titles, data, keys);
    missing := [];
    for i := 0 to |rows|
      invariant missing == MissingUpTo(rows[..i], NormalizeTitle, lost)
    {
      MissingUpToSnoc(rows, i, NormalizeTitle, lost);
      var title := NormalizeTitle(rows[i]);
      if title != [] && FindSongByTitle(title, titles, data, keys).None? {
        missing := missing + [title];
      }
    }
    assert rows[..|rows|] == rows;
  }

  lemma MissingUpToSnoc(rows: seq<string>, i: nat, nt: string -> string, lost: string -> bool)
    requires i < |rows|
    ensures var t := nt(rows[i]);
      MissingUpTo(rows[..i + 1], nt, lost) ==
        if t != [] && lost(t) then MissingUpTo(rows[..i], nt, lost) + [t] else MissingUpTo(rows[..i], nt, lost)
  {
    assert rows[..i + 1][..i] == rows[..i];
  }

  lemma {:induction false} MissingUpToMeaning(rows: seq<string>, nt: string -> string, lost: string -> bool)
    ensures forall t :: t in MissingUpTo(rows, nt, lost) <==>
      exists i :: 0 <= i < |rows| && t == nt(rows[i]) && t != [] && lost(t)
  {
    if rows != [] {
      var init := rows[..|rows| - 1];
      MissingUpToMeaning(init, nt, lost);
      forall t | (exists i :: 0 <= i < |rows| && t == nt(rows[i]) && t != [] && lost(t))
        ensures t in MissingUpTo(rows, nt, lost)
      {
        var i :| 0 <= i < |rows| && t == nt(rows[i]) && t != [] && lost(t);
        if i < |rows| - 1 {
          assert init[i] == rows[i];
        }
      }
      forall t | t in MissingUpTo(rows, nt, lost)
        ensures exists i :: 0 <= i < |rows| && t == nt(rows[i]) && t != [] && lost(t)
      {
        if t in MissingUpTo(init, nt, lost) {
          var i :| 0 <= i < |init| && t == nt(init[i]) && t != [] && lost(t);
          assert rows[i] == init[i];
        } else {
          assert t == nt(rows[|rows| - 1]);
        }
      }
    }
  }

  /** A title is reported missing exactly when it is the non-empty normalised
      title of some row that the lookup does not find; each is tidy. */
  lemma MissingTitlesMeaning(rows: seq<string>, titles: map<string, Hit>, data: seq<Song>, keys: map<string, Hit>)
    ensures forall t :: t in MissingTitles(rows, titles, data, keys) <==>
      exists i :: 0 <= i < |rows| && t == NormalizeTitle(rows[i]) && t != [] &&
        FindSongByTitle(t, titles, data, keys).None?
    ensures forall t :: t in MissingTitles(rows, titles, data, keys) ==> IsTidy(t)
  {
    var lost := NotFound(titles, data, keys);
    MissingUpToMeaning(rows, NormalizeTitle, lost);
    forall t | t in MissingTitles(rows, titles, data, keys) ensures IsTidy(t) {
      var i :| 0 <= i < |rows| && t == NormalizeTitle(rows[i]) && t != [] && lost(t);
      NormalizeTitleShape(rows[i]);
    }
  }
}
