/**
 * The catalogue (the "data" list of songlist.json) and the lookup structures
 * load_songlist builds over it: the exact-title map, the key map and the
 * ordered list of pack names.
 *
 * A song entry's JSON keys are Chinese: 标题 is the title, 曲包 the pack,
 * 别称 the aliases, 难度 the difficulty record and 攻略链接 the guide links.
 */
module Catalogue {
  import opened Wrappers
  import opened Normalize

  /** The fourth rating of a difficulty record: a number, or the "" that the
      difficulty overlay writes when the difficulty source has none. */
  datatype AtRating = AtNumber(value: real) | AtBlank

  /** The 难度 record: ratings for the EZ, HD, IN and AT charts. */
  datatype Ratings = Ratings(ez: real, hd: real, in_: real, at: AtRating)

  /** The 攻略链接 record: one guide link per chart. */
  datatype GuideLinks = GuideLinks(ez: string, hd: string, in_: string, at: string)

  /** One catalogue entry. A missing or non-string title, pack or id is "";
      a missing or non-dictionary 难度 is None. */
  datatype Song = Song(
    title: string,
    bpm: real,
    difficulty: Option<Ratings>,
    pack: string,
    guides: GuideLinks,
    id: string,
    aliases: seq<string>)

  /** The (position, entry) pairs stored in both lookup maps. */
  datatype Hit = Hit(index: nat, song: Song)

  function Lookup<K, V>(m: map<K, V>, k: K): Option<V> {
    if k in m then Some(m[k]) else None
  }

  /** Some name in names normalises (by norm) to t. */
  predicate HasName(names: seq<string>, t: string, norm: string -> string) {
    exists j :: 0 <= j < |names| && norm(names[j]) == t
  }

  lemma HasNameSnoc(names: seq<string>, t: string, norm: string -> string)
    requires names != []
    ensures HasName(names, t, norm) <==>
      HasName(names[..|names| - 1], t, norm) || norm(names[|names| - 1]) == t
  {
    var init := names[..|names| - 1];
    if HasName(names, t, norm) && norm(names[|names| - 1]) != t {
      var j :| 0 <= j < |names| && norm(names[j]) == t;
      assert init[j] == names[j];
    }
    if HasName(init, t, norm) {
      var j :| 0 <= j < |init| && norm(init[j]) == t;
      assert names[j] == init[j];
    }
  }

  // ---------------------------------------------------------------------
  // The index, as the loop of load_songlist builds it
  // ---------------------------------------------------------------------

  /** Registers h under the normalised form of every name whose form is
      non-empty and not yet registered, in list order. */
  function AddAbsent(m: map<string, Hit>, h: Hit, names: seq<string>, norm: string -> string): map<string, Hit>
    decreases |names|
  {
    if names == [] then m
    else
      var m' := AddAbsent(m, h, names[..|names| - 1], norm);
      var n := norm(names[|names| - 1]);
      if n != [] && n !in m' then m'[n := h] else m'
  }

  /** One round of the title map: the entry's own title overwrites, then its
      aliases are added where absent. nt is the title normaliser. */
  function TitleStep(m: map<string, Hit>, i: nat, song: Song, nt: string -> string): map<string, Hit> {
    var t := nt(song.title);
    var m1 := if t != [] then m[t := Hit(i, song)] else m;
    AddAbsent(m1, Hit(i, song), song.aliases, nt)
  }

  /** One round of the key map: the title's key and then the aliases' keys,
      each only where absent. nk is the key normaliser. */
  function KeyStep(m: map<string, Hit>, i: nat, song: Song, nk: string -> string): map<string, Hit> {
    var k := nk(song.title);
    var m1 := if k != [] && k !in m then m[k := Hit(i, song)] else m;
    AddAbsent(m1, Hit(i, song), song.aliases, nk)
  }

  function TitleIndexUpTo(data: seq<Song>, n: nat, nt: string -> string): map<string, Hit>
    requires n <= |data|
  {
    if n == 0 then map[] else TitleStep(TitleIndexUpTo(data, n - 1, nt), n - 1, data[n - 1], nt)
  }

  function KeyIndexUpTo(data: seq<Song>, n: nat, nk: string -> string): map<string, Hit>
    requires n <= |data|
  {
    if n == 0 then map[] else KeyStep(KeyIndexUpTo(data, n - 1, nk), n - 1, data[n - 1], nk)
  }

  function PacksUpTo(data: seq<Song>, n: nat): seq<string>
    requires n <= |data|
  {
    if n == 0 then []
    else
      var ps := PacksUpTo(data, n - 1);
      var p := data[n - 1].pack;
      if p != [] && p !in ps then ps + [p] else ps
  }

  /** The title map of load_songlist, keyed by normalize_title. */
  function TitleIndex(data: seq<Song>): map<string, Hit> { TitleIndexUpTo(data, |data|, NormalizeTitle) }

  /** The key map of load_songlist, keyed by normalize_key. */
  function KeyIndex(data: seq<Song>): map<string, Hit> { KeyIndexUpTo(data, |data|, NormalizeKey) }

  function PacksInOrder(data: seq<Song>): seq<string> { PacksUpTo(data, |data|) }

  /** load_songlist after reading the file: the title map, the key map and
      the ordered list of distinct packs. */
  method BuildIndex(data: seq<Song>) returns (titles: map<string, Hit>, keys: map<string, Hit>, packs: seq<string>)
    ensures titles == TitleIndex(data) && keys == KeyIndex(data) && packs == PacksInOrder(data)
  {
    titles, keys := BuildMaps(data, NormalizeTitle, NormalizeKey);
    packs := CollectPacks(data);
  }

  /** The first loop of load_songlist, for any pair of normalisers. */
  method BuildMaps(data: seq<Song>, nt: string -> string, nk: string -> string)
    returns (titles: map<string, Hit>, keys: map<string, Hit>)
    ensures titles == TitleIndexUpTo(data, |data|, nt) && keys == KeyIndexUpTo(data, |data|, nk)
  {
    titles, keys := map[], map[];
    for i := 0 to |data|
      invariant titles == TitleIndexUpTo(data, i, nt)
      invariant keys == KeyIndexUpTo(data, i, nk)
    {
      titles, keys := RegisterEntry(titles, keys, i, data[i], nt, nk);
    }
  }

  /** One iteration of the first loop of load_songlist: register the entry's
      title and key, then each alias's title and key. */
  method RegisterEntry(titles0: map<string, Hit>, keys0: map<string, Hit>, i: nat, song: Song,
                       nt: string -> string, nk: string -> string)
    returns (titles: map<string, Hit>, keys: map<string, Hit>)
    ensures titles == TitleStep(titles0, i, song, nt) && keys == KeyStep(keys0, i, song, nk)
  {
    var h := Hit(i, song);
    titles, keys := titles0, keys0;
    var title := nt(song.title);
    if title != [] {
      titles := titles[title := h];
    }
    var key := nk(song.title);
    if key != [] && key !in keys {
      keys := keys[key := h];
    }
    titles, keys := RegisterAliases(titles, keys, h, song.aliases, nt, nk);
  }

  /** The alias loop of load_songlist: each alias's normalised title and key
      are registered where absent, in alias order. */
  method RegisterAliases(titles0: map<string, Hit>, keys0: map<string, Hit>, h: Hit,
                         aliases: seq<string>, nt: string -> string, nk: string -> string)
    returns (titles: map<string, Hit>, keys: map<string, Hit>)
    ensures titles == AddAbsent(titles0, h, aliases, nt)
    ensures keys == AddAbsent(keys0, h, aliases, nk)
  {
    titles, keys := titles0, keys0;
    var j := 0;
    while j < |aliases|
      invariant j <= |aliases|
      invariant titles == AddAbsent(titles0, h, aliases[..j], nt)
      invariant keys == AddAbsent(keys0, h, aliases[..j], nk)
    {
      var alias := aliases[j];
      ghost var names := aliases[..j + 1];
      assert names[..|names| - 1] == aliases[..j] && names[|names| - 1] == alias;
      var a := nt(alias);
      if a != [] && a !in titles {
        titles := titles[a := h];
      }
      var ak := nk(alias);
      if ak != [] && ak !in keys {
        keys := keys[ak := h];
      }
      j := j + 1;
    }
    assert aliases[..j] == aliases;
  }

  /** The second loop of load_songlist: distinct non-empty packs, first seen first. */
  method CollectPacks(data: seq<Song>) returns (packs: seq<string>)
    ensures packs == PacksInOrder(data)
  {
    packs := [];
    var seen: set<string> := {};
    var i := 0;
    while i < |data|
      invariant i <= |data|
      invariant packs == PacksUpTo(data, i)
      invariant forall p :: p in seen <==> p in packs
    {
      var pack := data[i].pack;
      if pack != [] && pack !in seen {
        seen := seen + {pack};
        packs := packs + [pack];
      }
      i := i + 1;
    }
  }

  // ---------------------------------------------------------------------
  // Reference definitions: what each map holds, stated by search
  // ---------------------------------------------------------------------

  /** The last position before n whose title normalises (by nt) to t. */
  function LastTitleAt(data: seq<Song>, n: nat, t: string, nt: string -> string): (r: Option<nat>)
    requires n <= |data|
    ensures r.Some? ==> r.value < n && nt(data[r.value].title) == t
  {
    if n == 0 then None
    else if nt(data[n - 1].title) == t then Some(n - 1)
    else LastTitleAt(data, n - 1, t, nt)
  }

  /** The first position before n with an alias that normalises (by nt) to t. */
  function FirstAliasAt(data: seq<Song>, n: nat, t: string, nt: string -> string): (r: Option<nat>)
    requires n <= |data|
    ensures r.Some? ==> r.value < n && HasName(data[r.value].aliases, t, nt)
  {
    if n == 0 then None
    else if FirstAliasAt(data, n - 1, t, nt).Some? then FirstAliasAt(data, n - 1, t, nt)
    else if HasName(data[n - 1].aliases, t, nt) then Some(n - 1)
    else None
  }

  /** Whether the entry's title or one of its aliases has key k under nk. */
  predicate HasKey(song: Song, k: string, nk: string -> string) {
    nk(song.title) == k || HasName(song.aliases, k, nk)
  }

  /** The first position before n whose title or an alias has key k. */
  function FirstKeyAt(data: seq<Song>, n: nat, k: string, nk: string -> string): (r: Option<nat>)
    requires n <= |data|
    ensures r.Some? ==> r.value < n && HasKey(data[r.value], k, nk)
  {
    if n == 0 then None
    else if FirstKeyAt(data, n - 1, k, nk).Some? then FirstKeyAt(data, n - 1, k, nk)
    else if HasKey(data[n - 1], k, nk) then Some(n - 1)
    else None
  }

  /** The first position before n whose pack is p. */
  function FirstPackAt(data: seq<Song>, n: nat, p: string): (r: Option<nat>)
    requires n <= |data|
    ensures r.Some? ==> r.value < n && data[r.value].pack == p
  {
    if n == 0 then None
    else if FirstPackAt(data, n - 1, p).Some? then FirstPackAt(data, n - 1, p)
    else if data[n - 1].pack == p then Some(n - 1)
    else None
  }

  /** What the title map should hold for t: the last entry titled t; failing
      that, the first entry with an alias t; "" is never registered. */
  function TitleReference(data: seq<Song>, n: nat, t: string, nt: string -> string): Option<Hit>
    requires n <= |data|
  {
    if t == [] then None
    else match LastTitleAt(data, n, t, nt)
      case Some(i) => Some(Hit(i, data[i]))
      case None =>
        match FirstAliasAt(data, n, t, nt)
        case Some(i) => Some(Hit(i, data[i]))
        case None => None
  }

  /** What the key map should hold for k: the first entry whose title or an
      alias has key k; "" is never registered. */
  function KeyReference(data: seq<Song>, n: nat, k: string, nk: string -> string): Option<Hit>
    requires n <= |data|
  {
    if k == [] then None
    else match FirstKeyAt(data, n, k, nk)
      case Some(i) => Some(Hit(i, data[i]))
      case None => None
  }

  lemma {:induction false} AddAbsentLookup(m: map<string, Hit>, h: Hit, names: seq<string>, norm: string -> string, t: string)
    ensures Lookup(AddAbsent(m, h, names, norm), t) ==
      if t in m then Some(m[t])
      else if t != [] && HasName(names, t, norm) then Some(h)
      else None
    decreases |names|
  {
    if names != [] {
      var init := names[..|names| - 1];
      AddAbsentLookup(m, h, init, norm, t);
      HasNameSnoc(names, t, norm);
    }
  }

  /** The title map: a later entry's title overwrites an earlier one, an
      alias is registered only where nothing is, and every value is the entry
      at the stored position. */
  lemma {:induction false} TitleIndexIsReference(data: seq<Song>, n: nat, t: string, nt: string -> string)
    requires n <= |data|
    ensures Lookup(TitleIndexUpTo(data, n, nt), t) == TitleReference(data, n, t, nt)
  {
    if n > 0 {
      TitleIndexIsReference(data, n - 1, t, nt);
      var m := TitleIndexUpTo(data, n - 1, nt);
      var song := data[n - 1];
      var h := Hit(n - 1, song);
      var tt := nt(song.title);
      var m1 := if tt != [] then m[tt := h] else m;
      assert TitleIndexUpTo(data, n, nt) == AddAbsent(m1, h, song.aliases, nt);
      AddAbsentLookup(m1, h, song.aliases, nt, t);
      if t != [] && t != tt {
        assert LastTitleAt(data, n, t, nt) == LastTitleAt(data, n - 1, t, nt);
        assert Lookup(m1, t) == Lookup(m, t);
        if t !in m {
          assert LastTitleAt(data, n - 1, t, nt) == None && FirstAliasAt(data, n - 1, t, nt) == None;
        }
      }
    }
  }

  /** The key map: the first entry (by title key, then alias keys) wins. */
  lemma {:induction false} KeyIndexIsReference(data: seq<Song>, n: nat, k: string, nk: string -> string)
    requires n <= |data|
    ensures Lookup(KeyIndexUpTo(data, n, nk), k) == KeyReference(data, n, k, nk)
  {
    if n > 0 {
      KeyIndexIsReference(data, n - 1, k, nk);
      var m := KeyIndexUpTo(data, n - 1, nk);
      var song := data[n - 1];
      var k0 := nk(song.title);
      var m1 := if k0 != [] && k0 !in m then m[k0 := Hit(n - 1, song)] else m;
      assert KeyIndexUpTo(data, n, nk) == AddAbsent(m1, Hit(n - 1, song), song.aliases, nk);
      AddAbsentLookup(m1, Hit(n - 1, song), song.aliases, nk, k);
    }
  }

  /** The pack list holds each non-empty pack of the catalogue exactly once,
      in the order of first appearance. */
  lemma {:induction false} PacksInFirstSeenOrder(data: seq<Song>, n: nat)
    requires n <= |data|
    ensures var ps := PacksUpTo(data, n);
      (forall a, b :: 0 <= a < b < |ps| ==> ps[a] != ps[b]) &&
      (forall p :: p in ps <==> p != [] && FirstPackAt(data, n, p).Some?) &&
      (forall a, b :: 0 <= a < b < |ps| ==>
        FirstPackAt(data, n, ps[a]).Some? && FirstPackAt(data, n, ps[b]).Some? &&
        FirstPackAt(data, n, ps[a]).value < FirstPackAt(data, n, ps[b]).value)
  {
    if n > 0 {
      PacksInFirstSeenOrder(data, n - 1);
      var ps := PacksUpTo(data, n - 1);
      var p0 := data[n - 1].pack;
      assert forall p :: FirstPackAt(data, n - 1, p).Some? ==> FirstPackAt(data, n, p) == FirstPackAt(data, n - 1, p);
      if p0 != [] && p0 !in ps {
        var ps' := ps + [p0];
        assert FirstPackAt(data, n, p0) == Some(n - 1);
        assert forall a :: 0 <= a < |ps| ==> ps'[a] == ps[a];
      }
    }
  }
}
