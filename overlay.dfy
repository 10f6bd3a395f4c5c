/**
 * apply_difficulties: every catalogue entry whose title finds a row of the
 * difficulty table takes that row as its ratings, in place, and the number
 * of entries so updated is returned.
 */
module Overlay {
  import opened Wrappers
  import opened Normalize
  import opened Catalogue
  import opened Difficulty

  /** A lookup from a title to a row. */
  type Finder = string -> Option<DiffRecord>

  /** find_difficulty_for_song against the table m. */
  function TableFinder(m: DiffMap): Finder {
    (title: string) => FindDifficulty(title, m)
  }

  /** The ratings written for a row: at as a number, or "" when the row has
      none. */
  function RatingsOf(d: DiffRecord): Ratings {
    Ratings(d.ez, d.hd, d.in_, if d.at.Some? then AtNumber(d.at.value) else AtBlank)
  }

  /** One entry after the overlay: unchanged when its title finds no row. */
  function Overlaid(song: Song, find: Finder): Song {
    match find(song.title)
    case None => song
    case Some(d) => song.(difficulty := Some(RatingsOf(d)))
  }

  function OverlayAll(s: seq<Song>, find: Finder): (r: seq<Song>)
    ensures |r| == |s|
  {
    seq(|s|, i requires 0 <= i < |s| => Overlaid(s[i], find))
  }

  /** How many entries find a row. */
  function MatchCount(s: seq<Song>, find: Finder): nat {
    if s == [] then 0
    else MatchCount(s[..|s| - 1], find) + (if find(s[|s| - 1].title).Some? then 1 else 0)
  }

  /** apply_difficulties over the catalogue array. */
  method ApplyDifficulties(a: array<Song>, m: DiffMap) returns (updated: nat)
    modifies a
    ensures a[..] == OverlayAll(old(a[..]), TableFinder(m))
    ensures updated == MatchCount(old(a[..]), TableFinder(m))
  {
    updated := ApplyWith(a, TableFinder(m));
  }

  /** The loop of apply_difficulties, for any lookup. */
  method ApplyWith(a: array<Song>, find: Finder) returns (updated: nat)
    modifies a
    ensures a[..] == OverlayAll(old(a[..]), find)
    ensures updated == MatchCount(old(a[..]), find)
  {
    ghost var orig := a[..];
    updated := 0;
    for i := 0 to a.Length
      invariant forall j :: 0 <= j < i ==> a[j] == Overlaid(orig[j], find)
      invariant forall j :: i <= j < a.Length ==> a[j] == orig[j]
      invariant updated == MatchCount(orig[..i], find)
    {
      assert orig[..i + 1][..i] == orig[..i];
      var song := a[i];
      var diff := find(song.title);
      if diff.None? {
        continue;
      }
      a[i] := song.(difficulty := Some(RatingsOf(diff.value)));
      updated := updated + 1;
    }
    assert orig[..a.Length] == orig;
  }

  // ---------------------------------------------------------------------
  // What the overlay guarantees
  // ---------------------------------------------------------------------

  /** Only ratings change: every other field of every entry, and the order
      of the entries, stay; an entry whose title finds no row is untouched,
      and one that finds a row carries exactly that row's numbers, with ""
      for a missing at. */
  lemma OverlayFacts(s: seq<Song>, find: Finder)
    ensures var r := OverlayAll(s, find);
      forall i :: 0 <= i < |s| ==>
        r[i].(difficulty := s[i].difficulty) == s[i] &&
        (find(s[i].title).None? ==> r[i] == s[i]) &&
        (find(s[i].title).Some? ==>
          var d := find(s[i].title).value;
          r[i].difficulty.Some? && r[i].difficulty.value.ez == d.ez &&
          r[i].difficulty.value.hd == d.hd && r[i].difficulty.value.in_ == d.in_ &&
          (r[i].difficulty.value.at == AtBlank <==> d.at.None?) &&
          (d.at.Some? ==> r[i].difficulty.value.at == AtNumber(d.at.value)))
  {
  }

  /** The positions of the entries that find a row. */
  function MatchedIndices(s: seq<Song>, find: Finder): set<nat> {
    set i: nat | i < |s| && find(s[i].title).Some?
  }

  /** The returned count is the number of entries that find a row, and at
      most the number of entries. */
  lemma {:induction false} MatchCountCounts(s: seq<Song>, find: Finder)
    ensures MatchCount(s, find) == |MatchedIndices(s, find)| <= |s|
  {
    if s != [] {
      var p := s[..|s| - 1];
      var last := |s| - 1;
      MatchCountCounts(p, find);
      if find(s[last].title).Some? {
        assert MatchedIndices(s, find) == MatchedIndices(p, find) + {last};
      } else {
        assert MatchedIndices(s, find) == MatchedIndices(p, find);
      }
    }
  }

  /** Running the overlay twice changes nothing more, and finds the same
      entries again. */
  lemma OverlayIdempotent(s: seq<Song>, find: Finder)
    ensures OverlayAll(OverlayAll(s, find), find) == OverlayAll(s, find)
    ensures MatchCount(OverlayAll(s, find), find) == MatchCount(s, find)
  {
    var r := OverlayAll(s, find);
    MatchCountCounts(s, find);
    MatchCountCounts(r, find);
    assert forall i :: 0 <= i < |s| ==> r[i].title == s[i].title;
    assert MatchedIndices(r, find) == MatchedIndices(s, find);
  }

  /** An entry whose title key has rows in the file takes the Winner row of
      that key. */
  lemma OverlayOfLoaded(s: seq<Song>, lines: seq<string>, parse: string -> Option<real>, i: nat)
    requires i < |s| && NormalizeKey(s[i].title) != []
    requires Winner(Entries(lines, parse), |lines|, NormalizeKey(s[i].title)).Some?
    ensures OverlayAll(s, TableFinder(LoadMap(lines, parse)))[i].difficulty ==
      Some(RatingsOf(Winner(Entries(lines, parse), |lines|, NormalizeKey(s[i].title)).value))
  {
    FindDifficultyOfLoaded(s[i].title, lines, parse);
  }
}
