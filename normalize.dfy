/**
 * The three string normalisers of update_songlist.py: normalize_title,
 * normalize_key and pack_to_id_prefix, built from small models of the Python
 * string operations they use (str.split, " ".join, str.strip, re.sub).
 */
module Normalize {
  import opened Chars

  // ---------------------------------------------------------------------
  // Sequence helpers
  // ---------------------------------------------------------------------

  /** The characters of s that satisfy p, in order (re.sub of a one-character class by ""). */
  function Filter(s: string, p: char -> bool): (r: string)
    ensures |r| <= |s|
    ensures forall i :: 0 <= i < |r| ==> p(r[i])
  {
    if s == [] then [] else (if p(s[0]) then [s[0]] else []) + Filter(s[1..], p)
  }

  /** str.lower(), character by character. */
  function LowerAll(s: string): string {
    seq(|s|, i requires 0 <= i < |s| => Lower(s[i]))
  }

  function Concat(ws: seq<string>): string {
    if ws == [] then [] else ws[0] + Concat(ws[1..])
  }

  predicate NotSpace(c: char) { !IsSpace(c) }

  /** The non-whitespace characters of s, in order. */
  function NonSpace(s: string): string { Filter(s, NotSpace) }

  lemma {:induction false} FilterConcat(a: string, b: string, p: char -> bool)
    ensures Filter(a + b, p) == Filter(a, p) + Filter(b, p)
  {
    if a == [] {
      assert a + b == b;
    } else {
      assert (a + b)[1..] == a[1..] + b;
      FilterConcat(a[1..], b, p);
    }
  }

  lemma {:induction false} FilterKeepsAll(s: string, p: char -> bool)
    requires forall i :: 0 <= i < |s| ==> p(s[i])
    ensures Filter(s, p) == s
  {
    if s != [] {
      FilterKeepsAll(s[1..], p);
    }
  }

  lemma {:induction false} FilterDropsAll(s: string, p: char -> bool)
    requires forall i :: 0 <= i < |s| ==> !p(s[i])
    ensures Filter(s, p) == []
  {
    if s != [] {
      FilterDropsAll(s[1..], p);
    }
  }

  /** Two filters in a row keep what both tests accept. */
  lemma {:induction false} FilterFilter(s: string, p: char -> bool, q: char -> bool, pq: char -> bool)
    requires forall c :: pq(c) == (p(c) && q(c))
    ensures Filter(Filter(s, p), q) == Filter(s, pq)
  {
    if s != [] {
      var head := if p(s[0]) then [s[0]] else [];
      FilterConcat(head, Filter(s[1..], p), q);
      FilterFilter(s[1..], p, q, pq);
      if p(s[0]) {
        assert Filter(head, q) == (if q(s[0]) then [s[0]] else []) + Filter(head[1..], q);
        assert head[1..] == [];
      }
    }
  }

  lemma LowerAllConcat(a: string, b: string)
    ensures LowerAll(a + b) == LowerAll(a) + LowerAll(b)
  {
  }

  // ---------------------------------------------------------------------
  // Python str.split(), " ".join and str.strip()
  // ---------------------------------------------------------------------

  /** Drops the leading characters that satisfy p (str.lstrip). */
  function TrimStart(s: string, p: char -> bool): (t: string)
    ensures |t| <= |s|
  {
    if s != [] && p(s[0]) then TrimStart(s[1..], p) else s
  }

  /** What TrimStart drops is a run of p-characters and what it keeps is a suffix. */
  lemma {:induction false} TrimStartFacts(s: string, p: char -> bool)
    ensures var t := TrimStart(s, p);
      (t == [] || !p(t[0])) &&
      t == s[|s| - |t|..] && forall i :: 0 <= i < |s| - |t| ==> p(s[i])
  {
    if s != [] && p(s[0]) {
      TrimStartFacts(s[1..], p);
    }
  }

  /** Drops the trailing characters that satisfy p (str.rstrip). */
  function TrimEnd(s: string, p: char -> bool): (t: string)
    ensures |t| <= |s|
  {
    if s != [] && p(s[|s| - 1]) then TrimEnd(s[..|s| - 1], p) else s
  }

  /** What TrimEnd drops is a run of p-characters and what it keeps is a prefix. */
  lemma {:induction false} TrimEndFacts(s: string, p: char -> bool)
    ensures var t := TrimEnd(s, p);
      (t == [] || !p(t[|t| - 1])) &&
      t == s[..|t|] && forall i :: |t| <= i < |s| ==> p(s[i])
  {
    if s != [] && p(s[|s| - 1]) {
      TrimEndFacts(s[..|s| - 1], p);
    }
  }

  /** str.strip(chars): both ends. */
  function Trim(s: string, p: char -> bool): string {
    TrimEnd(TrimStart(s, p), p)
  }

  /** str.strip() with no argument. */
  function Strip(s: string): string { Trim(s, IsSpace) }

  /** The longest prefix of s that holds no whitespace. */
  function TakeWord(s: string): (w: string)
    ensures |w| <= |s|
    ensures s != [] && !IsSpace(s[0]) ==> w != []
  {
    if s == [] || IsSpace(s[0]) then [] else [s[0]] + TakeWord(s[1..])
  }

  lemma {:induction false} TakeWordFacts(s: string)
    ensures var w := TakeWord(s);
      w == s[..|w|] && (forall i :: 0 <= i < |w| ==> !IsSpace(w[i])) && (|w| == |s| || IsSpace(s[|w|]))
  {
    if s != [] && !IsSpace(s[0]) {
      TakeWordFacts(s[1..]);
    }
  }

  predicate IsWord(w: string) {
    w != [] && forall i :: 0 <= i < |w| ==> !IsSpace(w[i])
  }

  /** str.split() with no separator: the maximal runs of non-whitespace. */
  function SplitWords(s: string): seq<string>
    decreases |s|
  {
    var t := TrimStart(s, IsSpace);
    if t == [] then []
    else
      var w := TakeWord(t);
      [w] + SplitWords(t[|w|..])
  }

  lemma {:induction false} SplitWordsAreWords(s: string)
    ensures forall k :: 0 <= k < |SplitWords(s)| ==> IsWord(SplitWords(s)[k])
    decreases |s|
  {
    var t := TrimStart(s, IsSpace);
    TrimStartFacts(s, IsSpace);
    if t != [] {
      var w := TakeWord(t);
      TakeWordFacts(t);
      SplitWordsAreWords(t[|w|..]);
      assert SplitWords(s) == [w] + SplitWords(t[|w|..]);
    }
  }

  /** " ".join(ws) */
  function JoinSpace(ws: seq<string>): string {
    if ws == [] then []
    else if |ws| == 1 then ws[0]
    else ws[0] + " " + JoinSpace(ws[1..])
  }

  /** A title as normalize_title leaves it: no whitespace at either end, every
      whitespace character an ASCII space, and no two spaces in a row. */
  predicate IsTidy(r: string) {
    (r == [] || (!IsSpace(r[0]) && !IsSpace(r[|r| - 1]))) &&
    (forall i :: 0 <= i < |r| && IsSpace(r[i]) ==> r[i] == ' ') &&
    (forall i :: 0 <= i < |r| - 1 && r[i] == ' ' ==> r[i + 1] != ' ')
  }

  // ---------------------------------------------------------------------
  // normalize_title
  // ---------------------------------------------------------------------

  /** normalize_title: " ".join(s.split()).strip(), and "" for "". */
  function NormalizeTitle(s: string): string {
    if s == [] then [] else Strip(JoinSpace(SplitWords(s)))
  }

  lemma {:induction false} TakeWordOfWord(w: string, rest: string)
    requires forall i :: 0 <= i < |w| ==> !IsSpace(w[i])
    requires rest == [] || IsSpace(rest[0])
    ensures TakeWord(w + rest) == w
  {
    if w != [] {
      assert (w + rest)[1..] == w[1..] + rest;
      TakeWordOfWord(w[1..], rest);
    } else {
      assert w + rest == rest;
    }
  }

  /** Joining words with single spaces gives a tidy string. */
  lemma {:induction false} JoinIsTidy(ws: seq<string>)
    requires forall k :: 0 <= k < |ws| ==> IsWord(ws[k])
    ensures IsTidy(JoinSpace(ws))
    ensures ws != [] ==> JoinSpace(ws) != []
  {
    if |ws| >= 2 {
      var w, r' := ws[0], JoinSpace(ws[1..]);
      JoinIsTidy(ws[1..]);
      var r := w + " " + r';
      assert JoinSpace(ws) == r;
      assert forall i :: |w| < i < |r| ==> r[i] == r'[i - |w| - 1];
      assert forall i :: 0 <= i < |w| ==> r[i] == w[i];
      assert r[|w|] == ' ';
    }
  }

  lemma StripTidy(r: string)
    requires IsTidy(r)
    ensures Strip(r) == r
  {
  }

  /** The words of a tidy join are the words joined (str.split undoes " ".join). */
  lemma {:induction false} SplitJoin(ws: seq<string>)
    requires forall k :: 0 <= k < |ws| ==> IsWord(ws[k])
    ensures SplitWords(JoinSpace(ws)) == ws
  {
    if |ws| == 1 {
      SplitOneWord(ws[0], []);
      assert ws[0] + [] == ws[0];
      assert SplitWords([]) == [];
    } else if |ws| >= 2 {
      var w, r' := ws[0], JoinSpace(ws[1..]);
      JoinStartsWithWord(ws[1..]);
      SplitJoin(ws[1..]);
      SplitAfterSpace(r');
      SplitOneWord(w, " " + r');
      assert JoinSpace(ws) == w + (" " + r');
      assert [w] + ws[1..] == ws;
    }
  }

  lemma JoinStartsWithWord(ws: seq<string>)
    requires forall k :: 0 <= k < |ws| ==> IsWord(ws[k])
    requires ws != []
    ensures JoinSpace(ws) != [] && !IsSpace(JoinSpace(ws)[0])
  {
    assert IsWord(ws[0]);
  }

  lemma SplitAfterSpace(r: string)
    requires r == [] || !IsSpace(r[0])
    ensures SplitWords(" " + r) == SplitWords(r)
  {
    assert (" " + r)[1..] == r;
    assert TrimStart(" " + r, IsSpace) == TrimStart(r, IsSpace) == r;
  }

  /** Splitting a word followed by whitespace (or nothing) yields that word first. */
  lemma SplitOneWord(w: string, rest: string)
    requires IsWord(w)
    requires rest == [] || IsSpace(rest[0])
    ensures SplitWords(w + rest) == [w] + SplitWords(rest)
  {
    var r := w + rest;
    assert r[0] == w[0];
    assert TrimStart(r, IsSpace) == r;
    TakeWordOfWord(w, rest);
    assert r[|w|..] == rest;
  }

  lemma {:induction false} NonSpaceOfJoin(ws: seq<string>)
    requires forall k :: 0 <= k < |ws| ==> IsWord(ws[k])
    ensures NonSpace(JoinSpace(ws)) == Concat(ws)
  {
    if |ws| == 1 {
      FilterKeepsAll(ws[0], NotSpace);
      assert Concat(ws[1..]) == [];
      assert ws[0] + [] == ws[0];
    } else if |ws| >= 2 {
      NonSpaceOfJoin(ws[1..]);
      FilterConcat(ws[0] + " ", JoinSpace(ws[1..]), NotSpace);
      FilterConcat(ws[0], " ", NotSpace);
      FilterKeepsAll(ws[0], NotSpace);
      assert Filter(" ", NotSpace) == [] + Filter(" "[1..], NotSpace);
    }
  }

  lemma NonSpaceOfTrimStart(s: string)
    ensures NonSpace(TrimStart(s, IsSpace)) == NonSpace(s)
  {
    var t := TrimStart(s, IsSpace);
    TrimStartFacts(s, IsSpace);
    var lead := s[..|s| - |t|];
    assert s == lead + t;
    FilterConcat(lead, t, NotSpace);
    FilterDropsAll(lead, NotSpace);
  }

  lemma NonSpaceOfWord(t: string)
    ensures NonSpace(t) == TakeWord(t) + NonSpace(t[|TakeWord(t)|..])
  {
    var w := TakeWord(t);
    TakeWordFacts(t);
    assert t == w + t[|w|..];
    FilterConcat(w, t[|w|..], NotSpace);
    FilterKeepsAll(w, NotSpace);
  }

  lemma {:induction false} NonSpaceOfSplit(s: string)
    ensures NonSpace(s) == Concat(SplitWords(s))
    decreases |s|
  {
    var t := TrimStart(s, IsSpace);
    NonSpaceOfTrimStart(s);
    TrimStartFacts(s, IsSpace);
    if t != [] {
      var w := TakeWord(t);
      NonSpaceOfWord(t);
      NonSpaceOfSplit(t[|w|..]);
      var ws := SplitWords(s);
      assert ws == [w] + SplitWords(t[|w|..]);
      assert ws[0] == w && ws[1..] == SplitWords(t[|w|..]);
    }
  }

  /** normalize_title keeps the words of s (its maximal whitespace-free runs)
      in order, separated by single spaces: the result is tidy and splits into
      the same words; it keeps every non-whitespace character in order, and it
      is empty exactly when s is all whitespace. */
  lemma NormalizeTitleShape(s: string)
    ensures IsTidy(NormalizeTitle(s))
    ensures SplitWords(NormalizeTitle(s)) == SplitWords(s)
    ensures NonSpace(NormalizeTitle(s)) == NonSpace(s)
    ensures NormalizeTitle(s) == [] <==> NonSpace(s) == []
  {
    if s != [] {
      var ws := SplitWords(s);
      SplitWordsAreWords(s);
      JoinIsTidy(ws);
      StripTidy(JoinSpace(ws));
      NonSpaceOfJoin(ws);
      NonSpaceOfSplit(s);
      ConcatOfWordsEmpty(ws);
      SplitJoin(ws);
    }
  }

  lemma {:induction false} ConcatOfWordsEmpty(ws: seq<string>)
    requires forall k :: 0 <= k < |ws| ==> IsWord(ws[k])
    ensures Concat(ws) == [] <==> ws == []
  {
    if ws != [] {
      assert |Concat(ws)| >= |ws[0]|;
    }
  }

  /** normalize_title is idempotent. */
  lemma NormalizeTitleIdempotent(s: string)
    ensures NormalizeTitle(NormalizeTitle(s)) == NormalizeTitle(s)
  {
    if s != [] {
      var ws := SplitWords(s);
      SplitWordsAreWords(s);
      JoinIsTidy(ws);
      StripTidy(JoinSpace(ws));
      if ws != [] {
        SplitJoin(ws);
      }
    }
  }

  // ---------------------------------------------------------------------
  // normalize_key
  // ---------------------------------------------------------------------

  /** Survives the first substitution: not whitespace and not listed punctuation. */
  predicate KeptByFirstPass(c: char) { !IsSpace(c) && !IsListedPunct(c) }

  /** Survives the second substitution: outside the full-width blocks. */
  predicate OutsideFullWidthBlock(c: char) { !InFullWidthBlock(c) }

  /** Survives all three substitutions at once. */
  predicate IsKeyChar(c: char) { KeptByFirstPass(c) && OutsideFullWidthBlock(c) && IsWordChar(c) }

  /** normalize_key: strip whitespace and listed punctuation, then the
      full-width blocks, then every non-word character, then lower-case. */
  function NormalizeKey(s: string): string {
    if s == [] then []
    else LowerAll(Filter(Filter(Filter(s, KeptByFirstPass), OutsideFullWidthBlock), IsWordChar))
  }

  /** The three substitutions amount to one filter by IsKeyChar. */
  lemma NormalizeKeyOnePass(s: string)
    ensures NormalizeKey(s) == LowerAll(Filter(s, IsKeyChar))
  {
    if s != [] {
      var first := (c: char) => KeptByFirstPass(c) && OutsideFullWidthBlock(c);
      FilterFilter(s, KeptByFirstPass, OutsideFullWidthBlock, first);
      FilterFilter(s, first, IsWordChar, IsKeyChar);
    }
  }

  /** Every character of a key is a lower-case word character and is neither
      whitespace, listed punctuation nor in a full-width block. */
  lemma NormalizeKeyChars(s: string)
    ensures forall i :: 0 <= i < |NormalizeKey(s)| ==>
      IsKeyChar(NormalizeKey(s)[i]) && Lower(NormalizeKey(s)[i]) == NormalizeKey(s)[i]
  {
    NormalizeKeyOnePass(s);
    var f := Filter(s, IsKeyChar);
    forall i | 0 <= i < |f| ensures IsKeyChar(Lower(f[i])) && Lower(Lower(f[i])) == Lower(f[i]) {
      LowerKeepsWordChar(f[i]);
      WordCharIsPlain(Lower(f[i]));
    }
  }

  /** normalize_key is idempotent. */
  lemma NormalizeKeyIdempotent(s: string)
    ensures NormalizeKey(NormalizeKey(s)) == NormalizeKey(s)
  {
    var k := NormalizeKey(s);
    NormalizeKeyChars(s);
    NormalizeKeyOnePass(k);
    FilterKeepsAll(k, IsKeyChar);
  }

  /** normalize_key distributes over concatenation, so the key of a title is a
      prefix of the key of any extension of it. */
  lemma NormalizeKeyConcat(a: string, b: string)
    ensures NormalizeKey(a + b) == NormalizeKey(a) + NormalizeKey(b)
  {
    NormalizeKeyOnePass(a + b);
    NormalizeKeyOnePass(a);
    NormalizeKeyOnePass(b);
    FilterConcat(a, b, IsKeyChar);
    LowerAllConcat(Filter(a, IsKeyChar), Filter(b, IsKeyChar));
  }

  /** normalize_title never changes the key of a title. */
  lemma NormalizeKeyOfTitle(s: string)
    ensures NormalizeKey(NormalizeTitle(s)) == NormalizeKey(s)
  {
    var t := NormalizeTitle(s);
    NormalizeTitleShape(s);
    NormalizeKeyOnePass(s);
    NormalizeKeyOnePass(t);
    FilterFilter(s, NotSpace, IsKeyChar, IsKeyChar);
    FilterFilter(t, NotSpace, IsKeyChar, IsKeyChar);
  }

  // ---------------------------------------------------------------------
  // pack_to_id_prefix
  // ---------------------------------------------------------------------

  predicate IsSeparator(c: char) { IsSpace(c) || c == '-' }

  predicate IsUnderscore(c: char) { c == '_' }

  /** re.sub(r"[...]+", "_", s): each maximal run of p-characters becomes one
      underscore; inRun says the character before s was in such a run. */
  function ReplaceRuns(s: string, p: char -> bool, inRun: bool): string {
    if s == [] then []
    else if p(s[0]) then (if inRun then [] else "_") + ReplaceRuns(s[1..], p, true)
    else [s[0]] + ReplaceRuns(s[1..], p, false)
  }

  predicate NoSeparator(r: string) {
    forall i :: 0 <= i < |r| ==> !IsSeparator(r[i])
  }

  predicate NoDoubleUnderscore(r: string) {
    forall i :: 0 <= i < |r| - 1 ==> !(r[i] == '_' && r[i + 1] == '_')
  }

  /** An id prefix as pack_to_id_prefix produces it. */
  predicate IsIdPrefix(r: string) {
    r != [] && r[0] != '_' && r[|r| - 1] != '_' && NoSeparator(r) && NoDoubleUnderscore(r)
  }

  /** pack_to_id_prefix: strip, turn whitespace/hyphen runs into "_", collapse
      repeated "_", strip "_" at both ends, and fall back to "Pack". */
  function PackToIdPrefix(pack: string): string {
    var s := Strip(pack);
    var s1 := ReplaceRuns(s, IsSeparator, false);
    var s2 := ReplaceRuns(s1, IsUnderscore, false);
    var s3 := Trim(s2, IsUnderscore);
    if s3 == [] then "Pack" else s3
  }

  /** A run replacement never brings back a character q rejects, provided every
      such character was replaced. */
  lemma {:induction false} ReplaceRunsAvoids(s: string, p: char -> bool, q: char -> bool, inRun: bool)
    requires !q('_')
    requires forall i :: 0 <= i < |s| && q(s[i]) ==> p(s[i])
    ensures forall i :: 0 <= i < |ReplaceRuns(s, p, inRun)| ==> !q(ReplaceRuns(s, p, inRun)[i])
  {
    if s != [] {
      ReplaceRunsAvoids(s[1..], p, q, !p(s[0]) ==> false);
      assert ReplaceRuns(s[1..], p, p(s[0])) == ReplaceRuns(s[1..], p, !p(s[0]) ==> false);
    }
  }

  /** Collapsing underscore runs leaves no two underscores in a row. */
  lemma {:induction false} CollapseNoDouble(s: string, inRun: bool)
    ensures NoDoubleUnderscore(ReplaceRuns(s, IsUnderscore, inRun))
    ensures inRun ==> ReplaceRuns(s, IsUnderscore, inRun) == [] || ReplaceRuns(s, IsUnderscore, inRun)[0] != '_'
  {
    if s != [] {
      CollapseNoDouble(s[1..], s[0] == '_');
      var tail := ReplaceRuns(s[1..], IsUnderscore, s[0] == '_');
      if s[0] == '_' && !inRun {
        ConsNoDouble('_', tail);
      } else if s[0] != '_' {
        ConsNoDouble(s[0], tail);
      }
    }
  }

  lemma ConsNoDouble(x: char, tail: string)
    requires NoDoubleUnderscore(tail)
    requires x == '_' ==> tail == [] || tail[0] != '_'
    ensures NoDoubleUnderscore([x] + tail)
  {
    var r := [x] + tail;
    assert forall i :: 1 <= i < |r| ==> r[i] == tail[i - 1];
  }

  /** A run replacement with nothing to replace changes nothing. */
  lemma {:induction false} ReplaceRunsIdentity(s: string, p: char -> bool, inRun: bool)
    requires forall i :: 0 <= i < |s| ==> !p(s[i])
    ensures ReplaceRuns(s, p, inRun) == s
  {
    if s != [] {
      ReplaceRunsIdentity(s[1..], p, false);
    }
  }

  /** Collapsing changes nothing in a string with no "__" (and no leading "_"
      right after a run). */
  lemma {:induction false} CollapseIdentity(s: string, inRun: bool)
    requires NoDoubleUnderscore(s)
    requires inRun ==> s == [] || s[0] != '_'
    ensures ReplaceRuns(s, IsUnderscore, inRun) == s
  {
    if s != [] {
      CollapseIdentity(s[1..], s[0] == '_');
    }
  }

  /** The prefix is never empty, holds no whitespace or hyphen, no "__", and
      neither starts nor ends with "_". */
  lemma PackToIdPrefixShape(pack: string)
    ensures IsIdPrefix(PackToIdPrefix(pack))
  {
    var s := Strip(pack);
    var s1 := ReplaceRuns(s, IsSeparator, false);
    var s2 := ReplaceRuns(s1, IsUnderscore, false);
    ReplaceRunsAvoids(s, IsSeparator, IsSeparator, false);
    ReplaceRunsAvoids(s1, IsUnderscore, IsSeparator, false);
    CollapseNoDouble(s1, false);
    TrimUnderscoresShape(s2);
  }

  predicate NotUnderscore(c: char) { c != '_' }

  /** A pack name made only of whitespace, hyphens and underscores, the empty
      name included, falls back to "Pack". */
  lemma PackToIdPrefixFallback(pack: string)
    requires forall i :: 0 <= i < |pack| ==> IsSeparator(pack[i]) || pack[i] == '_'
    ensures PackToIdPrefix(pack) == "Pack"
  {
    var a := TrimStart(pack, IsSpace);
    TrimStartFacts(pack, IsSpace);
    var s := TrimEnd(a, IsSpace);
    TrimEndFacts(a, IsSpace);
    assert forall i :: 0 <= i < |s| ==> s[i] == pack[|pack| - |a| + i];
    var s1 := ReplaceRuns(s, IsSeparator, false);
    ReplaceRunsAvoids(s, IsSeparator, NotUnderscore, false);
    var s2 := ReplaceRuns(s1, IsUnderscore, false);
    ReplaceRunsAvoids(s1, IsUnderscore, NotUnderscore, false);
    var b := TrimStart(s2, IsUnderscore);
    TrimStartFacts(s2, IsUnderscore);
  }

  /** Stripping "_" from a string without separators or "__" leaves either
      nothing or a valid id prefix. */
  lemma TrimUnderscoresShape(s: string)
    requires NoSeparator(s) && NoDoubleUnderscore(s)
    ensures Trim(s, IsUnderscore) == [] || IsIdPrefix(Trim(s, IsUnderscore))
  {
    var a := TrimStart(s, IsUnderscore);
    TrimStartFacts(s, IsUnderscore);
    assert a == s[|s| - |a|..] && (a == [] || a[0] != '_');
    SliceKeepsShape(s, |s| - |a|, |s|);
    var t := TrimEnd(a, IsUnderscore);
    TrimEndFacts(a, IsUnderscore);
    assert t == a[..|t|] && (t == [] || t[|t| - 1] != '_');
    SliceKeepsShape(a, 0, |t|);
    if t != [] {
      assert t[0] == a[0];
      assert IsIdPrefix(t);
    }
  }

  /** Any slice of a string without separators or "__" has neither. */
  lemma SliceKeepsShape(s: string, lo: nat, hi: nat)
    requires lo <= hi <= |s|
    requires NoSeparator(s) && NoDoubleUnderscore(s)
    ensures NoSeparator(s[lo..hi]) && NoDoubleUnderscore(s[lo..hi])
  {
    var t := s[lo..hi];
    assert forall i :: 0 <= i < |t| ==> t[i] == s[lo + i];
  }

  /** A name that already is a valid id prefix is its own prefix. */
  lemma PackToIdPrefixFixed(pack: string)
    requires IsIdPrefix(pack)
    ensures PackToIdPrefix(pack) == pack
  {
    assert Strip(pack) == pack;
    ReplaceRunsIdentity(pack, IsSeparator, false);
    CollapseIdentity(pack, false);
  }

  /** pack_to_id_prefix is idempotent. */
  lemma PackToIdPrefixIdempotent(pack: string)
    ensures PackToIdPrefix(PackToIdPrefix(pack)) == PackToIdPrefix(pack)
  {
    PackToIdPrefixShape(pack);
    PackToIdPrefixFixed(PackToIdPrefix(pack));
  }

  /** A run replacement passes a leading stretch without p-characters through. */
  lemma {:induction false} ReplaceRunsPlainPrefix(w: string, rest: string, p: char -> bool, inRun: bool)
    requires w != [] && forall i :: 0 <= i < |w| ==> !p(w[i])
    ensures ReplaceRuns(w + rest, p, inRun) == w + ReplaceRuns(rest, p, false)
  {
    assert (w + rest)[0] == w[0] && (w + rest)[1..] == w[1..] + rest;
    if |w| > 1 {
      ReplaceRunsPlainPrefix(w[1..], rest, p, false);
    } else {
      assert w[1..] + rest == rest;
    }
  }

  lemma StripPlain(s: string)
    requires s != [] && !IsSpace(s[0]) && !IsSpace(s[|s| - 1])
    ensures Strip(s) == s
  {
  }

  lemma TrimUnderscorePlain(s: string)
    requires s != [] && s[0] != '_' && s[|s| - 1] != '_'
    ensures Trim(s, IsUnderscore) == s
  {
  }

  /** Two valid prefixes around one space or hyphen become those prefixes
      joined by "_": "Fresh Pack" gives "Fresh_Pack". */
  lemma PackToIdPrefixJoins(a: string, c: char, b: string)
    requires IsIdPrefix(a) && IsIdPrefix(b) && IsSeparator(c)
    ensures PackToIdPrefix(a + [c] + b) == a + "_" + b
  {
    var name := a + [c] + b;
    StripPlain(name);
    assert name == a + ([c] + b);
    ReplaceRunsPlainPrefix(a, [c] + b, IsSeparator, false);
    assert ([c] + b)[1..] == b;
    ReplaceRunsIdentity(b, IsSeparator, true);
    var s1 := a + "_" + b;
    assert ReplaceRuns(name, IsSeparator, false) == s1;
    forall i | 0 <= i < |s1| - 1
      ensures !(s1[i] == '_' && s1[i + 1] == '_')
    {
      if i < |a| - 1 {
        assert s1[i] == a[i] && s1[i + 1] == a[i + 1];
      } else if i == |a| - 1 {
        assert s1[i] == a[|a| - 1];
      } else if i == |a| {
        assert s1[i + 1] == b[0];
      } else {
        assert s1[i] == b[i - |a| - 1] && s1[i + 1] == b[i - |a|];
      }
    }
    CollapseIdentity(s1, false);
    TrimUnderscorePlain(s1);
  }

  // ---------------------------------------------------------------------
  // pack_to_id_prefix stated by the words of the pack name
  // ---------------------------------------------------------------------

  /** A character pack_to_id_prefix keeps as it is: neither whitespace, "-"
      nor "_". */
  predicate IsIdChar(c: char) { !IsSeparator(c) && c != '_' }

  /** The longest prefix of s made of IdChars. */
  function TakeId(s: string): (w: string)
    ensures |w| <= |s|
    ensures s != [] && IsIdChar(s[0]) ==> w != []
  {
    if s == [] || !IsIdChar(s[0]) then [] else [s[0]] + TakeId(s[1..])
  }

  /** The words of a pack name: its maximal runs of IdChars, in order. */
  function IdWords(s: string): (ws: seq<string>)
    ensures forall k :: 0 <= k < |ws| ==> ws[k] != []
    decreases |s|
  {
    if s == [] then []
    else if !IsIdChar(s[0]) then IdWords(s[1..])
    else
      var w := TakeId(s);
      [w] + IdWords(s[|w|..])
  }

  /** "_".join(ws). */
  function JoinUnderscore(ws: seq<string>): (r: string)
    ensures ws != [] && ws[0] != [] ==> r != []
  {
    if ws == [] then [] else if |ws| == 1 then ws[0] else ws[0] + "_" + JoinUnderscore(ws[1..])
  }

  /** s with every character that is not an IdChar written as "_". */
  function Mark(s: string): (r: string)
    ensures |r| == |s|
  {
    if s == [] then [] else [if IsIdChar(s[0]) then s[0] else '_'] + Mark(s[1..])
  }

  lemma {:induction false} TakeIdFacts(s: string)
    ensures var w := TakeId(s);
      w == s[..|w|] && (forall i :: 0 <= i < |w| ==> IsIdChar(w[i])) && (|w| == |s| || !IsIdChar(s[|w|]))
  {
    if s != [] && IsIdChar(s[0]) {
      TakeIdFacts(s[1..]);
    }
  }

  lemma {:induction false} TakeIdAppend(x: string, y: string)
    requires TakeId(x) != x || y == [] || !IsIdChar(y[0])
    ensures TakeId(x + y) == TakeId(x)
  {
    if x == [] {
      assert x + y == y;
    } else {
      assert (x + y)[0] == x[0] && (x + y)[1..] == x[1..] + y;
      if IsIdChar(x[0]) {
        assert x == [x[0]] + x[1..];
        TakeIdAppend(x[1..], y);
      }
    }
  }

  /** A string has no words exactly when it has no IdChar. */
  lemma {:induction false} IdWordsNone(y: string)
    ensures IdWords(y) == [] <==> forall i :: 0 <= i < |y| ==> !IsIdChar(y[i])
    decreases |y|
  {
    if y != [] && !IsIdChar(y[0]) {
      IdWordsNone(y[1..]);
      assert forall i :: 1 <= i < |y| ==> y[i] == y[1..][i - 1];
    }
  }

  lemma {:induction false} IdWordsAppendPlain(x: string, y: string)
    requires forall i :: 0 <= i < |y| ==> !IsIdChar(y[i])
    ensures IdWords(x + y) == IdWords(x)
    decreases |x|
  {
    if x == [] {
      assert x + y == y;
      IdWordsNone(y);
    } else {
      assert (x + y)[0] == x[0] && (x + y)[1..] == x[1..] + y;
      if !IsIdChar(x[0]) {
        IdWordsAppendPlain(x[1..], y);
      } else {
        var w := TakeId(x);
        TakeIdFacts(x);
        TakeIdAppend(x, y);
        assert (x + y)[|w|..] == x[|w|..] + y;
        IdWordsAppendPlain(x[|w|..], y);
      }
    }
  }

  lemma {:induction false} IdWordsTrimStart(s: string)
    ensures IdWords(TrimStart(s, IsSpace)) == IdWords(s)
  {
    if s != [] && IsSpace(s[0]) {
      IdWordsTrimStart(s[1..]);
    }
  }

  /** Stripping whitespace keeps the words. */
  lemma IdWordsOfStrip(s: string)
    ensures IdWords(Strip(s)) == IdWords(s)
  {
    var a := TrimStart(s, IsSpace);
    IdWordsTrimStart(s);
    var t := TrimEnd(a, IsSpace);
    TrimEndFacts(a, IsSpace);
    assert a == t + a[|t|..];
    IdWordsAppendPlain(t, a[|t|..]);
  }

  lemma ReplaceRunsCons(c: char, x: string, p: char -> bool, inRun: bool)
    ensures ReplaceRuns([c] + x, p, inRun) ==
      if p(c) then (if inRun then [] else "_") + ReplaceRuns(x, p, true) else [c] + ReplaceRuns(x, p, false)
  {
    assert ([c] + x)[0] == c && ([c] + x)[1..] == x;
  }

  /** Turning separator runs into "_" and then collapsing "_" runs is the
      same as writing every non-IdChar as "_" and collapsing. */
  lemma {:induction false} ReplaceTwice(s: string, a: bool, b: bool)
    requires a ==> b
    ensures ReplaceRuns(ReplaceRuns(s, IsSeparator, a), IsUnderscore, b) == ReplaceRuns(Mark(s), IsUnderscore, b)
    decreases |s|
  {
    if s != [] {
      var c := s[0];
      var x := Mark(s[1..]);
      if IsIdChar(c) {
        ReplaceTwice(s[1..], false, false);
        ReplaceRunsCons(c, ReplaceRuns(s[1..], IsSeparator, false), IsUnderscore, b);
        ReplaceRunsCons(c, x, IsUnderscore, b);
      } else if c == '_' {
        assert ReplaceRuns(s, IsSeparator, a) == [c] + ReplaceRuns(s[1..], IsSeparator, false);
        assert Mark(s) == [c] + x;
        ReplaceTwice(s[1..], false, true);
        ReplaceRunsCons('_', ReplaceRuns(s[1..], IsSeparator, false), IsUnderscore, b);
        ReplaceRunsCons('_', x, IsUnderscore, b);
      } else {
        var inner := ReplaceRuns(s[1..], IsSeparator, true);
        assert Mark(s) == ['_'] + x;
        ReplaceTwice(s[1..], true, true);
        ReplaceRunsCons('_', x, IsUnderscore, b);
        if a {
          assert ReplaceRuns(s, IsSeparator, a) == inner;
          assert [] + ReplaceRuns(x, IsUnderscore, true) == ReplaceRuns(x, IsUnderscore, true);
        } else {
          assert ReplaceRuns(s, IsSeparator, a) == ['_'] + inner;
          ReplaceRunsCons('_', inner, IsUnderscore, b);
        }
      }
    }
  }

  lemma {:induction false} MarkPlainPrefix(w: string, t: string)
    requires forall i :: 0 <= i < |w| ==> IsIdChar(w[i])
    ensures Mark(w + t) == w + Mark(t)
  {
    if w != [] {
      assert (w + t)[0] == w[0] && (w + t)[1..] == w[1..] + t;
      MarkPlainPrefix(w[1..], t);
    } else {
      assert w + t == t;
    }
  }

  lemma {:induction false} TrimEndAppend(a: string, y: string, p: char -> bool)
    requires TrimEnd(y, p) != []
    ensures TrimEnd(a + y, p) == a + TrimEnd(y, p)
    decreases |y|
  {
    assert (a + y)[|a + y| - 1] == y[|y| - 1];
    if p(y[|y| - 1]) {
      assert (a + y)[..|a + y| - 1] == a + y[..|y| - 1];
      TrimEndAppend(a, y[..|y| - 1], p);
    }
  }

  /** A word followed by "_" and a collapsed tail that does not start with
      "_": stripping "_" keeps the word and "_" in front of the stripped
      tail, or the word alone when the tail strips to nothing. */
  lemma StripAfterWord(w: string, y: string)
    requires w != [] && forall i :: 0 <= i < |w| ==> IsIdChar(w[i])
    requires y == [] || y[0] != '_'
    ensures Trim(w + "_" + y, IsUnderscore) ==
      if Trim(y, IsUnderscore) == [] then w else w + "_" + Trim(y, IsUnderscore)
  {
    var z := w + "_" + y;
    assert z[0] == w[0];
    assert TrimStart(z, IsUnderscore) == z;
    assert TrimStart(y, IsUnderscore) == y;
    TrimUnderscorePlain(w);
    if TrimEnd(y, IsUnderscore) == [] {
      TrimEndFacts(y, IsUnderscore);
      assert y == [];
      assert z[..|z| - 1] == w;
    } else {
      TrimEndAppend(w + "_", y, IsUnderscore);
    }
  }

  /** Writing non-IdChars as "_", collapsing and stripping "_" joins the
      words with "_". */
  lemma {:induction false} CollapseMarkWords(s: string, b: bool)
    ensures Trim(ReplaceRuns(Mark(s), IsUnderscore, b), IsUnderscore) == JoinUnderscore(IdWords(s))
    decreases |s|
  {
    if s != [] {
      if !IsIdChar(s[0]) {
        var y := ReplaceRuns(Mark(s[1..]), IsUnderscore, true);
        assert Mark(s) == ['_'] + Mark(s[1..]);
        ReplaceRunsCons('_', Mark(s[1..]), IsUnderscore, b);
        CollapseMarkWords(s[1..], true);
        if !b {
          assert ("_" + y)[0] == '_' && ("_" + y)[1..] == y;
          assert TrimStart("_" + y, IsUnderscore) == TrimStart(y, IsUnderscore);
        } else {
          assert [] + y == y;
        }
      } else {
        var w := TakeId(s);
        var t := s[|w|..];
        TakeIdFacts(s);
        assert s == w + t;
        MarkPlainPrefix(w, t);
        ReplaceRunsPlainPrefix(w, Mark(t), IsUnderscore, b);
        if t == [] {
          TrimUnderscorePlain(w);
          assert w + [] == w;
        } else {
          var y := ReplaceRuns(Mark(t[1..]), IsUnderscore, true);
          ReplaceRunsCons('_', Mark(t[1..]), IsUnderscore, false);
          CollapseMarkWords(t[1..], true);
          CollapseNoDouble(Mark(t[1..]), true);
          assert w + ("_" + y) == w + "_" + y;
          StripAfterWord(w, y);
          var ws := IdWords(t[1..]);
          if ws != [] {
            assert ([w] + ws)[1..] == ws;
          }
        }
      }
    }
  }

  /** pack_to_id_prefix joins the words of the name (its maximal runs of
      characters other than whitespace, "-" and "_") with "_", and gives
      "Pack" when the name has none. */
  lemma PackToIdPrefixWords(pack: string)
    ensures PackToIdPrefix(pack) ==
      if IdWords(pack) == [] then "Pack" else JoinUnderscore(IdWords(pack))
  {
    var s := Strip(pack);
    IdWordsOfStrip(pack);
    ReplaceTwice(s, false, false);
    CollapseMarkWords(s, false);
  }
}
