/**
 * load_difficulty_tsv and find_difficulty_for_song: the difficulty table
 * read line by line from difficulty.tsv, and the lookup from a song title
 * to a row of that table (exact key, then a two-way prefix scan).
 */
module Difficulty {
  import opened Wrappers
  import opened Normalize
  import opened Matcher

  /** One row of the table: ez, hd, in and, when the line has it, at. */
  datatype DiffRecord = DiffRecord(ez: real, hd: real, in_: real, at: Option<real>)

  /** The loaded dict as (key, row) pairs in insertion order, the order in
      which a Python dict iterates; replacing a row keeps its position. */
  type DiffMap = seq<(string, DiffRecord)>

  /** A parsed line: its key and its row, or None for a skipped line. */
  type Entry = Option<(string, DiffRecord)>

  predicate IsLineEnd(c: char) {
    c == '\n' || c == '\r'
  }

  // ---------------------------------------------------------------------
  // Splitting a line
  // ---------------------------------------------------------------------

  /** str.split(sep) with an explicit separator: the pieces between the
      separators, empty pieces included. */
  function SplitOn(s: string, sep: char): (parts: seq<string>)
    ensures |parts| >= 1
  {
    if s == [] then [[]]
    else
      var rest := SplitOn(s[1..], sep);
      if s[0] == sep then [[]] + rest else [[s[0]] + rest[0]] + rest[1..]
  }

  /** sep.join(parts). */
  function JoinOn(parts: seq<string>, sep: char): string
    requires |parts| >= 1
  {
    if |parts| == 1 then parts[0] else parts[0] + [sep] + JoinOn(parts[1..], sep)
  }

  /** Joining the pieces gives the line back, and no piece holds a separator. */
  lemma {:induction false} SplitOnJoin(s: string, sep: char)
    ensures JoinOn(SplitOn(s, sep), sep) == s
    ensures forall i :: 0 <= i < |SplitOn(s, sep)| ==> sep !in SplitOn(s, sep)[i]
  {
    if s != [] {
      SplitOnJoin(s[1..], sep);
      var rest := SplitOn(s[1..], sep);
      if s[0] == sep {
        assert ([[]] + rest)[1..] == rest;
        assert s == [] + [sep] + s[1..];
      } else {
        var parts := [[s[0]] + rest[0]] + rest[1..];
        assert parts[1..] == rest[1..];
        if |rest| == 1 {
          assert s == [s[0]] + s[1..];
        } else {
          assert JoinOn(rest, sep) == rest[0] + [sep] + JoinOn(rest[1..], sep);
          assert s == [s[0]] + s[1..];
        }
        forall i | 0 <= i < |parts| ensures sep !in parts[i] {
          if i > 0 {
            assert parts[i] == rest[i];
          }
        }
      }
    }
  }

  lemma {:induction false} SplitOnAppend(a: string, b: string, sep: char)
    requires sep !in a
    ensures SplitOn(a + [sep] + b, sep) == [a] + SplitOn(b, sep)
  {
    if a == [] {
      assert ([] + [sep] + b)[1..] == b;
    } else {
      assert (a + [sep] + b)[1..] == a[1..] + [sep] + b;
      SplitOnAppend(a[1..], b, sep);
      assert [a[0]] + a[1..] == a;
    }
  }

  lemma {:induction false} SplitOnPlain(a: string, sep: char)
    requires sep !in a
    ensures SplitOn(a, sep) == [a]
  {
    if a != [] {
      SplitOnPlain(a[1..], sep);
      assert [a[0]] + a[1..] == a;
    }
  }

  /** Splitting a join of separator-free pieces gives the pieces back. */
  lemma {:induction false} JoinOnSplit(parts: seq<string>, sep: char)
    requires |parts| >= 1
    requires forall i :: 0 <= i < |parts| ==> sep !in parts[i]
    ensures SplitOn(JoinOn(parts, sep), sep) == parts
  {
    if |parts| == 1 {
      SplitOnPlain(parts[0], sep);
    } else {
      JoinOnSplit(parts[1..], sep);
      SplitOnAppend(parts[0], JoinOn(parts[1..], sep), sep);
      assert [parts[0]] + parts[1..] == parts;
    }
  }

  /** The first piece of a split is the text before the first separator, or
      the whole string when there is none (str.split(sep, 1)[0]). */
  lemma SplitOnHead(s: string, sep: char)
    ensures var h := SplitOn(s, sep)[0];
      sep !in h && h <= s && (|h| == |s| || s[|h|] == sep)
  {
    SplitOnJoin(s, sep);
    var parts := SplitOn(s, sep);
    if |parts| > 1 {
      assert s == parts[0] + [sep] + JoinOn(parts[1..], sep);
    }
  }

  // ---------------------------------------------------------------------
  // One line
  // ---------------------------------------------------------------------

  /** One line of difficulty.tsv. After dropping the trailing line ends it
      is skipped when empty, when it has fewer than four tab-separated
      fields or when ez, hd or in is not a number. The key is
      normalize_key of the first field up to its first "."; at is taken from
      a fifth field when that parses. parse stands for float(). */
  function ParseLine(line: string, parse: string -> Option<real>): Entry {
    var l := TrimEnd(line, IsLineEnd);
    var parts := SplitOn(l, '\t');
    if l == [] || |parts| < 4 then None
    else if parse(parts[1]).None? || parse(parts[2]).None? || parse(parts[3]).None? then None
    else
      var at := if |parts| >= 5 then parse(parts[4]) else None;
      Some((NormalizeKey(SplitOn(parts[0], '.')[0]),
            DiffRecord(parse(parts[1]).value, parse(parts[2]).value, parse(parts[3]).value, at)))
  }

  /** A line is kept exactly when it has four fields whose second to fourth
      parse; its key is the key of the first field's text before its first
      "."; the row holds those numbers, and at the fifth field's number. */
  lemma ParseLineMeaning(line: string, parse: string -> Option<real>)
    ensures var l := TrimEnd(line, IsLineEnd);
      var parts := SplitOn(l, '\t');
      var head := SplitOn(parts[0], '.')[0];
      '.' !in head && head <= parts[0] && (|head| == |parts[0]| || parts[0][|head|] == '.') &&
      (ParseLine(line, parse).Some? <==>
        |parts| >= 4 && parse(parts[1]).Some? && parse(parts[2]).Some? && parse(parts[3]).Some?) &&
      (ParseLine(line, parse).Some? ==>
        ParseLine(line, parse).value.0 == NormalizeKey(head) &&
        var r := ParseLine(line, parse).value.1;
        parse(parts[1]) == Some(r.ez) && parse(parts[2]) == Some(r.hd) && parse(parts[3]) == Some(r.in_) &&
        (r.at.Some? <==> |parts| >= 5 && parse(parts[4]).Some?) &&
        (r.at.Some? ==> parse(parts[4]) == r.at)) &&
      (l == [] || !IsLineEnd(l[|l| - 1])) && JoinOn(parts, '\t') == l
  {
    TrimEndFacts(line, IsLineEnd);
    SplitOnJoin(TrimEnd(line, IsLineEnd), '\t');
    SplitOnHead(SplitOn(TrimEnd(line, IsLineEnd), '\t')[0], '.');
  }

  // ---------------------------------------------------------------------
  // The table
  // ---------------------------------------------------------------------

  /** The first position from i on holding key (dict membership). */
  function KeyPos(m: DiffMap, key: string, i: nat): (r: Option<nat>)
    requires i <= |m|
    ensures r.Some? ==> i <= r.value < |m| && m[r.value].0 == key
    decreases |m| - i
  {
    if i == |m| then None else if m[i].0 == key then Some(i) else KeyPos(m, key, i + 1)
  }

  lemma {:induction false} KeyPosFacts(m: DiffMap, key: string, i: nat)
    requires i <= |m|
    ensures var r := KeyPos(m, key, i);
      forall j :: i <= j < |m| && (r.None? || j < r.value) ==> m[j].0 != key
    decreases |m| - i
  {
    if i < |m| && m[i].0 != key {
      KeyPosFacts(m, key, i + 1);
    }
  }

  lemma {:induction false} KeyPosAppend(m: DiffMap, x: (string, DiffRecord), key: string, i: nat)
    requires i <= |m|
    ensures KeyPos(m + [x], key, i) ==
      if KeyPos(m, key, i).Some? then KeyPos(m, key, i) else if x.0 == key then Some(|m|) else None
    decreases |m| - i
  {
    if i < |m| {
      assert (m + [x])[i] == m[i];
      KeyPosAppend(m, x, key, i + 1);
    }
  }

  lemma {:induction false} KeyPosUpdate(m: DiffMap, j: nat, x: (string, DiffRecord), key: string, i: nat)
    requires i <= |m| && j < |m| && m[j].0 == x.0
    ensures KeyPos(m[j := x], key, i) == KeyPos(m, key, i)
    decreases |m| - i
  {
    if i < |m| {
      KeyPosUpdate(m, j, x, key, i + 1);
    }
  }

  /** difficulty_map.get(key). */
  function Get(m: DiffMap, key: string): Option<DiffRecord> {
    match KeyPos(m, key, 0)
    case Some(j) => Some(m[j].1)
    case None => None
  }

  function Keys(m: DiffMap): (ks: seq<string>)
    ensures |ks| == |m|
  {
    seq(|m|, i requires 0 <= i < |m| => m[i].0)
  }

  predicate Distinct(ks: seq<string>) {
    forall i, j :: 0 <= i < j < |ks| ==> ks[i] != ks[j]
  }

  lemma KeyPosNone(m: DiffMap, key: string)
    ensures KeyPos(m, key, 0).None? <==> key !in Keys(m)
  {
    KeyPosFacts(m, key, 0);
    if key in Keys(m) {
      var j :| 0 <= j < |m| && Keys(m)[j] == key;
    }
    if KeyPos(m, key, 0).Some? {
      assert Keys(m)[KeyPos(m, key, 0).value] == key;
    }
  }

  /** The loop body: a new key is appended; a present key is overwritten,
      in place, only by a row with at when its current row has none. */
  function Absorb(m: DiffMap, e: Entry): DiffMap {
    match e
    case None => m
    case Some((key, rec)) =>
      match KeyPos(m, key, 0)
      case None => m + [(key, rec)]
      case Some(j) => if rec.at.Some? && m[j].1.at.None? then m[j := (key, rec)] else m
  }

  /** Absorb changes the row of its own key only, as the dict update does. */
  lemma AbsorbGet(m: DiffMap, e: Entry, k: string)
    ensures Get(Absorb(m, e), k) ==
      if e.None? || e.value.0 != k then Get(m, k)
      else if Get(m, k).None? then Some(e.value.1)
      else if e.value.1.at.Some? && Get(m, k).value.at.None? then Some(e.value.1)
      else Get(m, k)
  {
    if e.Some? {
      var (key, rec) := e.value;
      match KeyPos(m, key, 0)
      case None =>
        KeyPosAppend(m, (key, rec), k, 0);
      case Some(j) =>
        if rec.at.Some? && m[j].1.at.None? {
          KeyPosUpdate(m, j, (key, rec), k, 0);
        }
    }
  }

  /** Every line of the file, parsed. */
  function Entries(lines: seq<string>, parse: string -> Option<real>): (es: seq<Entry>)
    ensures |es| == |lines|
  {
    seq(|lines|, i requires 0 <= i < |lines| => ParseLine(lines[i], parse))
  }

  /** The table after the first n parsed lines. */
  function Fold(es: seq<Entry>, n: nat): DiffMap
    requires n <= |es|
  {
    if n == 0 then [] else Absorb(Fold(es, n - 1), es[n - 1])
  }

  /** load_difficulty_tsv as a function of the file's lines. */
  function LoadMap(lines: seq<string>, parse: string -> Option<real>): DiffMap {
    Fold(Entries(lines, parse), |lines|)
  }

  /** load_difficulty_tsv: the loop over the lines of the file. */
  method LoadDifficulty(lines: seq<string>, parse: string -> Option<real>) returns (m: DiffMap)
    ensures m == LoadMap(lines, parse)
  {
    ghost var es := Entries(lines, parse);
    m := [];
    for i := 0 to |lines|
      invariant m == Fold(es, i)
    {
      assert es[i] == ParseLine(lines[i], parse);
      var line := TrimEnd(lines[i], IsLineEnd);
      if line == [] {
        continue;
      }
      var parts := SplitOn(line, '\t');
      if |parts| < 4 {
        continue;
      }
      var key := NormalizeKey(SplitOn(parts[0], '.')[0]);
      var ez, hd, inVal := parse(parts[1]), parse(parts[2]), parse(parts[3]);
      if ez.None? || hd.None? || inVal.None? {
        continue;
      }
      var at := None;
      if |parts| >= 5 {
        at := parse(parts[4]);
      }
      var diff := DiffRecord(ez.value, hd.value, inVal.value, at);
      var pos := KeyPos(m, key, 0);
      if pos.None? {
        m := m + [(key, diff)];
      } else if diff.at.Some? && m[pos.value].1.at.None? {
        m := m[pos.value := (key, diff)];
      }
    }
  }

  // ---------------------------------------------------------------------
  // What the loaded table holds
  // ---------------------------------------------------------------------

  /** The keys of the first n parsed lines, each once, in first-seen order. */
  function FirstSeenKeys(es: seq<Entry>, n: nat): seq<string>
    requires n <= |es|
  {
    if n == 0 then []
    else
      var ks := FirstSeenKeys(es, n - 1);
      if es[n - 1].Some? && es[n - 1].value.0 !in ks then ks + [es[n - 1].value.0] else ks
  }

  /** The table's keys are distinct and in the order they first appear in
      the file: a later row for a key replaces the earlier one in place. */
  lemma {:induction false} FoldKeys(es: seq<Entry>, n: nat)
    requires n <= |es|
    ensures Keys(Fold(es, n)) == FirstSeenKeys(es, n)
    ensures Distinct(FirstSeenKeys(es, n))
  {
    if n > 0 {
      FoldKeys(es, n - 1);
      var m := Fold(es, n - 1);
      var e := es[n - 1];
      if e.Some? {
        var (key, rec) := e.value;
        KeyPosNone(m, key);
        match KeyPos(m, key, 0)
        case None =>
          assert Keys(m + [(key, rec)]) == Keys(m) + [key];
        case Some(j) =>
          if rec.at.Some? && m[j].1.at.None? {
            assert Keys(m[j := (key, rec)]) == Keys(m);
          }
      }
    }
  }

  /** The first of the first n parsed lines with key k (and, when needAt,
      with an at value). */
  function FirstWith(es: seq<Entry>, n: nat, k: string, needAt: bool): (r: Option<nat>)
    requires n <= |es|
    ensures r.Some? ==>
      r.value < n && es[r.value].Some? && es[r.value].value.0 == k && (needAt ==> es[r.value].value.1.at.Some?)
  {
    if n == 0 then None
    else
      var f := FirstWith(es, n - 1, k, needAt);
      if f.Some? then f
      else if es[n - 1].Some? && es[n - 1].value.0 == k && (needAt ==> es[n - 1].value.1.at.Some?) then Some(n - 1)
      else None
  }

  lemma {:induction false} FirstWithNone(es: seq<Entry>, n: nat, k: string, needAt: bool)
    requires n <= |es| && FirstWith(es, n, k, needAt).None?
    ensures forall i :: 0 <= i < n && es[i].Some? && es[i].value.0 == k ==> needAt && es[i].value.1.at.None?
  {
    if n > 0 {
      FirstWithNone(es, n - 1, k, needAt);
    }
  }

  /** The row the file's docstring promises for key k: the first line for k
      that has at, or else the first line for k. */
  function Winner(es: seq<Entry>, n: nat, k: string): Option<DiffRecord>
    requires n <= |es|
  {
    match FirstWith(es, n, k, true)
    case Some(i) => Some(es[i].value.1)
    case None =>
      match FirstWith(es, n, k, false)
      case Some(i) => Some(es[i].value.1)
      case None => None
  }

  /** The table maps each key to its Winner, and holds no other key. */
  lemma {:induction false} FoldWinner(es: seq<Entry>, n: nat, k: string)
    requires n <= |es|
    ensures Get(Fold(es, n), k) == Winner(es, n, k)
  {
    if n > 0 {
      FoldWinner(es, n - 1, k);
      var m := Fold(es, n - 1);
      var e := es[n - 1];
      AbsorbGet(m, e, k);
      if e.Some? && e.value.0 == k {
        var rec := e.value.1;
        var ft := FirstWith(es, n - 1, k, true);
        var ff := FirstWith(es, n - 1, k, false);
        if ft.None? && ff.Some? {
          FirstWithNone(es, n - 1, k, true);
        }
      }
    }
  }

  /** The loaded table's keys are distinct, in first-seen order, and each
      maps to its Winner. */
  lemma LoadMapMeaning(lines: seq<string>, parse: string -> Option<real>, k: string)
    ensures var es := Entries(lines, parse);
      Keys(LoadMap(lines, parse)) == FirstSeenKeys(es, |lines|) &&
      Distinct(Keys(LoadMap(lines, parse))) &&
      Get(LoadMap(lines, parse), k) == Winner(es, |lines|, k)
  {
    FoldKeys(Entries(lines, parse), |lines|);
    FoldWinner(Entries(lines, parse), |lines|, k);
  }

  // ---------------------------------------------------------------------
  // The lookup
  // ---------------------------------------------------------------------

  /** The first position from i on whose key is prefix-related to key, in
      the dict's iteration order. */
  function FirstRelated(m: DiffMap, key: string, i: nat): (r: Option<nat>)
    requires i <= |m|
    ensures r.Some? ==> i <= r.value < |m| && PrefixRelated(m[r.value].0, key)
    decreases |m| - i
  {
    if i == |m| then None
    else if PrefixRelated(m[i].0, key) then Some(i)
    else FirstRelated(m, key, i + 1)
  }

  lemma {:induction false} FirstRelatedFacts(m: DiffMap, key: string, i: nat)
    requires i <= |m|
    ensures var r := FirstRelated(m, key, i);
      forall j :: i <= j < |m| && (r.None? || j < r.value) ==> !PrefixRelated(m[j].0, key)
    decreases |m| - i
  {
    if i < |m| && !PrefixRelated(m[i].0, key) {
      FirstRelatedFacts(m, key, i + 1);
    }
  }

  /** The lookup for an already normalised key: none for the empty key,
      the key's own row, or, for keys of four or more characters, the first
      row whose key is a prefix of it or has it as a prefix. */
  function FindByKey(key: string, m: DiffMap): Option<DiffRecord> {
    if key == [] then None
    else if Get(m, key).Some? then Get(m, key)
    else if |key| >= 4 then
      match FirstRelated(m, key, 0)
      case Some(j) => Some(m[j].1)
      case None => None
    else None
  }

  /** find_difficulty_for_song (its unused data argument dropped). */
  function FindDifficulty(title: string, m: DiffMap): Option<DiffRecord> {
    FindByKey(NormalizeKey(title), m)
  }

  /** A row found is the row of a key equal to the query or, for a query of
      four or more characters, of the first key prefix-related to it; a key
      present in the table always wins over a prefix match. */
  lemma FindByKeySound(key: string, m: DiffMap)
    ensures var r := FindByKey(key, m);
      (r.Some? ==> key != [] && exists j :: (0 <= j < |m| && r.value == m[j].1 &&
        (m[j].0 == key || (|key| >= 4 && key !in Keys(m) && PrefixRelated(m[j].0, key) &&
          forall i :: 0 <= i < j ==> !PrefixRelated(m[i].0, key))))) &&
      (key != [] && key in Keys(m) ==> r == Get(m, key))
  {
    KeyPosNone(m, key);
    var r := FindByKey(key, m);
    if r.Some? && KeyPos(m, key, 0).None? {
      var j := FirstRelated(m, key, 0).value;
      FirstRelatedFacts(m, key, 0);
    }
  }

  /** The lookup fails exactly for the empty key, or when the key is absent
      and is shorter than four characters or related to no key. */
  lemma FindByKeyNone(key: string, m: DiffMap)
    ensures FindByKey(key, m).None? <==>
      key == [] || (key !in Keys(m) && (|key| < 4 || forall j :: 0 <= j < |m| ==> !PrefixRelated(m[j].0, key)))
  {
    KeyPosNone(m, key);
    FirstRelatedFacts(m, key, 0);
  }

  /** A table holding a row under the empty key answers every absent key of
      four or more characters: "" is a prefix of every key. */
  lemma EmptyKeyRowAnswersLongKeys(key: string, m: DiffMap)
    requires [] in Keys(m) && |key| >= 4
    ensures FindByKey(key, m).Some?
  {
    FindByKeyNone(key, m);
    var j :| 0 <= j < |m| && Keys(m)[j] == [];
    assert PrefixRelated(m[j].0, key);
  }

  /** A title whose key has rows in the file gets that key's Winner. */
  lemma FindDifficultyOfLoaded(title: string, lines: seq<string>, parse: string -> Option<real>)
    requires NormalizeKey(title) != []
    requires Winner(Entries(lines, parse), |lines|, NormalizeKey(title)).Some?
    ensures FindDifficulty(title, LoadMap(lines, parse)) == Winner(Entries(lines, parse), |lines|, NormalizeKey(title))
  {
    FoldWinner(Entries(lines, parse), |lines|, NormalizeKey(title));
  }
}
