/**
 * Song ids of the form <prefix>_<number>: decimal numerals, the id pattern
 * ^(.+)_(\d+)$, and the two rules that choose the id of a new entry (one for
 * an existing pack, one for a pack named at the prompt), together with the
 * search for the last entry of a pack.
 */
module Ids {
  import opened Wrappers
  import opened Chars
  import opened Normalize
  import opened Catalogue

  // ---------------------------------------------------------------------
  // Decimal numerals: int() of a digit run and str() of a number
  // ---------------------------------------------------------------------

  predicate AllDigits(s: string) {
    forall i :: 0 <= i < |s| ==> IsDigit(s[i])
  }

  /** The value of a run of decimal digits, leading zeros allowed. */
  function DigitsValue(s: string): nat
    requires AllDigits(s)
  {
    if s == [] then 0 else DigitsValue(s[..|s| - 1]) * 10 + DigitValue(s[|s| - 1])
  }

  /** The decimal numeral of n, as str(n) writes it. */
  function NatToString(n: nat): (s: string)
    ensures s != [] && AllDigits(s)
  {
    if n < 10 then [DigitChar(n)] else NatToString(n / 10) + [DigitChar(n % 10)]
  }

  /** A numeral without superfluous leading zeros. */
  predicate Canonical(s: string) {
    s != [] && AllDigits(s) && (s[0] == '0' ==> |s| == 1)
  }

  lemma {:induction false} NatToStringRoundTrip(n: nat)
    ensures DigitsValue(NatToString(n)) == n
    ensures Canonical(NatToString(n))
  {
    if n >= 10 {
      NatToStringRoundTrip(n / 10);
      var s := NatToString(n);
      assert s[..|s| - 1] == NatToString(n / 10);
    }
  }

  lemma {:induction false} LeadingDigitPositive(s: string)
    requires AllDigits(s) && s != [] && s[0] != '0'
    ensures DigitsValue(s) >= 1
    decreases |s|
  {
    if |s| > 1 {
      LeadingDigitPositive(s[..|s| - 1]);
    }
  }

  /** Every canonical numeral is the numeral of its value. */
  lemma {:induction false} CanonicalRoundTrip(s: string)
    requires Canonical(s)
    ensures NatToString(DigitsValue(s)) == s
    decreases |s|
  {
    if |s| > 1 {
      var init := s[..|s| - 1];
      CanonicalRoundTrip(init);
      LeadingDigitPositive(init);
      var v := DigitsValue(init);
      var d := DigitValue(s[|s| - 1]);
      assert DigitsValue(s) == v * 10 + d;
      assert (v * 10 + d) / 10 == v && (v * 10 + d) % 10 == d;
      assert DigitChar(d) == s[|s| - 1];
      assert init + [s[|s| - 1]] == s;
    }
  }

  // ---------------------------------------------------------------------
  // The id pattern ^(.+)_(\d+)$
  // ---------------------------------------------------------------------

  /** The two groups of the pattern: the text before the last "_" and the
      value of the digits after it. */
  datatype IdParts = IdParts(prefix: string, num: nat)

  /** The id <prefix>_<n> as an f-string writes it. */
  function MakeId(prefix: string, n: nat): string {
    prefix + "_" + NatToString(n)
  }

  /** "$" also matches just before one final newline. */
  function DropFinalNewline(s: string): string {
    if s != [] && s[|s| - 1] == '\n' then s[..|s| - 1] else s
  }

  /** Matches "_(\d+)$" backwards: digits is the run already read from the
      end; what remains before the "_" must be ".+", one or more characters
      without a newline. */
  function MatchTail(s: string, digits: string): Option<IdParts>
    requires AllDigits(digits)
    decreases |s|
  {
    if s == [] then None
    else if IsDigit(s[|s| - 1]) then MatchTail(s[..|s| - 1], [s[|s| - 1]] + digits)
    else if s[|s| - 1] == '_' && digits != [] && |s| >= 2 && '\n' !in s[..|s| - 1] then
      Some(IdParts(s[..|s| - 1], DigitsValue(digits)))
    else None
  }

  /** re.match(r"^(.+)_(\d+)$", sid): "$" matches at the end or just before
      one final newline. Backtracking cannot find a second split, since "_"
      is not a digit. */
  function ParseId(sid: string): Option<IdParts> {
    MatchTail(DropFinalNewline(sid), [])
  }

  lemma {:induction false} MatchTailAccepts(p: string, d: string, j: nat)
    requires p != [] && '\n' !in p && d != [] && AllDigits(d) && j <= |d|
    ensures MatchTail(p + "_" + d[..j], d[j..]) == Some(IdParts(p, DigitsValue(d)))
    decreases j
  {
    var s := p + "_" + d[..j];
    if j == 0 {
      assert s[..|s| - 1] == p && s[|s| - 1] == '_';
      assert d[0..] == d;
    } else {
      assert s[|s| - 1] == d[j - 1];
      assert s[..|s| - 1] == p + "_" + d[..j - 1];
      assert [d[j - 1]] + d[j..] == d[j - 1..];
      MatchTailAccepts(p, d, j - 1);
    }
  }

  lemma {:induction false} MatchTailSound(s: string, digits: string)
    requires AllDigits(digits) && MatchTail(s, digits).Some?
    ensures var parts := MatchTail(s, digits).value;
      parts.prefix != [] && '\n' !in parts.prefix &&
      exists d :: d != [] && AllDigits(d) && DigitsValue(d) == parts.num && s + digits == parts.prefix + "_" + d
    decreases |s|
  {
    var c := s[|s| - 1];
    if IsDigit(c) {
      MatchTailSound(s[..|s| - 1], [c] + digits);
      assert s[..|s| - 1] + ([c] + digits) == s + digits;
    } else {
      assert s + digits == s[..|s| - 1] + "_" + digits;
    }
  }

  /** What the pattern accepts: a non-empty prefix without newline, "_", a
      digit run and at most one final newline. */
  lemma ParseIdAccepts(p: string, d: string)
    requires p != [] && '\n' !in p && d != [] && AllDigits(d)
    ensures ParseId(p + "_" + d) == Some(IdParts(p, DigitsValue(d)))
    ensures ParseId(p + "_" + d + "\n") == Some(IdParts(p, DigitsValue(d)))
  {
    var s := p + "_" + d;
    assert DropFinalNewline(s + "\n") == s;
    assert s[|s| - 1] == d[|d| - 1];
    assert DropFinalNewline(s) == s;
    MatchTailAccepts(p, d, |d|);
    assert d[..|d|] == d && d[|d|..] == [];
  }

  /** ...and nothing else. */
  lemma ParseIdSound(sid: string)
    requires ParseId(sid).Some?
    ensures var parts := ParseId(sid).value;
      parts.prefix != [] && '\n' !in parts.prefix &&
      exists d :: d != [] && AllDigits(d) && DigitsValue(d) == parts.num &&
        (sid == parts.prefix + "_" + d || sid == parts.prefix + "_" + d + "\n")
  {
    var s := DropFinalNewline(sid);
    MatchTailSound(s, []);
    assert s + [] == s;
    assert sid == s || sid == s + "\n";
  }

  /** The id of a new entry parses back into its prefix and number. */
  lemma MakeIdParses(prefix: string, n: nat)
    requires prefix != [] && '\n' !in prefix
    ensures ParseId(MakeId(prefix, n)) == Some(IdParts(prefix, n))
  {
    NatToStringRoundTrip(n);
    ParseIdAccepts(prefix, NatToString(n));
  }

  /** pack_to_id_prefix yields a prefix the pattern accepts. */
  lemma PackPrefixParses(pack: string, n: nat)
    ensures ParseId(MakeId(PackToIdPrefix(pack), n)) == Some(IdParts(PackToIdPrefix(pack), n))
  {
    var p := PackToIdPrefix(pack);
    PackToIdPrefixShape(pack);
    MakeIdParses(p, n);
  }

  // ---------------------------------------------------------------------
  // last_index_of_pack
  // ---------------------------------------------------------------------

  function LastPackIndexUpTo(data: seq<Song>, pack: string, n: nat): (r: int)
    requires n <= |data|
    ensures -1 <= r < n
  {
    if n == 0 then -1
    else if data[n - 1].pack == pack then n - 1
    else LastPackIndexUpTo(data, pack, n - 1)
  }

  /** The position of the last entry of the pack, or -1. */
  function LastPackIndex(data: seq<Song>, pack: string): (r: int)
    ensures -1 <= r < |data|
  {
    LastPackIndexUpTo(data, pack, |data|)
  }

  /** -1 exactly when no entry has the pack; otherwise an entry of the pack
      with none after it. */
  lemma {:induction false} LastPackIndexMeaning(data: seq<Song>, pack: string, n: nat)
    requires n <= |data|
    ensures var r := LastPackIndexUpTo(data, pack, n);
      (r == -1 <==> forall i :: 0 <= i < n ==> data[i].pack != pack) &&
      (r >= 0 ==> data[r].pack == pack && forall i :: r < i < n ==> data[i].pack != pack)
  {
    if n > 0 && data[n - 1].pack != pack {
      LastPackIndexMeaning(data, pack, n - 1);
    }
  }

  method LastIndexOfPack(data: seq<Song>, pack: string) returns (last: int)
    ensures last == LastPackIndex(data, pack)
  {
    last := -1;
    var i := 0;
    while i < |data|
      invariant i <= |data|
      invariant last == LastPackIndexUpTo(data, pack, i)
    {
      if data[i].pack == pack {
        last := i;
      }
      i := i + 1;
    }
  }

  // ---------------------------------------------------------------------
  // get_pack_prefix_and_next_num
  // ---------------------------------------------------------------------

  /** The largest id number seen so far in the pack and the prefix of the
      first id that reached it. */
  datatype Scan = Scan(prefix: string, maxNum: nat)

  /** The parts of an entry's id when the entry is in the pack and its id
      matches the pattern. */
  function PackIdParts(song: Song, pack: string): Option<IdParts> {
    if song.pack == pack then ParseId(song.id) else None
  }

  /** The parts of every entry's id, position by position. */
  function PackIds(data: seq<Song>, pack: string): (ids: seq<Option<IdParts>>)
    ensures |ids| == |data|
  {
    seq(|data|, i requires 0 <= i < |data| => PackIdParts(data[i], pack))
  }

  /** The loop of get_pack_prefix_and_next_num over the first n ids, starting
      from the fallback prefix and 0; only a strictly larger number replaces
      the pair. */
  function ScanUpTo(ids: seq<Option<IdParts>>, n: nat, fallback: string): Scan
    requires n <= |ids|
  {
    if n == 0 then Scan(fallback, 0)
    else
      var sc := ScanUpTo(ids, n - 1, fallback);
      match ids[n - 1]
      case Some(parts) => if parts.num > sc.maxNum then Scan(parts.prefix, parts.num) else sc
      case None => sc
  }

  function PackScan(data: seq<Song>, pack: string): Scan {
    ScanUpTo(PackIds(data, pack), |data|, PackToIdPrefix(pack))
  }

  /** The id a new entry of an existing pack receives. */
  function PackNewId(data: seq<Song>, pack: string): string {
    var sc := PackScan(data, pack);
    MakeId(sc.prefix, sc.maxNum + 1)
  }

  method GetPackPrefixAndNextNum(data: seq<Song>, pack: string) returns (prefix: string, next: nat)
    ensures prefix == PackScan(data, pack).prefix && next == PackScan(data, pack).maxNum + 1
  {
    ghost var ids := PackIds(data, pack);
    ghost var fallback := PackToIdPrefix(pack);
    prefix := PackToIdPrefix(pack);
    var maxNum := 0;
    var i := 0;
    while i < |data|
      invariant i <= |data|
      invariant Scan(prefix, maxNum) == ScanUpTo(ids, i, fallback)
    {
      var song := data[i];
      assert ids[i] == PackIdParts(song, pack);
      if song.pack == pack {
        var m := ParseId(song.id);
        if m.Some? && m.value.num > maxNum {
          prefix, maxNum := m.value.prefix, m.value.num;
        }
      }
      i := i + 1;
    }
    next := maxNum + 1;
  }

  /** The maximum bounds every id number seen. */
  lemma {:induction false} ScanBounds(ids: seq<Option<IdParts>>, n: nat, fallback: string)
    requires n <= |ids|
    ensures forall i :: 0 <= i < n && ids[i].Some? ==> ids[i].value.num <= ScanUpTo(ids, n, fallback).maxNum
  {
    if n > 0 {
      ScanBounds(ids, n - 1, fallback);
    }
  }

  /** The maximum is attained: it is 0 with the fallback prefix, or it is the
      number of an id whose prefix is kept, and every earlier id is smaller
      (the first id reaching the maximum wins). */
  lemma {:induction false} ScanWitness(ids: seq<Option<IdParts>>, n: nat, fallback: string)
    requires n <= |ids|
    ensures var sc := ScanUpTo(ids, n, fallback);
      (sc.maxNum == 0 ==> sc.prefix == fallback) &&
      (sc.maxNum > 0 ==>
        exists i :: 0 <= i < n && ids[i] == Some(IdParts(sc.prefix, sc.maxNum)) &&
          (forall j :: 0 <= j < i && ids[j].Some? ==> ids[j].value.num < sc.maxNum))
  {
    if n > 0 {
      ScanWitness(ids, n - 1, fallback);
      ScanBounds(ids, n - 1, fallback);
      var sc := ScanUpTo(ids, n - 1, fallback);
      if ids[n - 1].Some? && ids[n - 1].value.num > sc.maxNum {
        assert ids[n - 1] == Some(IdParts(ids[n - 1].value.prefix, ids[n - 1].value.num));
      }
    }
  }

  /** For an existing pack: the next number exceeds every id number in the
      pack, and the pair comes from the first id with the largest number, or
      is the pack's own prefix when no number is above 0. */
  lemma PackScanMeaning(data: seq<Song>, pack: string)
    ensures var sc := PackScan(data, pack);
      (forall i :: 0 <= i < |data| && PackIdParts(data[i], pack).Some? ==>
        PackIdParts(data[i], pack).value.num < sc.maxNum + 1) &&
      (sc.maxNum == 0 ==> sc.prefix == PackToIdPrefix(pack)) &&
      (sc.maxNum > 0 ==>
        exists i :: 0 <= i < |data| &&
          PackIdParts(data[i], pack) == Some(IdParts(sc.prefix, sc.maxNum)) &&
          (forall j :: 0 <= j < i && PackIdParts(data[j], pack).Some? ==>
            PackIdParts(data[j], pack).value.num < sc.maxNum))
  {
    var ids := PackIds(data, pack);
    forall i | 0 <= i < |data| ensures ids[i] == PackIdParts(data[i], pack) { }
    ScanBounds(ids, |data|, PackToIdPrefix(pack));
    ScanWitness(ids, |data|, PackToIdPrefix(pack));
  }

  /** With no id number above 0 in the pack (none at all, or only X_0), the
      pack's own prefix and the number 1 are used. */
  lemma PackScanDefault(data: seq<Song>, pack: string)
    requires forall i :: 0 <= i < |data| && PackIdParts(data[i], pack).Some? ==>
      PackIdParts(data[i], pack).value.num == 0
    ensures PackNewId(data, pack) == MakeId(PackToIdPrefix(pack), 1)
  {
    PackScanMeaning(data, pack);
  }

  /** The new id of an existing pack differs from every id in that pack. */
  lemma PackNewIdFresh(data: seq<Song>, pack: string)
    ensures forall i :: 0 <= i < |data| && data[i].pack == pack ==> data[i].id != PackNewId(data, pack)
  {
    var sc := PackScan(data, pack);
    PackScanMeaning(data, pack);
    if sc.maxNum == 0 {
      PackPrefixParses(pack, 1);
    } else {
      var i :| 0 <= i < |data| && PackIdParts(data[i], pack) == Some(IdParts(sc.prefix, sc.maxNum));
      ParseIdSound(data[i].id);
      MakeIdParses(sc.prefix, sc.maxNum + 1);
    }
  }

  function ExampleSong(id: string): Song {
    Song("t", 0.0, None, "P", GuideLinks("", "", "", ""), id, [])
  }

  lemma ExampleParse(d: char)
    requires IsDigit(d)
    ensures ParseId(['P', '_', d]) == Some(IdParts("P", DigitValue(d)))
  {
    ParseIdAccepts("P", [d]);
    assert "P" + "_" + [d] == ['P', '_', d];
    assert [d][..0] == [];
  }

  lemma ExampleIds()
    ensures PackIds([ExampleSong("P_1"), ExampleSong("P_3"), ExampleSong("P_4")], "P") ==
      [Some(IdParts("P", 1)), Some(IdParts("P", 3)), Some(IdParts("P", 4))]
  {
    ExampleParse('1');
    ExampleParse('3');
    ExampleParse('4');
    var ids := PackIds([ExampleSong("P_1"), ExampleSong("P_3"), ExampleSong("P_4")], "P");
    assert ids[0] == Some(IdParts("P", 1));
    assert ids[1] == Some(IdParts("P", 3));
    assert ids[2] == Some(IdParts("P", 4));
  }

  lemma ExampleScan(fallback: string)
    ensures ScanUpTo([Some(IdParts("P", 1)), Some(IdParts("P", 3)), Some(IdParts("P", 4))], 3, fallback) == Scan("P", 4)
  {
    var ids := [Some(IdParts("P", 1)), Some(IdParts("P", 3)), Some(IdParts("P", 4))];
    assert ScanUpTo(ids, 1, fallback) == Scan("P", 1);
    assert ScanUpTo(ids, 2, fallback) == Scan("P", 3);
  }

  /** Ids P_1, P_3 and P_4 in pack P give P_5. */
  lemma PackNewIdExample()
    ensures PackNewId([ExampleSong("P_1"), ExampleSong("P_3"), ExampleSong("P_4")], "P") == "P_5"
  {
    ExampleIds();
    ExampleScan(PackToIdPrefix("P"));
    assert NatToString(5) == "5";
  }

  // ---------------------------------------------------------------------
  // The number of a new entry in a pack named at the prompt
  // ---------------------------------------------------------------------

  /** How many of the entries belong to the pack. */
  function CountPack(entries: seq<Song>, pack: string): (r: nat)
    ensures r <= |entries|
  {
    if entries == [] then 0
    else CountPack(entries[..|entries| - 1], pack) + (if entries[|entries| - 1].pack == pack then 1 else 0)
  }

  function Max(a: nat, b: nat): nat { if a >= b then a else b }

  /** The max(...) loop over the first n ids, starting from start. */
  function RaiseUpTo(ids: seq<Option<IdParts>>, n: nat, start: nat): nat
    requires n <= |ids|
  {
    if n == 0 then start
    else
      var m := RaiseUpTo(ids, n - 1, start);
      match ids[n - 1]
      case Some(parts) => Max(m, parts.num + 1)
      case None => m
  }

  /** The entries made so far for the pack plus one, raised past every id
      number of the pack in the catalogue. */
  function NewPackNumber(data: seq<Song>, newEntries: seq<Song>, pack: string): nat {
    RaiseUpTo(PackIds(data, pack), |data|, CountPack(newEntries, pack) + 1)
  }

  method NextNewPackNumber(data: seq<Song>, newEntries: seq<Song>, pack: string) returns (next: nat)
    ensures next == NewPackNumber(data, newEntries, pack)
  {
    var count := 0;
    var j := 0;
    while j < |newEntries|
      invariant j <= |newEntries|
      invariant count == CountPack(newEntries[..j], pack)
    {
      assert newEntries[..j + 1][..j] == newEntries[..j];
      if newEntries[j].pack == pack {
        count := count + 1;
      }
      j := j + 1;
    }
    assert newEntries[..j] == newEntries;
    ghost var ids := PackIds(data, pack);
    next := count + 1;
    var i := 0;
    while i < |data|
      invariant i <= |data|
      invariant next == RaiseUpTo(ids, i, count + 1)
    {
      var s := data[i];
      assert ids[i] == PackIdParts(s, pack);
      if s.pack == pack {
        var m := ParseId(s.id);
        if m.Some? {
          next := Max(next, m.value.num + 1);
        }
      }
      i := i + 1;
    }
  }

  /** The result is at least start and past every id number, and it is the
      least such number. */
  lemma {:induction false} RaiseBounds(ids: seq<Option<IdParts>>, n: nat, start: nat)
    requires n <= |ids|
    ensures var r := RaiseUpTo(ids, n, start);
      r >= start &&
      (forall i :: 0 <= i < n && ids[i].Some? ==> ids[i].value.num < r) &&
      (r == start || exists i :: 0 <= i < n && ids[i].Some? && ids[i].value.num + 1 == r)
  {
    if n > 0 {
      RaiseBounds(ids, n - 1, start);
    }
  }

  /** For a pack named at the prompt: the number is at least one past this
      run's entries for the pack, past every id number of the pack, and the
      least such number. */
  lemma NewPackNumberMeaning(data: seq<Song>, newEntries: seq<Song>, pack: string)
    ensures var r := NewPackNumber(data, newEntries, pack);
      r >= CountPack(newEntries, pack) + 1 &&
      (forall i :: 0 <= i < |data| && PackIdParts(data[i], pack).Some? ==> PackIdParts(data[i], pack).value.num < r) &&
      (r == CountPack(newEntries, pack) + 1 ||
       exists i :: 0 <= i < |data| && PackIdParts(data[i], pack).Some? && PackIdParts(data[i], pack).value.num + 1 == r)
  {
    var ids := PackIds(data, pack);
    forall i | 0 <= i < |data| ensures ids[i] == PackIdParts(data[i], pack) { }
    RaiseBounds(ids, |data|, CountPack(newEntries, pack) + 1);
  }

  /** The id made for a pack named at the prompt differs from every id in
      that pack. */
  lemma NewPackIdFresh(data: seq<Song>, newEntries: seq<Song>, pack: string)
    ensures var id := MakeId(PackToIdPrefix(pack), NewPackNumber(data, newEntries, pack));
      forall i :: 0 <= i < |data| && data[i].pack == pack ==> data[i].id != id
  {
    var r := NewPackNumber(data, newEntries, pack);
    NewPackNumberMeaning(data, newEntries, pack);
    PackPrefixParses(pack, r);
  }

  // ---------------------------------------------------------------------
  // new_song_entry
  // ---------------------------------------------------------------------

  /** A new catalogue entry: bpm 0, all ratings 0, empty guide links, no
      aliases. */
  function NewSongEntry(title: string, pack: string, id: string): Song {
    Song(title, 0.0, Some(Ratings(0.0, 0.0, 0.0, AtNumber(0.0))), pack, GuideLinks("", "", "", ""), id, [])
  }
}
