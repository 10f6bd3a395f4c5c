/**
 * The per-title decision of main: for a title missing from the catalogue,
 * the menu answer either picks an existing pack by its number or, with
 * "0", names a pack; the new entry gets an id and is inserted after the
 * last entry of its pack. The console loop around it is not modelled; a
 * decision that main answers by asking again yields None.
 */
module Reconcile {
  import opened Wrappers
  import opened Normalize
  import opened Catalogue
  import opened Ids

  /** What main carries from one missing title to the next: the catalogue,
      the numbered pack menu and the entries created so far. */
  datatype State = State(data: seq<Song>, packs: seq<string>, newEntries: seq<Song>)

  /** The menu maps str(k) to the k-th pack, for k from 1; a pack added at
      the prompt gets the next number. */
  function ChosenPack(choice: string, packs: seq<string>): Option<string> {
    if Canonical(choice) && 1 <= DigitsValue(choice) <= |packs| then Some(packs[DigitsValue(choice) - 1])
    else None
  }

  lemma ChosenPackMeaning(choice: string, packs: seq<string>)
    ensures ChosenPack(choice, packs).Some? <==> exists k :: 1 <= k <= |packs| && choice == NatToString(k)
    ensures forall k :: 1 <= k <= |packs| && choice == NatToString(k) ==> ChosenPack(choice, packs) == Some(packs[k - 1])
  {
    if Canonical(choice) {
      CanonicalRoundTrip(choice);
    }
    forall k | 1 <= k <= |packs| && choice == NatToString(k)
      ensures ChosenPack(choice, packs) == Some(packs[k - 1])
    {
      NatToStringRoundTrip(k);
    }
  }

  /** list.insert(k, e). */
  function Insert(data: seq<Song>, k: nat, e: Song): seq<Song>
    requires k <= |data|
  {
    data[..k] + [e] + data[k..]
  }

  /** Where the new entry goes: right after the last entry of its pack; when
      the pack has none, at the end (appendWhenAbsent) or at position 0. */
  function InsertionPoint(data: seq<Song>, pack: string, appendWhenAbsent: bool): (k: nat)
    ensures k <= |data|
  {
    var last := LastPackIndex(data, pack);
    if last >= 0 || !appendWhenAbsent then last + 1 else |data|
  }

  /** Records the new entry e: inserted into the catalogue, appended to
      newEntries, with the given menu. */
  function Place(st: State, e: Song, packs: seq<string>, appendWhenAbsent: bool): State {
    State(Insert(st.data, InsertionPoint(st.data, e.pack, appendWhenAbsent), e), packs, st.newEntries + [e])
  }

  /** Answer "0" and a pack name: the pack joins the menu if new; the number
      follows this run's entries of the pack and the ids already in it; the
      entry goes after the pack's last entry, or at the end. */
  function CreateStep(st: State, title: string, pack: string): State {
    var packs := if pack in st.packs then st.packs else st.packs + [pack];
    var id := MakeId(PackToIdPrefix(pack), NewPackNumber(st.data, st.newEntries, pack));
    Place(st, NewSongEntry(title, pack, id), packs, true)
  }

  /** A menu number: the id continues the pack's numbering and the entry
      goes to position last_index_of_pack + 1. */
  function ChooseStep(st: State, title: string, pack: string): State {
    Place(st, NewSongEntry(title, pack, PackNewId(st.data, pack)), st.packs, false)
  }

  /** One answered prompt, with both answers already stripped. */
  function Resolve(st: State, title: string, choice: string, packName: string): Option<State> {
    if choice == "0" then
      if packName == [] then None else Some(CreateStep(st, title, packName))
    else
      match ChosenPack(choice, st.packs)
      case Some(pack) => Some(ChooseStep(st, title, pack))
      case None => None
  }

  /** One answered prompt for a missing title: both answers are stripped as
      they are read. */
  function Step(st: State, title: string, choice: string, newName: string): Option<State> {
    Resolve(st, title, Strip(choice), Strip(newName))
  }

  /** The same step as main performs it, with the loops of
      last_index_of_pack, get_pack_prefix_and_next_num and the new-pack
      numbering. */
  method Decide(st: State, title: string, choice: string, newName: string) returns (accepted: bool, next: State)
    ensures accepted == Step(st, title, choice, newName).Some?
    ensures accepted ==> next == Step(st, title, choice, newName).value
    ensures !accepted ==> next == st
  {
    next := st;
    accepted := false;
    var c := Strip(choice);
    if c == "0" {
      var pack := Strip(newName);
      if pack == [] {
        return;
      }
      next := CreateEntry(st, title, pack);
      accepted := true;
    } else {
      var chosen := ChosenPack(c, st.packs);
      if chosen.None? {
        return;
      }
      next := ChooseEntry(st, title, chosen.value);
      accepted := true;
    }
  }

  /** The "0" branch of main: a named pack. */
  method CreateEntry(st: State, title: string, pack: string) returns (next: State)
    ensures next == CreateStep(st, title, pack)
  {
    var packs := st.packs;
    if pack !in packs {
      packs := packs + [pack];
    }
    var num := NextNewPackNumber(st.data, st.newEntries, pack);
    var e := NewSongEntry(title, pack, MakeId(PackToIdPrefix(pack), num));
    var data := PlaceAfterPack(st.data, e, true);
    next := State(data, packs, st.newEntries + [e]);
  }

  /** The menu-number branch of main: an existing pack. */
  method ChooseEntry(st: State, title: string, pack: string) returns (next: State)
    ensures next == ChooseStep(st, title, pack)
  {
    var prefix, num := GetPackPrefixAndNextNum(st.data, pack);
    var e := NewSongEntry(title, pack, MakeId(prefix, num));
    var data := PlaceAfterPack(st.data, e, false);
    next := State(data, st.packs, st.newEntries + [e]);
  }

  /** The insertion both branches of main perform: data.insert(last + 1, e),
      except that the "0" branch appends when the pack has no entry. */
  method PlaceAfterPack(data: seq<Song>, e: Song, appendWhenAbsent: bool) returns (data': seq<Song>)
    ensures data' == Insert(data, InsertionPoint(data, e.pack, appendWhenAbsent), e)
  {
    var last := LastIndexOfPack(data, e.pack);
    if last >= 0 || !appendWhenAbsent {
      data' := data[..last + 1] + [e] + data[last + 1..];
    } else {
      data' := data + [e];
      assert data' == data[..|data|] + [e] + data[|data|..];
    }
  }

  // ---------------------------------------------------------------------
  // What a step guarantees
  // ---------------------------------------------------------------------

  /** main asks again exactly when the answer is "0" with an empty pack
      name, or is neither "0" nor the number of a menu entry. */
  lemma StepRetries(st: State, title: string, choice: string, newName: string)
    ensures Step(st, title, choice, newName).None? <==>
      (Strip(choice) == "0" && Strip(newName) == []) ||
      (Strip(choice) != "0" && forall k :: 1 <= k <= |st.packs| ==> Strip(choice) != NatToString(k))
  {
    ChosenPackMeaning(Strip(choice), st.packs);
  }

  /** Every pack on the menu has an entry in the catalogue. */
  predicate PacksPresent(st: State) {
    forall p :: p in st.packs ==> exists i :: 0 <= i < |st.data| && st.data[i].pack == p
  }

  /** The menu load_songlist builds satisfies PacksPresent. */
  lemma InitialPacksPresent(data: seq<Song>)
    ensures PacksPresent(State(data, PacksInOrder(data), []))
  {
    PacksInFirstSeenOrder(data, |data|);
    forall p | p in PacksInOrder(data)
      ensures exists i :: 0 <= i < |data| && data[i].pack == p
    {
      var i := FirstPackAt(data, |data|, p).value;
    }
  }

  /** Inserting e at k makes it the last entry of its pack when no later
      entry has that pack. */
  lemma {:induction false} InsertIsLastOfPack(data: seq<Song>, e: Song, k: nat)
    requires k <= |data|
    requires forall i :: k <= i < |data| ==> data[i].pack != e.pack
    ensures LastPackIndex(Insert(data, k, e), e.pack) == k
  {
    var d := Insert(data, k, e);
    LastPackIndexMeaning(d, e.pack, |d|);
    assert d[k] == e;
    forall i | k < i < |d| ensures d[i].pack != e.pack {
      assert d[i] == data[i - 1];
    }
  }

  /** Inserting an entry keeps every pack that had an entry. */
  lemma InsertKeepsPacks(data: seq<Song>, e: Song, k: nat, q: string)
    requires k <= |data|
    requires exists j :: 0 <= j < |data| && data[j].pack == q
    ensures exists i :: 0 <= i < |Insert(data, k, e)| && Insert(data, k, e)[i].pack == q
  {
    var j :| 0 <= j < |data| && data[j].pack == q;
    assert Insert(data, k, e)[if j < k then j else j + 1] == data[j];
  }

  /** Placing an entry: the catalogue grows by exactly e at the insertion
      point, every other entry keeps its order, e becomes the last entry of
      its pack, and every menu pack stays present. */
  lemma PlaceFacts(st: State, e: Song, packs: seq<string>, appendWhenAbsent: bool)
    ensures var st' := Place(st, e, packs, appendWhenAbsent);
      var k := InsertionPoint(st.data, e.pack, appendWhenAbsent);
      st'.data == st.data[..k] + [e] + st.data[k..] && st'.newEntries == st.newEntries + [e] &&
      st'.packs == packs && LastPackIndex(st'.data, e.pack) == k &&
      (PacksPresent(st) && (forall p :: p in packs ==> p in st.packs || p == e.pack) ==> PacksPresent(st'))
  {
    var data := st.data;
    var k := InsertionPoint(data, e.pack, appendWhenAbsent);
    LastPackIndexMeaning(data, e.pack, |data|);
    InsertIsLastOfPack(data, e, k);
    var d := Insert(data, k, e);
    if PacksPresent(st) && (forall q :: q in packs ==> q in st.packs || q == e.pack) {
      forall q | q in packs ensures exists i :: 0 <= i < |d| && d[i].pack == q {
        if q == e.pack {
          assert d[k] == e;
        } else {
          InsertKeepsPacks(data, e, k, q);
        }
      }
    }
  }

  /** An accepted prompt adds exactly one entry, with the title and zero
      ratings, to newEntries and to the catalogue, keeping every other entry
      in its order. The entry goes right after the last entry of its pack
      (at the end for a pack named at the prompt that has none), becomes the
      pack's last entry, and its id differs from every id already in the
      pack. The menu gains the pack only when a new name is given, and every
      menu pack stays present. */
  lemma ResolveFacts(st: State, title: string, choice: string, packName: string)
    requires PacksPresent(st)
    requires Resolve(st, title, choice, packName).Some?
    ensures var st' := Resolve(st, title, choice, packName).value;
      var e := st'.newEntries[|st'.newEntries| - 1];
      var last := LastPackIndex(st.data, e.pack);
      var k := if last >= 0 then last + 1 else |st.data|;
      st'.data == st.data[..k] + [e] + st.data[k..] && st'.newEntries == st.newEntries + [e] &&
      e == NewSongEntry(title, e.pack, e.id) && LastPackIndex(st'.data, e.pack) == k &&
      (forall i :: 0 <= i < |st.data| && st.data[i].pack == e.pack ==> st.data[i].id != e.id) &&
      (choice == "0" ==> e.pack == packName && st'.packs == (if packName in st.packs then st.packs else st.packs + [packName])) &&
      (choice != "0" ==> e.pack in st.packs && st'.packs == st.packs) &&
      PacksPresent(st')
  {
    if choice == "0" {
      assert Resolve(st, title, choice, packName).value == CreateStep(st, title, packName);
      CreateStepFacts(st, title, packName);
    } else {
      var pack := ChosenPack(choice, st.packs).value;
      assert Resolve(st, title, choice, packName).value == ChooseStep(st, title, pack);
      assert pack in st.packs;
      ChooseStepFacts(st, title, pack);
    }
  }

  lemma CreateStepFacts(st: State, title: string, pack: string)
    requires PacksPresent(st)
    ensures var st' := CreateStep(st, title, pack);
      var e := st'.newEntries[|st'.newEntries| - 1];
      var last := LastPackIndex(st.data, pack);
      var k := if last >= 0 then last + 1 else |st.data|;
      st'.data == st.data[..k] + [e] + st.data[k..] && st'.newEntries == st.newEntries + [e] &&
      e == NewSongEntry(title, pack, e.id) && LastPackIndex(st'.data, pack) == k &&
      (forall i :: 0 <= i < |st.data| && st.data[i].pack == pack ==> st.data[i].id != e.id) &&
      st'.packs == (if pack in st.packs then st.packs else st.packs + [pack]) &&
      PacksPresent(st')
  {
    var id := MakeId(PackToIdPrefix(pack), NewPackNumber(st.data, st.newEntries, pack));
    var e := NewSongEntry(title, pack, id);
    var packs := if pack in st.packs then st.packs else st.packs + [pack];
    PlaceFacts(st, e, packs, true);
    NewPackIdFresh(st.data, st.newEntries, pack);
  }

  lemma ChooseStepFacts(st: State, title: string, pack: string)
    requires PacksPresent(st) && pack in st.packs
    ensures var st' := ChooseStep(st, title, pack);
      var e := st'.newEntries[|st'.newEntries| - 1];
      var last := LastPackIndex(st.data, pack);
      last >= 0 &&
      st'.data == st.data[..last + 1] + [e] + st.data[last + 1..] && st'.newEntries == st.newEntries + [e] &&
      e == NewSongEntry(title, pack, e.id) && LastPackIndex(st'.data, pack) == last + 1 &&
      (forall i :: 0 <= i < |st.data| && st.data[i].pack == pack ==> st.data[i].id != e.id) &&
      st'.packs == st.packs && PacksPresent(st')
  {
    var e := NewSongEntry(title, pack, PackNewId(st.data, pack));
    PlaceFacts(st, e, st.packs, false);
    PackNewIdFresh(st.data, pack);
    LastPackIndexMeaning(st.data, pack, |st.data|);
    var j :| 0 <= j < |st.data| && st.data[j].pack == pack;
  }
}
