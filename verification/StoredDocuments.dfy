/**
 Particular stored documents, and what the stores opened from them do: inputs for which properties of
 the pre-key allocator fail that hold under the conditions given elsewhere.
 */
module StoredDocuments {
  import opened Basics
  import opened DeviceContent
  import opened PreKeys
  import opened DeviceRuns
  import opened DeviceStoreModel
  import opened LegacyImport

  const ONES: Key32 :=
    [1, 1, 1, 1, 1, 1, 1, 1, 1, 1, 1, 1, 1, 1, 1, 1, 1, 1, 1, 1, 1, 1, 1, 1, 1, 1, 1, 1, 1, 1, 1, 1]

  const UUID: string := "00000000-0000-0000-0000-000000000001"

  /** A legacy document with a sound header and the given pre-keys. */
  function DocumentWith(preKeys: map<string, Encoded>, uploaded: Option<seq<UInt32>>, next: UInt32): LegacyDevice {
    LegacyDevice(
      Some(ONES), Some(ONES), Some(ONES), 1, Some(ONES + ONES), 1, Some(ONES), UUID, "", "", 0, "", "", "", Some([]),
      map[], map[], preKeys, uploaded, map[], next)
  }

  /** Such a document imports, and its imports load. */
  lemma DocumentLoads(f: Formats, l: LegacyDevice, s: PersistedState)
    requires l == DocumentWith(l.preKeys, l.uploaded, l.nextPreKeyID) && f.uuid(UUID).Some?
    requires LegacyDecodes(l) && Imported(l, s)
    ensures Loaded(f, Decoded(s)).Ok?
    ensures var c := Loaded(f, Decoded(s)).value;
      && Keyed(c.preKeys) && c.preKeys.Keys == ImportedIDs(l)
      && c.uploaded == SetOf(s.uploaded)
      && c.nextPreKeyID == if s.nextPreKeyID == 0 then 1 else s.nextPreKeyID
  {
    assert ONES[0] == 1;
    KeyIDsAreImported(l, s);
    LoadedKeysAreKeyed(s);
  }

  lemma NothingTakenOf(c: Content, count: UInt32)
    requires Available(c) == {}
    ensures ExistingIDs(c, count) == [] && Missing(c, count) == count
  {
  }

  // ---- a counter that wraps ----

  /** The counter is the last 32-bit number and the only key has the ID zero. */
  const END_OF_RANGE: LegacyDevice := DocumentWith(map["0" := Some(ONES)], None, UINT32_SPAN - 1)

  lemma EndOfRangeDecodes()
    ensures LegacyDecodes(END_OF_RANGE) && ImportedIDs(END_OF_RANGE) == {0}
  {
    assert ParseID("0") == Some(0);
    assert KeyOf(END_OF_RANGE.preKeys, "0").keyID == 0;
  }

  /** The document imports, and loads as a store at the end of its range with nothing to hand out. */
  lemma EndOfRangeLoads(f: Formats, s: PersistedState)
    requires f.uuid(UUID).Some?
    requires LegacyDecodes(END_OF_RANGE) && Imported(END_OF_RANGE, s)
    ensures Loaded(f, Decoded(s)).Ok?
    ensures var c := Loaded(f, Decoded(s)).value;
      AllocatorInv(c) && c.nextPreKeyID == UINT32_SPAN - 1 && c.preKeys.Keys == {0} && Available(c) == {}
  {
    EndOfRangeDecodes();
    DocumentLoads(f, END_OF_RANGE, s);
    ImportedCounter(END_OF_RANGE, s);
    ImportedAllocator(f, END_OF_RANGE, s);
  }

  /**
   A store opened from that document gives the second key it generates the ID of the stored one, and
   replaces that.
   */
  lemma ImportedStoreRepeatsAnID(f: Formats, s: PersistedState, generator: nat -> Key32)
    requires f.uuid(UUID).Some?
    requires LegacyDecodes(END_OF_RANGE) && Imported(END_OF_RANGE, s)
    ensures Loaded(f, Decoded(s)).Ok?
    ensures var c := Loaded(f, Decoded(s)).value;
      && 0 in c.preKeys && Missing(c, 2) == 2 && FreshOf(c, 2, generator)[1].keyID == 0
      && AfterBatch(c, 2, generator).preKeys[0] == PreKey(0, generator(1), None)
  {
    EndOfRangeLoads(f, s);
    WrappedCounterRepeatsAnID(generator, Loaded(f, Decoded(s)).value);
  }

  /**
   A store opened from that document wraps its counter to zero with the first key it generates, after
   which a failed write does not leave the content as it was.
   */
  lemma ImportedStoreReachesZero(f: Formats, s: PersistedState, generator: nat -> Key32, address: string, key: Key32)
    requires f.uuid(UUID).Some?
    requires LegacyDecodes(END_OF_RANGE) && Imported(END_OF_RANGE, s)
    ensures Loaded(f, Decoded(s)).Ok?
    ensures var c := Loaded(f, Decoded(s)).value;
      var w1 := Perform(World(c, c, true), GetOrGenPreKeys(1, generator), Env(false, false)).0;
      var (w2, r) := Perform(w1, PutIdentity(address, key), Env(false, true));
      w1.content.nextPreKeyID == 0 && r == Failed(PersistFailed) && w2.content.nextPreKeyID == 1
  {
    EndOfRangeLoads(f, s);
    var c := Loaded(f, Decoded(s)).value;
    WrappedCounterIsNotRestored(World(c, c, true), generator, address, key);
  }

  /** Opening the document and asking for two keys does repeat the ID. */
  method OpenAtEndOfRange(formats: Formats, generator: nat -> Key32) returns (keys: Result<seq<PreKey>, StoreError>)
    requires Faithful(formats) && formats.uuid(UUID).Some?
    ensures keys.Ok? && |keys.value| == 2 && keys.value[1].keyID == 0
  {
    EndOfRangeDecodes();
    var loaded := LoadDeviceStore(formats, Legacy(END_OF_RANGE));
    ghost var s :| Imported(END_OF_RANGE, s) && LoadedFrom(formats, s, loaded);
    EndOfRangeLoads(formats, s);
    SecondKeyGetsIDZero(loaded.value.View(), generator);
    keys := loaded.value.GetOrGenPreKeys(UNDISTURBED, 2, generator);
  }

  lemma SecondKeyGetsIDZero(w: World, generator: nat -> Key32)
    requires !w.persisting && w.content.nextPreKeyID == UINT32_SPAN - 1 && Available(w.content) == {}
    ensures var ks := Batch(w.content, 2, generator); |ks| == 2 && ks[1].keyID == 0
    ensures Perform(w, GetOrGenPreKeys(2, generator), UNDISTURBED).1.Done?
  {
    NothingTakenOf(w.content, 2);
    WrappedCounterRepeatsAnID(generator, w.content);
  }

  // ---- an uploaded ID ahead of the counter ----

  /** No keys, and the next ID to be generated counts as uploaded already. */
  const AHEAD: LegacyDevice := DocumentWith(map[], Some([1]), 1)

  lemma AheadLoads(f: Formats, s: PersistedState)
    requires f.uuid(UUID).Some? && LegacyDecodes(AHEAD) && Imported(AHEAD, s)
    ensures Loaded(f, Decoded(s)).Ok?
    ensures var c := Loaded(f, Decoded(s)).value;
      && c.preKeys == map[] && c.uploaded == {1} && c.nextPreKeyID == 1 && Available(c) == {}
      && AvailableBelow(c) && Fits(c, 1) && !AllocatorInv(c) && !NoneAhead(c, 1)
  {
    DocumentLoads(f, AHEAD, s);
    ImportedCounter(AHEAD, s);
    var c := Loaded(f, Decoded(s)).value;
    assert SetOf([1]) == {1};
    assert 1 in c.uploaded && 1 in {1};
  }

  /** With nothing stored and the next ID uploaded, a generated key is never handed out again. */
  lemma GeneratedThenSkipped(c: Content, first: nat -> Key32, second: nat -> Key32)
    requires Available(c) == {} && c.nextPreKeyID in c.uploaded && c.nextPreKeyID + 1 < UINT32_SPAN
    ensures var after := AfterBatch(c, 1, first);
      && Batch(c, 1, first)[0].keyID == c.nextPreKeyID
      && Batch(after, 1, second)[0].keyID == c.nextPreKeyID + 1
  {
    OneKeyGenerated(c, first);
    NothingTakenOf(c, 1);
    var after := AfterBatch(c, 1, first);
    assert forall id :: id in after.preKeys && id !in after.uploaded ==> id in Available(c);
    assert Available(after) == {};
    OneKeyGenerated(after, second);
  }

  /** In a store opened from that document, asking again does not give the same key. */
  lemma UploadedAheadIsSkipped(f: Formats, s: PersistedState, first: nat -> Key32, second: nat -> Key32)
    requires f.uuid(UUID).Some? && LegacyDecodes(AHEAD) && Imported(AHEAD, s)
    ensures Loaded(f, Decoded(s)).Ok?
    ensures var c := Loaded(f, Decoded(s)).value;
      && Batch(c, 1, first)[0].keyID == 1 && 1 in AfterBatch(c, 1, first).uploaded
      && Batch(AfterBatch(c, 1, first), 1, second) != Batch(c, 1, first)
  {
    AheadLoads(f, s);
    GeneratedThenSkipped(Loaded(f, Decoded(s)).value, first, second);
  }

  /** Opening the document and asking twice for one key, with nothing marked in between. */
  method OpenWithUploadedAhead(formats: Formats, generator: nat -> Key32)
    returns (one: Result<seq<PreKey>, StoreError>, two: Result<seq<PreKey>, StoreError>)
    requires Faithful(formats) && formats.uuid(UUID).Some?
    ensures one.Ok? && |one.value| == 1 && one.value[0].keyID == 1
    ensures two.Ok? && |two.value| == 1 && two.value[0].keyID == 2
  {
    var loaded := LoadDeviceStore(formats, Legacy(AHEAD));
    ghost var s :| Imported(AHEAD, s) && LoadedFrom(formats, s, loaded);
    AheadLoads(formats, s);
    GeneratedThenSkipped(loaded.value.State(), generator, generator);
    OneAtATime(loaded.value.View(), generator);
    one := loaded.value.GetOrGenPreKeys(UNDISTURBED, 1, generator);
    OneAtATime(loaded.value.View(), generator);
    two := loaded.value.GetOrGenPreKeys(UNDISTURBED, 1, generator);
  }

  lemma OneAtATime(w: World, generator: nat -> Key32)
    requires !w.persisting
    ensures |Batch(w.content, 1, generator)| == 1
    ensures Perform(w, GetOrGenPreKeys(1, generator), UNDISTURBED)
         == (w.(content := AfterBatch(w.content, 1, generator)), Done)
  {
    var n := |Available(w.content)|;
  }

  // ---- a stored ID ahead of the counter ----

  /** A current document with one key, which is not uploaded and whose ID is above the counter. */
  const HIGH: PersistedState := PersistedState(
    STATE_VERSION, HeaderOf(END_OF_RANGE), map[], map[], [PreKey(7, ONES, None)], [], map[], 5)

  lemma HighLoads(f: Formats)
    requires f.uuid(UUID).Some?
    ensures Loaded(f, Decoded(HIGH)).Ok?
    ensures var c := Loaded(f, Decoded(HIGH)).value;
      && c.preKeys == map[7 := PreKey(7, ONES, None)] && c.uploaded == {} && c.nextPreKeyID == 5
      && Available(c) == {7} && Keyed(c.preKeys) && !AvailableBelow(c)
  {
    assert ONES[0] == 1;
    AddOneKey(map[], PreKey(7, ONES, None));
    var c := Loaded(f, Decoded(HIGH)).value;
    assert 7 in Available(c) && c.uploaded == {};
  }

  /** Opening that document and asking for one key twice hands out 7 and then 5. */
  method OpenWithHighKey(formats: Formats, generator: nat -> Key32)
    returns (one: Result<PreKey, StoreError>, two: Result<PreKey, StoreError>)
    requires Faithful(formats) && formats.uuid(UUID).Some?
    ensures one.Ok? && one.value.keyID == 7
    ensures two.Ok? && two.value.keyID == 5
  {
    var loaded := LoadDeviceStore(formats, Current(HIGH));
    HighLoads(formats);
    HighThenFresh(loaded.value.View(), generator);
    one := loaded.value.GenOnePreKey(UNDISTURBED, UNDISTURBED, generator);
    two := loaded.value.GenOnePreKey(UNDISTURBED, UNDISTURBED, generator);
  }

  lemma HighThenFresh(w: World, generator: nat -> Key32)
    requires !w.persisting && Keyed(w.content.preKeys) && Available(w.content) == {7} && w.content.nextPreKeyID == 5
    ensures var (w1, one) := PerformGenOne(w, generator, UNDISTURBED, UNDISTURBED);
      var (w2, two) := PerformGenOne(w1, generator, UNDISTURBED, UNDISTURBED);
      one.Ok? && one.value.keyID == 7 && two.Ok? && two.value.keyID == 5
  {
    LastKeyTaken(w.content, 7, generator);
    var (w1, one) := PerformGenOne(w, generator, UNDISTURBED, UNDISTURBED);
    assert w1.content == AfterMark(w.content, 7);
    OneKeyGenerated(w1.content, generator);
  }

  // ---- the last 32-bit ID among others ----

  const LAST_ID: string := "4294967295"

  /** Two keys, one of them under the last 32-bit ID. */
  const BOTH_ENDS: LegacyDevice := DocumentWith(map["5" := Some(ONES), LAST_ID := Some(ONES)], None, 1)

  /** The value of a string of digits, from that of all but the last. */
  lemma MoreDigits(front: string, value: nat, d: char, text: string)
    requires (forall i :: 0 <= i < |front| ==> '0' <= front[i] <= '9') && DigitsValue(front) == value
    requires '0' <= d <= '9' && text == front + [d]
    ensures forall i :: 0 <= i < |text| ==> '0' <= text[i] <= '9'
    ensures DigitsValue(text) == 10 * value + (d as int - '0' as int)
  {
    assert text[..|front|] == front;
  }

  lemma FirstDigits()
    ensures forall i :: 0 <= i < |"42949"| ==> '0' <= "42949"[i] <= '9'
    ensures DigitsValue("42949") == 42949
  {
    MoreDigits("", 0, '4', "4");
    MoreDigits("4", 4, '2', "42");
    MoreDigits("42", 42, '9', "429");
    MoreDigits("429", 429, '4', "4294");
    MoreDigits("4294", 4294, '9', "42949");
  }

  lemma LastIDParses()
    ensures ParseID(LAST_ID) == Some(UINT32_SPAN - 1)
  {
    FirstDigits();
    MoreDigits("42949", 42949, '6', "429496");
    MoreDigits("429496", 429496, '7', "4294967");
    MoreDigits("4294967", 4294967, '2', "42949672");
    MoreDigits("42949672", 42949672, '9', "429496729");
    MoreDigits("429496729", 429496729, '5', "4294967295");
  }

  lemma BothEndsDecodes()
    ensures LegacyDecodes(BOTH_ENDS) && ImportedIDs(BOTH_ENDS) == {5, UINT32_SPAN - 1}
  {
    LastIDParses();
    assert ParseID("5") == Some(5);
    assert KeyOf(BOTH_ENDS.preKeys, "5").keyID == 5 && KeyOf(BOTH_ENDS.preKeys, LAST_ID).keyID == UINT32_SPAN - 1;
  }

  /** Every order of a document's keys gives an import. */
  lemma ImportInThisOrder(l: LegacyDevice, keys: seq<PreKey>) returns (s: PersistedState)
    requires LegacyDecodes(l) && KeyList(l.preKeys, keys) && l.uploaded.None?
    ensures Imported(l, s) && s.preKeys == keys
  {
    var identities := map a | a in l.identities :: l.identities[a].value;
    var sessions := map a | a in l.sessions :: l.sessions[a].value;
    var senderKeys := map k | k in l.senderKeys :: l.senderKeys[k].value;
    var ids := seq(|keys|, i requires 0 <= i < |keys| => keys[i].keyID);
    s := PersistedState(STATE_VERSION, HeaderOf(l), identities, sessions, keys, ids, senderKeys,
                        Raised(FirstCounter(l), keys));
    IsImport(l, s);
  }

  /**
   Two imports of the same document: one raises the counter to 6, the other wraps it to zero, which loads
   as one and from where the fifth key that is generated replaces the imported key 5.
   */
  lemma CounterDependsOnOrder(f: Formats, generator: nat -> Key32) returns (s: PersistedState, t: PersistedState)
    requires f.uuid(UUID).Some?
    ensures LegacyDecodes(BOTH_ENDS) && Imported(BOTH_ENDS, s) && Imported(BOTH_ENDS, t)
    ensures s.nextPreKeyID == 6 && t.nextPreKeyID == 0
    ensures Loaded(f, Decoded(t)).Ok?
    ensures var c := Loaded(f, Decoded(t)).value;
      && c.nextPreKeyID == 1 && 5 in c.preKeys && Missing(c, 5) == 5
      && FreshOf(c, 5, generator)[4].keyID == 5
      && 5 in AfterBatch(c, 5, generator).preKeys
      && AfterBatch(c, 5, generator).preKeys[5] == PreKey(5, generator(4), None)
  {
    BothEndsDecodes();
    var low, high := PreKey(5, ONES, None), PreKey(UINT32_SPAN - 1, ONES, None);
    BothEndsListed(low, high);
    s := ImportInThisOrder(BOTH_ENDS, [high, low]);
    t := ImportInThisOrder(BOTH_ENDS, [low, high]);
    RaisedTwice(high, low);
    RaisedTwice(low, high);
    DocumentLoads(f, BOTH_ENDS, t);
    FifthKeyReplaces(Loaded(f, Decoded(t)).value, generator);
  }

  lemma BothEndsListed(low: PreKey, high: PreKey)
    requires low == PreKey(5, ONES, None) && high == PreKey(UINT32_SPAN - 1, ONES, None) && LegacyDecodes(BOTH_ENDS)
    ensures KeyList(BOTH_ENDS.preKeys, [low, high]) && KeyList(BOTH_ENDS.preKeys, [high, low])
  {
    LastIDParses();
    assert low == KeyOf(BOTH_ENDS.preKeys, "5") && high == KeyOf(BOTH_ENDS.preKeys, LAST_ID);
    assert BOTH_ENDS.preKeys.Keys == {"5", LAST_ID};
  }

  lemma RaisedTwice(k1: PreKey, k2: PreKey)
    ensures Raised(1, [k1, k2]) ==
      var next := if k1.keyID >= 1 then Add32(k1.keyID, 1) else 1;
      if k2.keyID >= next then Add32(k2.keyID, 1) else next
  {
    assert [k1, k2][..1] == [k1];
    assert [k1][..0] == [] && Raised(1, []) == 1;
    assert Raised(1, [k1]) == if k1.keyID >= 1 then Add32(k1.keyID, 1) else 1;
  }

  lemma FifthKeyReplaces(c: Content, generator: nat -> Key32)
    requires Available(c) == {} && c.nextPreKeyID == 1 && 5 in c.preKeys
    ensures Missing(c, 5) == 5 && FreshOf(c, 5, generator)[4].keyID == 5
    ensures 5 in AfterBatch(c, 5, generator).preKeys
    ensures AfterBatch(c, 5, generator).preKeys[5] == PreKey(5, generator(4), None)
  {
    NothingTakenOf(c, 5);
    BatchAddsNextIDs(c, 5, generator);
  }
}
