/** Loading a device store from a stored document, in the current or in the legacy format. */
module LegacyImport {
  import opened Basics
  import opened DeviceContent
  import opened PreKeys
  import opened DeviceRuns
  import opened DeviceStoreModel

  /** Base64 text; `None` when it is not well formed. */
  type Encoded = Option<Bytes>

  /** The legacy document; `jid` is the printed form of its user and device, empty without a user. */
  datatype LegacyDevice = LegacyDevice(
    noise: Encoded, identity: Encoded, signedPrivate: Encoded, signedID: UInt32, signature: Encoded,
    registrationID: UInt32, advSecret: Encoded, uuid: string, jid: string, lid: string,
    lidMigrationTimestamp: int, pushName: string, businessName: string, platform: string, account: Encoded,
    identities: map<string, Encoded>, sessions: map<string, Encoded>, preKeys: map<string, Encoded>,
    uploaded: Option<seq<UInt32>>, senderKeys: map<string, Encoded>, nextPreKeyID: UInt32)

  datatype StoredDocument = Current(state: PersistedState) | Legacy(device: LegacyDevice)

  predicate Decodes32(e: Encoded) { e.Some? && |e.value| == 32 }

  function DigitsValue(s: string): nat
    requires forall i :: 0 <= i < |s| ==> '0' <= s[i] <= '9'
  {
    if s == "" then 0 else 10 * DigitsValue(s[..|s| - 1]) + (s[|s| - 1] as int - '0' as int)
  }

  /** A decimal number of at most 32 bits. */
  function ParseID(s: string): Option<UInt32> {
    if s != "" && (forall i :: 0 <= i < |s| ==> '0' <= s[i] <= '9') && DigitsValue(s) < UINT32_SPAN
    then Some(DigitsValue(s)) else None
  }

  predicate EntryDecodes(m: map<string, Encoded>, t: string)
    requires t in m
  {
    ParseID(t).Some? && Decodes32(m[t])
  }

  ghost predicate KeysDecode(m: map<string, Encoded>) { forall t :: t in m ==> EntryDecodes(m, t) }

  function KeyOf(m: map<string, Encoded>, t: string): PreKey
    requires t in m && EntryDecodes(m, t)
  {
    PreKey(ParseID(t).value, m[t].value, None)
  }

  /** Every field of the legacy header has the form the import demands. */
  predicate HeaderDecodes(l: LegacyDevice) {
    && Decodes32(l.noise) && Decodes32(l.identity) && Decodes32(l.signedPrivate)
    && l.signature.Some? && |l.signature.value| == 64
    && Decodes32(l.advSecret)
    && 1 <= l.registrationID <= MAX_REGISTRATION_ID
    && l.account.Some?
  }

  /** Every field of the legacy document has the form the import demands. */
  ghost predicate LegacyDecodes(l: LegacyDevice) {
    && HeaderDecodes(l)
    && (forall a :: a in l.identities ==> Decodes32(l.identities[a]))
    && (forall a :: a in l.sessions ==> l.sessions[a].Some?)
    && KeysDecode(l.preKeys)
    && (forall k :: k in l.senderKeys ==> l.senderKeys[k].Some?)
  }

  /** The sizes and ranges a document must keep to, whatever else is in it. */
  lemma DecodesExactlyWhenSized(l: LegacyDevice)
    ensures HeaderDecodes(l) <==>
      && l.noise.Some? && |l.noise.value| == 32 && l.identity.Some? && |l.identity.value| == 32
      && l.signedPrivate.Some? && |l.signedPrivate.value| == 32 && l.signature.Some? && |l.signature.value| == 64
      && l.advSecret.Some? && |l.advSecret.value| == 32 && l.account.Some?
      && 1 <= l.registrationID <= 16380
  {
  }

  /** The IDs the legacy document stores keys for. */
  ghost function ImportedIDs(l: LegacyDevice): set<UInt32>
    requires LegacyDecodes(l)
  {
    set t | t in l.preKeys :: KeyOf(l.preKeys, t).keyID
  }

  function HeaderOf(l: LegacyDevice): Header
    requires HeaderDecodes(l)
  {
    Header(l.noise.value, l.identity.value,
           PreKey(l.signedID, l.signedPrivate.value, Some(l.signature.value)),
           l.registrationID, l.advSecret.value, l.jid, l.lid, l.account.value,
           l.platform, l.businessName, l.pushName, l.lidMigrationTimestamp, l.uuid, true, false)
  }

  /** Each field of the document's header holds that of `h`. */
  ghost predicate HeaderWritten(l: LegacyDevice, h: Header) {
    && l.noise == Some(h.noise) && l.identity == Some(h.identity)
    && l.signedPrivate == Some(h.signed.private) && l.signedID == h.signed.keyID && l.signature == h.signed.signature
    && l.registrationID == h.registrationID && l.advSecret == Some(h.advSecret)
    && l.jid == h.id && l.lid == h.lid && l.lidMigrationTimestamp == h.lidMigrationTimestamp
    && l.uuid == h.uuid && l.account == Some(h.account)
    && l.platform == h.platform && l.businessName == h.businessName && l.pushName == h.pushName
  }

  /** `ks` holds one key for every entry of the document, in any order. */
  ghost predicate KeyList(m: map<string, Encoded>, ks: seq<PreKey>)
    requires KeysDecode(m)
  {
    && |ks| == |m|
    && (forall k :: k in ks ==> exists t :: t in m && k == KeyOf(m, t))
    && (forall t :: t in m ==> KeyOf(m, t) in ks)
  }

  /** The key lists of an import, whatever order the document's keys were ranged over. */
  ghost predicate ImportedKeys(l: LegacyDevice, s: PersistedState)
    requires LegacyDecodes(l)
  {
    && KeyList(l.preKeys, s.preKeys)
    && (l.uploaded.None? ==> SetOf(s.uploaded) == ImportedIDs(l))
    && (l.uploaded.Some? ==> s.uploaded == l.uploaded.value)
  }

  /** The counter an import starts from. */
  function FirstCounter(l: LegacyDevice): UInt32 { if l.nextPreKeyID == 0 then 1 else l.nextPreKeyID }

  /** The least counter above the document's own and above every imported ID. */
  ghost predicate CounterAbove(l: LegacyDevice, next: UInt32)
    requires LegacyDecodes(l)
  {
    && FirstCounter(l) <= next
    && (forall id :: id in ImportedIDs(l) ==> id < next)
    && (next == FirstCounter(l) || next - 1 in ImportedIDs(l))
  }

  /** The counter after it has been raised past each key in turn, in 32-bit arithmetic. */
  function Raised(first: UInt32, keys: seq<PreKey>): UInt32 {
    if keys == [] then first
    else
      var last, next := keys[|keys| - 1].keyID, Raised(first, keys[..|keys| - 1]);
      if last >= next then Add32(last, 1) else next
  }

  /** `s` is an import of the document, for one of the orders its keys may be ranged over. */
  ghost predicate Imported(l: LegacyDevice, s: PersistedState)
    requires LegacyDecodes(l)
  {
    && s.version == STATE_VERSION && s.header == HeaderOf(l)
    && s.identities == (map a | a in l.identities :: l.identities[a].value)
    && s.sessions == (map a | a in l.sessions :: l.sessions[a].value)
    && s.senderKeys == (map k | k in l.senderKeys :: l.senderKeys[k].value)
    && ImportedKeys(l, s)
    && s.nextPreKeyID == Raised(FirstCounter(l), s.preKeys)
  }

  method DecodeKeys(m: map<string, Encoded>) returns (r: Option<map<string, Key32>>)
    ensures r.Some? <==> forall a :: a in m ==> Decodes32(m[a])
    ensures r.Some? ==> r.value == map a | a in m :: m[a].value
  {
    var out: map<string, Key32> := map[];
    var todo := m.Keys;
    while todo != {}
      invariant todo <= m.Keys && out.Keys == m.Keys - todo
      invariant forall a :: a in out ==> Decodes32(m[a]) && out[a] == m[a].value
    {
      var a :| a in todo;
      if !Decodes32(m[a]) { return None; }
      out, todo := out[a := m[a].value], todo - {a};
    }
    r := Some(out);
  }

  method DecodeValues(m: map<string, Encoded>) returns (r: Option<map<string, Bytes>>)
    ensures r.Some? <==> forall a :: a in m ==> m[a].Some?
    ensures r.Some? ==> r.value == map a | a in m :: m[a].value
  {
    var out: map<string, Bytes> := map[];
    var todo := m.Keys;
    while todo != {}
      invariant todo <= m.Keys && out.Keys == m.Keys - todo
      invariant forall a :: a in out ==> m[a].Some? && out[a] == m[a].value
    {
      var a :| a in todo;
      if m[a].None? { return None; }
      out, todo := out[a := m[a].value], todo - {a};
    }
    r := Some(out);
  }

  method DecodePreKeys(m: map<string, Encoded>) returns (r: Option<seq<PreKey>>)
    ensures r.Some? <==> KeysDecode(m)
    ensures r.Some? ==> KeyList(m, r.value)
  {
    var out: seq<PreKey> := [];
    var todo := m.Keys;
    while todo != {}
      invariant todo <= m.Keys && |out| + |todo| == |m|
      invariant forall t :: t in m && t !in todo ==>
        EntryDecodes(m, t) && KeyOf(m, t) in out
      invariant forall k :: k in out ==> exists t :: t in m && t !in todo && EntryDecodes(m, t) && k == KeyOf(m, t)
    {
      var t :| t in todo;
      if !EntryDecodes(m, t) { return None; }
      var key := KeyOf(m, t);
      ghost var was := out;
      out, todo := out + [key], todo - {t};
      forall k | k in out ensures exists u :: u in m && u !in todo && EntryDecodes(m, u) && k == KeyOf(m, u) {
        if k in was {
          var u :| u in m && u !in todo + {t} && EntryDecodes(m, u) && k == KeyOf(m, u);
          assert u !in todo;
        } else {
          assert k == KeyOf(m, t);
        }
      }
    }
    r := Some(out);
  }

  /** The counter has been raised above each key, by no more than needed, unless an ID is the last of all. */
  ghost predicate RaisedPast(first: UInt32, keys: seq<PreKey>, next: UInt32) {
    (forall k :: k in keys ==> k.keyID < UINT32_SPAN - 1) ==>
      && first <= next && (forall k :: k in keys ==> k.keyID < next)
      && (next == first || exists k :: k in keys && next == k.keyID + 1)
  }

  lemma {:induction false} RaisedIsPast(first: UInt32, keys: seq<PreKey>)
    ensures RaisedPast(first, keys, Raised(first, keys))
    decreases |keys|
  {
    if keys != [] {
      var front, last := keys[..|keys| - 1], keys[|keys| - 1];
      RaisedIsPast(first, front);
      assert keys == front + [last];
    }
  }

  method RaiseCounter(first: UInt32, keys: seq<PreKey>) returns (next: UInt32)
    ensures next == Raised(first, keys) && RaisedPast(first, keys, next)
  {
    next := first;
    for i := 0 to |keys|
      invariant next == Raised(first, keys[..i])
    {
      assert keys[..i + 1][..i] == keys[..i];
      if keys[i].keyID >= next { next := Add32(keys[i].keyID, 1); }
    }
    assert keys[..|keys|] == keys;
    RaisedIsPast(first, keys);
  }

  method LegacyHeader(l: LegacyDevice) returns (r: Option<Header>)
    ensures r.Some? <==> HeaderDecodes(l)
    ensures r.Some? ==> r.value == HeaderOf(l)
  {
    if !Decodes32(l.noise) || !Decodes32(l.identity) || !Decodes32(l.signedPrivate) { return None; }
    if l.signature.None? || |l.signature.value| != 64 || !Decodes32(l.advSecret) { return None; }
    if l.registrationID < 1 || l.registrationID > MAX_REGISTRATION_ID || l.account.None? { return None; }
    r := Some(HeaderOf(l));
  }

  /** The uploaded list of an import: an absent one names every imported key. */
  method UploadedList(l: LegacyDevice, keys: seq<PreKey>) returns (ids: seq<UInt32>)
    ensures
      if l.uploaded.Some? then ids == l.uploaded.value
      else |ids| == |keys| && forall i :: 0 <= i < |keys| ==> ids[i] == keys[i].keyID
  {
    if l.uploaded.Some? { return l.uploaded.value; }
    ids := seq(|keys|, i requires 0 <= i < |keys| => keys[i].keyID);
  }

  /** Builds the current form of a legacy document, or fails on the first malformed field. */
  method LegacyDeviceState(l: LegacyDevice) returns (r: Result<PersistedState, LoadError>)
    ensures r.Ok? <==> LegacyDecodes(l)
    ensures r.Ok? ==> Imported(l, r.value)
    ensures r.Ok? ==> var h := r.value.header; HeaderWritten(l, h) && h.initialized && !h.deleted
    ensures r.Err? ==> r.error == BadLegacy
  {
    var header := LegacyHeader(l);
    if header.None? { return Err(BadLegacy); }
    var identities := DecodeKeys(l.identities);
    if identities.None? { return Err(BadLegacy); }
    var sessions := DecodeValues(l.sessions);
    if sessions.None? { return Err(BadLegacy); }
    var keys := DecodePreKeys(l.preKeys);
    if keys.None? { return Err(BadLegacy); }
    var uploaded := UploadedList(l, keys.value);
    var senderKeys := DecodeValues(l.senderKeys);
    if senderKeys.None? { return Err(BadLegacy); }
    var next := RaiseCounter(FirstCounter(l), keys.value);
    var s := PersistedState(
      STATE_VERSION, header.value, identities.value, sessions.value, keys.value, uploaded, senderKeys.value, next);
    IsImport(l, s);
    r := Ok(s);
  }

  /** The parts of an import make up one. */
  lemma IsImport(l: LegacyDevice, s: PersistedState)
    requires LegacyDecodes(l)
    requires s.version == STATE_VERSION && s.header == HeaderOf(l)
    requires s.identities == (map a | a in l.identities :: l.identities[a].value)
    requires s.sessions == (map a | a in l.sessions :: l.sessions[a].value)
    requires s.senderKeys == (map k | k in l.senderKeys :: l.senderKeys[k].value)
    requires KeyList(l.preKeys, s.preKeys)
    requires
      if l.uploaded.Some? then s.uploaded == l.uploaded.value
      else |s.uploaded| == |s.preKeys| && forall i :: 0 <= i < |s.preKeys| ==> s.uploaded[i] == s.preKeys[i].keyID
    requires s.nextPreKeyID == Raised(FirstCounter(l), s.preKeys)
    ensures Imported(l, s)
  {
    if l.uploaded.None? { UploadedByDefault(l, s); }
  }

  /** The counter of an import without the last 32-bit ID. */
  lemma ImportedCounter(l: LegacyDevice, s: PersistedState)
    requires LegacyDecodes(l) && Imported(l, s) && UINT32_SPAN - 1 !in ImportedIDs(l)
    ensures CounterAbove(l, s.nextPreKeyID) && Normalized(Decoded(s)).nextPreKeyID == s.nextPreKeyID
  {
    RaisedIsPast(FirstCounter(l), s.preKeys);
    RaisedCounter(l, s, s.nextPreKeyID);
  }

  lemma RaisedCounter(l: LegacyDevice, s: PersistedState, next: UInt32)
    requires LegacyDecodes(l) && KeyList(l.preKeys, s.preKeys)
    requires RaisedPast(FirstCounter(l), s.preKeys, next)
    ensures UINT32_SPAN - 1 !in ImportedIDs(l) ==> CounterAbove(l, next)
  {
    if UINT32_SPAN - 1 !in ImportedIDs(l) {
      KeysAreLow(l, s);
      RaisedAboveImported(l, s, next);
      if next != FirstCounter(l) { RaisedNoFurther(l, s, next); }
    }
  }

  lemma KeysAreLow(l: LegacyDevice, s: PersistedState)
    requires LegacyDecodes(l) && KeyList(l.preKeys, s.preKeys) && UINT32_SPAN - 1 !in ImportedIDs(l)
    ensures forall k :: k in s.preKeys ==> k.keyID < UINT32_SPAN - 1
  {
    forall k | k in s.preKeys ensures k.keyID < UINT32_SPAN - 1 { ListedKeyIsImported(l, s, k); }
  }

  lemma RaisedAboveImported(l: LegacyDevice, s: PersistedState, next: UInt32)
    requires LegacyDecodes(l) && KeyList(l.preKeys, s.preKeys)
    requires forall k :: k in s.preKeys ==> k.keyID < next
    ensures forall id :: id in ImportedIDs(l) ==> id < next
  {
    forall id | id in ImportedIDs(l) ensures id < next { var i := ImportedIDIsListed(l, s, id); }
  }

  lemma RaisedNoFurther(l: LegacyDevice, s: PersistedState, next: UInt32)
    requires LegacyDecodes(l) && KeyList(l.preKeys, s.preKeys)
    requires exists k :: k in s.preKeys && next == k.keyID + 1
    ensures next - 1 in ImportedIDs(l)
  {
    var k :| k in s.preKeys && next == k.keyID + 1;
    ListedKeyIsImported(l, s, k);
  }

  lemma UploadedByDefault(l: LegacyDevice, s: PersistedState)
    requires LegacyDecodes(l)
    requires KeyList(l.preKeys, s.preKeys)
    requires |s.uploaded| == |s.preKeys| && forall i :: 0 <= i < |s.preKeys| ==> s.uploaded[i] == s.preKeys[i].keyID
    ensures SetOf(s.uploaded) == ImportedIDs(l)
  {
    KeyIDsAreImported(l, s);
    forall id | id in ImportedIDs(l) ensures id in s.uploaded {
      var i :| 0 <= i < |s.preKeys| && s.preKeys[i].keyID == id;
      assert s.uploaded[i] == id;
    }
    forall id | id in s.uploaded ensures id in ImportedIDs(l) {
      var i :| 0 <= i < |s.uploaded| && s.uploaded[i] == id;
      assert s.preKeys[i].keyID == id;
    }
  }

  lemma ListedKeyIsImported(l: LegacyDevice, s: PersistedState, k: PreKey)
    requires LegacyDecodes(l) && KeyList(l.preKeys, s.preKeys) && k in s.preKeys
    ensures k.keyID in ImportedIDs(l)
  {
    var t :| t in l.preKeys && k == KeyOf(l.preKeys, t);
  }

  lemma ImportedIDIsListed(l: LegacyDevice, s: PersistedState, id: UInt32) returns (i: nat)
    requires LegacyDecodes(l) && KeyList(l.preKeys, s.preKeys) && id in ImportedIDs(l)
    ensures i < |s.preKeys| && s.preKeys[i].keyID == id && s.preKeys[i] in s.preKeys
  {
    var t :| t in l.preKeys && KeyOf(l.preKeys, t).keyID == id;
    var key := KeyOf(l.preKeys, t);
    assert key in s.preKeys;
    i :| 0 <= i < |s.preKeys| && s.preKeys[i] == key;
  }

  /** The IDs in an import's key list are the document's. */
  lemma KeyIDsAreImported(l: LegacyDevice, s: PersistedState)
    requires LegacyDecodes(l)
    requires KeyList(l.preKeys, s.preKeys)
    ensures forall id :: id in ImportedIDs(l) <==> exists i :: 0 <= i < |s.preKeys| && s.preKeys[i].keyID == id
    ensures forall k :: k in s.preKeys ==> k.keyID in ImportedIDs(l)
    ensures Decoded(s).preKeys.Keys == ImportedIDs(l)
  {
    forall k | k in s.preKeys ensures k.keyID in ImportedIDs(l) { ListedKeyIsImported(l, s, k); }
    forall id | id in ImportedIDs(l) ensures exists i :: 0 <= i < |s.preKeys| && s.preKeys[i].keyID == id {
      var i := ImportedIDIsListed(l, s, id);
    }
    forall i | 0 <= i < |s.preKeys| ensures s.preKeys[i].keyID in ImportedIDs(l) { assert s.preKeys[i] in s.preKeys; }
    DecodedIDsAreImported(l, s);
  }

  lemma DecodedIDsAreImported(l: LegacyDevice, s: PersistedState)
    requires LegacyDecodes(l) && KeyList(l.preKeys, s.preKeys)
    ensures Decoded(s).preKeys.Keys == ImportedIDs(l)
  {
    AddKeysLookup(map[], s.preKeys);
    forall id | id in Decoded(s).preKeys ensures id in ImportedIDs(l) {
      var k :| k in s.preKeys && k.keyID == id;
      ListedKeyIsImported(l, s, k);
    }
    forall id | id in ImportedIDs(l) ensures id in Decoded(s).preKeys {
      var i := ImportedIDIsListed(l, s, id);
    }
  }

  /** The ID is below the counter that the import starts from, or not above every imported ID. */
  ghost predicate BelowRaised(l: LegacyDevice, id: UInt32)
    requires LegacyDecodes(l)
  {
    id < FirstCounter(l) || exists k :: k in ImportedIDs(l) && id <= k
  }

  /**
   An import meets the allocator's invariant exactly when no imported ID is the last 32-bit number and
   the uploaded list, if there is one, names only IDs that are below the document's counter or not above
   every imported ID; all uploaded IDs are stored exactly when it names imported IDs only.
   */
  lemma ImportedAllocator(f: Formats, l: LegacyDevice, s: PersistedState)
    requires LegacyDecodes(l) && Imported(l, s) && Loaded(f, Decoded(s)).Ok?
    ensures AllocatorInv(Loaded(f, Decoded(s)).value) <==>
      && UINT32_SPAN - 1 !in ImportedIDs(l)
      && (l.uploaded.Some? ==> forall id :: id in l.uploaded.value ==> BelowRaised(l, id))
    ensures UploadedStored(Loaded(f, Decoded(s)).value) <==>
      (l.uploaded.Some? ==> forall id :: id in l.uploaded.value ==> id in ImportedIDs(l))
  {
    KeyIDsAreImported(l, s);
    LoadedKeysAreKeyed(s);
    var c := Loaded(f, Decoded(s)).value;
    UploadedNames(l, s);
    if UINT32_SPAN - 1 in ImportedIDs(l) {
      assert UINT32_SPAN - 1 in c.preKeys;
    } else {
      ImportedCounter(l, s);
      SoundWhenBelowRaised(l, c);
    }
  }

  /** The uploaded IDs of an import are those of its list, or the imported ones without a list. */
  lemma UploadedNames(l: LegacyDevice, s: PersistedState)
    requires LegacyDecodes(l) && Imported(l, s)
    ensures Decoded(s).uploaded == if l.uploaded.Some? then SetOf(l.uploaded.value) else ImportedIDs(l)
  {
  }

  lemma SoundWhenBelowRaised(l: LegacyDevice, c: Content)
    requires LegacyDecodes(l) && Keyed(c.preKeys) && c.preKeys.Keys == ImportedIDs(l)
    requires CounterAbove(l, c.nextPreKeyID)
    ensures AllocatorInv(c) <==> forall id :: id in c.uploaded ==> BelowRaised(l, id)
  {
    forall id | id in c.uploaded ensures id < c.nextPreKeyID <==> BelowRaised(l, id) {
      RaisedBound(l, c.nextPreKeyID, id);
    }
  }

  lemma RaisedBound(l: LegacyDevice, next: UInt32, id: UInt32)
    requires LegacyDecodes(l) && CounterAbove(l, next)
    ensures id < next <==> BelowRaised(l, id)
  {
    if id < next && next != FirstCounter(l) { assert next - 1 in ImportedIDs(l) && id <= next - 1; }
  }

  // ---- the order in which an import ranges over the keys ----

  /** The counter comes out the same for every order of the document's keys. */
  ghost predicate OrderIrrelevant(l: LegacyDevice)
    requires LegacyDecodes(l)
  {
    forall a, b :: KeyList(l.preKeys, a) && KeyList(l.preKeys, b) ==>
      Raised(FirstCounter(l), a) == Raised(FirstCounter(l), b)
  }

  function MovedToEnd(ks: seq<PreKey>, i: nat): seq<PreKey>
    requires i < |ks|
  {
    ks[..i] + ks[i + 1..] + [ks[i]]
  }

  lemma StillAKeyList(m: map<string, Encoded>, ks: seq<PreKey>, i: nat)
    requires KeysDecode(m) && KeyList(m, ks) && i < |ks|
    ensures KeyList(m, MovedToEnd(ks, i))
  {
    assert ks == ks[..i] + [ks[i]] + ks[i + 1..];
    assert forall k :: k in MovedToEnd(ks, i) <==> k in ks;
  }

  /** Ending with the last 32-bit ID the counter is zero, ending with any other it is not. */
  lemma LastKeyDecides(first: UInt32, ks: seq<PreKey>, i: nat)
    requires i < |ks|
    ensures Raised(first, MovedToEnd(ks, i)) == 0 <==> ks[i].keyID == UINT32_SPAN - 1
  {
    assert MovedToEnd(ks, i)[..|ks| - 1] == ks[..i] + ks[i + 1..];
  }

  /**
   The imported counter does not depend on the order of the keys exactly when none of them has the last
   32-bit ID, or all have.
   */
  lemma OrderIrrelevantExactlyWhenNoLastID(l: LegacyDevice, s: PersistedState)
    requires LegacyDecodes(l) && Imported(l, s)
    ensures OrderIrrelevant(l) <==> UINT32_SPAN - 1 !in ImportedIDs(l) || ImportedIDs(l) == {UINT32_SPAN - 1}
  {
    var last := UINT32_SPAN - 1;
    if last !in ImportedIDs(l) {
      forall a, b | KeyList(l.preKeys, a) && KeyList(l.preKeys, b)
        ensures Raised(FirstCounter(l), a) == Raised(FirstCounter(l), b)
      {
        OneCounterAbove(l, s.(preKeys := a), s.(preKeys := b));
      }
    } else if ImportedIDs(l) == {last} {
      forall a | KeyList(l.preKeys, a) ensures Raised(FirstCounter(l), a) == 0 { OnlyLastID(l, s.(preKeys := a)); }
    } else {
      TwoCounters(l, s);
    }
  }

  lemma OneCounterAbove(l: LegacyDevice, a: PersistedState, b: PersistedState)
    requires LegacyDecodes(l) && UINT32_SPAN - 1 !in ImportedIDs(l)
    requires KeyList(l.preKeys, a.preKeys) && KeyList(l.preKeys, b.preKeys)
    ensures Raised(FirstCounter(l), a.preKeys) == Raised(FirstCounter(l), b.preKeys)
  {
    RaisedIsPast(FirstCounter(l), a.preKeys);
    RaisedIsPast(FirstCounter(l), b.preKeys);
    RaisedCounter(l, a, Raised(FirstCounter(l), a.preKeys));
    RaisedCounter(l, b, Raised(FirstCounter(l), b.preKeys));
  }

  lemma OnlyLastID(l: LegacyDevice, s: PersistedState)
    requires LegacyDecodes(l) && KeyList(l.preKeys, s.preKeys) && ImportedIDs(l) == {UINT32_SPAN - 1}
    ensures Raised(FirstCounter(l), s.preKeys) == 0
  {
    var i := ImportedIDIsListed(l, s, UINT32_SPAN - 1);
    var k := s.preKeys[|s.preKeys| - 1];
    assert k in s.preKeys;
    ListedKeyIsImported(l, s, k);
  }

  lemma TwoCounters(l: LegacyDevice, s: PersistedState)
    requires LegacyDecodes(l) && Imported(l, s)
    requires UINT32_SPAN - 1 in ImportedIDs(l) && ImportedIDs(l) != {UINT32_SPAN - 1}
    ensures !OrderIrrelevant(l)
  {
    var other :| other in ImportedIDs(l) && other != UINT32_SPAN - 1;
    var i := ImportedIDIsListed(l, s, UINT32_SPAN - 1);
    var j := ImportedIDIsListed(l, s, other);
    StillAKeyList(l.preKeys, s.preKeys, i);
    StillAKeyList(l.preKeys, s.preKeys, j);
    LastKeyDecides(FirstCounter(l), s.preKeys, i);
    LastKeyDecides(FirstCounter(l), s.preKeys, j);
  }

  lemma LoadedKeysAreKeyed(s: PersistedState)
    ensures Keyed(Decoded(s).preKeys)
  {
    AddKeysLookup(map[], s.preKeys);
  }

  /** Keys generated after such an import never replace an imported key. */
  lemma GenerationKeepsImportedKeys(f: Formats, l: LegacyDevice, s: PersistedState, count: UInt32,
                                    generator: nat -> Key32)
    requires LegacyDecodes(l) && Imported(l, s) && Loaded(f, Decoded(s)).Ok?
    requires UINT32_SPAN - 1 !in ImportedIDs(l)
    requires Fits(Loaded(f, Decoded(s)).value, count)
    ensures var c := Loaded(f, Decoded(s)).value;
      forall id :: id in ImportedIDs(l) ==>
        && id in c.preKeys && id in AfterBatch(c, count, generator).preKeys
        && AfterBatch(c, count, generator).preKeys[id] == c.preKeys[id]
  {
    KeyIDsAreImported(l, s);
    ImportedCounter(l, s);
    BatchAddsNextIDs(Loaded(f, Decoded(s)).value, count, generator);
  }

  /**
   After such an import, whatever its uploaded list names, every imported key stays what it is through
   any run that does not reach the end of the range, until it is removed or the device is deleted.
   */
  lemma ImportedKeysStay(f: Formats, l: LegacyDevice, s: PersistedState, actions: seq<Action>, id: UInt32)
    requires Faithful(f) && LegacyDecodes(l) && Imported(l, s) && Loaded(f, Decoded(s)).Ok?
    requires UINT32_SPAN - 1 !in ImportedIDs(l) && id in ImportedIDs(l)
    requires var c := Loaded(f, Decoded(s)).value;
      CountersFit(f, World(c, c, true), actions) && NeverDropped(f, World(c, c, true), actions, id)
    ensures var c := Loaded(f, Decoded(s)).value;
      var t := Run(f, World(c, c, true), actions).content;
      id in c.preKeys && id in t.preKeys && t.preKeys[id] == c.preKeys[id]
  {
    KeyIDsAreImported(l, s);
    LoadedKeysAreKeyed(s);
    LoadingEstablishesWellFormed(f, s);
    ImportedCounter(l, s);
    var c := Loaded(f, Decoded(s)).value;
    StoredKeysStay(f, World(c, c, true), actions, id);
  }

  /** A store holding what the state loads as, or the error of the check that fails. */
  ghost predicate LoadedFrom(f: Formats, s: PersistedState, r: Result<DeviceStore, LoadError>)
    reads if r.Ok? then {r.value} else {}
  {
    match Loaded(f, Decoded(s))
    case Ok(c) => r.Ok? && r.value.State() == c
    case Err(e) => r == Err(e)
  }

  /** The device of a store opened from a legacy document: its keys and numbers, and its parsed texts. */
  ghost predicate DeviceOf(f: Formats, l: LegacyDevice, h: Header) {
    && l.noise == Some(h.noise) && l.identity == Some(h.identity)
    && l.signedPrivate == Some(h.signed.private) && l.signedID == h.signed.keyID && l.signature == h.signed.signature
    && l.registrationID == h.registrationID && l.advSecret == Some(h.advSecret)
    && f.uuid(l.uuid) == Some(h.uuid)
    && (if l.jid == "" then h.id == "" else f.jid(l.jid) == Some(h.id))
    && (if l.lid == "" then h.lid == "" else f.jid(l.lid) == Some(h.lid))
    && l.platform == h.platform && l.businessName == h.businessName && l.pushName == h.pushName
    && l.lidMigrationTimestamp == h.lidMigrationTimestamp
    && h.initialized && !h.deleted
  }

  /** Opens a stored document: a legacy one is converted first, any other version is refused. */
  method LoadDeviceStore(formats: Formats, doc: StoredDocument) returns (r: Result<DeviceStore, LoadError>)
    requires Faithful(formats)
    ensures r.Ok? ==> fresh(r.value) && r.value.Valid() && r.value.formats == formats && !r.value.persisting
    ensures match doc
      case Current(s) => if s.version != STATE_VERSION then r == Err(BadVersion) else LoadedFrom(formats, s, r)
      case Legacy(l) =>
        if !LegacyDecodes(l) then r == Err(BadLegacy) else exists s :: Imported(l, s) && LoadedFrom(formats, s, r)
    ensures doc.Legacy? && r.Ok? ==> DeviceOf(formats, doc.device, r.value.device)
  {
    var state: PersistedState;
    match doc {
      case Legacy(l) =>
        var converted := LegacyDeviceState(l);
        if converted.Err? { return Err(converted.error); }
        state := converted.value;
      case Current(s) =>
        state := s;
    }
    if state.version != STATE_VERSION { return Err(BadVersion); }
    if Loaded(formats, Decoded(state)).Ok? { LoadedFields(formats, state); }
    r := DeviceStore.Restored(formats, state);
  }
}
