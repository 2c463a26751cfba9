/**
 The logical content of the end-to-end device store, the persisted state it is written to and
 read back from, and the effect of every store operation on it.  Everything here is a value; the
 class in DeviceStore.dfy updates its fields in place and is proved against these functions.
 */
module DeviceContent {
  import opened Basics

  const STATE_VERSION: int := 1
  const MAX_REGISTRATION_ID: nat := 16380

  type Key32 = k: Bytes | |k| == 32 witness seq(32, _ => 0 as bv8)

  /** A pre-key; its public half is determined by the private one and is not kept. */
  datatype PreKey = PreKey(keyID: UInt32, private: Key32, signature: Option<Bytes>)

  /** The device record with the text or bytes its parsed fields are written out as. */
  datatype Header = Header(
    noise: Key32, identity: Key32, signed: PreKey,
    registrationID: UInt32, advSecret: Bytes,
    id: string, lid: string, account: Bytes,
    platform: string, businessName: string, pushName: string, lidMigrationTimestamp: int,
    uuid: string, initialized: bool, deleted: bool)

  datatype Content = Content(
    header: Header,
    identities: map<string, Key32>,
    sessions: map<string, Bytes>,
    preKeys: map<UInt32, PreKey>,
    uploaded: set<UInt32>,
    senderKeys: map<string, Bytes>,
    nextPreKeyID: UInt32)

  /** What the persistence callback receives: maps of keys flattened into lists of no given order. */
  datatype PersistedState = PersistedState(
    version: int,
    header: Header,
    identities: map<string, Key32>,
    sessions: map<string, Bytes>,
    preKeys: seq<PreKey>,
    uploaded: seq<UInt32>,
    senderKeys: map<string, Bytes>,
    nextPreKeyID: UInt32)

  /**
   The three foreign parsers, each giving the canonical form of what it accepts: JID text, UUID
   text and the account message.
   */
  datatype Formats = Formats(
    jid: string -> Option<string>,
    uuid: string -> Option<string>,
    account: Bytes -> Option<Bytes>)

  /** Printing a parsed value and parsing it again gives the value back. */
  ghost predicate Faithful(f: Formats) {
    && (forall s :: f.jid(s).Some? ==> var t := f.jid(s).value; t == "" || f.jid(t) == Some(t))
    && (forall s :: f.uuid(s).Some? ==> var t := f.uuid(s).value; t != "" && f.uuid(t) == Some(t))
    && (forall s :: f.account(s).Some? ==> var t := f.account(s).value; t == [] || f.account(t) == Some(t))
  }

  datatype LoadError =
    | BadRegistrationID | EmptyKeyMaterial | BadAdvSecret | MissingUUID
    | BadUUID | BadJID | BadLID | BadAccount | BadVersion | BadLegacy

  predicate ZeroKey(k: Key32) { forall i :: 0 <= i < 32 ==> k[i] == 0 }

  /** The checks made on a header before it replaces a store's device, in the order they are made. */
  function CheckedHeader(f: Formats, h: Header): Result<Header, LoadError> {
    if h.registrationID < 1 || h.registrationID > MAX_REGISTRATION_ID then Err(BadRegistrationID)
    else if ZeroKey(h.noise) || ZeroKey(h.identity) || ZeroKey(h.signed.private) then Err(EmptyKeyMaterial)
    else if |h.advSecret| != 32 then Err(BadAdvSecret)
    else if h.uuid == "" then Err(MissingUUID)
    else if f.uuid(h.uuid).None? then Err(BadUUID)
    else if h.id != "" && f.jid(h.id).None? then Err(BadJID)
    else if h.lid != "" && f.jid(h.lid).None? then Err(BadLID)
    else if h.account != [] && f.account(h.account).None? then Err(BadAccount)
    else Ok(h.(
      uuid := f.uuid(h.uuid).value,
      id := if h.id == "" then "" else f.jid(h.id).value,
      lid := if h.lid == "" then "" else f.jid(h.lid).value,
      account := if h.account == [] then [] else f.account(h.account).value))
  }

  /** A header that passes every check and is already in canonical form. */
  ghost predicate Restorable(f: Formats, h: Header) { CheckedHeader(f, h) == Ok(h) }

  /** Adds keys under their own IDs, a later key replacing an earlier one with its ID. */
  function AddKeys(m: map<UInt32, PreKey>, ks: seq<PreKey>): map<UInt32, PreKey> {
    if ks == [] then m
    else var last := ks[|ks| - 1]; AddKeys(m, ks[..|ks| - 1])[last.keyID := last]
  }

  function SetOf(ids: seq<UInt32>): set<UInt32> { set id | id in ids }

  /** The content a persisted state lists. */
  function Decoded(s: PersistedState): Content {
    Content(s.header, s.identities, s.sessions, AddKeys(map[], s.preKeys), SetOf(s.uploaded),
            s.senderKeys, s.nextPreKeyID)
  }

  /** Loading gives an allocator counter of zero the value one. */
  function Normalized(c: Content): Content {
    c.(nextPreKeyID := if c.nextPreKeyID == 0 then 1 else c.nextPreKeyID)
  }

  /** What a store holds after restoring content `c`. */
  function Loaded(f: Formats, c: Content): Result<Content, LoadError> {
    match CheckedHeader(f, c.header)
    case Err(e) => Err(e)
    case Ok(h) => Ok(Normalized(c.(header := h)))
  }

  ghost predicate Keyed(m: map<UInt32, PreKey>) { forall id :: id in m ==> m[id].keyID == id }

  /** What every store made by the constructor or by loading satisfies, whatever is done to it. */
  ghost predicate WellFormed(f: Formats, c: Content) {
    && Faithful(f)
    && Restorable(f, c.header)
    && Keyed(c.preKeys)
  }

  // ---------------------------------------------------------------------------------------------
  // Snapshots

  /** A list of a key map in any order, each key once or more. */
  ghost predicate Listing(ks: seq<PreKey>, m: map<UInt32, PreKey>) {
    && (forall k :: k in ks ==> k.keyID in m && m[k.keyID] == k)
    && (forall id :: id in m ==> m[id] in ks)
  }

  /** `s` is one of the states a store with content `c` may write. */
  ghost predicate Represents(s: PersistedState, c: Content) {
    && s.version == STATE_VERSION
    && s.header == c.header && s.identities == c.identities && s.sessions == c.sessions
    && s.senderKeys == c.senderKeys && s.nextPreKeyID == c.nextPreKeyID
    && Listing(s.preKeys, c.preKeys)
    && Lists(s.uploaded, c.uploaded)
  }

  lemma {:induction false} AddKeysLookup(m: map<UInt32, PreKey>, ks: seq<PreKey>)
    ensures forall id :: id in AddKeys(m, ks) <==> id in m || exists k :: k in ks && k.keyID == id
    ensures forall id :: id in AddKeys(m, ks) ==>
      (AddKeys(m, ks)[id] in ks && AddKeys(m, ks)[id].keyID == id) ||
      (id in m && AddKeys(m, ks)[id] == m[id] && forall k :: k in ks ==> k.keyID != id)
  {
    if ks != [] {
      var front, last := ks[..|ks| - 1], ks[|ks| - 1];
      AddKeysLookup(m, front);
      assert ks == front + [last];
      forall id ensures id in AddKeys(m, ks) <==> id in m || exists k :: k in ks && k.keyID == id {
        if id == last.keyID { assert last in ks; }
      }
    }
  }

  /** Whatever order the lists of a snapshot are in, it decodes to the content it was taken from. */
  lemma {:induction false} SnapshotDecodes(s: PersistedState, c: Content)
    requires Represents(s, c) && Keyed(c.preKeys)
    ensures Decoded(s) == c
  {
    AddKeysLookup(map[], s.preKeys);
    var m := AddKeys(map[], s.preKeys);
    forall id ensures id in m <==> id in c.preKeys {
      if id in c.preKeys { assert c.preKeys[id] in s.preKeys; }
    }
    assert m == c.preKeys;
    assert SetOf(s.uploaded) == c.uploaded;
  }

  // ---------------------------------------------------------------------------------------------
  // Loading, field by field

  /** Key material of 32 bytes that are not all zero. */
  ghost predicate HasKey(k: Key32) { exists i :: 0 <= i < 32 && k[i] != 0 }

  /** A state loads exactly when its numbers, keys and secret are in range and its texts parse. */
  lemma LoadsExactlyWhenSound(f: Formats, s: PersistedState)
    ensures Loaded(f, Decoded(s)).Ok? <==>
      && 1 <= s.header.registrationID <= 16380
      && HasKey(s.header.noise) && HasKey(s.header.identity) && HasKey(s.header.signed.private)
      && |s.header.advSecret| == 32
      && s.header.uuid != "" && f.uuid(s.header.uuid).Some?
      && (s.header.id == "" || f.jid(s.header.id).Some?)
      && (s.header.lid == "" || f.jid(s.header.lid).Some?)
      && (s.header.account == [] || f.account(s.header.account).Some?)
  {
  }

  /** What a loaded store holds: each field is that of the state, the texts in canonical form. */
  lemma LoadedFields(f: Formats, s: PersistedState)
    requires Loaded(f, Decoded(s)).Ok?
    ensures var h := Loaded(f, Decoded(s)).value.header;
      && h.noise == s.header.noise && h.identity == s.header.identity && h.signed == s.header.signed
      && h.registrationID == s.header.registrationID && h.advSecret == s.header.advSecret
      && Some(h.uuid) == f.uuid(s.header.uuid)
      && (if s.header.id == "" then h.id == "" else Some(h.id) == f.jid(s.header.id))
      && (if s.header.lid == "" then h.lid == "" else Some(h.lid) == f.jid(s.header.lid))
      && (if s.header.account == [] then h.account == [] else Some(h.account) == f.account(s.header.account))
      && h.platform == s.header.platform && h.businessName == s.header.businessName && h.pushName == s.header.pushName
      && h.lidMigrationTimestamp == s.header.lidMigrationTimestamp
      && h.initialized == s.header.initialized && h.deleted == s.header.deleted
    ensures var c := Loaded(f, Decoded(s)).value;
      && c.identities == s.identities && c.sessions == s.sessions && c.senderKeys == s.senderKeys
      && (forall id :: id in c.uploaded <==> id in s.uploaded)
      && (forall id :: id in c.preKeys <==> exists k :: k in s.preKeys && k.keyID == id)
      && (forall id :: id in c.preKeys ==> c.preKeys[id] in s.preKeys && c.preKeys[id].keyID == id)
      && c.nextPreKeyID == if s.nextPreKeyID == 0 then 1 else s.nextPreKeyID
  {
    AddKeysLookup(map[], s.preKeys);
  }
}
