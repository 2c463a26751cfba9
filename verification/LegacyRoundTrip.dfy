/** Writing a store's content as a legacy document by hand, and what importing that document gives. */
module LegacyRoundTrip {
  import opened Basics
  import opened DeviceContent
  import opened PreKeys
  import opened DeviceRuns
  import opened LegacyImport

  /** A number in decimal. */
  function Printed(n: nat): (s: string)
    ensures s != "" && forall i :: 0 <= i < |s| ==> '0' <= s[i] <= '9'
  {
    if n < 10 then [DIGITS[n]] else Printed(n / 10) + [DIGITS[n % 10]]
  }

  const DIGITS: string := "0123456789"

  lemma {:induction false} PrintedValue(n: nat)
    ensures DigitsValue(Printed(n)) == n
  {
    var last := n % 10;
    assert DIGITS[last] as int - '0' as int == last;
    if n < 10 {
      assert Printed(n)[..0] == "";
    } else {
      PrintedValue(n / 10);
      assert Printed(n)[..|Printed(n)| - 1] == Printed(n / 10);
    }
  }

  lemma PrintedParses(id: UInt32)
    ensures ParseID(Printed(id)) == Some(id)
  {
    PrintedValue(id);
  }

  /** The document's maps hold the encoded values of the content's. */
  ghost predicate Encodes<V>(m: map<string, V>, e: map<string, Encoded>, bytes: V -> Bytes) {
    e.Keys == m.Keys && forall a :: a in m ==> e[a] == Some(bytes(m[a]))
  }

  ghost function PrintedIDs(m: map<UInt32, PreKey>): set<string> { set id | id in m :: Printed(id) }

  /** Every pre-key is in the document under its printed ID, and nothing else is. */
  ghost predicate EncodesKeys(m: map<UInt32, PreKey>, e: map<string, Encoded>) {
    e.Keys == PrintedIDs(m) && forall id :: id in m ==> Printed(id) in e && e[Printed(id)] == Some(m[id].private)
  }

  ghost predicate EncodesMaps(l: LegacyDevice, c: Content) {
    && Encodes(c.identities, l.identities, k => k)
    && Encodes(c.sessions, l.sessions, b => b)
    && Encodes(c.senderKeys, l.senderKeys, b => b)
    && l.uploaded.Some? && Lists(l.uploaded.value, c.uploaded)
    && l.nextPreKeyID == c.nextPreKeyID
  }

  /** The document is the content, field by field. */
  ghost predicate Writes(l: LegacyDevice, c: Content) {
    HeaderWritten(l, c.header) && EncodesMaps(l, c) && EncodesKeys(c.preKeys, l.preKeys)
  }

  /** What the legacy format demands of a device: its signed pre-key carries a signature. */
  predicate Signed(h: Header) { h.signed.signature.Some? && |h.signed.signature.value| == 64 }

  /** The keys as the legacy format keeps them. */
  function Unsigned(m: map<UInt32, PreKey>): map<UInt32, PreKey> { map id | id in m :: PreKey(id, m[id].private, None) }

  lemma WrittenKeyDecodes(m: map<UInt32, PreKey>, e: map<string, Encoded>, t: string)
    requires EncodesKeys(m, e) && t in e
    ensures EntryDecodes(e, t)
    ensures var key := KeyOf(e, t); key.keyID in m && key == Unsigned(m)[key.keyID]
  {
    assert t in PrintedIDs(m);
    var id :| id in m && t == Printed(id);
    PrintedParses(id);
  }

  lemma WrittenKeyIsThere(m: map<UInt32, PreKey>, e: map<string, Encoded>, id: UInt32)
    requires EncodesKeys(m, e) && id in m
    ensures Printed(id) in e && EntryDecodes(e, Printed(id)) && KeyOf(e, Printed(id)).keyID == id
  {
    PrintedParses(id);
  }

  lemma WrittenKeysDecode(m: map<UInt32, PreKey>, e: map<string, Encoded>)
    requires EncodesKeys(m, e)
    ensures KeysDecode(e)
  {
    forall t | t in e ensures EntryDecodes(e, t) { WrittenKeyDecodes(m, e, t); }
  }

  lemma WrittenDecodes(f: Formats, l: LegacyDevice, c: Content)
    requires WellFormed(f, c) && Signed(c.header) && Writes(l, c)
    ensures LegacyDecodes(l) && ImportedIDs(l) == c.preKeys.Keys
  {
    WrittenKeysDecode(c.preKeys, l.preKeys);
    WrittenIDsAreImported(l, c.preKeys);
  }

  lemma WrittenIDsAreImported(l: LegacyDevice, m: map<UInt32, PreKey>)
    requires LegacyDecodes(l) && EncodesKeys(m, l.preKeys)
    ensures ImportedIDs(l) == m.Keys
  {
    forall id | id in ImportedIDs(l) ensures id in m {
      var t :| t in l.preKeys && KeyOf(l.preKeys, t).keyID == id;
      WrittenKeyDecodes(m, l.preKeys, t);
    }
    forall id | id in m ensures id in ImportedIDs(l) { WrittenKeyIsThere(m, l.preKeys, id); }
  }

  /** The content as the legacy format keeps it: an initialized device, pre-keys without signatures. */
  function Kept(c: Content): Content {
    c.(header := c.header.(initialized := true, deleted := false), preKeys := Unsigned(c.preKeys))
  }

  lemma WrittenHeaderLoads(f: Formats, l: LegacyDevice, h: Header)
    requires Restorable(f, h) && HeaderWritten(l, h) && HeaderDecodes(l)
    ensures HeaderOf(l) == h.(initialized := true, deleted := false)
    ensures CheckedHeader(f, HeaderOf(l)) == Ok(HeaderOf(l))
  {
  }

  /** In whatever order, the listed keys are those written. */
  lemma ListedKeysAreWritten(m: map<UInt32, PreKey>, e: map<string, Encoded>, ks: seq<PreKey>)
    requires EncodesKeys(m, e) && KeysDecode(e) && KeyList(e, ks)
    ensures AddKeys(map[], ks) == Unsigned(m)
  {
    AddKeysLookup(map[], ks);
    var r := AddKeys(map[], ks);
    forall id | id in r ensures id in m && r[id] == Unsigned(m)[id] { ListedKeyIsWritten(m, e, ks, r[id]); }
    forall id | id in m ensures id in r { WrittenKeyIsListed(m, e, ks, id); }
    SameKeys(r, Unsigned(m));
  }

  lemma SameKeys(a: map<UInt32, PreKey>, b: map<UInt32, PreKey>)
    requires (forall id :: id in b ==> id in a) && forall id :: id in a ==> id in b && a[id] == b[id]
    ensures a == b
  {
    assert a.Keys == b.Keys;
  }

  lemma ListedKeyIsWritten(m: map<UInt32, PreKey>, e: map<string, Encoded>, ks: seq<PreKey>, key: PreKey)
    requires EncodesKeys(m, e) && KeysDecode(e) && KeyList(e, ks) && key in ks
    ensures key.keyID in m && key == Unsigned(m)[key.keyID]
  {
    var t :| t in e && key == KeyOf(e, t);
    WrittenKeyDecodes(m, e, t);
  }

  lemma WrittenKeyIsListed(m: map<UInt32, PreKey>, e: map<string, Encoded>, ks: seq<PreKey>, id: UInt32)
    requires EncodesKeys(m, e) && KeysDecode(e) && KeyList(e, ks) && id in m
    ensures exists k :: k in ks && k.keyID == id
  {
    WrittenKeyIsThere(m, e, id);
    assert KeyOf(e, Printed(id)) in ks;
  }

  /**
   Whatever order its keys are ranged over, the document written from a content imports and loads as
   that content as the format keeps it, up to the counter.
   */
  lemma WrittenLoads(f: Formats, l: LegacyDevice, c: Content, s: PersistedState)
    requires WellFormed(f, c) && Signed(c.header) && Writes(l, c) && LegacyDecodes(l) && Imported(l, s)
    ensures Loaded(f, Decoded(s)) ==
      Ok(Kept(c).(nextPreKeyID := if s.nextPreKeyID == 0 then 1 else s.nextPreKeyID))
  {
    WrittenHeaderLoads(f, l, c.header);
    ListedKeysAreWritten(c.preKeys, l.preKeys, s.preKeys);
    WrittenMapsDecode(l, c, s);
  }

  lemma WrittenMapsDecode(l: LegacyDevice, c: Content, s: PersistedState)
    requires LegacyDecodes(l) && EncodesMaps(l, c) && Imported(l, s)
    ensures s.identities == c.identities && s.sessions == c.sessions && s.senderKeys == c.senderKeys
    ensures SetOf(s.uploaded) == c.uploaded
  {
  }

  /** The content is one that the legacy format can hold without loss. */
  ghost predicate Holds(c: Content) {
    && c.header.initialized && !c.header.deleted
    && (forall id :: id in c.preKeys ==> c.preKeys[id].signature.None?)
    && 0 < c.nextPreKeyID && forall id :: id in c.preKeys ==> id < c.nextPreKeyID
  }

  /**
   A well-formed content written as a legacy document, and imported and loaded from it, is the same
   content exactly when the device is initialized and not deleted, its pre-keys are unsigned, and its
   counter is positive and above all of them.
   */
  lemma RoundTripExactlyWhenHeld(f: Formats, l: LegacyDevice, c: Content, s: PersistedState)
    requires WellFormed(f, c) && Signed(c.header) && Writes(l, c) && UINT32_SPAN - 1 !in c.preKeys
    ensures LegacyDecodes(l)
    ensures Imported(l, s) ==> (Loaded(f, Decoded(s)) == Ok(c) <==> Holds(c))
  {
    WrittenDecodes(f, l, c);
    if Imported(l, s) {
      WrittenLoads(f, l, c, s);
      ImportedCounter(l, s);
      SameExactlyWhenHeld(l, c, s.nextPreKeyID);
    }
  }

  lemma SameExactlyWhenHeld(l: LegacyDevice, c: Content, next: UInt32)
    requires LegacyDecodes(l) && ImportedIDs(l) == c.preKeys.Keys && l.nextPreKeyID == c.nextPreKeyID
    requires Keyed(c.preKeys) && CounterAbove(l, next)
    ensures next > 0 && (Kept(c).(nextPreKeyID := next) == c <==> Holds(c))
  {
    CounterKeptExactlyWhenAbove(l, c, next);
    KeptExactlyWhenUnsigned(c);
    SameUpToCounter(c, next);
  }

  lemma SameUpToCounter(c: Content, next: UInt32)
    ensures Kept(c).(nextPreKeyID := next) == c <==> Kept(c) == c && next == c.nextPreKeyID
  {
  }

  lemma KeptExactlyWhenUnsigned(c: Content)
    requires Keyed(c.preKeys)
    ensures Kept(c) == c <==>
      && c.header.initialized && !c.header.deleted
      && forall id :: id in c.preKeys ==> c.preKeys[id].signature.None?
  {
    if Unsigned(c.preKeys) == c.preKeys {
      forall id | id in c.preKeys ensures c.preKeys[id].signature.None? {
        assert Unsigned(c.preKeys)[id].signature.None?;
      }
    }
    if forall id :: id in c.preKeys ==> c.preKeys[id].signature.None? {
      SameKeys(Unsigned(c.preKeys), c.preKeys);
    }
  }

  lemma CounterKeptExactlyWhenAbove(l: LegacyDevice, c: Content, next: UInt32)
    requires LegacyDecodes(l) && ImportedIDs(l) == c.preKeys.Keys && l.nextPreKeyID == c.nextPreKeyID
    requires CounterAbove(l, next)
    ensures next == c.nextPreKeyID <==> 0 < c.nextPreKeyID && forall id :: id in c.preKeys ==> id < c.nextPreKeyID
    ensures next > 0
  {
    if 0 < c.nextPreKeyID && next != c.nextPreKeyID { assert next - 1 in ImportedIDs(l); }
  }

  lemma SomeKeysWritten(m: map<UInt32, PreKey>) returns (e: map<string, Encoded>)
    ensures EncodesKeys(m, e)
  {
    var names := PrintedIDs(m);
    forall t | t in names ensures ParseID(t).Some? && ParseID(t).value in m && t == Printed(ParseID(t).value) {
      var id :| id in m && t == Printed(id);
      PrintedParses(id);
    }
    e := map t | t in names :: Some(m[ParseID(t).value].private);
    forall id | id in m ensures Printed(id) in e && e[Printed(id)] == Some(m[id].private) {
      PrintedParses(id);
      assert Printed(id) in names;
    }
  }

  lemma SomeListOf(ids: set<UInt32>) returns (r: seq<UInt32>)
    ensures Lists(r, ids)
    decreases ids
  {
    r := [];
    if ids != {} {
      var id :| id in ids;
      var rest := SomeListOf(ids - {id});
      r := rest + [id];
    }
  }

  /** Every content can be written. */
  lemma SomeDocumentWrites(c: Content) returns (l: LegacyDevice)
    ensures Writes(l, c)
  {
    var keys := SomeKeysWritten(c.preKeys);
    var uploaded := SomeListOf(c.uploaded);
    var identities := map a | a in c.identities :: Some(c.identities[a]);
    var sessions := map a | a in c.sessions :: Some(c.sessions[a]);
    var senderKeys := map k | k in c.senderKeys :: Some(c.senderKeys[k]);
    var h := c.header;
    l := LegacyDevice(
      Some(h.noise), Some(h.identity), Some(h.signed.private), h.signed.keyID, h.signed.signature,
      h.registrationID, Some(h.advSecret), h.uuid, h.id, h.lid, h.lidMigrationTimestamp,
      h.pushName, h.businessName, h.platform, Some(h.account),
      identities, sessions, keys, Some(uploaded), senderKeys, c.nextPreKeyID);
  }
}
