/**
 The end-to-end device store.  Every mutation takes a snapshot, changes the maps in place, writes
 the new state through the persistence callback and, when that fails, restores the snapshot.
 Each method is proved against the operation of the same name in DeviceRuns.dfy.
 */
module DeviceStoreModel {
  import opened Basics
  import opened DeviceContent
  import opened PreKeys
  import opened DeviceRuns
  import AddressMigration

  lemma CleanMoves<V>(m: map<string, V>, v: seq<string>, oldUser: string, newUser: string)
    requires oldUser != newUser && AddressMigration.LegalRange(m, v, m.Keys, {}, oldUser, newUser)
    ensures AddressMigration.Clean(oldUser, newUser) ==>
      AddressMigration.MoveAlong(m, v, oldUser, newUser) == AddressMigration.Migrated(m, oldUser, newUser)
  {
    if AddressMigration.Clean(oldUser, newUser) { AddressMigration.OneResultForEveryOrder(m, v, oldUser, newUser); }
  }

  /** Ranges over a map, deleting each entry of the user when it is reached. */
  method RangeAndDelete<V>(m: map<string, V>, phone: string) returns (r: map<string, V>)
    ensures r == Without(m, phone)
  {
    r := m;
    var todo := m.Keys;
    while todo != {}
      invariant todo <= r.Keys
      invariant r == map a | a in m && (a in todo || !AddressMigration.AddressFor(a, phone)) :: m[a]
    {
      var address :| address in todo;
      todo := todo - {address};
      if AddressMigration.AddressFor(address, phone) { r := r - {address}; }
    }
  }

  class DeviceStore {
    const formats: Formats
    var device: Header
    var identities: map<string, Key32>
    var sessions: map<string, Bytes>
    var preKeys: map<UInt32, PreKey>
    var uploaded: set<UInt32>
    var senderKeys: map<string, Bytes>
    var nextPreKeyID: UInt32
    var persisting: bool         // whether a persistence callback is set
    ghost var durable: Content   // what the callback accepted last

    ghost function State(): Content
      reads this
    {
      Content(device, identities, sessions, preKeys, uploaded, senderKeys, nextPreKeyID)
    }

    ghost function View(): World
      reads this
    {
      World(State(), durable, persisting)
    }

    ghost predicate Valid()
      reads this
    {
      WellFormed(formats, State())
    }

    /** A new store; the key material, registration number, secret and UUID come from the random source. */
    constructor (formats: Formats, noise: Key32, identity: Key32, signed: PreKey, registration: nat,
                 advSecret: Bytes, uuid: string, account: Bytes)
      requires Faithful(formats)
      requires !ZeroKey(noise) && !ZeroKey(identity) && !ZeroKey(signed.private)
      requires registration < MAX_REGISTRATION_ID && |advSecret| == 32
      requires uuid != "" && formats.uuid(uuid) == Some(uuid)
      requires account == [] || formats.account(account) == Some(account)
      ensures Valid() && this.formats == formats && !persisting
      ensures AllocatorInv(State()) && nextPreKeyID == 1
      ensures identities == map[] && sessions == map[] && preKeys == map[] && uploaded == {} && senderKeys == map[]
      ensures device.registrationID == registration + 1 && device.uuid == uuid && device.initialized && !device.deleted
    {
      this.formats := formats;
      device := Header(noise, identity, signed, registration + 1, advSecret, "", "", account,
                       "", "", "", 0, uuid, true, false);
      identities, sessions, preKeys, uploaded, senderKeys := map[], map[], map[], {}, map[];
      nextPreKeyID := 1;
      persisting := false;
    }

    /** A store with nothing in it yet, not even a device, to be restored into. */
    constructor Unloaded(formats: Formats)
      ensures this.formats == formats && !persisting
    {
      this.formats := formats;
      var none: Key32 := seq(32, _ => 0 as bv8);
      device := Header(none, none, PreKey(0, none, None), 0, [], "", "", [], "", "", "", 0, "", false, false);
      identities, sessions, preKeys, uploaded, senderKeys, nextPreKeyID := map[], map[], map[], {}, map[], 0;
      persisting := false;
    }

    /** A store restored from a persisted state, if that passes every check. */
    static method Restored(formats: Formats, state: PersistedState) returns (r: Result<DeviceStore, LoadError>)
      requires Faithful(formats)
      ensures r.Ok? ==> fresh(r.value) && r.value.Valid() && r.value.formats == formats && !r.value.persisting
      ensures match Loaded(formats, Decoded(state))
              case Ok(c) => r.Ok? && r.value.State() == c
              case Err(e) => r == Err(e)
    {
      var store := new DeviceStore.Unloaded(formats);
      var restored := store.RestoreLocked(state);
      if restored.Failed? { return Err(restored.error); }
      LoadingEstablishesWellFormed(formats, state);
      r := Ok(store);
    }

    /** Sets the persistence callback; `accepted` is what it accepted last. */
    method WithPersistence(ghost accepted: Content)
      modifies this`persisting, this`durable
      ensures persisting && durable == accepted
    {
      persisting := true;
      durable := accepted;
    }

    // ---- snapshot, restore and write-through ----

    /** Flattens the maps in whatever order they are ranged over. */
    method SnapshotLocked() returns (s: PersistedState)
      requires Valid()
      ensures Represents(s, State())
    {
      var keys: seq<PreKey> := [];
      var todo := preKeys.Keys;
      while todo != {}
        invariant todo <= preKeys.Keys
        invariant forall k :: k in keys ==> k.keyID in preKeys && preKeys[k.keyID] == k
        invariant forall id :: id in preKeys && id !in todo ==> preKeys[id] in keys
      {
        var id :| id in todo;
        keys, todo := keys + [preKeys[id]], todo - {id};
      }
      var ids: seq<UInt32> := [];
      var left := uploaded;
      while left != {}
        invariant left <= uploaded
        invariant forall id :: id in ids ==> id in uploaded
        invariant forall id :: id in uploaded && id !in left ==> id in ids
      {
        var id :| id in left;
        ids, left := ids + [id], left - {id};
      }
      s := PersistedState(STATE_VERSION, device, identities, sessions, keys, ids, senderKeys, nextPreKeyID);
    }

    /** Replaces the store's content by a persisted one, or changes nothing if a check fails. */
    method RestoreLocked(s: PersistedState) returns (r: Outcome<LoadError>)
      modifies this`device, this`identities, this`sessions, this`senderKeys
      modifies this`preKeys, this`uploaded, this`nextPreKeyID
      ensures match Loaded(formats, Decoded(s))
              case Ok(c) => r == Done && State() == c
              case Err(e) => r == Failed(e) && State() == old(State())
    {
      var h := CheckedHeader(formats, s.header);
      if h.Err? { return Failed(h.error); }
      device := h.value;
      identities, sessions, senderKeys := s.identities, s.sessions, s.senderKeys;
      RestoreKeys(s.preKeys);
      RestoreUploaded(s.uploaded);
      nextPreKeyID := if s.nextPreKeyID == 0 then 1 else s.nextPreKeyID;
      r := Done;
    }

    method RestoreKeys(ks: seq<PreKey>)
      modifies this`preKeys
      ensures preKeys == AddKeys(map[], ks)
    {
      preKeys := map[];
      for i := 0 to |ks|
        invariant preKeys == AddKeys(map[], ks[..i])
      {
        assert ks[..i + 1][..i] == ks[..i];
        preKeys := preKeys[ks[i].keyID := ks[i]];
      }
      assert ks[..|ks|] == ks;
    }

    method RestoreUploaded(ids: seq<UInt32>)
      modifies this`uploaded
      ensures uploaded == SetOf(ids)
    {
      uploaded := {};
      for i := 0 to |ids|
        invariant uploaded == SetOf(ids[..i])
      {
        assert ids[..i + 1] == ids[..i] + [ids[i]];
        uploaded := uploaded + {ids[i]};
      }
      assert ids[..|ids|] == ids;
    }

    /** The callback; when it fails it has written nothing. */
    method Persist(env: Env, s: PersistedState) returns (ok: bool)
      modifies this`durable
      ensures ok == !env.persistFails
      ensures durable == if ok then Decoded(s) else old(durable)
    {
      ok := !env.persistFails;
      if ok { durable := Decoded(s); }
    }

    /** Writes the current content through, or restores `before`; the restore's own result is dropped. */
    method PersistLocked(env: Env, before: PersistedState, ghost was: World) returns (r: Outcome<StoreError>)
      requires Valid()
      requires WellFormed(formats, was.content) && Represents(before, was.content)
      requires durable == was.durable && persisting == was.persisting
      modifies this`device, this`identities, this`sessions, this`senderKeys
      modifies this`preKeys, this`uploaded, this`nextPreKeyID, this`durable
      ensures Valid()
      ensures (View(), r) == WriteThrough(was, old(State()), env)
    {
      if !persisting { return Done; }
      var data := SnapshotLocked();
      SnapshotDecodes(data, State());
      var ok := Persist(env, data);
      if !ok {
        SnapshotAlwaysLoads(formats, was.content, before);
        var dropped := RestoreLocked(before);
        return Failed(PersistFailed);
      }
      r := Done;
    }

    // ---- the bodies of the mutations that are more than an assignment ----

    method AddSessions(added: map<string, Bytes>)
      modifies this`sessions
      ensures sessions == old(sessions) + added
    {
      var todo := added.Keys;
      while todo != {}
        invariant todo <= added.Keys
        invariant sessions.Keys == old(sessions).Keys + (added.Keys - todo)
        invariant forall a :: a in sessions ==>
          sessions[a] == if a in added && a !in todo then added[a] else old(sessions)[a]
      {
        var address :| address in todo;
        todo := todo - {address};
        sessions := sessions[address := added[address]];
      }
    }

    method MarkUpTo(upToID: UInt32)
      modifies this`uploaded
      ensures State() == AfterMark(old(State()), upToID)
    {
      var todo := preKeys.Keys;
      while todo != {}
        invariant todo <= preKeys.Keys
        invariant uploaded == old(uploaded) + set id | id in preKeys && id !in todo && id <= upToID
      {
        var id :| id in todo;
        todo := todo - {id};
        if id <= upToID { uploaded := uploaded + {id}; }
      }
    }

    method ClearAll()
      modifies this`device, this`identities, this`sessions, this`preKeys, this`uploaded, this`senderKeys
      ensures State() == Content(old(device).(deleted := true), map[], map[], map[], {}, map[], old(nextPreKeyID))
    {
      device := device.(deleted := true);
      identities, sessions, preKeys, uploaded, senderKeys := map[], map[], map[], {}, map[];
    }

    // ---- mutations ----

    /**
     The call ends as its surroundings decide: when it succeeds, what is in memory has been written, and
     when it fails, nothing has been and the content is as it was, unless its counter was zero.
     */
    twostate predicate Concluded(env: Env, r: Outcome<StoreError>)
      reads this
    {
      && persisting == old(persisting)
      && r == (if env.cancelled then Failed(Cancelled)
               else if persisting && env.persistFails then Failed(PersistFailed) else Done)
      && (r.Done? && persisting ==> durable == State())
      && (r.Failed? ==> durable == old(durable) && (0 < old(nextPreKeyID) ==> State() == old(State())))
    }

    method PutIdentity(env: Env, address: string, key: Key32) returns (r: Outcome<StoreError>)
      requires Valid()
      modifies this
      ensures Valid() && (View(), r) == Perform(old(View()), Op.PutIdentity(address, key), env)
      ensures Concluded(env, r)
      ensures r.Done? ==> State() == old(State()).(identities := old(identities)[address := key])
    {
      if env.cancelled { return Failed(Cancelled); }
      var before := SnapshotLocked();
      identities := identities[address := key];
      r := PersistLocked(env, before, old(View()));
    }

    method DeleteIdentity(env: Env, address: string) returns (r: Outcome<StoreError>)
      requires Valid()
      modifies this
      ensures Valid() && (View(), r) == Perform(old(View()), Op.DeleteIdentity(address), env)
      ensures Concluded(env, r)
      ensures r.Done? ==> State() == old(State()).(identities := old(identities) - {address})
    {
      if env.cancelled { return Failed(Cancelled); }
      var before := SnapshotLocked();
      identities := identities - {address};
      r := PersistLocked(env, before, old(View()));
    }

    method DeleteAllIdentities(env: Env, phone: string) returns (r: Outcome<StoreError>)
      requires Valid()
      modifies this
      ensures Valid() && (View(), r) == Perform(old(View()), Op.DeleteAllIdentities(phone), env)
      ensures Concluded(env, r)
      ensures r.Done? ==> State() == old(State()).(identities := identities)
      ensures r.Done? ==> forall a :: a in identities <==> a in old(identities) && !(phone + ":" <= a)
      ensures r.Done? ==> forall a :: a in identities ==> identities[a] == old(identities)[a]
    {
      if env.cancelled { return Failed(Cancelled); }
      var before := SnapshotLocked();
      identities := RangeAndDelete(identities, phone);
      r := PersistLocked(env, before, old(View()));
    }

    method PutManySessions(env: Env, added: map<string, Bytes>) returns (r: Outcome<StoreError>)
      requires Valid()
      modifies this
      ensures Valid() && (View(), r) == Perform(old(View()), Op.PutManySessions(added), env)
      ensures Concluded(env, r)
      ensures r.Done? ==> State() == old(State()).(sessions := sessions)
      ensures r.Done? ==> sessions.Keys == old(sessions).Keys + added.Keys
      ensures r.Done? ==> forall a :: a in sessions ==> sessions[a] == if a in added then added[a] else old(sessions)[a]
    {
      if env.cancelled { return Failed(Cancelled); }
      var before := SnapshotLocked();
      AddSessions(added);
      r := PersistLocked(env, before, old(View()));
    }

    method PutSession(env: Env, address: string, session: Bytes) returns (r: Outcome<StoreError>)
      requires Valid()
      modifies this
      ensures Valid() && (View(), r) == Perform(old(View()), Op.PutManySessions(map[address := session]), env)
      ensures Concluded(env, r)
      ensures r.Done? ==> State() == old(State()).(sessions := old(sessions)[address := session])
    {
      r := PutManySessions(env, map[address := session]);
    }

    method DeleteSession(env: Env, address: string) returns (r: Outcome<StoreError>)
      requires Valid()
      modifies this
      ensures Valid() && (View(), r) == Perform(old(View()), Op.DeleteSession(address), env)
      ensures Concluded(env, r)
      ensures r.Done? ==> State() == old(State()).(sessions := old(sessions) - {address})
    {
      if env.cancelled { return Failed(Cancelled); }
      var before := SnapshotLocked();
      sessions := sessions - {address};
      r := PersistLocked(env, before, old(View()));
    }

    method DeleteAllSessions(env: Env, phone: string) returns (r: Outcome<StoreError>)
      requires Valid()
      modifies this
      ensures Valid() && (View(), r) == Perform(old(View()), Op.DeleteAllSessions(phone), env)
      ensures Concluded(env, r)
      ensures r.Done? ==> State() == old(State()).(sessions := sessions)
      ensures r.Done? ==> forall a :: a in sessions <==> a in old(sessions) && !(phone + ":" <= a)
      ensures r.Done? ==> forall a :: a in sessions ==> sessions[a] == old(sessions)[a]
    {
      if env.cancelled { return Failed(Cancelled); }
      var before := SnapshotLocked();
      sessions := RangeAndDelete(sessions, phone);
      r := PersistLocked(env, before, old(View()));
    }

    /**
     Moves the entries of one user to another.  Which order the two ranges take, and how many of the
     entries they create they go on to visit (at most `extra`), is up to the language.
     */
    method MigratePNToLID(env: Env, oldUser: string, newUser: string, extra: nat)
      returns (r: Outcome<StoreError>, ghost v: seq<string>, ghost w: seq<string>)
      requires Valid()
      modifies this
      ensures Valid() && (View(), r) == Perform(old(View()), Op.MigratePNToLID(oldUser, newUser, v, w), env)
      ensures !NothingToMigrate(oldUser, newUser) ==> Concluded(env, r)
      ensures oldUser == "" || newUser == "" || oldUser == newUser ==> View() == old(View())
      ensures r.Done? ==> State() == old(State()).(sessions := sessions, identities := identities)
      ensures !env.cancelled && !NothingToMigrate(oldUser, newUser) ==>
        && AddressMigration.LegalRange(old(sessions), v, old(sessions).Keys, {}, oldUser, newUser)
        && AddressMigration.LegalRange(old(identities), w, old(identities).Keys, {}, oldUser, newUser)
      ensures r.Done? && !NothingToMigrate(oldUser, newUser) && AddressMigration.Clean(oldUser, newUser) ==>
        && sessions == AddressMigration.Migrated(old(sessions), oldUser, newUser)
        && identities == AddressMigration.Migrated(old(identities), oldUser, newUser)
    {
      v, w := [], [];
      if env.cancelled { return Failed(Cancelled), [], []; }
      if oldUser == "" || newUser == "" || oldUser == newUser { return Done, [], []; }
      var before := SnapshotLocked();
      v, w := MoveBoth(oldUser, newUser, extra);
      r := PersistLocked(env, before, old(View()));
    }

    /** The mutation of a migration: a range over the sessions, then one over the identities. */
    method MoveBoth(oldUser: string, newUser: string, extra: nat) returns (ghost v: seq<string>, ghost w: seq<string>)
      requires !NothingToMigrate(oldUser, newUser)
      modifies this`sessions, this`identities
      ensures State() == Apply(old(State()), Op.MigratePNToLID(oldUser, newUser, v, w))
      ensures AddressMigration.LegalRange(old(sessions), v, old(sessions).Keys, {}, oldUser, newUser)
      ensures AddressMigration.LegalRange(old(identities), w, old(identities).Keys, {}, oldUser, newUser)
      ensures AddressMigration.Clean(oldUser, newUser) ==>
        && sessions == AddressMigration.Migrated(old(sessions), oldUser, newUser)
        && identities == AddressMigration.Migrated(old(identities), oldUser, newUser)
    {
      sessions, v := RangeAndMove(sessions, oldUser, newUser, extra);
      identities, w := RangeAndMove(identities, oldUser, newUser, extra);
      CleanMoves(old(sessions), v, oldUser, newUser);
      CleanMoves(old(identities), w, oldUser, newUser);
    }

    /** Hands out `count` keys: the lowest stored ones not uploaded, then newly generated ones. */
    method GetOrGenPreKeys(env: Env, count: UInt32, generator: nat -> Key32)
      returns (r: Result<seq<PreKey>, StoreError>)
      requires Valid()
      modifies this
      ensures Valid()
      ensures var (world, outcome) := Perform(old(View()), Op.GetOrGenPreKeys(count, generator), env);
        && View() == world
        && r == (match outcome case Done => Ok(Batch(old(State()), count, generator)) case Failed(e) => Err(e))
      ensures Concluded(env, if r.Ok? then Done else Failed(r.error))
      ensures r.Ok? ==> State() == old(State()).(preKeys := preKeys, nextPreKeyID := nextPreKeyID)
    {
      if env.cancelled { return Err(Cancelled); }
      var before := SnapshotLocked();
      var taken := TakeAvailable(count);
      var result := GenerateMissing(count, taken, generator);
      assert Valid() by { OperationsKeepWellFormed(formats, old(State()), Op.GetOrGenPreKeys(count, generator)); }
      var written := PersistLocked(env, before, old(View()));
      if written.Failed? { return Err(written.error); }
      r := Ok(result);
    }

    /** The part of a batch that is already stored. */
    method TakeAvailable(count: UInt32) returns (result: seq<PreKey>)
      ensures |result| == count - Missing(State(), count)
      ensures result == KeysAt(preKeys, ExistingIDs(State(), count))
    {
      var ids := SortedAvailable();
      result := KeysUnder(ids, count);
      PickedInOrder(State(), count, ids, result);
    }

    /** The keys under the first IDs of a list, at most `count` of them. */
    method KeysUnder(ids: seq<UInt32>, count: UInt32) returns (result: seq<PreKey>)
      requires forall i :: 0 <= i < |ids| ==> ids[i] in preKeys
      ensures |result| == Min(count, |ids|) && forall i :: 0 <= i < |result| ==> result[i] == preKeys[ids[i]]
    {
      result := [];
      var i := 0;
      while i < |ids| && |result| < count
        invariant i == |result| <= Min(count, |ids|)
        invariant forall j :: 0 <= j < i ==> result[j] == preKeys[ids[j]]
      {
        result, i := result + [preKeys[ids[i]]], i + 1;
      }
    }

    /** Generates and stores keys until the batch begun with `taken` is complete. */
    method GenerateMissing(count: UInt32, taken: seq<PreKey>, generator: nat -> Key32) returns (result: seq<PreKey>)
      requires |taken| == count - Missing(State(), count)
      modifies this`preKeys, this`nextPreKeyID
      ensures result == taken + FreshOf(old(State()), count, generator)
      ensures State() == AfterBatch(old(State()), count, generator)
    {
      result := taken;
      ghost var first, made := nextPreKeyID, 0;
      NothingGenerated(preKeys, first, taken, generator);
      while |result| < count
        invariant |result| == |taken| + made <= count
        invariant GeneratedSoFar(old(preKeys), first, taken, generator, made, preKeys, nextPreKeyID, result)
      {
        var key := PreKey(nextPreKeyID, generator(|result| - |taken|), None);
        GeneratedOneMore(old(preKeys), first, taken, generator, made, preKeys, nextPreKeyID, result);
        preKeys := preKeys[nextPreKeyID := key];
        nextPreKeyID := Add32(nextPreKeyID, 1);
        result := result + [key];
        made := made + 1;
      }
    }

    /** The stored IDs that are not uploaded, in increasing order. */
    method SortedAvailable() returns (ids: seq<UInt32>)
      ensures ids == Ascending(Available(State()))
      ensures forall i :: 0 <= i < |ids| ==> ids[i] in preKeys
    {
      ids := [];
      var todo := preKeys.Keys;
      while todo != {}
        invariant todo <= preKeys.Keys
        invariant StrictlyAscending(ids)
        invariant forall id :: id in ids <==> id in Available(State()) && id !in todo
      {
        var id :| id in todo;
        todo := todo - {id};
        if id !in uploaded { ids := InsertAscending(id, ids); }
      }
      AscendingIsUnique(ids, Available(State()));
      assert forall i :: 0 <= i < |ids| ==> ids[i] in ids;
    }

    method GenOnePreKey(first: Env, second: Env, generator: nat -> Key32) returns (r: Result<PreKey, StoreError>)
      requires Valid()
      modifies this
      ensures Valid() && (View(), r) == PerformGenOne(old(View()), generator, first, second)
      ensures r.Ok? ==> State() == old(State()).(
        preKeys := preKeys, nextPreKeyID := nextPreKeyID, uploaded := old(uploaded) + {r.value.keyID})
      ensures r.Ok? ==> r.value.keyID in preKeys && preKeys[r.value.keyID] == r.value
    {
      OneKeyCallChanges(View(), generator, first, second);
      var keys := GetOrGenPreKeys(first, 1, generator);
      if keys.Err? { return Err(keys.error); }
      var marked := MarkPreKeysAsUploaded(second, keys.value[0].keyID);
      if marked.Failed? { return Err(marked.error); }
      r := Ok(keys.value[0]);
    }

    method RemovePreKey(env: Env, id: UInt32) returns (r: Outcome<StoreError>)
      requires Valid()
      modifies this
      ensures Valid() && (View(), r) == Perform(old(View()), Op.RemovePreKey(id), env)
      ensures Concluded(env, r)
      ensures r.Done? ==> State() == old(State()).(preKeys := old(preKeys) - {id}, uploaded := old(uploaded) - {id})
    {
      if env.cancelled { return Failed(Cancelled); }
      var before := SnapshotLocked();
      preKeys := preKeys - {id};
      uploaded := uploaded - {id};
      r := PersistLocked(env, before, old(View()));
    }

    method MarkPreKeysAsUploaded(env: Env, upToID: UInt32) returns (r: Outcome<StoreError>)
      requires Valid()
      modifies this
      ensures Valid() && (View(), r) == Perform(old(View()), Op.MarkPreKeysAsUploaded(upToID), env)
      ensures Concluded(env, r)
      ensures r.Done? ==> State() == old(State()).(uploaded := uploaded)
      ensures r.Done? ==> forall id :: id in uploaded <==> id in old(uploaded) || (id in preKeys && id <= upToID)
    {
      if env.cancelled { return Failed(Cancelled); }
      var before := SnapshotLocked();
      MarkUpTo(upToID);
      assert State() == Apply(old(State()), Op.MarkPreKeysAsUploaded(upToID));
      r := PersistLocked(env, before, old(View()));
    }

    method PutSenderKey(env: Env, group: string, user: string, session: Bytes) returns (r: Outcome<StoreError>)
      requires Valid()
      modifies this
      ensures Valid() && (View(), r) == Perform(old(View()), Op.PutSenderKey(group, user, session), env)
      ensures Concluded(env, r)
      ensures r.Done? ==> State() == old(State()).(senderKeys := old(senderKeys)[group + ":" + user := session])
    {
      if env.cancelled { return Failed(Cancelled); }
      var before := SnapshotLocked();
      senderKeys := senderKeys[group + ":" + user := session];
      r := PersistLocked(env, before, old(View()));
    }

    method DeleteDevice(env: Env) returns (r: Outcome<StoreError>)
      requires Valid()
      modifies this
      ensures Valid() && (View(), r) == Perform(old(View()), Op.DeleteDevice, env)
      ensures Concluded(env, r)
      ensures r.Done? ==>
        && device == old(device).(deleted := true)
        && identities == map[] && sessions == map[] && senderKeys == map[] && preKeys == map[] && uploaded == {}
        && nextPreKeyID == old(nextPreKeyID)
    {
      if env.cancelled { return Failed(Cancelled); }
      var before := SnapshotLocked();
      ClearAll();
      assert Valid() by { OperationsKeepWellFormed(formats, old(State()), Op.DeleteDevice); }
      r := PersistLocked(env, before, old(View()));
    }
  }

  /** However the range goes on from here, it is a range over `m` that began with `visits`. */
  ghost predicate Continues<V(!new)>(m: map<string, V>, visits: seq<string>, moved: map<string, V>, todo: set<string>,
                                     seen: set<string>, oldUser: string, newUser: string) {
    forall rest ::
      && AddressMigration.MoveAlong(m, visits + rest, oldUser, newUser)
         == AddressMigration.MoveAlong(moved, rest, oldUser, newUser)
      && (AddressMigration.LegalRange(moved, rest, todo, seen, oldUser, newUser) ==>
            AddressMigration.LegalRange(m, visits + rest, m.Keys, {}, oldUser, newUser))
  }

  lemma ContinuesAfterVisit<V(!new)>(m: map<string, V>, visits: seq<string>, moved: map<string, V>, todo: set<string>,
                                     seen: set<string>, address: string, oldUser: string, newUser: string)
    requires Continues(m, visits, moved, todo, seen, oldUser, newUser)
    requires address in moved && address !in seen
    ensures Continues(m, visits + [address], AddressMigration.Visit(moved, address, oldUser, newUser), todo - {address},
                      if AddressMigration.AddressFor(address, oldUser) then seen else seen + {address},
                      oldUser, newUser)
  {
    var next := AddressMigration.Visit(moved, address, oldUser, newUser);
    var seen' := if AddressMigration.AddressFor(address, oldUser) then seen else seen + {address};
    forall rest
      ensures AddressMigration.MoveAlong(m, visits + [address] + rest, oldUser, newUser)
           == AddressMigration.MoveAlong(next, rest, oldUser, newUser)
      ensures AddressMigration.LegalRange(next, rest, todo - {address}, seen', oldUser, newUser) ==>
        AddressMigration.LegalRange(m, visits + [address] + rest, m.Keys, {}, oldUser, newUser)
    {
      var on := [address] + rest;
      assert on[1..] == rest;
      assert visits + [address] + rest == visits + on;
      assert AddressMigration.MoveAlong(moved, on, oldUser, newUser)
          == AddressMigration.MoveAlong(next, rest, oldUser, newUser);
    }
  }

  lemma RangeStart<V(!new)>(m: map<string, V>, oldUser: string, newUser: string)
    ensures Continues(m, [], m, m.Keys, {}, oldUser, newUser)
  {
    assert forall rest: seq<string> :: [] + rest == rest;
  }

  lemma RangeEnd<V(!new)>(m: map<string, V>, visits: seq<string>, moved: map<string, V>, seen: set<string>,
                   oldUser: string, newUser: string)
    requires Continues(m, visits, moved, {}, seen, oldUser, newUser)
    ensures moved == AddressMigration.MoveAlong(m, visits, oldUser, newUser)
    ensures AddressMigration.LegalRange(m, visits, m.Keys, {}, oldUser, newUser)
  {
    assert visits + [] == visits;
    assert AddressMigration.LegalRange(moved, [], {}, seen, oldUser, newUser);
  }

  /**
   Ranges over a map, moving each entry of the old user when it is reached.  `extra` bounds how many
   created entries are also produced.
   */
  method RangeAndMove<V(!new)>(m: map<string, V>, oldUser: string, newUser: string, extra: nat)
    returns (moved: map<string, V>, ghost visits: seq<string>)
    requires oldUser != newUser
    ensures moved == AddressMigration.MoveAlong(m, visits, oldUser, newUser)
    ensures AddressMigration.LegalRange(m, visits, m.Keys, {}, oldUser, newUser)
  {
    moved, visits := m, [];
    RangeStart(m, oldUser, newUser);
    var budget: nat := extra;
    var todo, seen := m.Keys, {};
    while todo != {} || (budget > 0 && moved.Keys - seen != {})
      invariant todo <= moved.Keys && todo !! seen
      invariant Continues(m, visits, moved, todo, seen, oldUser, newUser)
      decreases budget + |todo|
    {
      var address;
      var preferCreated := *;
      var created := moved.Keys - seen - todo;
      if budget > 0 && created != {} && (preferCreated || todo == {}) {
        address :| address in created;
        budget := budget - 1;
      } else {
        address :| address in todo;
      }
      ContinuesAfterVisit(m, visits, moved, todo, seen, address, oldUser, newUser);
      visits := visits + [address];
      if AddressMigration.AddressFor(address, oldUser) {
        moved := moved[AddressMigration.Moved(address, oldUser, newUser) := moved[address]] - {address};
      } else {
        seen := seen + {address};
      }
      todo := todo - {address};
    }
    RangeEnd(m, visits, moved, seen, oldUser, newUser);
  }
}
