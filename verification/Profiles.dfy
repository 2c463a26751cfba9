/**
 Renaming a profile and saving an authentication snapshot: sequences of store calls with a
 compensating rollback.  Forward calls may fail at any point; the rollback runs under a context that
 is never cancelled.
 */
module Profiles {
  import opened Basics
  import opened Text
  import opened Storage
  import Cookies

  const SECRET_COOKIES: string := "cookies"
  const SECRET_SESSION: string := "session"
  const SECRET_E2EE: string := "e2ee_state"
  const MANAGED: seq<string> := [SECRET_COOKIES, SECRET_SESSION, SECRET_E2EE]

  /** An error joined with those of the rollback it caused. */
  datatype ProfileError =
    | NamesRequired | DestinationExists | SecretExists(key: string)
    | Joined(cause: StorageError, rollback: seq<StorageError>)
    | CookiesInvalid(error: Cookies.CookieError)

  function ErrorsOf(r: Outcome<StorageError>): seq<StorageError> {
    match r case Done => [] case Failed(e) => [e]
  }

  /** The secrets among `keys` that a profile has. */
  ghost function ValuesOf(secrets: SecretMap, profile: string, keys: seq<string>): SecretMap {
    map key | key in keys && SecretKey(profile, key) in secrets :: secrets[SecretKey(profile, key)]
  }

  /** The map after writing the values of `keys` under a profile. */
  ghost function PutAll(base: SecretMap, profile: string, values: SecretMap, keys: seq<string>): SecretMap
    requires forall i :: 0 <= i < |keys| ==> keys[i] in values
  {
    if keys == [] then base
    else
      var front, last := keys[..|keys| - 1], keys[|keys| - 1];
      PutAll(base, profile, values, front)[SecretKey(profile, last) := values[last]]
  }

  /** The map after deleting `keys` under a profile. */
  ghost function DeleteAll(base: SecretMap, profile: string, keys: seq<string>): SecretMap {
    if keys == [] then base
    else DeleteAll(base, profile, keys[..|keys| - 1]) - {SecretKey(profile, keys[|keys| - 1])}
  }

  /** `k` is the map key of one of a profile's secrets. */
  ghost predicate KeyUnder(k: string, profile: string, keys: seq<string>) {
    exists i :: 0 <= i < |keys| && k == SecretKey(profile, keys[i])
  }

  /** What a completed rename has done to the secrets: those of `keys` changed profile, nothing else changed. */
  ghost predicate SecretsMoved(before: SecretMap, after: SecretMap, oldName: string, newName: string,
                               keys: seq<string>) {
    && (forall i :: 0 <= i < |keys| ==>
          && SecretKey(oldName, keys[i]) !in after
          && (SecretKey(newName, keys[i]) in after <==> SecretKey(oldName, keys[i]) in before)
          && (SecretKey(newName, keys[i]) in after ==>
            after[SecretKey(newName, keys[i])] == before[SecretKey(oldName, keys[i])]))
    && (forall k :: !KeyUnder(k, oldName, keys) && !KeyUnder(k, newName, keys) ==>
          (k in after <==> k in before) && (k in after ==> after[k] == before[k]))
  }

  function MovedProfile(profiles: ProfileMap, oldName: string, newName: string): ProfileMap
    requires oldName in profiles
  {
    profiles[newName := profiles[oldName].(name := newName)] - {oldName}
  }

  /** Each of the values is kept under one name or the other. */
  ghost predicate Kept(secrets: SecretMap, values: SecretMap, oldName: string, newName: string) {
    forall key :: key in values ==>
      || (SecretKey(oldName, key) in secrets && secrets[SecretKey(oldName, key)] == values[key])
      || (SecretKey(newName, key) in secrets && secrets[SecretKey(newName, key)] == values[key])
  }

  ghost predicate ProfileKept(profiles: ProfileMap, profile: Profile, newName: string) {
    || (profile.name in profiles && profiles[profile.name] == profile)
    || (newName in profiles && profiles[newName] == profile.(name := newName))
  }

  /** Every state a store went through since its trail was `before` satisfies its predicate. */
  ghost predicate KeptSince(before: seq<SecretMap>, trail: seq<SecretMap>, values: SecretMap, oldName: string,
                            newName: string) {
    before <= trail && forall i :: |before| <= i < |trail| ==> Kept(trail[i], values, oldName, newName)
  }

  ghost predicate ProfileKeptSince(before: seq<ProfileMap>, trail: seq<ProfileMap>, profile: Profile, newName: string) {
    before <= trail && forall i :: |before| <= i < |trail| ==> ProfileKept(trail[i], profile, newName)
  }

  /** A profile has all of the values. */
  ghost predicate HasUnder(secrets: SecretMap, profile: string, values: SecretMap) {
    forall key :: key in values ==>
      SecretKey(profile, key) in secrets && secrets[SecretKey(profile, key)] == values[key]
  }

  /** The state of the copying loop: the created copies are made, and nothing else has changed. */
  ghost predicate CopiedSoFar(base: SecretMap, trail: seq<SecretMap>, now: SecretMap,
                              nowTrail: seq<SecretMap>, oldName: string, newName: string,
                              values: SecretMap, created: seq<string>) {
    && (forall i :: 0 <= i < |created| ==> created[i] in values)
    && now == PutAll(base, newName, values, created)
    && HasUnder(now, oldName, values)
    && KeptSince(trail, nowTrail, values, oldName, newName)
  }

  /** The state of the deleting loop: the deleted originals are gone, and nothing else has changed. */
  ghost predicate DeletedSoFar(base: SecretMap, trail: seq<SecretMap>, now: SecretMap, nowTrail: seq<SecretMap>,
                               oldName: string, newName: string, values: SecretMap, deleted: seq<string>) {
    && (forall i :: 0 <= i < |deleted| ==> deleted[i] in values)
    && now == DeleteAll(base, oldName, deleted)
    && HasUnder(now, newName, values)
    && KeptSince(trail, nowTrail, values, oldName, newName)
  }

  /** The secrets of the keys from the `i`-th on are still there. */
  ghost predicate StillThere(secrets: SecretMap, profile: string, keys: seq<string>, i: nat, values: SecretMap) {
    forall j :: i <= j < |keys| && keys[j] in values ==> SecretKey(profile, keys[j]) in secrets
  }

  ghost predicate ValidKeys(profile: string, keys: seq<string>) {
    forall i :: 0 <= i < |keys| ==> ValidSecretKey(profile, keys[i])
  }

  /** The profile has none of the managed secrets. */
  predicate HasNone(secrets: SecretMap, profile: string) {
    && SecretKey(profile, "cookies") !in secrets && SecretKey(profile, "session") !in secrets
    && SecretKey(profile, "e2ee_state") !in secrets
  }

  lemma HasNoneOfManaged(secrets: SecretMap, profile: string)
    ensures HasNone(secrets, profile) <==> forall i :: 0 <= i < |MANAGED| ==> SecretKey(profile, MANAGED[i]) !in secrets
  {
    assert MANAGED[0] == "cookies" && MANAGED[1] == "session" && MANAGED[2] == "e2ee_state";
  }

  predicate Usable(name: string) { name != "" && '\0' !in name }

  class ProfileManager {
    const profiles: MemoryProfileStore
    const secrets: MemorySecretStore

    constructor (profiles: MemoryProfileStore, secrets: MemorySecretStore)
      ensures this.profiles == profiles && this.secrets == secrets
    {
      this.profiles, this.secrets := profiles, secrets;
    }

    /** Reads the secrets of `oldName`, refusing if `newName` has one. */
    method GatherSecrets(ctx: Context, oldName: string, newName: string, keys: seq<string>)
      returns (r: Result<SecretMap, ProfileError>)
      requires ValidKeys(oldName, keys) && ValidKeys(newName, keys)
      modifies ctx
      ensures r.Ok? ==> Gathered(secrets.secrets, oldName, newName, keys, r.value)
      ensures old(ctx.script) == [] ==> ctx.script == []
      ensures old(ctx.script) == [] ==>
        (r.Ok? <==> forall i :: 0 <= i < |keys| ==> SecretKey(newName, keys[i]) !in secrets.secrets)
      ensures r.Err? ==> r.error.SecretExists? || (r.error.Joined? && r.error.rollback == [])
    {
      var values: SecretMap := map[];
      for i := 0 to |keys|
        invariant Gathered(secrets.secrets, oldName, newName, keys[..i], values)
        invariant old(ctx.script) == [] ==> ctx.script == []
      {
        var key := keys[i];
        GatherOneMore(secrets.secrets, oldName, newName, keys[..i], key);
        assert keys[..i + 1] == keys[..i] + [key];
        var existing := secrets.Get(ctx, newName, key);
        if existing.Ok? { return Err(SecretExists(key)); }
        if existing.error != NotFound { return Err(Joined(existing.error, [])); }
        var value := secrets.Get(ctx, oldName, key);
        if value == Err(NotFound) { continue; }
        if value.Err? { return Err(Joined(value.error, [])); }
        values := values[key := value.value];
      }
      assert keys[..|keys|] == keys;
      r := Ok(values);
    }

    /** Writes one value under the new name. */
    method CopyOne(ctx: Context, newName: string, key: string, values: SecretMap, ghost oldName: string)
      returns (put: Outcome<StorageError>)
      requires '\0' !in oldName && '\0' !in newName && oldName != newName
      requires HasUnder(secrets.secrets, oldName, values) && ValidSecretKey(newName, key) && key in values
      modifies ctx, secrets
      ensures old(ctx.script) == [] ==> put.Done? && ctx.script == []
      ensures secrets.secrets
           == if put.Done? then old(secrets.secrets)[SecretKey(newName, key) := values[key]] else old(secrets.secrets)
      ensures HasUnder(secrets.secrets, oldName, values)
      ensures KeptSince(old(secrets.trail), secrets.trail, values, oldName, newName)
    {
      put := secrets.Put(ctx, newName, key, values[key]);
      if put.Done? { OtherNameUntouched(old(secrets.secrets), secrets.secrets, oldName, newName, key, values); }
    }

    /** Deletes one secret that may or may not be there. */
    method DeleteOne(ctx: Context, changed: string, key: string, ghost values: SecretMap, ghost kept: string)
      returns (gone: Outcome<StorageError>)
      requires '\0' !in changed && '\0' !in kept && changed != kept
      requires HasUnder(secrets.secrets, kept, values) && ValidSecretKey(changed, key)
      modifies ctx, secrets
      ensures old(ctx.script) == [] ==> ctx.script == []
      ensures old(ctx.script) == [] ==>
        gone == if SecretKey(changed, key) in old(secrets.secrets) then Done else Failed(NotFound)
      ensures secrets.secrets
           == if gone.Done? then old(secrets.secrets) - {SecretKey(changed, key)} else old(secrets.secrets)
      ensures gone == Failed(NotFound) ==> SecretKey(changed, key) !in old(secrets.secrets)
      ensures HasUnder(secrets.secrets, kept, values)
      ensures KeptSince(old(secrets.trail), secrets.trail, values, kept, changed)
      ensures KeptSince(old(secrets.trail), secrets.trail, values, changed, kept)
    {
      gone := secrets.Delete(ctx, changed, key);
      if gone.Done? { OtherNameUntouched(old(secrets.secrets), secrets.secrets, kept, changed, key, values); }
    }

    /** Copies one more value. */
    method CopyNext(ctx: Context, newName: string, key: string, values: SecretMap, created: seq<string>,
                    ghost oldName: string, ghost base: SecretMap, ghost trail: seq<SecretMap>)
      returns (put: Outcome<StorageError>)
      requires '\0' !in oldName && '\0' !in newName && oldName != newName && ValidSecretKey(newName, key)
      requires key in values
      requires CopiedSoFar(base, trail, secrets.secrets, secrets.trail, oldName, newName, values, created)
      modifies ctx, secrets
      ensures old(ctx.script) == [] ==> put.Done? && ctx.script == []
      ensures var now := if put.Done? then created + [key] else created;
        CopiedSoFar(base, trail, secrets.secrets, secrets.trail, oldName, newName, values, now)
    {
      ghost var t := secrets.trail;
      put := CopyOne(ctx, newName, key, values, oldName);
      KeptChain(trail, t, secrets.trail, values, oldName, newName);
      PutAllStep(base, newName, values, created, key);
    }

    /** Copies the values, in the order of `keys`, until one copy fails. */
    method CopySecrets(ctx: Context, newName: string, keys: seq<string>, values: SecretMap, ghost oldName: string)
      returns (r: Outcome<StorageError>, created: seq<string>)
      requires '\0' !in oldName && '\0' !in newName && oldName != newName
      requires HasUnder(secrets.secrets, oldName, values) && ValidKeys(newName, keys)
      modifies ctx, secrets
      ensures CopiedSoFar(old(secrets.secrets), old(secrets.trail), secrets.secrets, secrets.trail,
                          oldName, newName, values, created)
      ensures r.Done? ==> created == Present(keys, values)
      ensures old(ctx.script) == [] ==> r.Done? && ctx.script == []
    {
      created := [];
      ghost var base, trail := secrets.secrets, secrets.trail;
      for i := 0 to |keys|
        invariant created == Present(keys[..i], values)
        invariant old(ctx.script) == [] ==> ctx.script == []
        invariant CopiedSoFar(base, trail, secrets.secrets, secrets.trail, oldName, newName, values, created)
      {
        PresentStep(keys, i, values);
        if keys[i] in values {
          var put := CopyNext(ctx, newName, keys[i], values, created, oldName, base, trail);
          if put.Failed? { return put, created; }
          created := created + [keys[i]];
        }
      }
      assert keys[..|keys|] == keys;
      r := Done;
    }

    /** Deletes copies under a context that never fails; missing ones are ignored. */
    method RemoveCreated(newName: string, created: seq<string>, ghost values: SecretMap, ghost oldName: string)
      returns (rollback: seq<StorageError>)
      requires '\0' !in oldName && '\0' !in newName && oldName != newName
      requires forall i :: 0 <= i < |created| ==> ValidSecretKey(newName, created[i])
      requires HasUnder(secrets.secrets, oldName, values)
      modifies secrets
      ensures rollback == []
      ensures secrets.secrets == DeleteAll(old(secrets.secrets), newName, created)
      ensures HasUnder(secrets.secrets, oldName, values)
      ensures KeptSince(old(secrets.trail), secrets.trail, values, oldName, newName)
    {
      var uncancelled := new Context([]);
      rollback := [];
      for i := 0 to |created|
        invariant rollback == [] && uncancelled.script == []
        invariant secrets.secrets == DeleteAll(old(secrets.secrets), newName, created[..i])
        invariant HasUnder(secrets.secrets, oldName, values)
        invariant KeptSince(old(secrets.trail), secrets.trail, values, oldName, newName)
      {
        ghost var trail := secrets.trail;
        var deleted := DeleteOne(uncancelled, newName, created[i], values, oldName);
        KeptChain(old(secrets.trail), trail, secrets.trail, values, oldName, newName);
        rollback := rollback + if deleted == Failed(NotFound) then [] else ErrorsOf(deleted);
        assert created[..i + 1][..i] == created[..i];
      }
      assert created[..|created|] == created;
    }

    /** Deletes one more old secret, which is there; those of later keys stay. */
    method DeleteNext(ctx: Context, oldName: string, keys: seq<string>, i: nat, values: SecretMap, deleted: seq<string>,
                      ghost newName: string, ghost base: SecretMap, ghost trail: seq<SecretMap>)
      returns (gone: Outcome<StorageError>)
      requires '\0' !in oldName && '\0' !in newName && oldName != newName
      requires i < |keys| && keys[i] in values && ValidKeys(oldName, keys) && Distinct(keys)
      requires DeletedSoFar(base, trail, secrets.secrets, secrets.trail, oldName, newName, values, deleted)
      requires StillThere(secrets.secrets, oldName, keys, i, values)
      modifies ctx, secrets
      ensures old(ctx.script) == [] ==> gone.Done? && ctx.script == []
      ensures var now := if gone.Done? then deleted + [keys[i]] else deleted;
        DeletedSoFar(base, trail, secrets.secrets, secrets.trail, oldName, newName, values, now)
      ensures StillThere(secrets.secrets, oldName, keys, i + 1, values)
    {
      ghost var t := secrets.trail;
      gone := DeleteOne(ctx, oldName, keys[i], values, newName);
      KeptChain(trail, t, secrets.trail, values, oldName, newName);
      DeleteAllStep(base, oldName, deleted, keys[i]);
      OtherKeysDiffer(oldName, keys, i);
    }

    /** Deletes the old secrets, in the order of `keys`, until one deletion fails. */
    method DeleteOriginals(ctx: Context, oldName: string, keys: seq<string>, values: SecretMap, ghost newName: string)
      returns (r: Outcome<StorageError>, deleted: seq<string>)
      requires '\0' !in oldName && '\0' !in newName && oldName != newName
      requires HasUnder(secrets.secrets, newName, values)
      requires HasUnder(secrets.secrets, oldName, values) && Distinct(keys) && ValidKeys(oldName, keys)
      modifies ctx, secrets
      ensures old(ctx.script) == [] ==> r.Done? && ctx.script == []
      ensures deleted <= Present(keys, values)
      ensures r.Done? ==> deleted == Present(keys, values)
      ensures DeletedSoFar(old(secrets.secrets), old(secrets.trail), secrets.secrets, secrets.trail,
                           oldName, newName, values, deleted)
    {
      deleted := [];
      ghost var base, trail := secrets.secrets, secrets.trail;
      for i := 0 to |keys|
        invariant deleted == Present(keys[..i], values)
        invariant old(ctx.script) == [] ==> ctx.script == []
        invariant DeletedSoFar(base, trail, secrets.secrets, secrets.trail, oldName, newName, values, deleted)
        invariant StillThere(secrets.secrets, oldName, keys, i, values)
      {
        PresentStep(keys, i, values);
        PresentPrefix(keys, i, values);
        if keys[i] in values {
          var gone := DeleteNext(ctx, oldName, keys, i, values, deleted, newName, base, trail);
          if gone.Failed? { return gone, deleted; }
          deleted := deleted + [keys[i]];
        }
      }
      assert keys[..|keys|] == keys;
      r := Done;
    }

    /** Writes deleted secrets back under a context that never fails. */
    method PutBack(oldName: string, deleted: seq<string>, values: SecretMap, ghost newName: string)
      returns (rollback: seq<StorageError>)
      requires '\0' !in oldName && '\0' !in newName && oldName != newName
      requires forall i :: 0 <= i < |deleted| ==> deleted[i] in values && ValidSecretKey(oldName, deleted[i])
      requires HasUnder(secrets.secrets, newName, values)
      modifies secrets
      ensures rollback == []
      ensures secrets.secrets == PutAll(old(secrets.secrets), oldName, values, deleted)
      ensures HasUnder(secrets.secrets, newName, values)
      ensures KeptSince(old(secrets.trail), secrets.trail, values, oldName, newName)
    {
      var uncancelled := new Context([]);
      rollback := [];
      for i := 0 to |deleted|
        invariant rollback == [] && uncancelled.script == []
        invariant secrets.secrets == PutAll(old(secrets.secrets), oldName, values, deleted[..i])
        invariant HasUnder(secrets.secrets, newName, values)
        invariant KeptSince(old(secrets.trail), secrets.trail, values, oldName, newName)
      {
        ghost var trail := secrets.trail;
        var put := CopyOne(uncancelled, oldName, deleted[i], values, newName);
        KeptSwapped(trail, secrets.trail, values, newName, oldName);
        KeptChain(old(secrets.trail), trail, secrets.trail, values, oldName, newName);
        rollback := rollback + ErrorsOf(put);
        assert deleted[..i + 1][..i] == deleted[..i];
      }
      assert deleted[..|deleted|] == deleted;
    }

    /** The rollback of a rename that failed before the old profile was deleted. */
    method RollbackNew(newName: string, created: seq<string>, ghost values: SecretMap, ghost profile: Profile)
      returns (rollback: seq<StorageError>)
      requires profiles.Valid()
      requires '\0' !in profile.name && '\0' !in newName && profile.name != newName && ValidKeys(newName, created)
      requires HasUnder(secrets.secrets, profile.name, values)
      requires profile.name in profiles.profiles && profiles.profiles[profile.name] == profile
      modifies profiles, secrets
      ensures profiles.Valid() && rollback == []
      ensures secrets.secrets == DeleteAll(old(secrets.secrets), newName, created)
      ensures profiles.profiles == old(profiles.profiles) - {newName}
      ensures KeptSince(old(secrets.trail), secrets.trail, values, profile.name, newName)
      ensures ProfileKeptSince(old(profiles.trail), profiles.trail, profile, newName)
    {
      rollback := RemoveCreated(newName, created, values, profile.name);
      var removed := DropNewProfile(newName, profile);
      rollback := rollback + removed;
    }

    /** The rollback of a rename that failed while deleting the old secrets. */
    method RollbackDeleted(original: Profile, newName: string, deleted: seq<string>, created: seq<string>,
                           values: SecretMap)
      returns (rollback: seq<StorageError>)
      requires profiles.Valid() && ValidName(original.name)
      requires '\0' !in newName && original.name != newName && ValidKeys(newName, created)
      requires ValidKeys(original.name, deleted)
      requires forall i :: 0 <= i < |deleted| ==> deleted[i] in values
      requires HasUnder(secrets.secrets, newName, values)
      requires HasUnder(PutAll(secrets.secrets, original.name, values, deleted), original.name, values)
      requires newName in profiles.profiles && profiles.profiles[newName] == original.(name := newName)
      modifies profiles, secrets
      ensures profiles.Valid() && rollback == []
      ensures secrets.secrets
           == DeleteAll(PutAll(old(secrets.secrets), original.name, values, deleted), newName, created)
      ensures profiles.profiles == old(profiles.profiles)[original.name := original] - {newName}
      ensures KeptSince(old(secrets.trail), secrets.trail, values, original.name, newName)
      ensures ProfileKeptSince(old(profiles.trail), profiles.trail, original, newName)
    {
      rollback := PutProfileBack(original, newName);
      ghost var u := profiles.trail;
      var secretErrors := PutSecretsBack(original.name, newName, deleted, created, values);
      var gone := DropNewProfile(newName, original);
      ProfileKeptChain(old(profiles.trail), u, profiles.trail, original, newName);
      rollback := rollback + secretErrors + gone;
    }

    /** Stores the original profile again under a context that never fails. */
    method PutProfileBack(original: Profile, ghost newName: string) returns (rollback: seq<StorageError>)
      requires profiles.Valid() && ValidName(original.name)
      modifies profiles
      ensures profiles.Valid() && rollback == []
      ensures profiles.profiles == old(profiles.profiles)[original.name := original]
      ensures ProfileKeptSince(old(profiles.trail), profiles.trail, original, newName)
    {
      var uncancelled := new Context([]);
      TrimSpaceTrims(original.name);
      var restored := profiles.Put(uncancelled, original);
      rollback := ErrorsOf(restored);
    }

    /** Writes the deleted secrets back, then removes the copies. */
    method PutSecretsBack(oldName: string, newName: string, deleted: seq<string>, created: seq<string>,
                          values: SecretMap)
      returns (rollback: seq<StorageError>)
      requires '\0' !in oldName && '\0' !in newName && oldName != newName
      requires ValidKeys(newName, created) && ValidKeys(oldName, deleted)
      requires forall i :: 0 <= i < |deleted| ==> deleted[i] in values
      requires HasUnder(secrets.secrets, newName, values)
      requires HasUnder(PutAll(secrets.secrets, oldName, values, deleted), oldName, values)
      modifies secrets
      ensures rollback == []
      ensures secrets.secrets == DeleteAll(PutAll(old(secrets.secrets), oldName, values, deleted), newName, created)
      ensures KeptSince(old(secrets.trail), secrets.trail, values, oldName, newName)
    {
      rollback := PutBack(oldName, deleted, values, newName);
      ghost var t := secrets.trail;
      var removed := RemoveCreated(newName, created, values, oldName);
      KeptChain(old(secrets.trail), t, secrets.trail, values, oldName, newName);
      rollback := rollback + removed;
    }

    /** Deletes the new profile under a context that never fails; it may be missing. */
    method DropNewProfile(newName: string, ghost profile: Profile) returns (rollback: seq<StorageError>)
      requires profiles.Valid() && profile.name != newName
      requires profile.name in profiles.profiles && profiles.profiles[profile.name] == profile
      modifies profiles
      ensures profiles.Valid() && rollback == [] && profiles.profiles == old(profiles.profiles) - {newName}
      ensures ProfileKeptSince(old(profiles.trail), profiles.trail, profile, newName)
    {
      var uncancelled := new Context([]);
      var removed := profiles.Delete(uncancelled, newName);
      rollback := if removed == Failed(NotFound) then [] else ErrorsOf(removed);
    }

    /** Copies the secrets to the profile just stored and deletes the old profile, or undoes it all. */
    method CopyToNew(ctx: Context, original: Profile, n: string, keys: seq<string>, values: SecretMap)
      returns (r: Outcome<ProfileError>, created: seq<string>)
      requires profiles.Valid() && ValidName(original.name) && ValidName(n) && original.name != n
      requires original.name in profiles.profiles && profiles.profiles[original.name] == original
      requires n in profiles.profiles && profiles.profiles[n] == original.(name := n)
      requires ValidKeys(n, keys) && Gathered(secrets.secrets, original.name, n, keys, values)
      modifies ctx, profiles, secrets
      ensures profiles.Valid()
      ensures r.Failed? ==> r.error.Joined? && r.error.rollback == []
      ensures r.Failed? ==> profiles.profiles == old(profiles.profiles) - {n} && secrets.secrets == old(secrets.secrets)
      ensures r.Done? ==>
        && created == Present(keys, values)
        && profiles.profiles == old(profiles.profiles) - {original.name}
        && secrets.secrets == PutAll(old(secrets.secrets), n, values, created)
        && HasUnder(secrets.secrets, original.name, values)
      ensures KeptSince(old(secrets.trail), secrets.trail, values, original.name, n)
      ensures ProfileKeptSince(old(profiles.trail), profiles.trail, original, n)
      ensures old(ctx.script) == [] ==> r.Done? && ctx.script == []
    {
      ghost var s0, t0 := secrets.secrets, secrets.trail;
      var cause: Outcome<StorageError>;
      cause, created := CopySecrets(ctx, n, keys, values, original.name);
      ghost var t1, u1 := secrets.trail, profiles.trail;
      CreatedIsFree(s0, original.name, n, keys, values, created);
      if cause.Done? { cause := DeleteOldProfile(ctx, original, n); }
      if cause.Failed? {
        var rollback := UndoCopies(n, created, values, original, s0);
        KeptChain(t0, t1, secrets.trail, values, original.name, n);
        return Failed(Joined(cause.error, rollback)), created;
      }
      r := Done;
    }

    /** Deletes the profile's old entry, once there is a new one. */
    method DeleteOldProfile(ctx: Context, original: Profile, n: string) returns (r: Outcome<StorageError>)
      requires profiles.Valid() && original.name != n
      requires original.name in profiles.profiles && profiles.profiles[original.name] == original
      requires n in profiles.profiles && profiles.profiles[n] == original.(name := n)
      modifies ctx, profiles
      ensures profiles.Valid()
      ensures profiles.profiles == if r.Done? then old(profiles.profiles) - {original.name} else old(profiles.profiles)
      ensures r.Failed? ==> profiles.trail == old(profiles.trail)
      ensures ProfileKeptSince(old(profiles.trail), profiles.trail, original, n)
      ensures old(ctx.script) == [] ==> r.Done? && ctx.script == []
    {
      r := profiles.Delete(ctx, original.name);
    }

    /** Undoes the copies made, and with them the new profile. */
    method UndoCopies(n: string, created: seq<string>, values: SecretMap, original: Profile, ghost s0: SecretMap)
      returns (rollback: seq<StorageError>)
      requires profiles.Valid() && ValidName(original.name) && ValidName(n) && original.name != n
      requires original.name in profiles.profiles && profiles.profiles[original.name] == original
      requires ValidKeys(n, created)
      requires forall i :: 0 <= i < |created| ==> created[i] in values && SecretKey(n, created[i]) !in s0
      requires secrets.secrets == PutAll(s0, n, values, created) && HasUnder(secrets.secrets, original.name, values)
      modifies profiles, secrets
      ensures profiles.Valid() && rollback == []
      ensures profiles.profiles == old(profiles.profiles) - {n} && secrets.secrets == s0
      ensures KeptSince(old(secrets.trail), secrets.trail, values, original.name, n)
      ensures ProfileKeptSince(old(profiles.trail), profiles.trail, original, n)
    {
      DeletingUndoesCopying(s0, n, values, created);
      rollback := RollbackNew(n, created, values, original);
    }

    /** Undoes a rename whose deletions failed: both stores are again what they were before it. */
    method UndoDeletes(original: Profile, n: string, deleted: seq<string>, created: seq<string>, values: SecretMap,
                       ghost s0: SecretMap, ghost p0: ProfileMap) returns (rollback: seq<StorageError>)
      requires profiles.Valid() && ValidName(original.name) && ValidName(n) && original.name != n
      requires original.name in p0 && p0[original.name] == original && n !in p0
      requires profiles.profiles == MovedProfile(p0, original.name, n)
      requires ValidKeys(original.name, deleted) && ValidKeys(n, created)
      requires forall i :: 0 <= i < |created| ==> created[i] in values && SecretKey(n, created[i]) !in s0
      requires forall i :: 0 <= i < |deleted| ==> deleted[i] in values
      requires HasUnder(PutAll(s0, n, values, created), original.name, values) && HasUnder(secrets.secrets, n, values)
      requires secrets.secrets == DeleteAll(PutAll(s0, n, values, created), original.name, deleted)
      modifies profiles, secrets
      ensures profiles.Valid() && rollback == [] && profiles.profiles == p0 && secrets.secrets == s0
      ensures KeptSince(old(secrets.trail), secrets.trail, values, original.name, n)
      ensures ProfileKeptSince(old(profiles.trail), profiles.trail, original, n)
    {
      WritingUndoesDeleting(PutAll(s0, n, values, created), original.name, values, deleted);
      DeletingUndoesCopying(s0, n, values, created);
      rollback := RollbackDeleted(original, n, deleted, created, values);
    }

    /** Deletes the old secrets, or puts both stores back to what they were before the rename. */
    method DeleteOld(ctx: Context, original: Profile, n: string, keys: seq<string>, values: SecretMap,
                     created: seq<string>,
                     ghost s0: SecretMap, ghost p0: ProfileMap)
      returns (r: Outcome<ProfileError>)
      requires profiles.Valid() && ValidName(original.name) && ValidName(n) && original.name != n
      requires ValidKeys(original.name, keys) && ValidKeys(n, keys) && Distinct(keys)
      requires original.name in p0 && p0[original.name] == original && n !in p0
      requires profiles.profiles == MovedProfile(p0, original.name, n)
      requires Gathered(s0, original.name, n, keys, values) && created == Present(keys, values)
      requires secrets.secrets == PutAll(s0, n, values, created)
      requires HasUnder(secrets.secrets, original.name, values)
      modifies ctx, profiles, secrets
      ensures profiles.Valid()
      ensures r.Failed? ==> r.error.Joined? && r.error.rollback == []
      ensures r.Failed? ==> profiles.profiles == p0 && secrets.secrets == s0
      ensures r.Done? ==>
        profiles.profiles == old(profiles.profiles) && SecretsMoved(s0, secrets.secrets, original.name, n, keys)
      ensures KeptSince(old(secrets.trail), secrets.trail, values, original.name, n)
      ensures ProfileKeptSince(old(profiles.trail), profiles.trail, original, n)
      ensures old(ctx.script) == [] ==> r.Done?
    {
      var o := original.name;
      ghost var s1, t1 := secrets.secrets, secrets.trail;
      PutAllLookup(s0, n, values, created);
      AllCreated(s1, n, keys, values, created);
      CreatedIsFree(s0, o, n, keys, values, created);
      var result, deleted := DeleteOriginals(ctx, o, keys, values, n);
      if result.Failed? {
        ghost var t2 := secrets.trail;
        DeletedAreValid(o, keys, values, deleted);
        var rollback := UndoDeletes(original, n, deleted, created, values, s0, p0);
        KeptChain(t1, t2, secrets.trail, values, o, n);
        return Failed(Joined(result.error, rollback));
      }
      CopyThenDeleteMoves(s0, o, n, keys, values);
      r := Done;
    }

    /** The part of a rename that changes the stores, once both names are known to be good. */
    method MoveProfile(ctx: Context, original: Profile, n: string, keys: seq<string>)
      returns (r: Result<Profile, ProfileError>)
      requires profiles.Valid() && ValidName(original.name) && ValidName(n) && original.name != n
      requires original.name in profiles.profiles && profiles.profiles[original.name] == original
      requires n !in profiles.profiles
      requires ValidKeys(original.name, keys) && ValidKeys(n, keys) && Distinct(keys)
      modifies ctx, profiles, secrets
      ensures profiles.Valid()
      ensures r.Err? ==> profiles.profiles == old(profiles.profiles) && secrets.secrets == old(secrets.secrets)
      ensures r.Err? && r.error.Joined? ==> r.error.rollback == []
      ensures r.Ok? ==>
        && r.value == original.(name := n)
        && profiles.profiles == MovedProfile(old(profiles.profiles), original.name, n)
        && SecretsMoved(old(secrets.secrets), secrets.secrets, original.name, n, keys)
      ensures KeptSince(old(secrets.trail), secrets.trail, ValuesOf(old(secrets.secrets), original.name, keys),
                        original.name, n)
      ensures ProfileKeptSince(old(profiles.trail), profiles.trail, original, n)
      ensures old(ctx.script) == [] ==>
        (r.Ok? <==> forall i :: 0 <= i < |keys| ==> SecretKey(n, keys[i]) !in old(secrets.secrets))
    {
      var gathered := GatherSecrets(ctx, original.name, n, keys);
      if gathered.Err? { return Err(gathered.error); }
      var stored := StoreUnderNewName(ctx, original, n);
      if stored.Failed? { return Err(stored.error); }
      var moved := MoveGathered(ctx, original, n, keys, gathered.value, old(profiles.profiles));
      if moved.Failed? { return Err(moved.error); }
      r := Ok(original.(name := n));
    }

    /** Stores the profile under its new name as well. */
    method StoreUnderNewName(ctx: Context, original: Profile, n: string) returns (r: Outcome<ProfileError>)
      requires profiles.Valid() && ValidName(n)
      requires original.name in profiles.profiles && profiles.profiles[original.name] == original && original.name != n
      modifies ctx, profiles
      ensures profiles.Valid()
      ensures r.Failed? ==> r.error.Joined? && r.error.rollback == [] && profiles.profiles == old(profiles.profiles)
      ensures r.Done? ==> profiles.profiles == old(profiles.profiles)[n := original.(name := n)]
      ensures ProfileKeptSince(old(profiles.trail), profiles.trail, original, n)
      ensures old(ctx.script) == [] ==> r.Done? && ctx.script == []
    {
      TrimSpaceTrims(n);
      var put := profiles.Put(ctx, original.(name := n));
      r := match put case Done => Done case Failed(e) => Failed(Joined(e, []));
    }

    /** Copies the secrets and deletes the originals, or undoes the whole rename. */
    method MoveGathered(ctx: Context, original: Profile, n: string, keys: seq<string>, values: SecretMap,
                        ghost p0: ProfileMap) returns (r: Outcome<ProfileError>)
      requires profiles.Valid() && ValidName(original.name) && ValidName(n) && original.name != n
      requires original.name in p0 && p0[original.name] == original && n !in p0
      requires profiles.profiles == p0[n := original.(name := n)]
      requires ValidKeys(original.name, keys) && ValidKeys(n, keys) && Distinct(keys)
      requires Gathered(secrets.secrets, original.name, n, keys, values)
      modifies ctx, profiles, secrets
      ensures profiles.Valid()
      ensures r.Failed? ==> r.error.Joined? && r.error.rollback == []
      ensures r.Failed? ==> profiles.profiles == p0 && secrets.secrets == old(secrets.secrets)
      ensures r.Done? ==>
        && profiles.profiles == MovedProfile(p0, original.name, n)
        && SecretsMoved(old(secrets.secrets), secrets.secrets, original.name, n, keys)
      ensures KeptSince(old(secrets.trail), secrets.trail, values, original.name, n)
      ensures ProfileKeptSince(old(profiles.trail), profiles.trail, original, n)
      ensures old(ctx.script) == [] ==> r.Done?
    {
      ghost var s0 := secrets.secrets;
      var created: seq<string>;
      r, created := CopyToNew(ctx, original, n, keys, values);
      ghost var t1, u1 := secrets.trail, profiles.trail;
      assert p0[n := original.(name := n)] - {n} == p0;
      if r.Failed? { return; }
      r := DeleteOld(ctx, original, n, keys, values, created, s0, p0);
      KeptChain(old(secrets.trail), t1, secrets.trail, values, original.name, n);
      ProfileKeptChain(old(profiles.trail), u1, profiles.trail, original, n);
    }

    /** The rename between two different usable names. */
    method RenameTo(ctx: Context, o: string, n: string) returns (r: Result<Profile, ProfileError>)
      requires profiles.Valid() && Usable(o) && Usable(n) && Trimmed(o) && Trimmed(n) && o != n
      modifies ctx, profiles, secrets
      ensures profiles.Valid()
      ensures r.Err? ==> profiles.profiles == old(profiles.profiles) && secrets.secrets == old(secrets.secrets)
      ensures r.Err? && r.error.Joined? ==> r.error.rollback == []
      ensures r.Ok? ==>
        && o in old(profiles.profiles) && n !in old(profiles.profiles)
        && r.value == old(profiles.profiles)[o].(name := n)
        && profiles.profiles == old(profiles.profiles)[n := r.value] - {o}
        && SecretsMoved(old(secrets.secrets), secrets.secrets, o, n, MANAGED)
      ensures KeptSince(old(secrets.trail), secrets.trail, ValuesOf(old(secrets.secrets), o, MANAGED), o, n)
      ensures
        if o in old(profiles.profiles)
        then ProfileKeptSince(old(profiles.trail), profiles.trail, old(profiles.profiles)[o], n)
        else profiles.trail == old(profiles.trail)
      ensures old(ctx.script) == [] ==>
        (r.Ok? <==> (o in old(profiles.profiles) && n !in old(profiles.profiles) &&
          forall i :: 0 <= i < |MANAGED| ==> SecretKey(n, MANAGED[i]) !in old(secrets.secrets)))
    {
      var destination := profiles.Get(ctx, n);
      if destination.Ok? { return Err(DestinationExists); }
      if destination.error != NotFound { return Err(Joined(destination.error, [])); }
      var source := profiles.Get(ctx, o);
      if source.Err? { return Err(Joined(source.error, [])); }
      ManagedKeysAreValid(o);
      ManagedKeysAreValid(n);
      r := MoveProfile(ctx, source.value, n, MANAGED);
    }

    /**
     Renames a profile together with its managed secrets.  Whatever calls fail, either all of it has
     moved or both stores are as they were, and at no point in between is a secret or the profile
     missing under both names.
     */
    method Rename(ctx: Context, oldName: string, newName: string) returns (r: Result<Profile, ProfileError>)
      requires profiles.Valid()
      modifies ctx, profiles, secrets
      ensures profiles.Valid()
      ensures r.Err? ==> profiles.profiles == old(profiles.profiles) && secrets.secrets == old(secrets.secrets)
      ensures r.Err? && r.error.Joined? ==> r.error.rollback == []
      ensures var o, n := TrimSpace(oldName), TrimSpace(newName);
        r.Ok? ==>
          && Usable(o) && Usable(n) && o in old(profiles.profiles)
          && r.value == old(profiles.profiles)[o].(name := n)
          && (if o == n then profiles.profiles == old(profiles.profiles) && secrets.secrets == old(secrets.secrets)
              else
                && n !in old(profiles.profiles)
                && profiles.profiles == old(profiles.profiles)[n := r.value] - {o}
                && SecretsMoved(old(secrets.secrets), secrets.secrets, o, n, ["cookies", "session", "e2ee_state"]))
      ensures var o, n := TrimSpace(oldName), TrimSpace(newName);
        var values := ValuesOf(old(secrets.secrets), o, ["cookies", "session", "e2ee_state"]);
        KeptSince(old(secrets.trail), secrets.trail, values, o, n)
      ensures var o, n := TrimSpace(oldName), TrimSpace(newName);
        if o in old(profiles.profiles)
        then ProfileKeptSince(old(profiles.trail), profiles.trail, old(profiles.profiles)[o], n)
        else profiles.trail == old(profiles.trail)
      ensures var o, n := TrimSpace(oldName), TrimSpace(newName);
        old(ctx.script) == [] ==>
          (r.Ok? <==> (Usable(o) && Usable(n) && o in old(profiles.profiles) &&
            (o == n || (n !in old(profiles.profiles) && HasNone(old(secrets.secrets), n)))))
    {
      var o, n := TrimSpace(oldName), TrimSpace(newName);
      TrimSpaceTrims(oldName);
      TrimSpaceTrims(newName);
      if !Usable(o) || !Usable(n) { return Err(NamesRequired); }
      if o == n {
        var same := profiles.Get(ctx, o);
        if same.Err? { return Err(Joined(same.error, [])); }
        return Ok(same.value);
      }
      HasNoneOfManaged(secrets.secrets, n);
      r := RenameTo(ctx, o, n);
    }

    // ---- cookies and authentication snapshots ----

    /** Stores cookies in their printed form. */
    method SaveCookies(ctx: Context, profile: string, cookies: Cookies.Cookies) returns (r: Outcome<ProfileError>)
      modifies ctx, secrets
      ensures r.Done? ==> exists text :: (Cookies.Prints(cookies, text) &&
        secrets.secrets == old(secrets.secrets)[SecretKey(profile, "cookies") := text])
      ensures old(ctx.script) == [] && ValidSecretKey(profile, "cookies") ==>
        (r.Done? <==> Cookies.RegularCookies(cookies))
      ensures r.Failed? ==> secrets.secrets == old(secrets.secrets)
    {
      var valid := Cookies.ValidateRegular(cookies);
      if valid.Failed? { return Failed(CookiesInvalid(valid.error)); }
      var text := Cookies.Print(cookies);
      var put := secrets.Put(ctx, profile, SECRET_COOKIES, text);
      r := match put case Done => Done case Failed(e) => Failed(Joined(e, []));
    }

    method LoadCookies(ctx: Context, profile: string) returns (r: Result<Cookies.Cookies, ProfileError>)
      modifies ctx
      ensures r.Ok? ==> (SecretKey(profile, "cookies") in secrets.secrets &&
        Ok(r.value) == Cookies.Parsed(secrets.secrets[SecretKey(profile, "cookies")]))
      ensures old(ctx.script) == [] && ValidSecretKey(profile, "cookies") ==>
        (r.Ok? <==> (SecretKey(profile, "cookies") in secrets.secrets &&
          Cookies.Parsed(secrets.secrets[SecretKey(profile, "cookies")]).Ok?))
    {
      var text := secrets.Get(ctx, profile, SECRET_COOKIES);
      if text.Err? { return Err(Joined(text.error, [])); }
      var parsed := Cookies.ParseCookieString(text.value);
      r := match parsed case Ok(c) => Ok(c) case Err(e) => Err(CookiesInvalid(e));
    }

    /** Puts one secret back to what it was found to be before. */
    method RestoreSecret(profile: string, key: string, before: Result<Secret, StorageError>)
      returns (rollback: seq<StorageError>)
      requires ValidSecretKey(profile, key)
      requires before.Ok? || before == Err(NotFound)
      modifies secrets
      ensures rollback == []
      ensures secrets.secrets == (match before
        case Ok(value) => old(secrets.secrets)[SecretKey(profile, key) := value]
        case Err(_) => old(secrets.secrets) - {SecretKey(profile, key)})
    {
      var uncancelled := new Context([]);
      if before.Ok? {
        var put := secrets.Put(uncancelled, profile, key, before.value);
        rollback := ErrorsOf(put);
      } else {
        var gone := secrets.Delete(uncancelled, profile, key);
        rollback := if gone == Failed(NotFound) then [] else ErrorsOf(gone);
      }
    }

    /** Stores the cookies and the session of a snapshot, both or neither. */
    method SaveAuthSnapshot(ctx: Context, profile: string, cookies: Cookies.Cookies, session: Secret)
      returns (r: Outcome<ProfileError>)
      modifies ctx, secrets
      ensures r.Failed? ==> secrets.secrets == old(secrets.secrets)
      ensures r.Failed? && r.error.Joined? ==> r.error.rollback == []
      ensures r.Done? ==>
        exists text :: (Cookies.Prints(cookies, text) && secrets.secrets ==
          old(secrets.secrets)[SecretKey(profile, "cookies") := text][SecretKey(profile, "session") := session])
      ensures old(ctx.script) == [] ==>
        (r.Done? <==>
          && Cookies.RegularCookies(cookies)
          && ValidSecretKey(profile, "cookies") && ValidSecretKey(profile, "session"))
    {
      var valid := Cookies.ValidateRegular(cookies);
      if valid.Failed? { return Failed(CookiesInvalid(valid.error)); }
      var oldCookies := secrets.Get(ctx, profile, SECRET_COOKIES);
      var oldSession := secrets.Get(ctx, profile, SECRET_SESSION);
      if oldCookies.Err? && oldCookies.error != NotFound { return Failed(Joined(oldCookies.error, [])); }
      if oldSession.Err? && oldSession.error != NotFound { return Failed(Joined(oldSession.error, [])); }
      var text := Cookies.Print(cookies);
      r := StoreBoth(ctx, profile, text, session, oldCookies, oldSession);
    }

    /** Saves a snapshot and loads its cookies again: they come back when a cookie string can carry them. */
    method SaveThenLoad(profile: string, cookies: Cookies.Cookies, session: Secret)
      returns (r: Result<Cookies.Cookies, ProfileError>)
      requires Cookies.RegularCookies(cookies)
      requires ValidSecretKey(profile, "cookies") && ValidSecretKey(profile, "session")
      modifies secrets
      ensures r == Ok(cookies) <==>
        forall k :: k in cookies ==> Cookies.CarriedKey(k) && Cookies.CarriedValue(cookies[k])
      ensures SecretKey(profile, "session") in secrets.secrets
      ensures secrets.secrets[SecretKey(profile, "session")] == session
    {
      var ctx := new Context([]);
      var saved := SaveAuthSnapshot(ctx, profile, cookies, session);
      SecretKeysDoNotCollide(profile, "cookies", profile, "session");
      SavedCookiesLoadBack(cookies, secrets.secrets[SecretKey(profile, "cookies")]);
      ctx := new Context([]);
      r := LoadCookies(ctx, profile);
    }

    /** Writes both secrets; when the second write fails, restores both. */
    method StoreBoth(ctx: Context, profile: string, text: Secret, session: Secret,
                     oldCookies: Result<Secret, StorageError>, oldSession: Result<Secret, StorageError>)
      returns (r: Outcome<ProfileError>)
      requires ValidSecretKey(profile, SECRET_COOKIES) && ValidSecretKey(profile, SECRET_SESSION)
      requires Found(secrets.secrets, SecretKey(profile, SECRET_COOKIES), oldCookies)
      requires Found(secrets.secrets, SecretKey(profile, SECRET_SESSION), oldSession)
      modifies ctx, secrets
      ensures r.Failed? ==> secrets.secrets == old(secrets.secrets) && r.error.Joined? && r.error.rollback == []
      ensures r.Done? ==>
        var stored := old(secrets.secrets)[SecretKey(profile, "cookies") := text];
        secrets.secrets == stored[SecretKey(profile, "session") := session]
      ensures old(ctx.script) == [] ==> r.Done?
    {
      var put := secrets.Put(ctx, profile, SECRET_COOKIES, text);
      if put.Failed? { return Failed(Joined(put.error, [])); }
      put := secrets.Put(ctx, profile, SECRET_SESSION, session);
      if put.Failed? {
        var rollback := RestoreBoth(profile, oldCookies, oldSession, old(secrets.secrets));
        return Failed(Joined(put.error, rollback));
      }
      r := Done;
    }

    /** Puts both secrets back, as far as either was changed. */
    method RestoreBoth(profile: string, oldCookies: Result<Secret, StorageError>,
                       oldSession: Result<Secret, StorageError>, ghost before: SecretMap)
      returns (rollback: seq<StorageError>)
      requires ValidSecretKey(profile, SECRET_COOKIES) && ValidSecretKey(profile, SECRET_SESSION)
      requires Found(before, SecretKey(profile, SECRET_COOKIES), oldCookies)
      requires Found(before, SecretKey(profile, SECRET_SESSION), oldSession)
      requires forall k :: k != SecretKey(profile, SECRET_COOKIES) && k != SecretKey(profile, SECRET_SESSION) ==>
        (k in secrets.secrets <==> k in before) && (k in before ==> secrets.secrets[k] == before[k])
      modifies secrets
      ensures rollback == [] && secrets.secrets == before
    {
      SecretKeysDoNotCollide(profile, SECRET_COOKIES, profile, SECRET_SESSION);
      var first := RestoreSecret(profile, SECRET_COOKIES, oldCookies);
      assert SameBut(before, secrets.secrets, SecretKey(profile, SECRET_SESSION));
      var second := RestoreSecret(profile, SECRET_SESSION, oldSession);
      rollback := first + second;
    }
  }

  /** The maps agree but for one key. */
  ghost predicate SameBut(a: SecretMap, b: SecretMap, but: string) {
    forall k :: k != but ==> (k in a <==> k in b) && (k in a ==> a[k] == b[k])
  }

  /** `r` is what reading the secret under `k` gives. */
  ghost predicate Found(secrets: SecretMap, k: string, r: Result<Secret, StorageError>) {
    r == if k in secrets then Ok(secrets[k]) else Err(NotFound)
  }

  /** Saved cookies load back exactly when a cookie string can carry each of them. */
  lemma SavedCookiesLoadBack(c: Cookies.Cookies, text: string)
    requires Cookies.RegularCookies(c) && Cookies.Prints(c, text)
    ensures Cookies.Parsed(text) == Ok(c) <==>
      forall k :: k in c ==> Cookies.CarriedKey(k) && Cookies.CarriedValue(c[k])
  {
    Cookies.RoundTripExactlyWhenPrintable(c, text);
  }

  /** The values are those `oldName` has among `keys`, and `newName` has none of them. */
  ghost predicate Gathered(secrets: SecretMap, oldName: string, newName: string, keys: seq<string>, values: SecretMap) {
    && (forall i :: 0 <= i < |keys| ==> SecretKey(newName, keys[i]) !in secrets)
    && values == ValuesOf(secrets, oldName, keys)
  }

  lemma GatherOneMore(secrets: SecretMap, oldName: string, newName: string, keys: seq<string>, key: string)
    ensures ValuesOf(secrets, oldName, keys + [key]) ==
      if SecretKey(oldName, key) in secrets
      then ValuesOf(secrets, oldName, keys)[key := secrets[SecretKey(oldName, key)]]
      else ValuesOf(secrets, oldName, keys)
  {
  }

  ghost predicate Distinct(keys: seq<string>) { forall i, j :: 0 <= i < j < |keys| ==> keys[i] != keys[j] }

  /** The keys that have a value, in order. */
  function Present(keys: seq<string>, values: SecretMap): (r: seq<string>)
    ensures forall i :: 0 <= i < |r| ==> r[i] in values && r[i] in keys
    ensures forall key :: key in keys && key in values ==> key in r
  {
    if keys == [] then []
    else
      var front, last := keys[..|keys| - 1], keys[|keys| - 1];
      assert keys == front + [last];
      Present(front, values) + if last in values then [last] else []
  }

  lemma PresentStep(keys: seq<string>, i: nat, values: SecretMap)
    requires i < |keys|
    ensures Present(keys[..i + 1], values) == Present(keys[..i], values) + if keys[i] in values then [keys[i]] else []
  {
    assert keys[..i + 1][..i] == keys[..i];
  }

  lemma PutAllStep(base: SecretMap, profile: string, values: SecretMap, keys: seq<string>, key: string)
    requires key in values && forall i :: 0 <= i < |keys| ==> keys[i] in values
    ensures PutAll(base, profile, values, keys + [key])
         == PutAll(base, profile, values, keys)[SecretKey(profile, key) := values[key]]
  {
    assert (keys + [key])[..|keys|] == keys;
  }

  lemma DeleteAllStep(base: SecretMap, profile: string, keys: seq<string>, key: string)
    ensures DeleteAll(base, profile, keys + [key]) == DeleteAll(base, profile, keys) - {SecretKey(profile, key)}
  {
    assert (keys + [key])[..|keys|] == keys;
  }

  lemma {:induction false} PresentPrefix(keys: seq<string>, i: nat, values: SecretMap)
    requires i <= |keys|
    ensures Present(keys[..i], values) <= Present(keys, values)
    decreases |keys|
  {
    if i == |keys| {
      assert keys[..i] == keys;
    } else {
      var front := keys[..|keys| - 1];
      assert front[..i] == keys[..i];
      PresentPrefix(front, i, values);
      assert Present(front, values) <= Present(keys, values);
    }
  }

  lemma KeyIsValid(profile: string, key: string)
    requires Usable(profile) && Trimmed(profile) && Usable(key) && Trimmed(key)
    ensures ValidSecretKey(profile, key)
  {
    TrimSpaceTrims(profile);
    TrimSpaceTrims(key);
  }

  lemma ManagedKeysAreDistinct()
    ensures Distinct(MANAGED)
  {
    assert SECRET_COOKIES[0] == 'c' && SECRET_SESSION[0] == 's' && SECRET_E2EE[0] == 'e';
  }

  lemma ManagedKeysAreValid(profile: string)
    requires Usable(profile) && Trimmed(profile)
    ensures ValidKeys(profile, MANAGED) && Distinct(MANAGED)
  {
    KeyIsValid(profile, SECRET_COOKIES);
    KeyIsValid(profile, SECRET_SESSION);
    KeyIsValid(profile, SECRET_E2EE);
    ManagedKeysAreDistinct();
  }

  lemma OtherKeysDiffer(profile: string, keys: seq<string>, i: nat)
    requires '\0' !in profile && i < |keys| && Distinct(keys)
    ensures forall j :: i < j < |keys| ==> SecretKey(profile, keys[j]) != SecretKey(profile, keys[i])
  {
    forall j | i < j < |keys| ensures SecretKey(profile, keys[j]) != SecretKey(profile, keys[i]) {
      SecretKeysDoNotCollide(profile, keys[i], profile, keys[j]);
    }
  }

  /** A change to one secret of one name leaves what the other name has. */
  lemma OtherNameUntouched(was: SecretMap, now: SecretMap, kept: string, changed: string, key: string,
                           values: SecretMap)
    requires '\0' !in kept && '\0' !in changed && kept != changed
    requires HasUnder(was, kept, values)
    requires forall k :: k != SecretKey(changed, key) && k in was ==> k in now && now[k] == was[k]
    ensures HasUnder(now, kept, values)
    ensures Kept(now, values, kept, changed) && Kept(now, values, changed, kept)
  {
    forall l | l in values ensures SecretKey(kept, l) != SecretKey(changed, key) {
      SecretKeysDoNotCollide(kept, l, changed, key);
    }
  }

  // ---------------------------------------------------------------------------------------------

  lemma {:induction false} PutAllLookup(base: SecretMap, profile: string, values: SecretMap, keys: seq<string>)
    requires forall i :: 0 <= i < |keys| ==> keys[i] in values
    requires '\0' !in profile
    ensures forall k :: k in PutAll(base, profile, values, keys) <==> k in base || KeyUnder(k, profile, keys)
    ensures forall k :: k in base && !KeyUnder(k, profile, keys) ==> PutAll(base, profile, values, keys)[k] == base[k]
    ensures forall i :: 0 <= i < |keys| ==>
      && SecretKey(profile, keys[i]) in PutAll(base, profile, values, keys)
      && PutAll(base, profile, values, keys)[SecretKey(profile, keys[i])] == values[keys[i]]
    decreases |keys|
  {
    if keys != [] {
      var front, last := keys[..|keys| - 1], keys[|keys| - 1];
      PutAllLookup(base, profile, values, front);
      KeyUnderAppend(profile, front, last);
      assert keys == front + [last];
      forall i | 0 <= i < |keys|
        ensures SecretKey(profile, keys[i]) in PutAll(base, profile, values, keys)
        ensures PutAll(base, profile, values, keys)[SecretKey(profile, keys[i])] == values[keys[i]]
      {
        SecretKeysDoNotCollide(profile, keys[i], profile, last);
        assert i < |front| ==> front[i] == keys[i];
      }
    }
  }

  lemma KeyUnderAppend(profile: string, front: seq<string>, last: string)
    ensures forall k :: KeyUnder(k, profile, front + [last]) <==>
      KeyUnder(k, profile, front) || k == SecretKey(profile, last)
  {
    forall k ensures KeyUnder(k, profile, front + [last]) <==>
      KeyUnder(k, profile, front) || k == SecretKey(profile, last) {
      var keys := front + [last];
      assert keys[|front|] == last && forall i :: 0 <= i < |front| ==> keys[i] == front[i];
    }
  }

  lemma {:induction false} DeleteAllLookup(base: SecretMap, profile: string, keys: seq<string>)
    ensures forall k :: k in DeleteAll(base, profile, keys) <==> k in base && !KeyUnder(k, profile, keys)
    ensures forall k :: k in DeleteAll(base, profile, keys) ==> DeleteAll(base, profile, keys)[k] == base[k]
    decreases |keys|
  {
    if keys != [] {
      var front, last := keys[..|keys| - 1], keys[|keys| - 1];
      DeleteAllLookup(base, profile, front);
      KeyUnderAppend(profile, front, last);
      assert keys == front + [last];
    }
  }

  /** Deleting what was copied onto free keys gives the map before the copies. */
  lemma DeletingUndoesCopying(base: SecretMap, profile: string, values: SecretMap, keys: seq<string>)
    requires '\0' !in profile
    requires forall i :: 0 <= i < |keys| ==> keys[i] in values && SecretKey(profile, keys[i]) !in base
    ensures DeleteAll(PutAll(base, profile, values, keys), profile, keys) == base
  {
    PutAllLookup(base, profile, values, keys);
    DeleteAllLookup(PutAll(base, profile, values, keys), profile, keys);
  }

  /** Writing deleted values back gives the map before the deletions. */
  lemma WritingUndoesDeleting(base: SecretMap, profile: string, values: SecretMap, keys: seq<string>)
    requires '\0' !in profile
    requires forall i :: 0 <= i < |keys| ==> keys[i] in values
    requires HasUnder(base, profile, values)
    ensures PutAll(DeleteAll(base, profile, keys), profile, values, keys) == base
  {
    var gone := DeleteAll(base, profile, keys);
    DeleteAllLookup(base, profile, keys);
    PutAllLookup(gone, profile, values, keys);
    var back := PutAll(gone, profile, values, keys);
    forall k | k in base ensures k in back && back[k] == base[k] {
      if KeyUnder(k, profile, keys) {
        var i :| 0 <= i < |keys| && k == SecretKey(profile, keys[i]);
      }
    }
    forall k | k in back ensures k in base {
      if KeyUnder(k, profile, keys) {
        var i :| 0 <= i < |keys| && k == SecretKey(profile, keys[i]);
      }
    }
  }

  /** A secret's key under the old name after its deletion, and under the new name after its copy. */
  lemma PresentIsMoved(before: SecretMap, oldName: string, newName: string, values: SecretMap,
                       present: seq<string>, key: string)
    requires '\0' !in oldName && '\0' !in newName && oldName != newName && key in present
    requires forall i :: 0 <= i < |present| ==> present[i] in values
    ensures var copied := PutAll(before, newName, values, present);
      var after := DeleteAll(copied, oldName, present);
      && SecretKey(oldName, key) !in after
      && SecretKey(newName, key) in after && after[SecretKey(newName, key)] == values[key]
  {
    var copied := PutAll(before, newName, values, present);
    var j :| 0 <= j < |present| && present[j] == key;
    assert KeyUnder(SecretKey(oldName, key), oldName, present);
    NotUnderOtherName(SecretKey(newName, key), newName, key, oldName, present);
    PutAllLookup(before, newName, values, present);
    DeleteAllLookup(copied, oldName, present);
  }

  /** A secret that is under neither name stays so. */
  lemma AbsentStaysAbsent(before: SecretMap, oldName: string, newName: string, values: SecretMap,
                          present: seq<string>, key: string)
    requires '\0' !in oldName && '\0' !in newName && oldName != newName && key !in present
    requires forall i :: 0 <= i < |present| ==> present[i] in values
    requires SecretKey(oldName, key) !in before && SecretKey(newName, key) !in before
    ensures var after := DeleteAll(PutAll(before, newName, values, present), oldName, present);
      SecretKey(oldName, key) !in after && SecretKey(newName, key) !in after
  {
    NotUnderOtherName(SecretKey(oldName, key), oldName, key, newName, present);
    UnderOwnName(SecretKey(newName, key), newName, key, present);
    PutAllLookup(before, newName, values, present);
    DeleteAllLookup(PutAll(before, newName, values, present), oldName, present);
  }

  /** One gathered secret is under the new name alone, once the present ones are copied and deleted. */
  lemma OneMoved(before: SecretMap, oldName: string, newName: string, keys: seq<string>,
                 values: SecretMap, i: nat)
    requires '\0' !in oldName && '\0' !in newName && oldName != newName
    requires Gathered(before, oldName, newName, keys, values) && i < |keys|
    ensures var copied := PutAll(before, newName, values, Present(keys, values));
      var after := DeleteAll(copied, oldName, Present(keys, values));
      && SecretKey(oldName, keys[i]) !in after
      && (SecretKey(newName, keys[i]) in after <==> SecretKey(oldName, keys[i]) in before)
      && (SecretKey(newName, keys[i]) in after ==>
        after[SecretKey(newName, keys[i])] == before[SecretKey(oldName, keys[i])])
  {
    if SecretKey(oldName, keys[i]) in before {
      assert keys[i] in values && values[keys[i]] == before[SecretKey(oldName, keys[i])];
      PresentIsMoved(before, oldName, newName, values, Present(keys, values), keys[i]);
    } else {
      AbsentStaysAbsent(before, oldName, newName, values, Present(keys, values), keys[i]);
    }
  }

  /** What is under neither name stays as it is. */
  lemma OthersStay(before: SecretMap, copied: SecretMap, after: SecretMap,
                   oldName: string, newName: string, keys: seq<string>, values: SecretMap, k: string)
    requires '\0' !in oldName && '\0' !in newName
    requires copied == PutAll(before, newName, values, Present(keys, values))
    requires after == DeleteAll(copied, oldName, Present(keys, values))
    requires !KeyUnder(k, oldName, keys) && !KeyUnder(k, newName, keys)
    ensures (k in after <==> k in before) && (k in after ==> after[k] == before[k])
  {
    PutAllLookup(before, newName, values, Present(keys, values));
    DeleteAllLookup(copied, oldName, Present(keys, values));
    FewerKeys(k, oldName, Present(keys, values), keys);
    FewerKeys(k, newName, Present(keys, values), keys);
  }

  /** Copying every gathered secret and deleting the originals moves them all. */
  lemma CopyThenDeleteMoves(before: SecretMap, oldName: string, newName: string, keys: seq<string>,
                            values: SecretMap)
    requires '\0' !in oldName && '\0' !in newName && oldName != newName
    requires Gathered(before, oldName, newName, keys, values)
    ensures var copied := PutAll(before, newName, values, Present(keys, values));
      SecretsMoved(before, DeleteAll(copied, oldName, Present(keys, values)), oldName, newName, keys)
  {
    var copied := PutAll(before, newName, values, Present(keys, values));
    var after := DeleteAll(copied, oldName, Present(keys, values));
    forall i | 0 <= i < |keys|
      ensures SecretKey(oldName, keys[i]) !in after
      ensures SecretKey(newName, keys[i]) in after <==> SecretKey(oldName, keys[i]) in before
      ensures SecretKey(newName, keys[i]) in after ==>
        after[SecretKey(newName, keys[i])] == before[SecretKey(oldName, keys[i])]
    {
      OneMoved(before, oldName, newName, keys, values, i);
    }
    forall k | !KeyUnder(k, oldName, keys) && !KeyUnder(k, newName, keys)
      ensures (k in after <==> k in before) && (k in after ==> after[k] == before[k])
    {
      OthersStay(before, copied, after, oldName, newName, keys, values, k);
    }
  }

  lemma KeptChain(a: seq<SecretMap>, b: seq<SecretMap>, c: seq<SecretMap>, values: SecretMap, oldName: string,
                  newName: string)
    requires KeptSince(a, b, values, oldName, newName) && KeptSince(b, c, values, oldName, newName)
    ensures KeptSince(a, c, values, oldName, newName)
  {
  }

  lemma KeptSwapped(a: seq<SecretMap>, b: seq<SecretMap>, values: SecretMap, oldName: string, newName: string)
    requires KeptSince(a, b, values, oldName, newName)
    ensures KeptSince(a, b, values, newName, oldName)
  {
    forall i | |a| <= i < |b| ensures Kept(b[i], values, newName, oldName) {
      assert Kept(b[i], values, oldName, newName);
    }
  }

  lemma ProfileKeptChain(a: seq<ProfileMap>, b: seq<ProfileMap>, c: seq<ProfileMap>, profile: Profile, newName: string)
    requires ProfileKeptSince(a, b, profile, newName) && ProfileKeptSince(b, c, profile, newName)
    ensures ProfileKeptSince(a, c, profile, newName)
  {
  }

  lemma DeletedAreValid(profile: string, keys: seq<string>, values: SecretMap, deleted: seq<string>)
    requires ValidKeys(profile, keys) && deleted <= Present(keys, values)
    ensures ValidKeys(profile, deleted)
  {
    forall i | 0 <= i < |deleted| ensures deleted[i] in keys {
      assert deleted[i] == Present(keys, values)[i];
    }
  }

  /** What a rename creates was not there before and may be deleted again. */
  lemma CreatedIsFree(secrets: SecretMap, oldName: string, newName: string, keys: seq<string>, values: SecretMap,
                      created: seq<string>)
    requires Gathered(secrets, oldName, newName, keys, values) && ValidKeys(newName, keys)
    requires forall i :: 0 <= i < |created| ==> created[i] in values
    ensures ValidKeys(newName, created)
    ensures forall i :: 0 <= i < |created| ==> SecretKey(newName, created[i]) !in secrets
  {
    forall i | 0 <= i < |created| ensures created[i] in keys { }
  }

  /** Once every value is copied the new name has them all. */
  lemma AllCreated(copied: SecretMap, newName: string, keys: seq<string>, values: SecretMap, created: seq<string>)
    requires created == Present(keys, values) && forall key :: key in values ==> key in keys
    requires forall i :: 0 <= i < |created| ==>
      && SecretKey(newName, created[i]) in copied && created[i] in values
      && copied[SecretKey(newName, created[i])] == values[created[i]]
    ensures HasUnder(copied, newName, values)
  {
    forall key | key in values
      ensures SecretKey(newName, key) in copied && copied[SecretKey(newName, key)] == values[key]
    {
      var i :| 0 <= i < |created| && created[i] == key;
    }
  }

  lemma NotUnderOtherName(k: string, profile: string, key: string, other: string, keys: seq<string>)
    requires '\0' !in profile && '\0' !in other && profile != other && k == SecretKey(profile, key)
    ensures !KeyUnder(k, other, keys)
  {
    forall i | 0 <= i < |keys| ensures k != SecretKey(other, keys[i]) {
      SecretKeysDoNotCollide(profile, key, other, keys[i]);
    }
  }

  lemma UnderOwnName(k: string, profile: string, key: string, keys: seq<string>)
    requires '\0' !in profile && k == SecretKey(profile, key)
    ensures KeyUnder(k, profile, keys) <==> key in keys
  {
    forall i | 0 <= i < |keys| ensures k == SecretKey(profile, keys[i]) <==> key == keys[i] {
      SecretKeysDoNotCollide(profile, key, profile, keys[i]);
    }
  }

  lemma FewerKeys(k: string, profile: string, some: seq<string>, all: seq<string>)
    requires forall i :: 0 <= i < |some| ==> some[i] in all
    ensures KeyUnder(k, profile, some) ==> KeyUnder(k, profile, all)
  {
    if KeyUnder(k, profile, some) {
      var i :| 0 <= i < |some| && k == SecretKey(profile, some[i]);
      var j :| 0 <= j < |all| && all[j] == some[i];
      assert k == SecretKey(profile, all[j]);
    }
  }
}
