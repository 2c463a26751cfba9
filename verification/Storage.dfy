/** The in-memory profile and secret stores, and the contexts their calls are made under. */
module Storage {
  import opened Basics
  import opened Text

  datatype Profile = Profile(name: string, displayName: string, metadata: map<string, string>)

  /** The bytes of a secret, written as text. */
  type Secret = string

  type SecretMap = map<string, Secret>

  type ProfileMap = map<string, Profile>

  /** `Interrupted` stands for every failure that leaves a store as it was, such as cancellation. */
  datatype StorageError = NotFound | InvalidProfile | InvalidSecretKey | Interrupted

  /**
   A context, given by which of the next store calls it makes fail.  Cancellation at some point is a
   script that is true from there on; once a script is used up nothing fails.
   */
  class Context {
    var script: seq<bool>

    constructor (script: seq<bool>)
      ensures this.script == script
    {
      this.script := script;
    }

    predicate Due()
      reads this
    {
      script != [] && script[0]
    }

    method Err() returns (failed: bool)
      modifies this
      ensures failed == old(Due())
      ensures script == if old(script) == [] then [] else old(script)[1..]
    {
      failed := Due();
      if script != [] { script := script[1..]; }
    }
  }

  predicate ValidName(name: string) { name != "" && Trimmed(name) && '\0' !in name }

  class MemoryProfileStore {
    var profiles: ProfileMap
    ghost var trail: seq<ProfileMap>   // every state the store has been in, latest last

    ghost predicate Valid()
      reads this
    {
      forall k :: k in profiles ==> ValidName(k) && profiles[k].name == k
    }

    constructor ()
      ensures Valid() && profiles == map[] && trail == [map[]]
    {
      profiles, trail := map[], [map[]];
    }

    method Get(ctx: Context, name: string) returns (r: Result<Profile, StorageError>)
      modifies ctx
      ensures ctx.script == if old(ctx.script) == [] then [] else old(ctx.script)[1..]
      ensures r == if old(ctx.Due()) then Err(Interrupted)
                   else if name in profiles then Ok(profiles[name]) else Err(NotFound)
    {
      var failed := ctx.Err();
      if failed { return Err(Interrupted); }
      r := if name in profiles then Ok(profiles[name]) else Err(NotFound);
    }

    method Put(ctx: Context, profile: Profile) returns (r: Outcome<StorageError>)
      requires Valid()
      modifies this, ctx
      ensures Valid()
      ensures ctx.script == if old(ctx.script) == [] then [] else old(ctx.script)[1..]
      ensures var name := TrimSpace(profile.name);
        if old(ctx.Due()) then r == Failed(Interrupted) && profiles == old(profiles) && trail == old(trail)
        else if name == "" || '\0' in name then
          r == Failed(InvalidProfile) && profiles == old(profiles) && trail == old(trail)
        else r == Done && profiles == old(profiles)[name := profile.(name := name)] && trail == old(trail) + [profiles]
    {
      var failed := ctx.Err();
      if failed { return Failed(Interrupted); }
      var name := TrimSpace(profile.name);
      TrimSpaceTrims(profile.name);
      if name == "" || '\0' in name { return Failed(InvalidProfile); }
      profiles := profiles[name := profile.(name := name)];
      trail := trail + [profiles];
      r := Done;
    }

    method Delete(ctx: Context, name: string) returns (r: Outcome<StorageError>)
      requires Valid()
      modifies this, ctx
      ensures Valid()
      ensures ctx.script == if old(ctx.script) == [] then [] else old(ctx.script)[1..]
      ensures if old(ctx.Due()) then r == Failed(Interrupted) && profiles == old(profiles) && trail == old(trail)
        else if name !in old(profiles) then r == Failed(NotFound) && profiles == old(profiles) && trail == old(trail)
        else r == Done && profiles == old(profiles) - {name} && trail == old(trail) + [profiles]
    {
      var failed := ctx.Err();
      if failed { return Failed(Interrupted); }
      if name !in profiles { return Failed(NotFound); }
      profiles := profiles - {name};
      trail := trail + [profiles];
      r := Done;
    }
  }

  /** The map key of a secret: the profile, a zero character, the secret's name. */
  function SecretKey(profile: string, key: string): string { profile + "\0" + key }

  predicate ValidSecretKey(profile: string, key: string) {
    TrimSpace(profile) != "" && TrimSpace(key) != "" && '\0' !in profile && '\0' !in key
  }

  lemma SecretKeyParts(profile: string, key: string)
    ensures SecretKey(profile, key)[..|profile|] == profile
    ensures SecretKey(profile, key)[|profile|] == '\0'
    ensures SecretKey(profile, key)[|profile| + 1..] == key
  {
  }

  /** Two secrets share a map key only when they are the same secret of the same profile. */
  lemma SecretKeysDoNotCollide(p: string, k: string, q: string, l: string)
    requires '\0' !in p && '\0' !in q
    ensures SecretKey(p, k) == SecretKey(q, l) <==> p == q && k == l
  {
    SecretKeyParts(p, k);
    SecretKeyParts(q, l);
    if SecretKey(p, k) == SecretKey(q, l) {
      ZeroAtTheSamePlace(SecretKey(p, k), |p|, |q|, p, q);
    }
  }

  lemma ZeroAtTheSamePlace(s: string, i: nat, j: nat, p: string, q: string)
    requires i < |s| && j < |s| && s[i] == '\0' && s[j] == '\0'
    requires p == s[..i] && q == s[..j] && '\0' !in p && '\0' !in q
    ensures i == j
  {
    assert forall k :: 0 <= k < |p| ==> p[k] in p && s[k] == p[k];
    assert forall k :: 0 <= k < |q| ==> q[k] in q && s[k] == q[k];
  }

  class MemorySecretStore {
    var secrets: SecretMap
    ghost var trail: seq<SecretMap>

    constructor ()
      ensures secrets == map[] && trail == [map[]]
    {
      secrets, trail := map[], [map[]];
    }

    method Get(ctx: Context, profile: string, key: string) returns (r: Result<Secret, StorageError>)
      modifies ctx
      ensures ValidSecretKey(profile, key) ==> ctx.script == if old(ctx.script) == [] then [] else old(ctx.script)[1..]
      ensures r == if !ValidSecretKey(profile, key) then Err(InvalidSecretKey)
                   else if old(ctx.Due()) then Err(Interrupted)
                   else if SecretKey(profile, key) in secrets then Ok(secrets[SecretKey(profile, key)])
                   else Err(NotFound)
    {
      if !ValidSecretKey(profile, key) { return Err(InvalidSecretKey); }
      var failed := ctx.Err();
      if failed { return Err(Interrupted); }
      var k := SecretKey(profile, key);
      r := if k in secrets then Ok(secrets[k]) else Err(NotFound);
    }

    method Put(ctx: Context, profile: string, key: string, value: Secret) returns (r: Outcome<StorageError>)
      modifies this, ctx
      ensures ValidSecretKey(profile, key) ==> ctx.script == if old(ctx.script) == [] then [] else old(ctx.script)[1..]
      ensures r == if !ValidSecretKey(profile, key) then Failed(InvalidSecretKey)
                   else if old(ctx.Due()) then Failed(Interrupted) else Done
      ensures if r.Done?
              then secrets == old(secrets)[SecretKey(profile, key) := value] && trail == old(trail) + [secrets]
              else secrets == old(secrets) && trail == old(trail)
    {
      if !ValidSecretKey(profile, key) { return Failed(InvalidSecretKey); }
      var failed := ctx.Err();
      if failed { return Failed(Interrupted); }
      secrets := secrets[SecretKey(profile, key) := value];
      trail := trail + [secrets];
      r := Done;
    }

    method Delete(ctx: Context, profile: string, key: string) returns (r: Outcome<StorageError>)
      modifies this, ctx
      ensures ValidSecretKey(profile, key) ==> ctx.script == if old(ctx.script) == [] then [] else old(ctx.script)[1..]
      ensures r == if !ValidSecretKey(profile, key) then Failed(InvalidSecretKey)
                   else if old(ctx.Due()) then Failed(Interrupted)
                   else if SecretKey(profile, key) !in old(secrets) then Failed(NotFound) else Done
      ensures if r.Done? then secrets == old(secrets) - {SecretKey(profile, key)} && trail == old(trail) + [secrets]
              else secrets == old(secrets) && trail == old(trail)
    {
      if !ValidSecretKey(profile, key) { return Failed(InvalidSecretKey); }
      var failed := ctx.Err();
      if failed { return Failed(Interrupted); }
      var k := SecretKey(profile, key);
      if k !in secrets { return Failed(NotFound); }
      secrets := secrets - {k};
      trail := trail + [secrets];
      r := Done;
    }
  }
}
