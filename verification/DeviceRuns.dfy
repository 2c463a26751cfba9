/**
 Whole runs of the device store: every operation with its persistence failing or not, and reloads
 from the last state the persistence callback accepted.
 */
module DeviceRuns {
  import opened Basics
  import opened DeviceContent
  import opened PreKeys
  import AddressMigration

  datatype Op =
    | PutIdentity(address: string, key: Key32)
    | DeleteIdentity(address: string)
    | DeleteAllIdentities(phone: string)
    | PutManySessions(sessions: map<string, Bytes>)
    | DeleteSession(address: string)
    | DeleteAllSessions(phone: string)
    | MigratePNToLID(oldUser: string, newUser: string, sessionVisits: seq<string>, identityVisits: seq<string>)
    | GetOrGenPreKeys(count: UInt32, generator: nat -> Key32)
    | RemovePreKey(id: UInt32)
    | MarkPreKeysAsUploaded(upToID: UInt32)
    | PutSenderKey(group: string, user: string, session: Bytes)
    | DeleteDevice

  /** What the surroundings decide for one call: is its context done, does the callback fail. */
  datatype Env = Env(cancelled: bool, persistFails: bool)

  datatype StoreError = Cancelled | PersistFailed

  /** A store, what its callback last accepted, and whether it has a callback at all. */
  datatype World = World(content: Content, durable: Content, persisting: bool)

  function Without<V>(m: map<string, V>, phone: string): map<string, V> {
    map a | a in m && !AddressMigration.AddressFor(a, phone) :: m[a]
  }

  /** The effect of an operation's body on the content. */
  ghost function Apply(c: Content, op: Op): Content {
    match op
    case PutIdentity(address, key) => c.(identities := c.identities[address := key])
    case DeleteIdentity(address) => c.(identities := c.identities - {address})
    case DeleteAllIdentities(phone) => c.(identities := Without(c.identities, phone))
    case PutManySessions(sessions) => c.(sessions := c.sessions + sessions)
    case DeleteSession(address) => c.(sessions := c.sessions - {address})
    case DeleteAllSessions(phone) => c.(sessions := Without(c.sessions, phone))
    case MigratePNToLID(oldUser, newUser, v, w) => c.(
      sessions := AddressMigration.MoveAlong(c.sessions, v, oldUser, newUser),
      identities := AddressMigration.MoveAlong(c.identities, w, oldUser, newUser))
    case GetOrGenPreKeys(count, generator) => AfterBatch(c, count, generator)
    case RemovePreKey(id) => AfterRemove(c, id)
    case MarkPreKeysAsUploaded(upToID) => AfterMark(c, upToID)
    case PutSenderKey(group, user, session) => c.(senderKeys := c.senderKeys[group + ":" + user := session])
    case DeleteDevice => Content(c.header.(deleted := true), map[], map[], map[], {}, map[], c.nextPreKeyID)
  }

  /** A migration between these users returns before it changes or writes anything. */
  predicate NothingToMigrate(oldUser: string, newUser: string) {
    oldUser == "" || newUser == "" || oldUser == newUser
  }

  predicate NoOp(op: Op) { op.MigratePNToLID? && NothingToMigrate(op.oldUser, op.newUser) }

  /** Writes `after` through, or puts back what a snapshot of the old content loads as. */
  ghost function WriteThrough(w: World, after: Content, env: Env): (World, Outcome<StoreError>) {
    if !w.persisting then (w.(content := after), Done)
    else if env.persistFails then (w.(content := Normalized(w.content)), Failed(PersistFailed))
    else (w.(content := after, durable := after), Done)
  }

  ghost function Perform(w: World, op: Op, env: Env): (World, Outcome<StoreError>) {
    if env.cancelled then (w, Failed(Cancelled))
    else if NoOp(op) then (w, Done)
    else WriteThrough(w, Apply(w.content, op), env)
  }

  /** One pre-key is obtained and marked; the store's lock is free between the two calls. */
  ghost function PerformGenOne(w: World, generator: nat -> Key32, first: Env, second: Env): (World,
                               Result<PreKey, StoreError>) {
    var (w1, r1) := Perform(w, GetOrGenPreKeys(1, generator), first);
    match r1
    case Failed(e) => (w1, Err(e))
    case Done =>
      var key := Batch(w.content, 1, generator)[0];
      var (w2, r2) := Perform(w1, MarkPreKeysAsUploaded(key.keyID), second);
      match r2
      case Failed(e) => (w2, Err(e))
      case Done => (w2, Ok(key))
  }

  // ---------------------------------------------------------------------------------------------
  // One call

  lemma {:induction false} OperationsKeepWellFormed(f: Formats, c: Content, op: Op)
    requires WellFormed(f, c)
    ensures WellFormed(f, Apply(c, op))
  {
    match op {
      case GetOrGenPreKeys(count, generator) => AddKeysLookup(c.preKeys, FreshOf(c, count, generator));
      case DeleteDevice => assert CheckedHeader(f, c.header.(deleted := true)) == Ok(c.header.(deleted := true));
      case _ =>
    }
  }

  /**
   Any snapshot of a well-formed store passes every loading check and loads as the content it was
   taken from, so the rollback of a failed call cannot itself fail.
   */
  lemma SnapshotAlwaysLoads(f: Formats, c: Content, s: PersistedState)
    requires WellFormed(f, c) && Represents(s, c)
    ensures Loaded(f, Decoded(s)) == Ok(Normalized(c))
  {
    SnapshotDecodes(s, c);
  }

  /** What loading accepts is well formed, whatever was loaded. */
  lemma LoadingEstablishesWellFormed(f: Formats, s: PersistedState)
    requires Faithful(f) && Loaded(f, Decoded(s)).Ok?
    ensures WellFormed(f, Loaded(f, Decoded(s)).value)
  {
    AddKeysLookup(map[], s.preKeys);
  }

  /** A call whose write fails leaves the content as it was exactly when the counter is not zero. */
  lemma FailedWriteLeavesContent(w: World, op: Op, env: Env)
    requires w.persisting && env.persistFails && !env.cancelled && !NoOp(op)
    ensures var (w', r) := Perform(w, op, env);
      && r == Failed(PersistFailed) && w'.durable == w.durable
      && (w'.content == w.content <==> w.content.nextPreKeyID != 0)
  {}

  // ---------------------------------------------------------------------------------------------
  // Whole runs

  datatype Action =
    | Call(op: Op, env: Env)
    | GenOnePreKey(generator: nat -> Key32, first: Env, second: Env)
    | Reload

  /** A reload drops the store and loads the last accepted state. */
  ghost function Act(f: Formats, w: World, a: Action): World {
    match a
    case Call(op, env) => Perform(w, op, env).0
    case GenOnePreKey(generator, first, second) => PerformGenOne(w, generator, first, second).0
    case Reload => match Loaded(f, w.durable) case Ok(c) => w.(content := c) case Err(_) => w
  }

  ghost function Run(f: Formats, w: World, actions: seq<Action>): World
    decreases |actions|
  {
    if actions == [] then w else Run(f, Act(f, w, actions[0]), actions[1..])
  }

  /** The store is well formed and a reload would give what is in memory. */
  ghost predicate Synced(f: Formats, w: World) {
    && w.persisting
    && WellFormed(f, w.content) && WellFormed(f, w.durable)
    && Normalized(w.durable) == Normalized(w.content)
  }

  lemma PerformKeepsSynced(f: Formats, w: World, op: Op, env: Env)
    requires Synced(f, w)
    ensures Synced(f, Perform(w, op, env).0)
  {
    OperationsKeepWellFormed(f, w.content, op);
  }

  lemma ActKeepsSynced(f: Formats, w: World, a: Action)
    requires Synced(f, w)
    ensures Synced(f, Act(f, w, a))
  {
    match a {
      case Call(op, env) => PerformKeepsSynced(f, w, op, env);
      case GenOnePreKey(generator, first, second) =>
        PerformKeepsSynced(f, w, GetOrGenPreKeys(1, generator), first);
        var w1 := Perform(w, GetOrGenPreKeys(1, generator), first).0;
        PerformKeepsSynced(f, w1, MarkPreKeysAsUploaded(Batch(w.content, 1, generator)[0].keyID), second);
      case Reload =>
    }
  }

  /**
   After any run of operations, failed writes and reloads, what is in memory is what the last
   accepted state loads as.
   */
  lemma {:induction false} MemoryMatchesDurableState(f: Formats, w: World, actions: seq<Action>)
    requires Synced(f, w)
    ensures Synced(f, Run(f, w, actions))
    ensures Loaded(f, Run(f, w, actions).durable) == Ok(Normalized(Run(f, w, actions).content))
    decreases |actions|
  {
    if actions != [] {
      ActKeepsSynced(f, w, actions[0]);
      MemoryMatchesDurableState(f, Act(f, w, actions[0]), actions[1..]);
    }
  }

  /** No call of the run takes the ID counter past the end of its range. */
  ghost predicate CountersFit(f: Formats, w: World, actions: seq<Action>)
    decreases |actions|
  {
    actions == [] || (
      && (actions[0].Call? && actions[0].op.GetOrGenPreKeys? ==> Fits(w.content, actions[0].op.count))
      && (actions[0].GenOnePreKey? ==> Fits(w.content, 1))
      && CountersFit(f, Act(f, w, actions[0]), actions[1..]))
  }

  /** The store and its durable copy agree exactly; so does every store that has been loaded. */
  ghost predicate Stable(f: Formats, w: World) {
    Synced(f, w) && 0 < w.content.nextPreKeyID && w.durable == w.content
  }

  /** What the later content keeps of the earlier one, as far as the allocator is concerned. */
  ghost predicate AllocatorKept(before: Content, after: Content) {
    && before.nextPreKeyID <= after.nextPreKeyID
    && (AllocatorInv(before) ==> AllocatorInv(after))
    && (AvailableBelow(before) ==> AvailableBelow(after))
    && (UploadedStored(before) ==> UploadedStored(after))
    && (forall mark :: MarkedUpTo(before, mark) ==> MarkedUpTo(after, mark))
  }

  lemma ApplyKeepsAllocator(c: Content, op: Op)
    requires Keyed(c.preKeys) && (op.GetOrGenPreKeys? ==> Fits(c, op.count))
    ensures AllocatorKept(c, Apply(c, op))
  {
    if op.GetOrGenPreKeys? {
      BatchKeeps(c, op.count, op.generator);
      BatchAddsNextIDs(c, op.count, op.generator);
    } else {
      assert Available(Apply(c, op)) <= Available(c);
    }
  }

  lemma PerformKeepsStable(f: Formats, w: World, op: Op, env: Env)
    requires Stable(f, w) && (op.GetOrGenPreKeys? ==> Fits(w.content, op.count))
    ensures var w' := Perform(w, op, env).0; Stable(f, w') && AllocatorKept(w.content, w'.content)
  {
    PerformKeepsSynced(f, w, op, env);
    ApplyKeepsAllocator(w.content, op);
  }

  lemma GenOneKeepsStable(f: Formats, w: World, generator: nat -> Key32, first: Env, second: Env)
    requires Stable(f, w) && Fits(w.content, 1)
    ensures var w' := PerformGenOne(w, generator, first, second).0;
      Stable(f, w') && AllocatorKept(w.content, w'.content)
  {
    PerformKeepsStable(f, w, GetOrGenPreKeys(1, generator), first);
    OneKeyCallIsTwoCalls(w, generator, first, second);
    var w1 := Perform(w, GetOrGenPreKeys(1, generator), first).0;
    MarkKeepsStable(f, w, w1, Batch(w.content, 1, generator)[0].keyID, second);
  }

  /** A one-key call leaves the store where its first part does, or its second. */
  lemma OneKeyCallIsTwoCalls(w: World, generator: nat -> Key32, first: Env, second: Env)
    ensures |Batch(w.content, 1, generator)| == 1
    ensures var w1 := Perform(w, GetOrGenPreKeys(1, generator), first).0;
      var w2 := PerformGenOne(w, generator, first, second).0;
      w2 == w1 || w2 == Perform(w1, MarkPreKeysAsUploaded(Batch(w.content, 1, generator)[0].keyID), second).0
  {
  }

  lemma MarkKeepsStable(f: Formats, w: World, w1: World, id: UInt32, env: Env)
    requires Stable(f, w1) && AllocatorKept(w.content, w1.content)
    ensures var w2 := Perform(w1, MarkPreKeysAsUploaded(id), env).0;
      Stable(f, w2) && AllocatorKept(w.content, w2.content)
  {
    PerformKeepsStable(f, w1, MarkPreKeysAsUploaded(id), env);
    AllocatorKeptTwice(w.content, w1.content, Perform(w1, MarkPreKeysAsUploaded(id), env).0.content);
  }

  lemma AllocatorKeptTwice(c1: Content, c2: Content, c3: Content)
    requires AllocatorKept(c1, c2) && AllocatorKept(c2, c3)
    ensures AllocatorKept(c1, c3)
  {
  }

  lemma ActKeepsStable(f: Formats, w: World, a: Action)
    requires Stable(f, w) && CountersFit(f, w, [a])
    ensures Stable(f, Act(f, w, a)) && AllocatorKept(w.content, Act(f, w, a).content)
  {
    match a {
      case Call(op, env) => PerformKeepsStable(f, w, op, env);
      case GenOnePreKey(generator, first, second) => GenOneKeepsStable(f, w, generator, first, second);
      case Reload =>
    }
  }

  /**
   Over every run that does not reach the end of the counter's range: stored and uploaded IDs stay
   below the counter, IDs to hand out stay below it, and only stored IDs are uploaded, each if it was so.
   */
  lemma {:induction false} AllocatorStaysSound(f: Formats, w: World, actions: seq<Action>)
    requires Stable(f, w) && CountersFit(f, w, actions)
    ensures Stable(f, Run(f, w, actions)) && AllocatorKept(w.content, Run(f, w, actions).content)
    decreases |actions|
  {
    if actions != [] {
      ActKeepsStable(f, w, actions[0]);
      AllocatorStaysSound(f, Act(f, w, actions[0]), actions[1..]);
    }
  }

  /** The IDs an action generates, when it succeeds in writing them. */
  ghost function GeneratedBy(w: World, a: Action): seq<UInt32> {
    match a
    case Call(op, env) =>
      if op.GetOrGenPreKeys? && Perform(w, op, env).1.Done?
      then IDsOf(FreshOf(w.content, op.count, op.generator)) else []
    case GenOnePreKey(generator, first, _) =>
      if Perform(w, GetOrGenPreKeys(1, generator), first).1.Done? then IDsOf(FreshOf(w.content, 1, generator)) else []
    case Reload => []
  }

  ghost function Generated(f: Formats, w: World, actions: seq<Action>): seq<UInt32>
    decreases |actions|
  {
    if actions == [] then [] else GeneratedBy(w, actions[0]) + Generated(f, Act(f, w, actions[0]), actions[1..])
  }

  ghost predicate NextIDs(ids: seq<UInt32>, low: nat, high: nat) {
    StrictlyAscending(ids) && forall i :: 0 <= i < |ids| ==> low <= ids[i] < high
  }

  lemma FreshIDsAreNext(c: Content, count: UInt32, generator: nat -> Key32)
    requires Fits(c, count)
    ensures NextIDs(IDsOf(FreshOf(c, count, generator)), c.nextPreKeyID, AfterBatch(c, count, generator).nextPreKeyID)
  {
    BatchAddsNextIDs(c, count, generator);
    var ids := IDsOf(FreshOf(c, count, generator));
    forall i | 0 <= i < |ids| ensures ids[i] == c.nextPreKeyID + i {
      assert FreshOf(c, count, generator)[i].keyID == Add32(c.nextPreKeyID, i);
    }
  }

  lemma MarkingKeepsCounter(w: World, id: UInt32, env: Env)
    requires 0 < w.content.nextPreKeyID
    ensures Perform(w, MarkPreKeysAsUploaded(id), env).0.content.nextPreKeyID == w.content.nextPreKeyID
  {
  }

  lemma OneKeyKeepsCounter(w: World, generator: nat -> Key32, first: Env, second: Env)
    requires 0 < w.content.nextPreKeyID && Fits(w.content, 1)
    ensures Perform(w, GetOrGenPreKeys(1, generator), first).0.content.nextPreKeyID
         <= PerformGenOne(w, generator, first, second).0.content.nextPreKeyID
  {
    BatchAddsNextIDs(w.content, 1, generator);
    var w1 := Perform(w, GetOrGenPreKeys(1, generator), first).0;
    assert 0 < w1.content.nextPreKeyID;
    MarkingKeepsCounter(w1, Batch(w.content, 1, generator)[0].keyID, second);
  }

  lemma CallGeneratesNext(w: World, count: UInt32, generator: nat -> Key32, env: Env)
    requires Fits(w.content, count)
    ensures var (w', r) := Perform(w, GetOrGenPreKeys(count, generator), env);
      r.Done? ==> NextIDs(IDsOf(FreshOf(w.content, count, generator)), w.content.nextPreKeyID, w'.content.nextPreKeyID)
  {
    FreshIDsAreNext(w.content, count, generator);
  }

  lemma NextIDsWithin(ids: seq<UInt32>, low: nat, high: nat, higher: nat)
    requires NextIDs(ids, low, high) && high <= higher
    ensures NextIDs(ids, low, higher)
  {
  }

  lemma OneKeyGeneratesNext(w: World, generator: nat -> Key32, first: Env, second: Env)
    requires 0 < w.content.nextPreKeyID && Fits(w.content, 1)
    ensures Perform(w, GetOrGenPreKeys(1, generator), first).1.Done? ==>
      NextIDs(IDsOf(FreshOf(w.content, 1, generator)), w.content.nextPreKeyID,
              PerformGenOne(w, generator, first, second).0.content.nextPreKeyID)
  {
    CallGeneratesNext(w, 1, generator, first);
    OneKeyKeepsCounter(w, generator, first, second);
    var (w1, r) := Perform(w, GetOrGenPreKeys(1, generator), first);
    if r.Done? {
      NextIDsWithin(IDsOf(FreshOf(w.content, 1, generator)), w.content.nextPreKeyID, w1.content.nextPreKeyID,
                    PerformGenOne(w, generator, first, second).0.content.nextPreKeyID);
    }
  }

  lemma GeneratedIDsAreNext(f: Formats, w: World, a: Action)
    requires Stable(f, w) && CountersFit(f, w, [a])
    ensures NextIDs(GeneratedBy(w, a), w.content.nextPreKeyID, Act(f, w, a).content.nextPreKeyID)
  {
    match a {
      case Call(op, env) =>
        if op.GetOrGenPreKeys? { CallGeneratesNext(w, op.count, op.generator, env); }
      case GenOnePreKey(generator, first, second) => OneKeyGeneratesNext(w, generator, first, second);
      case Reload =>
    }
  }

  /**
   Over a whole run, failed writes, removals, device deletions and reloads included, the IDs of
   successfully generated pre-keys only increase, so none is ever generated twice.
   */
  lemma {:induction false} GeneratedIDsNeverRepeat(f: Formats, w: World, actions: seq<Action>)
    requires Stable(f, w) && CountersFit(f, w, actions)
    ensures StrictlyAscending(Generated(f, w, actions))
    ensures forall i :: 0 <= i < |Generated(f, w, actions)| ==> w.content.nextPreKeyID <= Generated(f, w, actions)[i]
    decreases |actions|
  {
    if actions != [] {
      var a, w1 := actions[0], Act(f, w, actions[0]);
      ActKeepsStable(f, w, a);
      GeneratedIDsAreNext(f, w, a);
      GeneratedIDsNeverRepeat(f, w1, actions[1..]);
      var front, back := GeneratedBy(w, a), Generated(f, w1, actions[1..]);
      assert Generated(f, w, actions) == front + back;
      forall i, j | 0 <= i < j < |front + back| ensures (front + back)[i] < (front + back)[j] {
        if i < |front| <= j { assert front[i] < w1.content.nextPreKeyID <= back[j - |front|]; }
      }
    }
  }

  /** The IDs handed out by successful one-key calls. */
  ghost function HandedOut(f: Formats, w: World, actions: seq<Action>): seq<UInt32>
    decreases |actions|
  {
    if actions == [] then []
    else
      var rest := HandedOut(f, Act(f, w, actions[0]), actions[1..]);
      match actions[0]
      case GenOnePreKey(generator, first, second) =>
        (match PerformGenOne(w, generator, first, second).1 case Ok(key) => [key.keyID] + rest case Err(_) => rest)
      case _ => rest
  }

  lemma OneKeyCallHandsOutAboveMark(f: Formats, w: World, generator: nat -> Key32, first: Env, second: Env, mark: int)
    requires Stable(f, w) && AvailableBelow(w.content) && Fits(w.content, 1)
    requires 0 <= mark ==> MarkedUpTo(w.content, mark)
    requires PerformGenOne(w, generator, first, second).1.Ok?
    ensures var (w', r) := PerformGenOne(w, generator, first, second);
      mark < r.value.keyID && MarkedUpTo(w'.content, r.value.keyID)
  {
    OneKeyMarkedUpTo(w.content, generator, mark);
  }

  /** The one key of a batch lies above any earlier mark, and is a mark once it has been marked. */
  lemma OneKeyMarkedUpTo(c: Content, generator: nat -> Key32, mark: int)
    requires AvailableBelow(c) && Fits(c, 1) && (0 <= mark ==> MarkedUpTo(c, mark))
    ensures var id := Batch(c, 1, generator)[0].keyID;
      mark < id && MarkedUpTo(AfterMark(AfterBatch(c, 1, generator), id), id)
  {
    LastIDIsLargest(c, 1, generator);
    BatchKeepsKeyed(c, 1, generator);
    MarkingMarks(AfterBatch(c, 1, generator), Batch(c, 1, generator)[0].keyID);
    if 0 <= mark { BatchAboveMark(c, mark, 1, generator); }
  }

  /**
   Successful one-key calls hand out strictly increasing IDs over a whole run, whatever happens
   between them.
   */
  lemma {:induction false} HandedOutIDsIncrease(f: Formats, w: World, actions: seq<Action>, mark: int)
    requires Stable(f, w) && AvailableBelow(w.content) && CountersFit(f, w, actions)
    requires 0 <= mark ==> MarkedUpTo(w.content, mark)
    ensures StrictlyAscending(HandedOut(f, w, actions))
    ensures forall i :: 0 <= i < |HandedOut(f, w, actions)| ==> mark < HandedOut(f, w, actions)[i]
    decreases |actions|
  {
    if actions != [] {
      var a, w1 := actions[0], Act(f, w, actions[0]);
      ActKeepsStable(f, w, a);
      if a.GenOnePreKey? && PerformGenOne(w, a.generator, a.first, a.second).1.Ok? {
        OneKeyCallHandsOutAboveMark(f, w, a.generator, a.first, a.second, mark);
        HandedOutIDsIncrease(f, w1, actions[1..], PerformGenOne(w, a.generator, a.first, a.second).1.value.keyID);
      } else {
        HandedOutIDsIncrease(f, w1, actions[1..], mark);
      }
    }
  }

  const UNDISTURBED: Env := Env(false, false)

  /** Marking all but the highest available key leaves that one alone to be handed out. */
  lemma OnlyHighestLeft(c: Content, high: UInt32)
    requires high in Available(c) && 0 < high && forall id :: id in Available(c) ==> id <= high
    ensures Available(AfterMark(c, high - 1)) == {high}
  {
    var left := Available(AfterMark(c, high - 1));
    assert high in left;
    assert forall id :: id in left ==> id in Available(c) && id > high - 1;
  }

  /** Two one-key calls in a row, the first of which takes the only key there is, and what they hand out. */
  lemma TakenThenFresh(f: Formats, w: World, high: UInt32, generator: nat -> Key32)
    requires w.persisting && Keyed(w.content.preKeys) && Available(w.content) == {high}
    requires w.content.nextPreKeyID + 1 < UINT32_SPAN
    ensures var one := GenOnePreKey(generator, UNDISTURBED, UNDISTURBED);
      && CountersFit(f, w, [one, one])
      && HandedOut(f, w, [one, one]) == [high, w.content.nextPreKeyID]
  {
    var c, one := w.content, GenOnePreKey(generator, UNDISTURBED, UNDISTURBED);
    LastKeyTaken(c, high, generator);
    var w1 := Act(f, w, one);
    assert w1.content == AfterMark(c, high) && w1.persisting;
    OneKeyGenerated(w1.content, generator);
    assert [one, one][1..] == [one] && [one][1..] == [];
    assert HandedOut(f, w1, [one]) == [c.nextPreKeyID];
    assert CountersFit(f, w1, [one]);
  }

  /** From a store with an available ID at or above the counter, two one-key calls can hand out a lower ID later. */
  lemma LaterIDMayBeLower(f: Formats, w: World, generator: nat -> Key32) returns (actions: seq<Action>)
    requires Stable(f, w) && !AvailableBelow(w.content) && w.content.nextPreKeyID + 1 < UINT32_SPAN
    ensures CountersFit(f, w, actions) && !StrictlyAscending(HandedOut(f, w, actions))
  {
    var high := Greatest(Available(w.content));
    var mark := Call(MarkPreKeysAsUploaded(high - 1), UNDISTURBED);
    var one := GenOnePreKey(generator, UNDISTURBED, UNDISTURBED);
    OnlyHighestLeft(w.content, high);
    var w1 := Act(f, w, mark);
    TakenThenFresh(f, w1, high, generator);
    actions := [mark] + [one, one];
    AfterOneCall(f, w, mark, [one, one]);
    assert [high, w.content.nextPreKeyID][0] >= [high, w.content.nextPreKeyID][1];
  }

  /** A first call that is neither a batch nor a one-key call hands out nothing. */
  lemma AfterOneCall(f: Formats, w: World, a: Action, rest: seq<Action>)
    requires a.Call? && !a.op.GetOrGenPreKeys?
    ensures HandedOut(f, w, [a] + rest) == HandedOut(f, Act(f, w, a), rest)
    ensures CountersFit(f, w, [a] + rest) <==> CountersFit(f, Act(f, w, a), rest)
  {
    assert ([a] + rest)[1..] == rest;
  }

  /**
   The IDs handed out increase in every run exactly when no ID that is still to be handed out lies at or
   above the counter.
   */
  lemma HandedOutIncreaseExactlyWhenAvailableBelow(f: Formats, w: World, generator: nat -> Key32)
    requires Stable(f, w) && w.content.nextPreKeyID + 1 < UINT32_SPAN
    ensures
      (forall actions :: CountersFit(f, w, actions) ==> StrictlyAscending(HandedOut(f, w, actions)))
      <==> AvailableBelow(w.content)
  {
    if AvailableBelow(w.content) {
      forall actions | CountersFit(f, w, actions) ensures StrictlyAscending(HandedOut(f, w, actions)) {
        HandedOutIDsIncrease(f, w, actions, -1);
      }
    } else {
      var actions := LaterIDMayBeLower(f, w, generator);
    }
  }

  /** A one-key call that succeeds adds exactly the key it returns to the uploaded ones. */
  lemma OneKeyCallUploadsOneKey(f: Formats, w: World, generator: nat -> Key32, first: Env, second: Env)
    requires Stable(f, w)
    ensures var (w', r) := PerformGenOne(w, generator, first, second);
      r.Ok? ==>
        && w'.content.uploaded == w.content.uploaded + {r.value.keyID}
        && (r.value.keyID !in w.content.uploaded
            <==> Available(w.content) != {} || w.content.nextPreKeyID !in w.content.uploaded)
  {
    OneKeyMarkedAlone(w.content, generator);
  }

  /** What a one-key call that succeeds changes. */
  lemma OneKeyCallChanges(w: World, generator: nat -> Key32, first: Env, second: Env)
    requires Keyed(w.content.preKeys)
    ensures var (w', r) := PerformGenOne(w, generator, first, second);
      r.Ok? ==>
        && w'.content == w.content.(preKeys := w'.content.preKeys, nextPreKeyID := w'.content.nextPreKeyID,
                                    uploaded := w.content.uploaded + {r.value.keyID})
        && r.value.keyID in w'.content.preKeys && w'.content.preKeys[r.value.keyID] == r.value
  {
    OneKeyMarkedAlone(w.content, generator);
    OneKeyIsStored(w.content, generator);
  }

  // ---------------------------------------------------------------------------------------------
  // Stored keys over whole runs

  /** The operation is meant to discard the key. */
  predicate Discards(op: Op, id: UInt32) { op == RemovePreKey(id) || op.DeleteDevice? }

  /** Every key of `before` that is below the counter and that the operation does not discard is the same in `after`. */
  ghost predicate KeysStay(before: Content, after: Content, op: Op) {
    forall id :: id in before.preKeys && id < before.nextPreKeyID && !Discards(op, id) ==>
      id in after.preKeys && after.preKeys[id] == before.preKeys[id]
  }

  lemma ApplyKeepsKeys(c: Content, op: Op)
    requires op.GetOrGenPreKeys? ==> Fits(c, op.count)
    ensures KeysStay(c, Apply(c, op), op)
  {
    if op.GetOrGenPreKeys? { BatchAddsNextIDs(c, op.count, op.generator); }
  }

  lemma PerformKeepsKeys(f: Formats, w: World, op: Op, env: Env)
    requires Stable(f, w) && (op.GetOrGenPreKeys? ==> Fits(w.content, op.count))
    ensures var (w', r) := Perform(w, op, env);
      KeysStay(w.content, w'.content, op) && (r.Failed? ==> w'.content == w.content)
  {
    ApplyKeepsKeys(w.content, op);
  }

  /** The action succeeds in removing the key or the whole device. */
  ghost predicate Drops(w: World, a: Action, id: UInt32) {
    a.Call? && Discards(a.op, id) && Perform(w, a.op, a.env).1.Done?
  }

  lemma ActKeepsKey(f: Formats, w: World, a: Action, id: UInt32)
    requires Stable(f, w) && CountersFit(f, w, [a]) && id in w.content.preKeys && id < w.content.nextPreKeyID
    ensures !Drops(w, a, id) ==>
      id in Act(f, w, a).content.preKeys && Act(f, w, a).content.preKeys[id] == w.content.preKeys[id]
  {
    match a {
      case Call(op, env) => PerformKeepsKeys(f, w, op, env);
      case GenOnePreKey(generator, first, second) =>
        PerformKeepsKeys(f, w, GetOrGenPreKeys(1, generator), first);
        PerformKeepsStable(f, w, GetOrGenPreKeys(1, generator), first);
        var w1 := Perform(w, GetOrGenPreKeys(1, generator), first).0;
        PerformKeepsKeys(f, w1, MarkPreKeysAsUploaded(Batch(w.content, 1, generator)[0].keyID), second);
      case Reload =>
    }
  }

  /** No action of the run removes the key or the device. */
  ghost predicate NeverDropped(f: Formats, w: World, actions: seq<Action>, id: UInt32)
    decreases |actions|
  {
    actions == [] || (!Drops(w, actions[0], id) && NeverDropped(f, Act(f, w, actions[0]), actions[1..], id))
  }

  /**
   While the counter does not reach the end of its range, a key stored below it stays what it is through
   any run, failed writes and reloads included, until it is removed or the device is deleted.
   */
  lemma {:induction false} StoredKeysStay(f: Formats, w: World, actions: seq<Action>, id: UInt32)
    requires Stable(f, w) && CountersFit(f, w, actions) && NeverDropped(f, w, actions, id)
    requires id in w.content.preKeys && id < w.content.nextPreKeyID
    ensures id in Run(f, w, actions).content.preKeys
    ensures Run(f, w, actions).content.preKeys[id] == w.content.preKeys[id]
    decreases |actions|
  {
    if actions != [] {
      ActKeepsKey(f, w, actions[0], id);
      ActKeepsStable(f, w, actions[0]);
      StoredKeysStay(f, Act(f, w, actions[0]), actions[1..], id);
    }
  }

  /**
   From the end of the range one generated key wraps the counter to zero, and the next call whose
   write fails does change the content: the restored counter is one.
   */
  lemma WrappedCounterIsNotRestored(w: World, generator: nat -> Key32, address: string, key: Key32)
    requires w.persisting && w.content.nextPreKeyID == UINT32_SPAN - 1 && Available(w.content) == {}
    ensures var w1 := Perform(w, GetOrGenPreKeys(1, generator), Env(false, false)).0;
      var (w2, r) := Perform(w1, PutIdentity(address, key), Env(false, true));
      w1.content.nextPreKeyID == 0 && r == Failed(PersistFailed) && w2.content.nextPreKeyID == 1
  {
    NothingTaken(w.content);
  }
}
