/**
 The pre-key allocator: which keys a batch holds, what generating and marking do to the content,
 and how batches relate to one another.
 */
module PreKeys {
  import opened Basics
  import opened DeviceContent

  /** The stored IDs that have not been uploaded. */
  function Available(c: Content): set<UInt32> { set id | id in c.preKeys && id !in c.uploaded }

  /** How many keys of a batch must be generated. */
  function Missing(c: Content, count: UInt32): UInt32 { count - Min(count, |Available(c)|) }

  ghost function ExistingIDs(c: Content, count: UInt32): (ids: seq<UInt32>)
    ensures StrictlyAscending(ids) && |ids| == Min(count, |Available(c)|)
    ensures forall i :: 0 <= i < |ids| ==> ids[i] in Available(c)
  {
    var all := Ascending(Available(c));
    PrefixAscends(all, Available(c), Min(count, |all|));
    all[..Min(count, |all|)]
  }

  ghost function KeysAt(m: map<UInt32, PreKey>, ids: seq<UInt32>): (ks: seq<PreKey>)
    requires forall i :: 0 <= i < |ids| ==> ids[i] in m
    ensures |ks| == |ids| && forall i :: 0 <= i < |ids| ==> ks[i] == m[ids[i]]
  {
    seq(|ids|, i requires 0 <= i < |ids| => m[ids[i]])
  }

  /** A list that picks the keys of the lowest available IDs one by one is what a batch takes. */
  lemma PickedInOrder(c: Content, count: UInt32, ids: seq<UInt32>, picked: seq<PreKey>)
    requires ids == Ascending(Available(c)) && |picked| == Min(count, |ids|)
    requires forall i :: 0 <= i < |picked| ==> ids[i] in c.preKeys && picked[i] == c.preKeys[ids[i]]
    ensures |picked| == count - Missing(c, count) && picked == KeysAt(c.preKeys, ExistingIDs(c, count))
  {
    assert ExistingIDs(c, count) == ids[..|picked|];
  }

  /** `n` generated keys with consecutive IDs; IDs are 32 bits wide. */
  function FreshKeys(next: UInt32, n: UInt32, generator: nat -> Key32): (ks: seq<PreKey>)
    ensures |ks| == n
    ensures forall i :: 0 <= i < n ==> ks[i] == PreKey(Add32(next, i), generator(i), None)
  {
    seq(n, i requires 0 <= i < n => PreKey(Add32(next, i), generator(i), None))
  }

  lemma OneMoreFreshKey(m: map<UInt32, PreKey>, next: UInt32, n: UInt32, generator: nat -> Key32)
    requires n + 1 < UINT32_SPAN
    ensures var key := PreKey(Add32(next, n), generator(n), None);
      && FreshKeys(next, n + 1, generator) == FreshKeys(next, n, generator) + [key]
      && AddKeys(m, FreshKeys(next, n + 1, generator)) == AddKeys(m, FreshKeys(next, n, generator))[key.keyID := key]
      && Add32(next, n + 1) == Add32(Add32(next, n), 1)
  {
    var made, key := FreshKeys(next, n, generator), PreKey(Add32(next, n), generator(n), None);
    assert FreshKeys(next, n + 1, generator) == made + [key];
    assert (made + [key])[..n] == made;
  }

  /** The state of the generation loop after `n` keys. */
  ghost predicate GeneratedSoFar(before: map<UInt32, PreKey>, first: UInt32, taken: seq<PreKey>,
                                 generator: nat -> Key32,
                                 n: UInt32, keys: map<UInt32, PreKey>, next: UInt32, result: seq<PreKey>) {
    && keys == AddKeys(before, FreshKeys(first, n, generator))
    && next == Add32(first, n)
    && result == taken + FreshKeys(first, n, generator)
  }

  lemma NothingGenerated(before: map<UInt32, PreKey>, first: UInt32, taken: seq<PreKey>, generator: nat -> Key32)
    ensures GeneratedSoFar(before, first, taken, generator, 0, before, first, taken)
  {
    assert FreshKeys(first, 0, generator) == [];
  }

  lemma GeneratedOneMore(before: map<UInt32, PreKey>, first: UInt32, taken: seq<PreKey>, generator: nat -> Key32,
                         n: UInt32, keys: map<UInt32, PreKey>, next: UInt32, result: seq<PreKey>)
    requires GeneratedSoFar(before, first, taken, generator, n, keys, next, result) && n + 1 < UINT32_SPAN
    ensures var key := PreKey(next, generator(n), None);
      GeneratedSoFar(before, first, taken, generator, n + 1, keys[next := key], Add32(next, 1), result + [key])
  {
    OneMoreFreshKey(before, first, n, generator);
  }

  ghost function FreshOf(c: Content, count: UInt32, generator: nat -> Key32): seq<PreKey> {
    FreshKeys(c.nextPreKeyID, Missing(c, count), generator)
  }

  /** The keys a successful call for `count` keys returns. */
  ghost function Batch(c: Content, count: UInt32, generator: nat -> Key32): seq<PreKey> {
    KeysAt(c.preKeys, ExistingIDs(c, count)) + FreshOf(c, count, generator)
  }

  ghost function AfterBatch(c: Content, count: UInt32, generator: nat -> Key32): Content {
    c.(preKeys := AddKeys(c.preKeys, FreshOf(c, count, generator)),
       nextPreKeyID := Add32(c.nextPreKeyID, Missing(c, count)))
  }

  function AfterMark(c: Content, upTo: UInt32): Content {
    c.(uploaded := c.uploaded + set id | id in c.preKeys && id <= upTo)
  }

  function AfterRemove(c: Content, id: UInt32): Content {
    c.(preKeys := c.preKeys - {id}, uploaded := c.uploaded - {id})
  }

  /** Every key sits under its ID, and every stored and every uploaded ID lies below the counter. */
  ghost predicate AllocatorInv(c: Content) {
    && Keyed(c.preKeys)
    && (forall id :: id in c.preKeys ==> id < c.nextPreKeyID)
    && (forall id :: id in c.uploaded ==> id < c.nextPreKeyID)
  }

  /** Every key sits under its ID, and the IDs still to be handed out lie below the counter. */
  ghost predicate AvailableBelow(c: Content) {
    Keyed(c.preKeys) && forall id :: id in Available(c) ==> id < c.nextPreKeyID
  }

  /** Only stored IDs count as uploaded. */
  predicate UploadedStored(c: Content) { c.uploaded <= c.preKeys.Keys }

  /** None of the next `n` IDs counts as uploaded. */
  ghost predicate NoneAhead(c: Content, n: nat) {
    forall id :: id in c.uploaded ==> !(c.nextPreKeyID <= id < c.nextPreKeyID + n)
  }

  /** The counter does not reach the end of the 32-bit range in this call. */
  predicate Fits(c: Content, count: UInt32) {
    Missing(c, count) == 0 || c.nextPreKeyID + Missing(c, count) < UINT32_SPAN
  }

  // ---------------------------------------------------------------------------------------------

  ghost function IDsOf(ks: seq<PreKey>): (ids: seq<UInt32>)
    ensures |ids| == |ks| && forall i :: 0 <= i < |ks| ==> ids[i] == ks[i].keyID
  {
    seq(|ks|, i requires 0 <= i < |ks| => ks[i].keyID)
  }

  /** `after` is `before` with generated keys under the `n` next IDs and nothing else changed. */
  ghost predicate ExtendedBy(before: map<UInt32, PreKey>, after: map<UInt32, PreKey>, next: nat, n: nat,
                             generator: nat -> Key32)
    requires next + n < UINT32_SPAN
  {
    && (forall id :: id in after <==> id in before || next <= id < next + n)
    && (forall id :: id in before && !(next <= id < next + n) ==> after[id] == before[id])
    && (forall id :: next <= id < next + n ==> after[id] == PreKey(id, generator(id - next), None))
  }

  lemma {:induction false} AddingFreshKeys(m: map<UInt32, PreKey>, next: UInt32, n: UInt32, generator: nat -> Key32)
    requires next + n < UINT32_SPAN
    ensures ExtendedBy(m, AddKeys(m, FreshKeys(next, n, generator)), next, n, generator)
  {
    if n == 0 {
      assert FreshKeys(next, n, generator) == [];
    } else {
      AddingFreshKeys(m, next, n - 1, generator);
      OneMoreFreshKey(m, next, n - 1, generator);
      ExtendedByOneMore(m, AddKeys(m, FreshKeys(next, n - 1, generator)), next, n - 1, generator);
    }
  }

  lemma ExtendedByOneMore(before: map<UInt32, PreKey>, after: map<UInt32, PreKey>, next: nat, n: nat,
                          generator: nat -> Key32)
    requires next + n + 1 < UINT32_SPAN
    requires ExtendedBy(before, after, next, n, generator)
    ensures ExtendedBy(before, after[next + n := PreKey(next + n, generator(n), None)], next, n + 1, generator)
  {
  }

  /** When the counter does not wrap, a batch only adds keys with the next IDs. */
  lemma BatchAddsNextIDs(c: Content, count: UInt32, generator: nat -> Key32)
    requires Fits(c, count)
    ensures var after := AfterBatch(c, count, generator);
      && after.nextPreKeyID == c.nextPreKeyID + Missing(c, count) < UINT32_SPAN
      && ExtendedBy(c.preKeys, after.preKeys, c.nextPreKeyID, Missing(c, count), generator)
  {
    if Missing(c, count) == 0 {
      assert FreshOf(c, count, generator) == [];
    } else {
      AddingFreshKeys(c.preKeys, c.nextPreKeyID, Missing(c, count), generator);
    }
  }

  /** What such a call keeps. */
  lemma BatchKeeps(c: Content, count: UInt32, generator: nat -> Key32)
    requires Keyed(c.preKeys) && Fits(c, count)
    ensures var after := AfterBatch(c, count, generator);
      && (AllocatorInv(c) ==> AllocatorInv(after))
      && (AvailableBelow(c) ==> AvailableBelow(after))
      && (UploadedStored(c) ==> UploadedStored(after))
      && forall mark :: MarkedUpTo(c, mark) ==> MarkedUpTo(after, mark)
  {
    BatchAddsNextIDs(c, count, generator);
    var after := AfterBatch(c, count, generator);
    forall id | id in Available(after) && AvailableBelow(c) ensures id < after.nextPreKeyID {
      assert id in c.preKeys ==> id in Available(c);
    }
  }

  /** The stored IDs a batch takes are the lowest that are not uploaded, and all of them when it needs more. */
  lemma ExistingAreLowest(c: Content, count: UInt32)
    ensures var ids := ExistingIDs(c, count);
      && (forall id :: id in Available(c) && id !in ids ==> forall i :: 0 <= i < |ids| ==> ids[i] < id)
      && (|ids| < count ==> forall id :: id in Available(c) ==> id in ids)
  {
    var all, ids := Ascending(Available(c)), ExistingIDs(c, count);
    PrefixIsLowest(all, Available(c), |ids|);
    if |ids| < count {
      assert ids == all;
    }
  }

  /**
   A list of IDs made of the lowest stored ones that are not uploaded, followed by the next unused
   ones; the second part is empty unless the first part took all there were.
   */
  ghost predicate LowestThenNext(c: Content, ids: seq<UInt32>, taken: nat) {
    && taken <= |ids|
    && StrictlyAscending(ids)
    && (forall i :: 0 <= i < taken ==> ids[i] in Available(c))
    && (forall id :: id in Available(c) ==> id in ids || (taken == |ids| && forall i :: 0 <= i < taken ==> ids[i] < id))
    && (forall i :: taken <= i < |ids| ==> ids[i] == c.nextPreKeyID + (i - taken))
  }

  /** The keys under the IDs taken, followed by generated keys with the next IDs. */
  ghost predicate StoredThenFresh(c: Content, ks: seq<PreKey>, taken: seq<UInt32>, generator: nat -> Key32)
    requires forall i :: 0 <= i < |taken| ==> taken[i] in c.preKeys
  {
    && |taken| <= |ks|
    && (forall i :: 0 <= i < |taken| ==> ks[i] == c.preKeys[taken[i]] && ks[i].keyID == taken[i])
    && (forall i :: |taken| <= i < |ks| ==>
          ks[i].keyID == c.nextPreKeyID + (i - |taken|) && ks[i] == PreKey(ks[i].keyID, generator(i - |taken|), None))
  }

  lemma BatchKeys(c: Content, count: UInt32, generator: nat -> Key32)
    requires Keyed(c.preKeys) && Fits(c, count)
    ensures |Batch(c, count, generator)| == count && |ExistingIDs(c, count)| == count - Missing(c, count)
    ensures StoredThenFresh(c, Batch(c, count, generator), ExistingIDs(c, count), generator)
  {
    FreshKeysAreNext(c, count, generator);
    var taken := ExistingIDs(c, count);
    StoredKeysFirst(c, taken, KeysAt(c.preKeys, taken), FreshOf(c, count, generator), generator);
  }

  lemma StoredKeysFirst(c: Content, taken: seq<UInt32>, stored: seq<PreKey>, made: seq<PreKey>, generator: nat -> Key32)
    requires Keyed(c.preKeys) && |stored| == |taken|
    requires forall i :: 0 <= i < |taken| ==> taken[i] in c.preKeys && stored[i] == c.preKeys[taken[i]]
    requires c.nextPreKeyID + |made| <= UINT32_SPAN
    requires forall i :: 0 <= i < |made| ==> made[i] == PreKey(c.nextPreKeyID + i, generator(i), None)
    ensures StoredThenFresh(c, stored + made, taken, generator)
  {
    var ks := stored + made;
    assert forall i :: |taken| <= i < |ks| ==> ks[i] == made[i - |taken|];
  }

  lemma FreshKeysAreNext(c: Content, count: UInt32, generator: nat -> Key32)
    requires Fits(c, count)
    ensures var made := FreshOf(c, count, generator);
      && |made| == Missing(c, count)
      && forall i :: 0 <= i < |made| ==> made[i] == PreKey(c.nextPreKeyID + i, generator(i), None)
  {
  }

  lemma IDsOfBatch(c: Content, count: UInt32, ids: seq<UInt32>)
    requires AvailableBelow(c) && |ids| == count
    requires forall i :: 0 <= i < |ExistingIDs(c, count)| ==> ids[i] == ExistingIDs(c, count)[i]
    requires forall i :: |ExistingIDs(c, count)| <= i < count ==>
      ids[i] == c.nextPreKeyID + (i - |ExistingIDs(c, count)|)
    ensures LowestThenNext(c, ids, |ExistingIDs(c, count)|)
  {
    ExistingAreLowest(c, count);
    TakenThenNext(c, ids, ExistingIDs(c, count));
  }

  lemma TakenThenNext(c: Content, ids: seq<UInt32>, taken: seq<UInt32>)
    requires AvailableBelow(c) && |taken| <= |ids|
    requires StrictlyAscending(taken) && forall i :: 0 <= i < |taken| ==> taken[i] in Available(c)
    requires forall id :: id in Available(c) && id !in taken ==> forall i :: 0 <= i < |taken| ==> taken[i] < id
    requires |taken| < |ids| ==> forall id :: id in Available(c) ==> id in taken
    requires forall i :: 0 <= i < |taken| ==> ids[i] == taken[i]
    requires forall i :: |taken| <= i < |ids| ==> ids[i] == c.nextPreKeyID + (i - |taken|)
    ensures LowestThenNext(c, ids, |taken|)
  {
    forall id | id in taken ensures id in ids {
      var i :| 0 <= i < |taken| && taken[i] == id;
      assert ids[i] == id;
    }
  }

  /**
   A batch has the size asked for, in increasing order of ID; it takes the lowest stored IDs that
   are not uploaded, generates only when those run out, and holds the stored keys.
   */
  lemma BatchShape(c: Content, count: UInt32, generator: nat -> Key32)
    requires AvailableBelow(c) && Fits(c, count)
    ensures var ks, after := Batch(c, count, generator), AfterBatch(c, count, generator);
      && |ks| == count
      && LowestThenNext(c, IDsOf(ks), count - Missing(c, count))
      && (forall i :: 0 <= i < count ==> ks[i].keyID in after.preKeys && after.preKeys[ks[i].keyID] == ks[i])
      && after.uploaded == c.uploaded
  {
    BatchAddsNextIDs(c, count, generator);
    BatchKeys(c, count, generator);
    IDsOfBatch(c, count, IDsOf(Batch(c, count, generator)));
    BatchIsStored(c, Batch(c, count, generator), ExistingIDs(c, count), AfterBatch(c, count, generator), generator);
  }

  lemma BatchIsStored(c: Content, ks: seq<PreKey>, taken: seq<UInt32>, after: Content, generator: nat -> Key32)
    requires forall i :: 0 <= i < |taken| ==> taken[i] in c.preKeys && taken[i] < c.nextPreKeyID
    requires StoredThenFresh(c, ks, taken, generator) && c.nextPreKeyID + (|ks| - |taken|) < UINT32_SPAN
    requires ExtendedBy(c.preKeys, after.preKeys, c.nextPreKeyID, |ks| - |taken|, generator)
    ensures forall i :: 0 <= i < |ks| ==> ks[i].keyID in after.preKeys && after.preKeys[ks[i].keyID] == ks[i]
  {
    forall i | 0 <= i < |ks| ensures ks[i].keyID in after.preKeys && after.preKeys[ks[i].keyID] == ks[i] {
      if i < |taken| {
        TakenKeyIsStored(c, taken[i], after, |ks| - |taken|, generator);
      } else {
        FreshKeyIsStored(c, i - |taken|, after, |ks| - |taken|, generator);
      }
    }
  }

  lemma TakenKeyIsStored(c: Content, id: UInt32, after: Content, n: nat, generator: nat -> Key32)
    requires id in c.preKeys && id < c.nextPreKeyID && c.nextPreKeyID + n < UINT32_SPAN
    requires ExtendedBy(c.preKeys, after.preKeys, c.nextPreKeyID, n, generator)
    ensures id in after.preKeys && after.preKeys[id] == c.preKeys[id]
  {
  }

  lemma FreshKeyIsStored(c: Content, i: nat, after: Content, n: nat, generator: nat -> Key32)
    requires c.nextPreKeyID + n < UINT32_SPAN
    requires ExtendedBy(c.preKeys, after.preKeys, c.nextPreKeyID, n, generator) && i < n
    ensures var id := c.nextPreKeyID + i;
      id in after.preKeys && after.preKeys[id] == PreKey(id, generator(i), None)
  {
  }

  /** No key of a batch counts as uploaded exactly when no uploaded ID is among those it generates. */
  lemma NoneUploadedExactlyWhenNoneAhead(c: Content, count: UInt32, generator: nat -> Key32)
    requires Keyed(c.preKeys) && Fits(c, count)
    ensures |Batch(c, count, generator)| == count
    ensures
      (forall i :: 0 <= i < count ==> Batch(c, count, generator)[i].keyID !in AfterBatch(c, count, generator).uploaded)
      <==> NoneAhead(c, Missing(c, count))
  {
    BatchKeys(c, count, generator);
    NoneOfTheseUploaded(c, Batch(c, count, generator), ExistingIDs(c, count), generator);
  }

  lemma NoneOfTheseUploaded(c: Content, ks: seq<PreKey>, taken: seq<UInt32>, generator: nat -> Key32)
    requires forall i :: 0 <= i < |taken| ==> taken[i] in c.preKeys && taken[i] !in c.uploaded
    requires StoredThenFresh(c, ks, taken, generator)
    ensures (forall i :: 0 <= i < |ks| ==> ks[i].keyID !in c.uploaded) <==> NoneAhead(c, |ks| - |taken|)
  {
    forall id | id in c.uploaded && c.nextPreKeyID <= id < c.nextPreKeyID + (|ks| - |taken|)
      ensures exists i :: 0 <= i < |ks| && ks[i].keyID == id
    {
      assert ks[|taken| + (id - c.nextPreKeyID)].keyID == id;
    }
  }

  /** The batch is in increasing order exactly when it generates nothing or takes only IDs below the counter. */
  lemma AscendsExactlyWhenAvailableBelow(c: Content, count: UInt32, generator: nat -> Key32)
    requires Keyed(c.preKeys) && Fits(c, count)
    ensures StrictlyAscending(IDsOf(Batch(c, count, generator))) <==> Missing(c, count) == 0 || AvailableBelow(c)
  {
    BatchKeys(c, count, generator);
    ExistingAreLowest(c, count);
    var ids, taken := IDsOf(Batch(c, count, generator)), ExistingIDs(c, count);
    if Missing(c, count) > 0 && StrictlyAscending(ids) {
      forall id | id in Available(c) ensures id < c.nextPreKeyID {
        var i :| 0 <= i < |taken| && taken[i] == id;
        assert ids[i] < ids[|taken|];
      }
    }
  }

  lemma AddedKeysAreStored(m: map<UInt32, PreKey>, ks: seq<PreKey>, i: nat)
    requires i < |ks|
    ensures ks[i].keyID in AddKeys(m, ks)
  {
    AddKeysLookup(m, ks);
    assert ks[i] in ks;
  }

  /** The call keeps the allocator's invariant exactly when the counter does not wrap in it. */
  lemma AllocatorKeptExactlyWhenItFits(c: Content, count: UInt32, generator: nat -> Key32)
    requires AllocatorInv(c)
    ensures AllocatorInv(AfterBatch(c, count, generator)) <==> Fits(c, count)
  {
    if Fits(c, count) {
      BatchKeeps(c, count, generator);
    } else {
      var last := UINT32_SPAN - 1;
      AddedKeysAreStored(c.preKeys, FreshOf(c, count, generator), last - c.nextPreKeyID);
      assert last in AfterBatch(c, count, generator).preKeys;
    }
  }

  /** The ID is one of the next `n`, counted on from the start of the range once its end is reached. */
  predicate Reaches(next: UInt32, n: nat, id: UInt32) {
    next <= id < next + n || id + UINT32_SPAN < next + n
  }

  /** A call generates an ID that is already stored exactly when its counting reaches a stored ID. */
  lemma StoredIDGeneratedExactlyWhenReached(c: Content, count: UInt32, generator: nat -> Key32)
    ensures
      (exists i :: 0 <= i < Missing(c, count) && FreshOf(c, count, generator)[i].keyID in c.preKeys)
      <==> (exists id :: id in c.preKeys && Reaches(c.nextPreKeyID, Missing(c, count), id))
  {
    var made, n := FreshOf(c, count, generator), Missing(c, count);
    forall i | 0 <= i < n && made[i].keyID in c.preKeys ensures Reaches(c.nextPreKeyID, n, made[i].keyID) {
      assert made[i].keyID == Add32(c.nextPreKeyID, i);
    }
    forall id | id in c.preKeys && Reaches(c.nextPreKeyID, n, id)
      ensures exists i :: 0 <= i < n && made[i].keyID == id
    {
      var i := if c.nextPreKeyID <= id then id - c.nextPreKeyID else id + UINT32_SPAN - c.nextPreKeyID;
      assert made[i].keyID == Add32(c.nextPreKeyID, i);
    }
  }

  /** At the end of the range the allocator generates a key under an ID that is already stored. */
  lemma WrappedCounterRepeatsAnID(generator: nat -> Key32, c: Content)
    requires c.nextPreKeyID == UINT32_SPAN - 1 && Available(c) == {}
    ensures FreshOf(c, 2, generator)[1].keyID == 0
    ensures AfterBatch(c, 2, generator).preKeys[0] == PreKey(0, generator(1), None)
  {
    var ks := FreshOf(c, 2, generator);
    assert ks == [ks[0], ks[1]] && ks[..1] == [ks[0]];
    assert AddKeys(c.preKeys, ks) == AddKeys(c.preKeys, ks[..1])[0 := ks[1]];
  }

  /** A list of available IDs below all other available ones is what a batch of its size takes. */
  lemma LowestAreExisting(c: Content, ids: seq<UInt32>, count: UInt32)
    requires count == |ids| && StrictlyAscending(ids)
    requires forall i :: 0 <= i < |ids| ==> ids[i] in Available(c)
    requires forall id :: id in Available(c) && id !in ids ==> forall i :: 0 <= i < |ids| ==> ids[i] < id
    ensures ExistingIDs(c, count) == ids && Missing(c, count) == 0
  {
    var rest := Available(c) - SetOf(ids);
    var tail := Ascending(rest);
    var all := ids + tail;
    assert forall i :: 0 <= i < |tail| ==> tail[i] in tail;
    assert StrictlyAscending(all) by {
      forall i, j | 0 <= i < j < |all| ensures all[i] < all[j] {
        if i < |ids| <= j { assert tail[j - |ids|] in rest; }
      }
    }
    assert Lists(all, Available(c)) by {
      forall x | x in Available(c) ensures x in all { assert x in ids || (x in rest && x in tail); }
    }
    AscendingIsUnique(all, Available(c));
    assert all[..count] == ids;
  }

  lemma IDsTakenAgain(c: Content, count: UInt32, generator: nat -> Key32)
    requires AvailableBelow(c) && Fits(c, count) && NoneAhead(c, Missing(c, count))
    ensures var after := AfterBatch(c, count, generator);
      ExistingIDs(after, count) == IDsOf(Batch(c, count, generator)) && Missing(after, count) == 0
  {
    BatchShape(c, count, generator);
    NoneUploadedExactlyWhenNoneAhead(c, count, generator);
    BatchAddsNextIDs(c, count, generator);
    var after, ks := AfterBatch(c, count, generator), Batch(c, count, generator);
    StillAvailable(after, ks);
    NewlyAvailable(c, after, IDsOf(ks), count - Missing(c, count), generator);
    LowestAreExisting(after, IDsOf(ks), count);
  }

  lemma StillAvailable(c: Content, ks: seq<PreKey>)
    requires forall i :: 0 <= i < |ks| ==> ks[i].keyID in c.preKeys && ks[i].keyID !in c.uploaded
    ensures forall i :: 0 <= i < |ks| ==> IDsOf(ks)[i] in Available(c)
  {
  }

  /** What is available after a batch is in it or above it. */
  lemma NewlyAvailable(c: Content, after: Content, ids: seq<UInt32>, taken: nat, generator: nat -> Key32)
    requires LowestThenNext(c, ids, taken) && c.nextPreKeyID + (|ids| - taken) < UINT32_SPAN
    requires ExtendedBy(c.preKeys, after.preKeys, c.nextPreKeyID, |ids| - taken, generator)
    requires after.uploaded == c.uploaded
    ensures forall id :: id in Available(after) && id !in ids ==> forall i :: 0 <= i < |ids| ==> ids[i] < id
  {
    forall id | id in Available(after) ensures id in ids || forall i :: 0 <= i < |ids| ==> ids[i] < id {
      if id in c.preKeys {
        assert id in Available(c);
      } else {
        assert ids[taken + (id - c.nextPreKeyID)] == id;
      }
    }
  }

  /** Of the keys available after a batch, those that were not before are generated and not uploaded. */
  lemma AvailableAfter(c: Content, after: Content, n: nat, up: UInt32, generator: nat -> Key32)
    requires c.nextPreKeyID + n < UINT32_SPAN && after.uploaded == c.uploaded && up in c.uploaded
    requires ExtendedBy(c.preKeys, after.preKeys, c.nextPreKeyID, n, generator)
    ensures Available(after) <= Available(c) + (Range(c.nextPreKeyID, c.nextPreKeyID + n) - {up})
  {
    forall id | id in Available(after) && id !in Available(c) ensures c.nextPreKeyID <= id < c.nextPreKeyID + n {
      assert id in after.preKeys;
    }
  }

  lemma RangeWithout(lo: nat, hi: nat, up: nat)
    requires lo <= up < hi
    ensures |Range(lo, hi) - {up}| == hi - lo - 1
  {
    assert Range(lo, hi) == (Range(lo, hi) - {up}) + {up};
  }

  lemma UnionIsNoLarger<T>(a: set<T>, b: set<T>)
    ensures |a + b| <= |a| + |b|
  {
    assert a + b == a + (b - a);
    SubsetIsNoLarger(b - a, b);
  }

  /** If an uploaded ID is among those generated, the call does not leave enough to hand out again. */
  lemma TooFewAgain(c: Content, count: UInt32, generator: nat -> Key32)
    requires Fits(c, count) && !NoneAhead(c, Missing(c, count))
    ensures |Available(AfterBatch(c, count, generator))| < count
  {
    BatchAddsNextIDs(c, count, generator);
    var after, n := AfterBatch(c, count, generator), Missing(c, count);
    var up :| up in c.uploaded && c.nextPreKeyID <= up < c.nextPreKeyID + n;
    var made := Range(c.nextPreKeyID, c.nextPreKeyID + n) - {up};
    AvailableAfter(c, after, n, up, generator);
    RangeWithout(c.nextPreKeyID, c.nextPreKeyID + n, up);
    SubsetIsNoLarger(Available(after), Available(c) + made);
    UnionIsNoLarger(Available(c), made);
  }

  lemma SubsetIsNoLarger<T>(small: set<T>, large: set<T>)
    requires small <= large
    ensures |small| <= |large|
  {
    assert large == small + (large - small);
  }

  /**
   Asking again without marking gives the same keys and generates nothing, exactly when no uploaded ID
   is among those the first call generates.
   */
  lemma RepeatedBatch(c: Content, count: UInt32, first: nat -> Key32, second: nat -> Key32)
    requires AvailableBelow(c) && Fits(c, count)
    ensures var after := AfterBatch(c, count, first);
      Batch(after, count, second) == Batch(c, count, first) && AfterBatch(after, count, second) == after
      <==> NoneAhead(c, Missing(c, count))
  {
    var after := AfterBatch(c, count, first);
    if NoneAhead(c, Missing(c, count)) {
      SameBatchAgain(c, count, first, second);
    } else {
      TooFewAgain(c, count, first);
      assert AfterBatch(after, count, second).nextPreKeyID != after.nextPreKeyID;
    }
  }

  lemma SameBatchAgain(c: Content, count: UInt32, first: nat -> Key32, second: nat -> Key32)
    requires AvailableBelow(c) && Fits(c, count) && NoneAhead(c, Missing(c, count))
    ensures var after := AfterBatch(c, count, first);
      Batch(after, count, second) == Batch(c, count, first) && AfterBatch(after, count, second) == after
  {
    var after := AfterBatch(c, count, first);
    BatchShape(c, count, first);
    IDsTakenAgain(c, count, first);
    assert FreshOf(after, count, second) == [];
    assert Batch(after, count, second) == KeysAt(after.preKeys, ExistingIDs(after, count));
  }

  /** The counter has passed `mark`, and every stored ID up to it is uploaded. */
  ghost predicate MarkedUpTo(c: Content, mark: nat) {
    mark < c.nextPreKeyID && forall id :: id in c.preKeys && id <= mark ==> id in c.uploaded
  }

  lemma BatchAboveMark(c: Content, mark: nat, n: UInt32, generator: nat -> Key32)
    requires Keyed(c.preKeys) && Fits(c, n) && MarkedUpTo(c, mark)
    ensures |Batch(c, n, generator)| == n && forall j :: 0 <= j < n ==> mark < Batch(c, n, generator)[j].keyID
    ensures MarkedUpTo(AfterBatch(c, n, generator), mark)
  {
    BatchKeys(c, n, generator);
    BatchKeeps(c, n, generator);
    TheseAboveMark(c, mark, Batch(c, n, generator), ExistingIDs(c, n), generator);
  }

  lemma TheseAboveMark(c: Content, mark: nat, ks: seq<PreKey>, taken: seq<UInt32>, generator: nat -> Key32)
    requires MarkedUpTo(c, mark) && forall i :: 0 <= i < |taken| ==> taken[i] in c.preKeys && taken[i] !in c.uploaded
    requires StoredThenFresh(c, ks, taken, generator)
    ensures forall j :: 0 <= j < |ks| ==> mark < ks[j].keyID
  {
    forall j | 0 <= j < |ks| ensures mark < ks[j].keyID {
      if j < |taken| { assert taken[j] in c.preKeys; }
    }
  }

  lemma BatchKeepsKeyed(c: Content, count: UInt32, generator: nat -> Key32)
    requires Keyed(c.preKeys)
    ensures Keyed(AfterBatch(c, count, generator).preKeys)
  {
    AddKeysLookup(c.preKeys, FreshOf(c, count, generator));
  }

  lemma MarkingMarks(c: Content, id: UInt32)
    requires Keyed(c.preKeys) && id in c.preKeys && id < c.nextPreKeyID
    ensures Keyed(AfterMark(c, id).preKeys) && MarkedUpTo(AfterMark(c, id), id)
  {
  }

  /** The last ID of a batch is its largest, and is stored afterwards. */
  lemma LastIDIsLargest(c: Content, count: UInt32, generator: nat -> Key32)
    requires AvailableBelow(c) && Fits(c, count) && 0 < count
    ensures |Batch(c, count, generator)| == count
    ensures var ks, after := Batch(c, count, generator), AfterBatch(c, count, generator);
      && ks[count - 1].keyID in after.preKeys && ks[count - 1].keyID < after.nextPreKeyID
      && forall i :: 0 <= i < count ==> ks[i].keyID <= ks[count - 1].keyID
  {
    BatchShape(c, count, generator);
    BatchAddsNextIDs(c, count, generator);
    var ks := Batch(c, count, generator);
    LastOfAscending(IDsOf(ks));
  }

  lemma LastOfAscending(ids: seq<UInt32>)
    requires StrictlyAscending(ids) && ids != []
    ensures forall i :: 0 <= i < |ids| ==> ids[i] <= ids[|ids| - 1]
  {
  }

  /** After a batch is marked up to its last ID, every later batch lies wholly above it. */
  lemma NextBatchIsLarger(c: Content, count: UInt32, first: nat -> Key32, n: UInt32, second: nat -> Key32)
    requires AvailableBelow(c) && Fits(c, count) && 0 < count
    requires Fits(AfterMark(AfterBatch(c, count, first), Batch(c, count, first)[count - 1].keyID), n)
    ensures var ks := Batch(c, count, first);
      var next := Batch(AfterMark(AfterBatch(c, count, first), ks[count - 1].keyID), n, second);
      |next| == n && forall i, j :: 0 <= i < count && 0 <= j < n ==> ks[i].keyID < next[j].keyID
  {
    LastIDIsLargest(c, count, first);
    BatchKeepsKeyed(c, count, first);
    var last := Batch(c, count, first)[count - 1].keyID;
    MarkingMarks(AfterBatch(c, count, first), last);
    BatchAboveMark(AfterMark(AfterBatch(c, count, first), last), last, n, second);
  }

  lemma OneKeyTaken(c: Content, generator: nat -> Key32)
    requires Available(c) != {}
    ensures Batch(c, 1, generator)[0].keyID == c.preKeys[Least(Available(c))].keyID
    ensures AfterBatch(c, 1, generator) == c
  {
    assert |Available(c)| >= 1;
    assert FreshOf(c, 1, generator) == [];
    ExistingAreLowest(c, 1);
    var ids, least := ExistingIDs(c, 1), Least(Available(c));
    assert ids[0] in ids && ids[0] == least;
  }

  lemma OneKeyGenerated(c: Content, generator: nat -> Key32)
    requires Available(c) == {}
    ensures var key := PreKey(c.nextPreKeyID, generator(0), None);
      Batch(c, 1, generator) == [key] && AfterBatch(c, 1, generator).preKeys == c.preKeys[c.nextPreKeyID := key]
  {
    NothingTaken(c);
    var made := FreshOf(c, 1, generator);
    assert made == [PreKey(c.nextPreKeyID, generator(0), None)];
    AddOneKey(c.preKeys, made[0]);
  }

  /** The key a one-key call returns is stored under its ID, and stays so when it is marked. */
  lemma OneKeyIsStored(c: Content, generator: nat -> Key32)
    requires Keyed(c.preKeys)
    ensures var key := Batch(c, 1, generator)[0];
      key.keyID in AfterBatch(c, 1, generator).preKeys && AfterBatch(c, 1, generator).preKeys[key.keyID] == key
  {
    if Available(c) == {} {
      OneKeyGenerated(c, generator);
    } else {
      OneKeyTaken(c, generator);
      var ids := ExistingIDs(c, 1);
      assert |Available(c)| >= 1 && ids[0] in Available(c);
      assert Batch(c, 1, generator)[0] == c.preKeys[ids[0]];
    }
  }

  /** With only one key available, a one-key call takes and marks it, and nothing is available any more. */
  lemma LastKeyTaken(c: Content, high: UInt32, generator: nat -> Key32)
    requires Keyed(c.preKeys) && Available(c) == {high}
    ensures Missing(c, 1) == 0 && Batch(c, 1, generator)[0].keyID == high && AfterBatch(c, 1, generator) == c
    ensures Available(AfterMark(c, high)) == {}
  {
    OneKeyTaken(c, generator);
    assert Least(Available(c)) in {high} && high in Available(c);
    assert forall id :: id in c.preKeys && id !in c.uploaded ==> id in Available(c);
  }

  lemma NothingTaken(c: Content)
    requires Available(c) == {}
    ensures ExistingIDs(c, 1) == [] && Missing(c, 1) == 1
  {
  }

  lemma AddOneKey(m: map<UInt32, PreKey>, key: PreKey)
    ensures AddKeys(m, [key]) == m[key.keyID := key]
  {
    assert [key][..0] == [];
  }

  /**
   Marking "up to" the key of a one-key batch marks that key alone; it was not uploaded before
   exactly when a stored ID was still available or the counter is not on an uploaded ID.
   */
  lemma OneKeyMarkedAlone(c: Content, generator: nat -> Key32)
    requires Keyed(c.preKeys)
    ensures var id := Batch(c, 1, generator)[0].keyID;
      && AfterMark(AfterBatch(c, 1, generator), id).uploaded == c.uploaded + {id}
      && (id !in c.uploaded <==> Available(c) != {} || c.nextPreKeyID !in c.uploaded)
  {
    if Available(c) == {} {
      GeneratedKeyMarkedAlone(c, generator);
    } else {
      TakenKeyMarkedAlone(c, generator);
    }
  }

  lemma GeneratedKeyMarkedAlone(c: Content, generator: nat -> Key32)
    requires Keyed(c.preKeys) && Available(c) == {}
    ensures Batch(c, 1, generator)[0].keyID == c.nextPreKeyID
    ensures AfterMark(AfterBatch(c, 1, generator), c.nextPreKeyID).uploaded == c.uploaded + {c.nextPreKeyID}
  {
    OneKeyGenerated(c, generator);
    forall x | x in c.preKeys ensures x in c.uploaded { assert x !in Available(c); }
    var after := AfterBatch(c, 1, generator);
    assert after.preKeys.Keys == c.preKeys.Keys + {c.nextPreKeyID} && after.uploaded == c.uploaded;
  }

  lemma TakenKeyMarkedAlone(c: Content, generator: nat -> Key32)
    requires Keyed(c.preKeys) && Available(c) != {}
    ensures var id := Batch(c, 1, generator)[0].keyID;
      id !in c.uploaded && AfterMark(AfterBatch(c, 1, generator), id).uploaded == c.uploaded + {id}
  {
    OneKeyTaken(c, generator);
    LeastMarkedAlone(c);
  }

  /** Every stored ID up to the least one not uploaded is uploaded, but for itself. */
  lemma LeastMarkedAlone(c: Content)
    requires Keyed(c.preKeys) && Available(c) != {}
    ensures var id := Least(Available(c));
      && id in c.preKeys && c.preKeys[id].keyID == id && id !in c.uploaded
      && AfterMark(c, id).uploaded == c.uploaded + {id}
  {
    var id := Least(Available(c));
    assert id in Available(c);
    forall x | x in c.preKeys && x <= id ensures x in c.uploaded || x == id {
      assert x in Available(c) ==> id <= x;
    }
  }
}
