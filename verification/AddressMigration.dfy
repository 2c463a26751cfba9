/**
 Re-keying the entries of one address user to another while ranging over the map.  A range over a
 map visits its entries in an unspecified order and may or may not produce an entry that was
 created during the range; here a range is the list of addresses it produced.
 */
module AddressMigration {

  /** True of the addresses that belong to `user`. */
  predicate AddressFor(address: string, user: string) { user + ":" <= address }

  function Moved(address: string, oldUser: string, newUser: string): string
    requires AddressFor(address, oldUser)
  {
    newUser + address[|oldUser|..]
  }

  /** One iteration of the range body. */
  function Visit<V>(m: map<string, V>, address: string, oldUser: string, newUser: string): map<string, V> {
    if address in m && AddressFor(address, oldUser)
    then m[Moved(address, oldUser, newUser) := m[address]] - {address}
    else m
  }

  function MoveAlong<V>(m: map<string, V>, visits: seq<string>, oldUser: string, newUser: string): map<string, V>
    decreases |visits|
  {
    if visits == [] then m
    else MoveAlong(Visit(m, visits[0], oldUser, newUser), visits[1..], oldUser, newUser)
  }

  /**
   The ranges the language allows: only present entries are produced, none twice unless it was
   deleted in between, and every entry of `todo` (those present at the start and not yet produced)
   is produced before the end.
   */
  ghost predicate LegalRange<V>(m: map<string, V>, visits: seq<string>, todo: set<string>, seen: set<string>,
                                oldUser: string, newUser: string)
    decreases |visits|
  {
    if visits == [] then todo == {}
    else
      var address := visits[0];
      && address in m && address !in seen
      && LegalRange(Visit(m, address, oldUser, newUser), visits[1..], todo - {address},
                    if AddressFor(address, oldUser) then seen else seen + {address}, oldUser, newUser)
  }

  /** No entry can be moved by one visit onto, or out of, the part of the map another visit moves. */
  predicate Clean(oldUser: string, newUser: string) {
    !(oldUser + ":" <= newUser + ":") && !(newUser + ":" <= oldUser + ":")
  }

  /** The address that moves to `address`. */
  function Source(address: string, oldUser: string, newUser: string): string
    requires AddressFor(address, newUser)
  {
    oldUser + address[|newUser|..]
  }

  /**
   The outcome the migration is for: old entries sit under the new user, replacing what was there,
   and all other entries are as before.
   */
  function Migrated<V>(m: map<string, V>, oldUser: string, newUser: string): map<string, V> {
    map address | address in m.Keys + (set a | a in m && AddressFor(a, oldUser) :: Moved(a, oldUser, newUser))
                  && ((AddressFor(address, newUser) && Source(address, oldUser, newUser) in m)
                      || (address in m && !AddressFor(address, oldUser))) ::
      if AddressFor(address, newUser) && Source(address, oldUser, newUser) in m
      then m[Source(address, oldUser, newUser)]
      else m[address]
  }

  ghost predicate HasAddressFor<V>(m: map<string, V>, user: string) {
    exists address :: address in m && AddressFor(address, user)
  }

  lemma MovedSource(address: string, oldUser: string, newUser: string)
    ensures AddressFor(address, oldUser) ==>
      var b := Moved(address, oldUser, newUser); AddressFor(b, newUser) && Source(b, oldUser, newUser) == address
    ensures AddressFor(address, newUser) ==>
      var a := Source(address, oldUser, newUser); AddressFor(a, oldUser) && Moved(a, oldUser, newUser) == address
  {
    if AddressFor(address, oldUser) {
      var b := Moved(address, oldUser, newUser);
      assert address[|oldUser|] == (oldUser + ":")[|oldUser|] == ':';
      assert b[..|newUser| + 1] == newUser + ":";
      assert Source(b, oldUser, newUser) == address by {
        assert address[..|oldUser|] == (oldUser + ":")[..|oldUser|] == oldUser;
      }
    }
    if AddressFor(address, newUser) {
      var a := Source(address, oldUser, newUser);
      assert address[|newUser|] == (newUser + ":")[|newUser|] == ':';
      assert a[..|oldUser| + 1] == oldUser + ":";
      assert Moved(a, oldUser, newUser) == address by {
        assert address[..|newUser|] == (newUser + ":")[..|newUser|] == newUser;
      }
    }
  }

  /** Two prefixes of one text are prefixes one of the other. */
  lemma PrefixesOfOneText(text: string, p: string, q: string)
    requires p <= text && q <= text
    ensures p <= q || q <= p
  {
    if |p| <= |q| {
      assert q[..|p|] == text[..|q|][..|p|] == text[..|p|] == p;
    } else {
      assert p[..|q|] == text[..|p|][..|q|] == text[..|q|] == q;
    }
  }

  lemma CleanUsersShareNothing(address: string, oldUser: string, newUser: string)
    requires Clean(oldUser, newUser)
    ensures !(AddressFor(address, oldUser) && AddressFor(address, newUser))
  {
    if AddressFor(address, oldUser) && AddressFor(address, newUser) {
      PrefixesOfOneText(address, oldUser + ":", newUser + ":");
    }
  }

  /** When one user's addresses are all addresses of another, its name continues the other's after a colon. */
  lemma NestedUsers(outer: string, inner: string)
    requires outer + ":" <= inner + ":"
    ensures outer == inner || (|outer| < |inner| && inner[|outer|] == ':')
  {
    assert outer == (outer + ":")[..|outer|] == (inner + ":")[..|outer|];
    if |outer| < |inner| {
      assert inner[|outer|] == (inner + ":")[|outer|] == (outer + ":")[|outer|];
    }
  }

  /** Users without a colon, as signal address users are, are clean as soon as they differ. */
  lemma ColonFreeUsersAreClean(oldUser: string, newUser: string)
    requires ':' !in oldUser && ':' !in newUser && oldUser != newUser
    ensures Clean(oldUser, newUser)
  {
    if oldUser + ":" <= newUser + ":" { NestedUsers(oldUser, newUser); }
    if newUser + ":" <= oldUser + ":" { NestedUsers(newUser, oldUser); }
  }

  /** What a lookup in the migrated map finds. */
  lemma MigratedLookup<V>(m: map<string, V>, oldUser: string, newUser: string, address: string)
    ensures var r := Migrated(m, oldUser, newUser);
      if AddressFor(address, newUser) && Source(address, oldUser, newUser) in m
      then address in r && r[address] == m[Source(address, oldUser, newUser)]
      else (address in r <==> address in m && !AddressFor(address, oldUser)) && (address in r ==>
        r[address] == m[address])
  {
    MovedSource(address, oldUser, newUser);
    if AddressFor(address, newUser) && Source(address, oldUser, newUser) in m {
      var a := Source(address, oldUser, newUser);
      assert address in (set b | b in m && AddressFor(b, oldUser) :: Moved(b, oldUser, newUser));
    }
  }

  /** A visit does not change what is left to be achieved. */
  lemma VisitKeepsTarget<V>(m: map<string, V>, address: string, oldUser: string, newUser: string)
    requires Clean(oldUser, newUser)
    ensures Migrated(Visit(m, address, oldUser, newUser), oldUser, newUser) == Migrated(m, oldUser, newUser)
  {
    var m1 := Visit(m, address, oldUser, newUser);
    if address in m && AddressFor(address, oldUser) {
      var moved := Moved(address, oldUser, newUser);
      var r, r1 := Migrated(m, oldUser, newUser), Migrated(m1, oldUser, newUser);
      MovedSource(address, oldUser, newUser);
      forall x ensures (x in r <==> x in r1) && (x in r ==> r[x] == r1[x]) {
        MigratedLookup(m, oldUser, newUser, x);
        MigratedLookup(m1, oldUser, newUser, x);
        MovedSource(x, oldUser, newUser);
        CleanUsersShareNothing(x, oldUser, newUser);
        CleanUsersShareNothing(moved, oldUser, newUser);
      }
      assert r == r1;
    }
  }

  lemma NothingLeftToMigrate<V>(m: map<string, V>, oldUser: string, newUser: string)
    requires !HasAddressFor(m, oldUser)
    ensures Migrated(m, oldUser, newUser) == m
  {
    var r := Migrated(m, oldUser, newUser);
    forall x ensures (x in r <==> x in m) && (x in m ==> r[x] == m[x]) {
      MigratedLookup(m, oldUser, newUser, x);
      MovedSource(x, oldUser, newUser);
    }
  }

  lemma MigratedHasNoOldAddress<V>(m: map<string, V>, oldUser: string, newUser: string)
    requires Clean(oldUser, newUser)
    ensures !HasAddressFor(Migrated(m, oldUser, newUser), oldUser)
  {
    forall x | x in Migrated(m, oldUser, newUser) ensures !AddressFor(x, oldUser) {
      MigratedLookup(m, oldUser, newUser, x);
      CleanUsersShareNothing(x, oldUser, newUser);
    }
  }

  /**
   A migration in terms of the texts themselves: each device of the old user is one of the new user
   afterwards and takes the entry with it, and no other address changes.
   */
  lemma MigratedDevices<V>(m: map<string, V>, oldUser: string, newUser: string, device: string)
    requires Clean(oldUser, newUser)
    ensures var r, old', new' := Migrated(m, oldUser, newUser), oldUser + ":" + device, newUser + ":" + device;
      && old' !in r
      && (new' in r <==> old' in m || new' in m)
      && (new' in r ==> r[new'] == if old' in m then m[old'] else m[new'])
    ensures var r := Migrated(m, oldUser, newUser);
      forall a :: !(oldUser + ":" <= a) && !(newUser + ":" <= a) ==> (a in r <==> a in m) && (a in m ==> r[a] == m[a])
  {
    var old', new' := oldUser + ":" + device, newUser + ":" + device;
    assert new'[|newUser|..] == ":" + device && Source(new', oldUser, newUser) == oldUser + (":" + device) == old';
    MigratedLookup(m, oldUser, newUser, old');
    MigratedLookup(m, oldUser, newUser, new');
    CleanUsersShareNothing(old', oldUser, newUser);
    CleanUsersShareNothing(new', oldUser, newUser);
    forall a ensures !(oldUser + ":" <= a) && !(newUser + ":" <= a) ==>
      (a in Migrated(m, oldUser, newUser) <==> a in m) && (a in m ==> Migrated(m, oldUser, newUser)[a] == m[a])
    {
      MigratedLookup(m, oldUser, newUser, a);
    }
  }

  lemma {:induction false} RangeReachesTarget<V>(m: map<string, V>, visits: seq<string>, todo: set<string>,
                                                 seen: set<string>, oldUser: string, newUser: string)
    requires Clean(oldUser, newUser)
    requires LegalRange(m, visits, todo, seen, oldUser, newUser)
    requires forall a :: a in m && AddressFor(a, oldUser) ==> a in todo
    ensures MoveAlong(m, visits, oldUser, newUser) == Migrated(m, oldUser, newUser)
    decreases |visits|
  {
    if visits == [] {
      NothingLeftToMigrate(m, oldUser, newUser);
    } else {
      var m1 := Visit(m, visits[0], oldUser, newUser);
      VisitKeepsTarget(m, visits[0], oldUser, newUser);
      forall a | a in m1 && AddressFor(a, oldUser) ensures a in todo - {visits[0]} {
        if AddressFor(visits[0], oldUser) {
          MovedSource(visits[0], oldUser, newUser);
          CleanUsersShareNothing(Moved(visits[0], oldUser, newUser), oldUser, newUser);
        }
      }
      RangeReachesTarget(m1, visits[1..], todo - {visits[0]},
                         if AddressFor(visits[0], oldUser) then seen else seen + {visits[0]}, oldUser, newUser);
    }
  }

  /** Every allowed iteration order, visiting created entries or not, has the one result. */
  lemma OneResultForEveryOrder<V>(m: map<string, V>, visits: seq<string>, oldUser: string, newUser: string)
    requires Clean(oldUser, newUser)
    requires LegalRange(m, visits, m.Keys, {}, oldUser, newUser)
    ensures MoveAlong(m, visits, oldUser, newUser) == Migrated(m, oldUser, newUser)
  {
    RangeReachesTarget(m, visits, m.Keys, {}, oldUser, newUser);
  }

  /** A second migration changes nothing. */
  lemma MigratingTwice<V>(m: map<string, V>, oldUser: string, newUser: string)
    requires Clean(oldUser, newUser)
    ensures Migrated(Migrated(m, oldUser, newUser), oldUser, newUser) == Migrated(m, oldUser, newUser)
  {
    MigratedHasNoOldAddress(m, oldUser, newUser);
    NothingLeftToMigrate(Migrated(m, oldUser, newUser), oldUser, newUser);
  }

  ghost predicate OrderIrrelevant(oldUser: string, newUser: string) {
    forall m: map<string, bool>, v, w ::
      LegalRange(m, v, m.Keys, {}, oldUser, newUser) && LegalRange(m, w, m.Keys, {}, oldUser, newUser) ==>
        MoveAlong(m, v, oldUser, newUser) == MoveAlong(m, w, oldUser, newUser)
  }

  /** When the new user's addresses are themselves old ones, visiting a created entry moves it again. */
  lemma CreatedEntryMovesAgain(oldUser: string, newUser: string)
    requires oldUser != newUser && oldUser + ":" <= newUser + ":"
    ensures !OrderIrrelevant(oldUser, newUser)
  {
    var a := oldUser + ":";
    var m: map<string, bool> := map[a := true];
    var b := Moved(a, oldUser, newUser);
    MovedSource(a, oldUser, newUser);
    assert AddressFor(b, oldUser);
    var c := Moved(b, oldUser, newUser);
    NestedUsers(oldUser, newUser);
    assert |a| < |b| < |c|;
    var v, w := [a], [a, b];
    assert Visit(m, a, oldUser, newUser) == map[b := true];
    assert Visit(map[b := true], b, oldUser, newUser) == map[c := true];
    assert m.Keys - {a} == {};
    assert v[1..] == [] && w[1..] == [b] && [b][1..] == [];
    assert MoveAlong(m, v, oldUser, newUser) == MoveAlong(map[b := true], [], oldUser, newUser) == map[b := true];
    assert MoveAlong(m, w, oldUser, newUser) == MoveAlong(map[b := true], [b], oldUser, newUser)
           == MoveAlong(map[c := true], [], oldUser, newUser) == map[c := true];
    assert b in map[b := true] && b !in map[c := true];
    assert LegalRange(map[b := true], [], {}, {}, oldUser, newUser);
    assert LegalRange(map[b := true], [b], {}, {}, oldUser, newUser);
    assert LegalRange(m, v, m.Keys, {}, oldUser, newUser) && LegalRange(m, w, m.Keys, {}, oldUser, newUser);
  }

  /** When old addresses are themselves new ones, an entry may be overwritten before it is moved. */
  lemma EntryOverwrittenBeforeItMoves(oldUser: string, newUser: string)
    requires oldUser != newUser && newUser + ":" <= oldUser + ":"
    ensures !OrderIrrelevant(oldUser, newUser)
  {
    NestedUsers(newUser, oldUser);
    var second := oldUser + ":";
    var first := Source(second, oldUser, newUser);
    MovedSource(second, oldUser, newUser);
    assert Moved(first, oldUser, newUser) == second;
    var last := Moved(second, oldUser, newUser);
    assert |last| < |second| < |first|;
    var m: map<string, bool> := map[first := true, second := false];
    var v, w := [first, second], [second, first];
    assert v[1..] == [second] && w[1..] == [first] && [first][1..] == [] && [second][1..] == [];

    var v1 := map[second := true];
    assert Visit(m, first, oldUser, newUser) == v1;
    assert Visit(v1, second, oldUser, newUser) == map[last := true];
    assert m.Keys - {first} - {second} == {};
    assert LegalRange(v1, [second], m.Keys - {first}, {}, oldUser, newUser);
    assert MoveAlong(m, v, oldUser, newUser) == MoveAlong(v1, [second], oldUser, newUser)
           == MoveAlong(map[last := true], [], oldUser, newUser) == map[last := true];

    var w1 := map[first := true, last := false];
    assert Visit(m, second, oldUser, newUser) == w1;
    assert Visit(w1, first, oldUser, newUser) == map[last := false, second := true];
    assert m.Keys - {second} - {first} == {};
    assert LegalRange(w1, [first], m.Keys - {second}, {}, oldUser, newUser);
    assert MoveAlong(m, w, oldUser, newUser) == MoveAlong(w1, [first], oldUser, newUser)
           == MoveAlong(map[last := false, second := true], [], oldUser, newUser) == map[last := false, second := true];
    assert second in map[last := false, second := true] && second !in map[last := true];
    assert LegalRange(m, v, m.Keys, {}, oldUser, newUser) && LegalRange(m, w, m.Keys, {}, oldUser, newUser);
  }

  /** The iteration order is irrelevant for exactly the clean pairs of users. */
  lemma OrderIrrelevantExactlyWhenClean(oldUser: string, newUser: string)
    requires oldUser != newUser
    ensures OrderIrrelevant(oldUser, newUser) <==> Clean(oldUser, newUser)
  {
    if Clean(oldUser, newUser) {
      forall m: map<string, bool>, v, w |
        LegalRange(m, v, m.Keys, {}, oldUser, newUser) && LegalRange(m, w, m.Keys, {}, oldUser, newUser)
        ensures MoveAlong(m, v, oldUser, newUser) == MoveAlong(m, w, oldUser, newUser)
      {
        OneResultForEveryOrder(m, v, oldUser, newUser);
        OneResultForEveryOrder(m, w, oldUser, newUser);
      }
    } else if oldUser + ":" <= newUser + ":" {
      CreatedEntryMovesAgain(oldUser, newUser);
    } else {
      EntryOverwrittenBeforeItMoves(oldUser, newUser);
    }
  }
}
