/**
 * The profile store (FacePamphletDatabase.java): a case-sensitive map from a
 * name to the profile object stored under it.
 *
 * Profiles are objects, as in the source, so that a caller holding a profile
 * obtained from the store sees and makes changes in place. Every profile is
 * stored under its own name, which makes the stored objects pairwise
 * distinct. The ghost field `store` is the store's value: the map from each
 * name to that profile's `ProfileData`; `Deleted` says what `deleteProfile`
 * does to it.
 */
module ProfileDatabase {
  import opened Wrappers
  import opened Profiles

  /** The value of a store: each name to the value of the profile stored under it. */
  type Store = map<string, ProfileData>

  /** Every profile is stored under its own name and lists no friend twice. */
  ghost predicate WellFormed(m: Store)
  {
    forall k :: k in m ==> m[k].name == k && NoDups(m[k].friends)
  }

  /** Every profile with the first `n` taken out of its friend list: the sweep of `deleteProfile`. */
  function Scrubbed(m: Store, n: string): (r: Store)
    ensures r.Keys == m.Keys
  {
    map k | k in m :: m[k].(friends := RemovedFriend(m[k].friends, n))
  }

  /** Sweeping a name out of every friend list keeps the store well formed. */
  lemma ScrubbedWellFormed(m: Store, n: string)
    requires WellFormed(m)
    ensures WellFormed(Scrubbed(m, n))
  {
    forall k | k in m
      ensures NoDups(RemovedFriend(m[k].friends, n))
    {
      RemovedFriendNoDups(m[k].friends, n);
    }
  }

  /**
   * The store after `deleteProfile(n)`, as the code performs it: the entry for
   * `n` is removed, then the remaining profiles are swept. The sweep runs
   * whether or not `n` was a key.
   */
  function Deleted(m: Store, n: string): (r: Store)
    ensures r.Keys == m.Keys - {n}
  {
    Scrubbed(m - {n}, n)
  }

  /**
   * After a delete no remaining profile lists the deleted name; every other
   * profile keeps its name, status and image, and its friend list only loses
   * `n`, the rest staying in order.
   */
  lemma DeletedUnlinks(m: Store, n: string)
    requires WellFormed(m)
    ensures WellFormed(Deleted(m, n))
    ensures n !in Deleted(m, n)
    ensures forall k :: k in Deleted(m, n) ==>
      && n !in Deleted(m, n)[k].friends
      && Deleted(m, n)[k] == m[k].(friends := Without(m[k].friends, n))
  {
    forall k | k in m && k != n
      ensures NoDups(RemovedFriend(m[k].friends, n)) && n !in RemovedFriend(m[k].friends, n)
      ensures RemovedFriend(m[k].friends, n) == Without(m[k].friends, n)
    {
      RemovedFriendNoDups(m[k].friends, n);
      RemovedFriendIsWithout(m[k].friends, n);
    }
  }

  /** Deleting a name that is no key and that no profile lists leaves the store as it was. */
  lemma DeletedAbsentUnchanged(m: Store, n: string)
    requires n !in m
    requires forall k :: k in m ==> n !in m[k].friends
    ensures Deleted(m, n) == m
  {
    forall k | k in m
      ensures Deleted(m, n)[k] == m[k]
    {
      assert RemovedFriend(m[k].friends, n) == m[k].friends;
    }
  }

  /**
   * The documentation of `deleteProfile` promises an unchanged store when `n`
   * is no key; the sweep still runs, so a profile that lists such a name loses it.
   */
  lemma DeletedAbsentCanChange(a: string, n: string)
    requires a != n
    ensures var m := map[a := ProfileData(a, None, None, [n])];
      n !in m && Deleted(m, n) != m && Deleted(m, n)[a].friends == []
  {
    var m := map[a := ProfileData(a, None, None, [n])];
    assert Deleted(m, n)[a].friends == RemovedFriend([n], n);
  }

  class Database {
    var profiles: map<string, Profile>
    /** The value of the store: each name to the value of the profile stored under it. */
    ghost var store: Store

    /** Each profile is stored under its own name, lists no friend twice and has the value `store` gives it. */
    ghost predicate Valid()
      reads this, profiles.Values
      ensures Valid() ==> WellFormed(store)
    {
      && store.Keys == profiles.Keys
      && forall k :: k in profiles ==>
           && profiles[k].name == k && profiles[k].Valid() && profiles[k].Data() == store[k]
    }

    /**
     * When, since the earlier state, only the stored profile `p` has changed,
     * every other stored profile still has the value `store` gives it.
     */
    twostate lemma OthersKept(p: Profile)
      requires old(Valid()) && unchanged(this)
      requires p.name in profiles && profiles[p.name] == p
      requires forall q :: q in profiles.Values && q != p ==> unchanged(q)
      ensures forall k :: k in profiles && k != p.name ==>
        profiles[k].name == k && profiles[k].Valid() && profiles[k].Data() == store[k]
    {
      forall k | k in profiles && k != p.name
        ensures unchanged(profiles[k])
      {
        assert profiles[k] in profiles.Values;
      }
    }

    /** Brings `store` up to date after the stored profile `p` was changed in place. */
    ghost method Refresh(p: Profile)
      requires store.Keys == profiles.Keys
      requires p.name in profiles && profiles[p.name] == p && p.Valid()
      requires forall k :: k in profiles && k != p.name ==>
        profiles[k].name == k && profiles[k].Valid() && profiles[k].Data() == store[k]
      modifies this
      ensures Valid()
      ensures profiles == old(profiles)
      ensures store == old(store)[p.name := p.Data()]
    {
      store := store[p.name := p.Data()];
    }

    /** An empty store. */
    constructor ()
      ensures Valid()
      ensures profiles == map[] && store == map[]
    {
      profiles := map[];
      store := map[];
    }

    /** addProfile: `p` is stored under its name, replacing whatever was stored there; nothing else changes. */
    method AddProfile(p: Profile)
      requires Valid() && p.Valid()
      modifies this
      ensures Valid()
      ensures profiles == old(profiles)[p.name := p]
      ensures store == old(store)[p.name := p.Data()]
    {
      profiles := profiles[p.name := p];
      store := store[p.name := p.Data()];
    }

    /** getProfile: the profile stored under `n` (whose name is `n`), or null when `n` is no key. */
    function GetProfile(n: string): (p: Profile?)
      reads this, profiles.Values
      requires Valid()
      ensures p == null <==> n !in store
      ensures p != null ==> p == profiles[n] && p.name == n && p.Data() == store[n]
    {
      if n in profiles then profiles[n] else null
    }

    /** containsProfile: true exactly when `getProfile` finds a profile; names are compared case-sensitively. */
    function ContainsProfile(n: string): (r: bool)
      reads this, profiles.Values
      requires Valid()
      ensures r <==> GetProfile(n) != null
    {
      n in profiles
    }

    /** isFriendsWith: walks the friend list of `prof` looking for `name`. */
    method IsFriendsWith(prof: Profile, name: string) returns (r: bool)
      ensures r <==> prof.ContainsFriend(name)
    {
      var i := 0;
      while i < |prof.friends|
        invariant i <= |prof.friends|
        invariant name !in prof.friends[..i]
      {
        if prof.friends[i] == name {
          return true;
        }
        i := i + 1;
      }
      assert prof.friends[..i] == prof.friends;
      return false;
    }

    /**
     * deleteProfile: the entry for `n` is removed, then each remaining profile
     * is scrubbed of `n`. The remaining profiles are the same objects, and the
     * removed one is left as it was.
     */
    method DeleteProfile(n: string)
      requires Valid()
      modifies this, profiles.Values
      ensures Valid()
      ensures profiles.Keys == old(profiles.Keys) - {n}
      ensures forall k :: k in profiles ==> profiles[k] == old(profiles[k])
      ensures store == Deleted(old(store), n)
      ensures n in old(profiles) ==> unchanged(old(profiles[n]))
    {
      profiles := profiles - {n};
      store := store - {n};
      Sweep(n);
      ScrubbedWellFormed(store, n);
      store := Scrubbed(store, n);
    }

    /** The loop of deleteProfile: every stored profile that lists `n` removes it; `store` is left to the caller. */
    method Sweep(n: string)
      requires Valid()
      modifies profiles.Values
      ensures SweptExcept(store, n, {})
    {
      var todo := profiles.Keys;
      while todo != {}
        invariant todo <= profiles.Keys
        invariant SweptExcept(store, n, todo)
        decreases todo
      {
        var k :| k in todo;
        SweepStep(k, n, store, todo);
        todo := todo - {k};
      }
    }

    /** Each stored profile is as in `start`, swept of `n` unless its name is still in `todo`. */
    ghost predicate SweptExcept(start: Store, n: string, todo: set<string>)
      reads this, profiles.Values
    {
      && start.Keys == profiles.Keys
      && WellFormed(start)
      && (forall k :: k in profiles ==> profiles[k].name == k)
      && (forall k :: k in profiles ==>
            profiles[k].Data() == if k in todo then start[k] else Scrubbed(start, n)[k])
    }

    /** The body of the loop of deleteProfile, for the profile stored under `k`. */
    method SweepStep(k: string, n: string, ghost start: Store, ghost todo: set<string>)
      requires k in todo && todo <= profiles.Keys
      requires SweptExcept(start, n, todo)
      modifies profiles[k]
      ensures SweptExcept(start, n, todo - {k})
    {
      var prof := profiles[k];
      var listed := IsFriendsWith(prof, n);
      if listed {
        var _ := prof.RemoveFriend(n);
      }
    }
  }
}
