/**
 * The session logic of the FacePamphlet controller (FacePamphlet.java)
 * without its window: the store `db`, the selected profile `current`, and
 * the commands add, delete and look up a profile, change the status or the
 * picture of the selected profile and befriend another profile.
 *
 * Across these commands the store stays consistent: every listed friend is
 * a stored profile, friendship is symmetric, and the selection is either
 * nothing or the object stored under its name.
 */
module Pamphlet {
  import opened Wrappers
  import opened Profiles
  import opened ProfileDatabase

  /** Every friend name is a key of the store. */
  ghost predicate Closed(m: Store)
  {
    forall k, f :: k in m && f in m[k].friends ==> f in m
  }

  /** If `a` lists `b`, then `b` lists `a`. */
  ghost predicate Symmetric(m: Store)
  {
    forall a, b :: a in m && b in m && b in m[a].friends ==> a in m[b].friends
  }

  /** The invariant the controller keeps: well formed, closed and symmetric. */
  ghost predicate Consistent(m: Store)
  {
    WellFormed(m) && Closed(m) && Symmetric(m)
  }

  /**
   * The checks of isAddFriendValid: a profile is selected, `n` is stored, and the
   * selected profile does not list `n` yet, so its addFriend(n) will append `n`.
   */
  predicate CanBefriend(m: Store, selected: Option<string>, n: string)
    ensures CanBefriend(m, selected, n) ==>
      && selected.Some? && selected.value in m && n in m
      && |AddedFriend(m[selected.value].friends, n)| == |m[selected.value].friends| + 1
  {
    && selected.Some? && selected.value in m
    && n in m
    && n !in m[selected.value].friends
  }

  /** The two steps of addFriend: `a` adds `b`, then `b` adds `a`. */
  function Befriended(m: Store, a: string, b: string): (r: Store)
    requires a in m && b in m
    ensures r.Keys == m.Keys
  {
    var once := m[a := m[a].(friends := AddedFriend(m[a].friends, b))];
    once[b := once[b].(friends := AddedFriend(once[b].friends, a))]
  }

  /** Only the friend lists of `a` and `b` change, and each only gains the other. */
  lemma BefriendedFriends(m: Store, a: string, b: string)
    requires a in m && b in m
    ensures forall k :: k in m ==>
      Befriended(m, a, b)[k] == m[k].(friends := Befriended(m, a, b)[k].friends)
    ensures forall k, g :: k in m ==>
      (g in Befriended(m, a, b)[k].friends <==> g in m[k].friends || (k == a && g == b) || (k == b && g == a))
    ensures forall k :: k in m && NoDups(m[k].friends) ==> NoDups(Befriended(m, a, b)[k].friends)
  {
    var once := m[a := m[a].(friends := AddedFriend(m[a].friends, b))];
    var r := Befriended(m, a, b);
    forall k | k in m
      ensures r[k] == m[k].(friends := r[k].friends)
      ensures forall g :: g in r[k].friends <==> g in m[k].friends || (k == a && g == b) || (k == b && g == a)
      ensures NoDups(m[k].friends) ==> NoDups(r[k].friends)
    {
      if k == b {
        assert r[k].friends == AddedFriend(once[b].friends, a);
      } else if k == a {
        assert r[k].friends == AddedFriend(m[a].friends, b);
      } else {
        assert r[k] == m[k];
      }
    }
  }

  /** Befriending two stored profiles keeps the store consistent and makes the two list each other. */
  lemma BefriendedConsistent(m: Store, a: string, b: string)
    requires Consistent(m) && a in m && b in m
    ensures Consistent(Befriended(m, a, b))
    ensures b in Befriended(m, a, b)[a].friends && a in Befriended(m, a, b)[b].friends
    ensures forall k :: k in m && k != a && k != b ==> Befriended(m, a, b)[k] == m[k]
  {
    var r := Befriended(m, a, b);
    BefriendedFriends(m, a, b);
    forall x, y | x in r && y in r[x].friends
      ensures y in r && x in r[y].friends
    {
      if !((x == a && y == b) || (x == b && y == a)) {
        assert y in m[x].friends;
      }
    }
  }

  /** The store after addFriend(n) with `selected` as the selection: befriended when the checks pass, else as it was. */
  function FriendRequest(m: Store, selected: Option<string>, n: string): (r: Store)
    ensures r.Keys == m.Keys
  {
    if CanBefriend(m, selected, n) then Befriended(m, selected.value, n) else m
  }

  /** An accepted request leaves the two profiles listing each other and the store consistent. */
  lemma FriendRequestConsistent(m: Store, selected: Option<string>, n: string)
    requires Consistent(m)
    ensures Consistent(FriendRequest(m, selected, n))
    ensures CanBefriend(m, selected, n) ==>
      && n in FriendRequest(m, selected, n)[selected.value].friends
      && selected.value in FriendRequest(m, selected, n)[n].friends
  {
    if CanBefriend(m, selected, n) {
      BefriendedConsistent(m, selected.value, n);
    }
  }

  /** Repeating a friend request changes nothing: the second one fails the check that `n` is not listed yet. */
  lemma FriendRequestTwice(m: Store, selected: Option<string>, n: string)
    ensures FriendRequest(FriendRequest(m, selected, n), selected, n) == FriendRequest(m, selected, n)
  {
    if CanBefriend(m, selected, n) {
      var a := selected.value;
      assert n in Befriended(m, a, n)[a].friends;
    }
  }

  /**
   * Only the first step of addFriend, without the reciprocal second one, leaves
   * `a` listing `b` while `b` does not list `a`: the store does not repair it.
   */
  lemma OneSidedIsAsymmetric(m: Store, a: string, b: string)
    requires a in m && b in m && a != b && a !in m[b].friends
    ensures var once := m[a := m[a].(friends := AddedFriend(m[a].friends, b))];
      b in once[a].friends && a !in once[b].friends && !Symmetric(once)
  {
  }

  /** The store after addProfile(n): a fresh profile is stored under a new name; an existing name leaves the store as it is. */
  function Enrolled(m: Store, n: string): (r: Store)
    ensures r.Keys == m.Keys + {n}
    ensures forall k :: k in m ==> r[k] == m[k]
    ensures n !in m ==> r[n] == NewProfile(n)
  {
    if n in m then m else m[n := NewProfile(n)]
  }

  /** The store after changeStatus(text): the selected profile, when there is one, gets the status `text`. */
  function StatusChanged(m: Store, selected: Option<string>, text: string): (r: Store)
    ensures r.Keys == m.Keys
    ensures forall k :: k in m ==>
      r[k] == m[k].(status := if Some(k) == selected then Some(text) else m[k].status)
  {
    if selected.Some? && selected.value in m
    then m[selected.value := m[selected.value].(status := Some(text))]
    else m
  }

  /**
   * The store after changePicture: when a profile is selected and the image could be
   * loaded (`loaded` is not None), it becomes the selected profile's image.
   */
  function PictureChanged(m: Store, selected: Option<string>, loaded: Option<Image>): (r: Store)
    ensures r.Keys == m.Keys
    ensures forall k :: k in m ==>
      r[k] == m[k].(image := if Some(k) == selected && loaded.Some? then loaded else m[k].image)
  {
    if selected.Some? && selected.value in m && loaded.Some?
    then m[selected.value := m[selected.value].(image := loaded)]
    else m
  }

  /** A fresh profile under a new name keeps the store consistent. */
  lemma EnrolledConsistent(m: Store, n: string)
    requires Consistent(m)
    ensures Consistent(Enrolled(m, n))
  {
    if n !in m {
      var r := m[n := NewProfile(n)];
      forall x, y | x in r && y in r[x].friends
        ensures y in r && x in r[y].friends
      {
        assert x != n;
      }
    }
  }

  /** Deleting a profile keeps the store consistent. */
  lemma DeletedConsistent(m: Store, n: string)
    requires Consistent(m)
    ensures Consistent(Deleted(m, n))
  {
    var r := Deleted(m, n);
    DeletedUnlinks(m, n);
    forall x, y | x in r && y in r[x].friends
      ensures y in r && x in r[y].friends
    {
      assert y in m[x].friends && y != n;
      assert x in m[y].friends && x != n;
    }
  }

  /** In a closed store, deleting a name that is no key changes nothing. */
  lemma DeletedAbsentClosed(m: Store, n: string)
    requires Closed(m) && n !in m
    ensures Deleted(m, n) == m
  {
    DeletedAbsentUnchanged(m, n);
  }

  /** A new status or a new image leaves names and friend lists alone, so the store stays consistent. */
  lemma RestampedConsistent(m: Store, selected: Option<string>, text: string, loaded: Option<Image>)
    requires Consistent(m)
    ensures Consistent(StatusChanged(m, selected, text))
    ensures Consistent(PictureChanged(m, selected, loaded))
  {
  }

  /**
   * The controller's state. The commands that change a stored profile in place
   * (status, picture, friends) name `db` in their `modifies` clause only to bring
   * its ghost field `store` up to date; they leave `db.profiles` as it was.
   */
  class Session {
    const db: Database
    var current: Profile?

    /** The store is consistent and the selection is nothing or the profile stored under its name. */
    ghost predicate Valid()
      reads this, db, db.profiles.Values
    {
      && db.Valid()
      && Closed(db.store) && Symmetric(db.store)
      && (current != null ==> current.name in db.profiles && db.profiles[current.name] == current)
    }

    /** The name of the selected profile, if any. */
    ghost function Selected(): Option<string>
      reads this
    {
      if current == null then None else Some(current.name)
    }

    /** An empty store and no selection. */
    constructor ()
      ensures Valid() && fresh(db)
      ensures db.store == map[] && Selected() == None
    {
      db := new Database();
      current := null;
    }

    /** isProfileSelected: whether some profile is selected. */
    predicate IsProfileSelected()
      reads this
      ensures IsProfileSelected() <==> Selected().Some?
    {
      current != null
    }

    /**
     * addProfile: a new name gets a fresh profile, which is stored and selected;
     * an existing name is only selected, and its profile object is kept.
     */
    method AddProfile(n: string)
      requires Valid()
      modifies this, db
      ensures Valid()
      ensures Selected() == Some(n)
      ensures db.store == Enrolled(old(db.store), n)
      ensures n in old(db.store) ==> db.profiles == old(db.profiles)
      ensures n !in old(db.store) ==> fresh(current)
    {
      EnrolledConsistent(db.store, n);
      if db.ContainsProfile(n) {
        current := db.GetProfile(n);
      } else {
        var p := new Profile(n);
        db.AddProfile(p);
        current := p;
      }
    }

    /** deleteProfile: clears the selection and deletes `n` when it is stored. */
    method DeleteProfile(n: string)
      requires Valid()
      modifies this, db, db.profiles.Values
      ensures Valid()
      ensures Selected() == None
      ensures n !in old(db.store) ==> db.store == old(db.store)
      ensures db.store == Deleted(old(db.store), n)
    {
      ghost var m := db.store;
      current := null;
      if db.ContainsProfile(n) {
        DeletedConsistent(m, n);
        db.DeleteProfile(n);
      } else {
        DeletedAbsentClosed(m, n);
      }
    }

    /**
     * lookupProfile: selects the profile stored under `n` and answers its
     * description, or clears the selection when there is none; the store is untouched.
     */
    method LookupProfile(n: string) returns (shown: Option<string>)
      requires Valid()
      modifies this
      ensures Valid()
      ensures Selected() == if n in db.store then Some(n) else None
      ensures shown == if n in db.store then Some(Describe(db.store[n])) else None
    {
      if db.ContainsProfile(n) {
        shown := Some(db.GetProfile(n).ToString());
        current := db.GetProfile(n);
      } else {
        current := null;
        shown := None;
      }
      assert db.Valid();
    }

    /** changeStatus: sets the status of the selected profile; does nothing when none is selected. */
    method ChangeStatus(text: string)
      requires Valid()
      modifies db, current
      ensures Valid()
      ensures db.profiles == old(db.profiles)
      ensures db.store == StatusChanged(old(db.store), Selected(), text)
    {
      RestampedConsistent(db.store, Selected(), text, None);
      if current != null {
        current.SetStatus(Some(text));
        db.OthersKept(current);
        db.Refresh(current);
      }
    }

    /**
     * changePicture: when a profile is selected and the image could be loaded
     * (`loaded` is not None), it becomes the selected profile's image; otherwise nothing changes.
     */
    method ChangePicture(loaded: Option<Image>)
      requires Valid()
      modifies db, current
      ensures Valid()
      ensures db.profiles == old(db.profiles)
      ensures db.store == PictureChanged(old(db.store), Selected(), loaded)
    {
      RestampedConsistent(db.store, Selected(), "", loaded);
      if current != null && loaded.Some? {
        current.SetImage(loaded);
        db.OthersKept(current);
        db.Refresh(current);
      }
    }

    /** isAddFriendValid: a profile is selected, `n` is stored, and the selected profile does not list `n` yet. */
    predicate IsAddFriendValid(n: string)
      reads this, db, db.profiles.Values
      requires Valid()
      ensures IsAddFriendValid(n) <==> CanBefriend(db.store, Selected(), n)
    {
      current != null && db.ContainsProfile(n) && !current.ContainsFriend(n)
    }

    /**
     * addFriend: when the checks pass, the selected profile adds `n` and the
     * profile `n` adds the selected name; otherwise nothing changes.
     */
    method AddFriend(n: string)
      requires Valid()
      modifies db, db.profiles.Values
      ensures Valid()
      ensures db.profiles == old(db.profiles)
      ensures db.store == FriendRequest(old(db.store), Selected(), n)
    {
      ghost var m := db.store;
      FriendRequestConsistent(m, Selected(), n);
      if IsAddFriendValid(n) {
        var me := current.name;
        var _ := current.AddFriend(n);
        db.OthersKept(current);
        db.Refresh(current);
        label Added:
        var other := db.GetProfile(n);
        var _ := other.AddFriend(me);
        db.OthersKept@Added(other);
        db.Refresh(other);
      }
    }
  }
}
