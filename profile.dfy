/**
 * One user's profile: a fixed name, a status that may be unset, an image
 * handle that may be absent and an ordered list of friend names without
 * duplicates (FacePamphletProfile.java).
 *
 * The object itself is the class `Profile`; `ProfileData` is its value, used
 * by the specification functions and by the store's abstract view. The
 * pure functions `AddedFriend` and `RemovedFriend` say what the two
 * list-changing methods do to the friend list.
 */
module Profiles {
  import opened Wrappers
  import opened Format

  /** An image handle. Its content (pixels loaded from a file) is not part of this model. */
  type Image(==)

  /** The value of a profile: name, status (None = never set or set to null), image and friends. */
  datatype ProfileData = ProfileData(
    name: string,
    status: Option<string>,
    image: Option<Image>,
    friends: seq<string>)

  /** The value of a freshly constructed profile. */
  function NewProfile(name: string): (p: ProfileData)
    ensures p.name == name && p.status == None && p.image == None && p.friends == []
  {
    ProfileData(name, None, None, [])
  }

  /** No name occurs twice. */
  ghost predicate NoDups(s: seq<string>)
  {
    forall i, j :: 0 <= i < j < |s| ==> s[i] != s[j]
  }

  // ---------------------------------------------------------------------------
  // The friend list under addFriend and removeFriend

  /** The friend list after `addFriend(f)`: `f` is appended unless it is already there. */
  function AddedFriend(friends: seq<string>, f: string): (r: seq<string>)
    ensures f in r
    ensures forall g :: g in r <==> g in friends || g == f
    ensures f in friends ==> r == friends
    ensures f !in friends ==> |r| == |friends| + 1 && r[..|friends|] == friends
    ensures NoDups(friends) ==> NoDups(r)
  {
    if f in friends then friends else friends + [f]
  }

  /** Position of the first occurrence of `x` (`ArrayList.indexOf`). */
  function IndexOf(s: seq<string>, x: string): (i: nat)
    requires x in s
    ensures i < |s| && s[i] == x
    ensures x !in s[..i]
  {
    if s[0] == x then 0
    else
      var k := IndexOf(s[1..], x);
      assert s[..k + 1] == [s[0]] + s[1..][..k];
      k + 1
  }

  /** The friend list after `removeFriend(f)`: the first `f` is taken out, nothing else moves. */
  function RemovedFriend(friends: seq<string>, f: string): (r: seq<string>)
    ensures f !in friends ==> r == friends
    ensures f in friends ==> |r| == |friends| - 1
  {
    if friends == [] then []
    else if friends[0] == f then friends[1..]
    else [friends[0]] + RemovedFriend(friends[1..], f)
  }

  /** Every occurrence of `f` dropped, the others in their order: an independent reference for `RemovedFriend`. */
  function Without(s: seq<string>, f: string): (r: seq<string>)
    ensures forall g :: g in r <==> g in s && g != f
  {
    if s == [] then []
    else if s[0] == f then Without(s[1..], f)
    else [s[0]] + Without(s[1..], f)
  }

  lemma NoDupsTail(s: seq<string>)
    requires NoDups(s) && s != []
    ensures NoDups(s[1..]) && s[0] !in s[1..]
  {
  }

  /** `removeFriend` as the code writes it: `friends.remove(friends.indexOf(f))`. */
  lemma {:induction false} RemovedFriendAtIndexOf(s: seq<string>, f: string)
    requires f in s
    ensures RemovedFriend(s, f) == s[..IndexOf(s, f)] + s[IndexOf(s, f) + 1..]
  {
    if s[0] != f {
      var t := s[1..];
      RemovedFriendAtIndexOf(t, f);
      var k := IndexOf(t, f);
      assert s[..k + 1] == [s[0]] + t[..k];
      assert s[k + 2..] == t[k + 1..];
    }
  }

  /** On a duplicate-free list, removing the first `f` removes every `f` and keeps the order of the rest. */
  lemma {:induction false} RemovedFriendIsWithout(s: seq<string>, f: string)
    requires NoDups(s)
    ensures RemovedFriend(s, f) == Without(s, f)
  {
    if s != [] {
      NoDupsTail(s);
      RemovedFriendIsWithout(s[1..], f);
    }
  }

  /** Dropping a name keeps a duplicate-free list duplicate-free. */
  lemma {:induction false} WithoutNoDups(s: seq<string>, f: string)
    requires NoDups(s)
    ensures NoDups(Without(s, f))
  {
    if s != [] {
      NoDupsTail(s);
      WithoutNoDups(s[1..], f);
      var w := Without(s[1..], f);
      if s[0] != f {
        assert s[0] !in w;
        assert Without(s, f) == [s[0]] + w;
      }
    }
  }

  /** Removing a friend from a duplicate-free list leaves it duplicate-free, without `f`, and with every other name still there. */
  lemma RemovedFriendNoDups(s: seq<string>, f: string)
    requires NoDups(s)
    ensures NoDups(RemovedFriend(s, f))
    ensures forall g :: g in RemovedFriend(s, f) <==> g in s && g != f
  {
    RemovedFriendIsWithout(s, f);
    WithoutNoDups(s, f);
  }

  /** On a duplicate-free list a name occurs at most once. */
  lemma {:induction false} NoDupsCountAtMostOne(s: seq<string>, x: string)
    requires NoDups(s)
    ensures multiset(s)[x] <= 1
  {
    if s != [] {
      NoDupsTail(s);
      NoDupsCountAtMostOne(s[1..], x);
      assert s == [s[0]] + s[1..];
    }
  }

  /** Adding the same friend twice is the same as adding it once, and leaves exactly one copy. */
  lemma AddedFriendTwice(s: seq<string>, f: string)
    requires NoDups(s)
    ensures AddedFriend(AddedFriend(s, f), f) == AddedFriend(s, f)
    ensures multiset(AddedFriend(s, f))[f] == 1
  {
    NoDupsCountAtMostOne(AddedFriend(s, f), f);
  }

  /** Taking out the first `f` of a list whose only `f` is the last element drops that element. */
  lemma {:induction false} RemovedFriendLast(s: seq<string>, f: string)
    requires f !in s
    ensures RemovedFriend(s + [f], f) == s
  {
    var t := s + [f];
    if s == [] {
      assert t == [f];
    } else {
      assert t[0] == s[0] && t[1..] == s[1..] + [f];
      RemovedFriendLast(s[1..], f);
    }
  }

  /** Removing a friend that was just added restores the list. */
  lemma AddedThenRemoved(s: seq<string>, f: string)
    requires f !in s
    ensures RemovedFriend(AddedFriend(s, f), f) == s
  {
    RemovedFriendLast(s, f);
  }

  // ---------------------------------------------------------------------------
  // The textual form (toString and formatArray)

  /** `formatArray`: the list's `toString` with every '[' and ']' deleted, then trimmed. */
  function FormatArray(items: seq<string>): (r: string)
    ensures '[' !in r && ']' !in r
    ensures r == [] || (!IsTrimmable(r[0]) && !IsTrimmable(r[|r| - 1]))
  {
    var open := DeleteAll(ListToString(items), '[');
    var bare := DeleteAll(open, ']');
    DeleteAllKeepsOut(open, ']', '[');
    TrimIsVisibleSlice(bare);
    Trim(bare)
  }

  /**
   * `toString`: "name (status) : friends", with an unset status shown as nothing
   * and a space before the colon; the friends part holds no bracket.
   */
  function Describe(p: ProfileData): (r: string)
    ensures var head := p.name + " (" + p.status.GetOr("") + ") : ";
      head <= r && '[' !in r[|head|..] && ']' !in r[|head|..]
  {
    p.name + " (" + p.status.GetOr("") + ") : " + FormatArray(p.friends)
  }

  /** For plain names (see `PlainItem`), `formatArray` is exactly the names joined by ", ". */
  lemma FormatArrayJoins(items: seq<string>)
    requires forall i :: 0 <= i < |items| ==> PlainItem(items[i])
    ensures FormatArray(items) == Join(items, ", ")
  {
    UnbracketedList(items);
  }

  /** For plain friend names, the description is "name (status) : f1, f2, ..." in list order. */
  lemma DescribeListsFriends(p: ProfileData)
    ensures (forall i :: 0 <= i < |p.friends| ==> PlainItem(p.friends[i])) ==>
      Describe(p) == p.name + " (" + p.status.GetOr("") + ") : " + Join(p.friends, ", ")
  {
    if forall i :: 0 <= i < |p.friends| ==> PlainItem(p.friends[i]) {
      FormatArrayJoins(p.friends);
    }
  }

  // ---------------------------------------------------------------------------
  // The profile object

  class Profile {
    const name: string
    var status: Option<string>
    var image: Option<Image>
    var friends: seq<string>

    /** addFriend and removeFriend never let a name occur twice. */
    ghost predicate Valid()
      reads this
    {
      NoDups(friends)
    }

    function Data(): ProfileData
      reads this
    {
      ProfileData(name, status, image, friends)
    }

    /** A new profile: the given name, no status, no image, no friends. */
    constructor (name: string)
      ensures Valid()
      ensures Data() == NewProfile(name)
    {
      this.name := name;
      status := None;
      image := None;
      friends := [];
    }

    /** getStatus: the last status set, or "" when none was set (or null was set). */
    function GetStatus(): (r: string)
      reads this
      ensures status.Some? ==> r == status.value
      ensures r == "" <==> status == None || status == Some("")
    {
      status.GetOr("")
    }

    method SetStatus(s: Option<string>)
      modifies this
      ensures Data() == old(Data()).(status := s)
    {
      status := s;
    }

    method SetImage(i: Option<Image>)
      modifies this
      ensures Data() == old(Data()).(image := i)
    {
      image := i;
    }

    /** containsFriend: exact, case-sensitive membership. */
    predicate ContainsFriend(n: string)
      reads this
      ensures ContainsFriend(n) <==> exists i :: 0 <= i < |friends| && friends[i] == n
    {
      n in friends
    }

    /** addFriend: appends `f` and answers true when `f` was not listed; otherwise changes nothing and answers false. */
    method AddFriend(f: string) returns (added: bool)
      requires Valid()
      modifies this
      ensures Valid()
      ensures added <==> f !in old(friends)
      ensures Data() == old(Data()).(friends := AddedFriend(old(friends), f))
    {
      if f !in friends {
        friends := friends + [f];
        return true;
      }
      return false;
    }

    /** removeFriend: takes out the first `f` and answers true when `f` was listed; otherwise changes nothing and answers false. */
    method RemoveFriend(f: string) returns (removed: bool)
      requires Valid()
      modifies this
      ensures Valid()
      ensures removed <==> f in old(friends)
      ensures Data() == old(Data()).(friends := RemovedFriend(old(friends), f))
    {
      if f in friends {
        RemovedFriendNoDups(friends, f);
        RemovedFriendAtIndexOf(friends, f);
        var i := IndexOf(friends, f);
        friends := friends[..i] + friends[i + 1..];
        return true;
      }
      return false;
    }

    /** toString: for plain friend names, the name, the status as getStatus answers it, and the friends joined by ", ". */
    function ToString(): (r: string)
      reads this
      ensures (forall i :: 0 <= i < |friends| ==> PlainItem(friends[i])) ==>
        r == name + " (" + GetStatus() + ") : " + Join(friends, ", ")
    {
      DescribeListsFriends(Data());
      Describe(Data())
    }
  }
}
