# FacePamphlet: profiles, the profile store and the controller session

FacePamphlet is a small social network. A **profile** has a fixed name, a
status, an image and an ordered list of friend names. The **database** maps
each name, compared case-sensitively, to its profile object. Deleting a
profile also scrubs its name from every other friend list. The
**controller** keeps one selected profile (`currentProfile`). Through it the
user can:

- add, delete and look up profiles;
- change the selected profile's status or picture;
- befriend another profile, which is a checked two-step reciprocal operation.

The model has five Dafny modules:

- `Wrappers` (`wrappers.dfy`): the `Option` type.
- `Format` (`format.dfy`): the pieces of the Java string library that `formatArray` uses:
  - `ArrayList.toString`;
  - `String.replace` of a one-character literal by "";
  - `String.trim`, which drops characters up to U+0020 at both ends.
- `Profiles` (`profile.dfy`):
  - the class `Profile`, the profile object, with `const name` and mutable `status`, `image` and `friends`;
  - its value `ProfileData`;
  - the friend-list functions `AddedFriend` and `RemovedFriend`, which specify `addFriend` and `removeFriend`;
  - the text form (`Describe`, `FormatArray`).
- `ProfileDatabase` (`database.dfy`):
  - the class `Database`, which holds `profiles: map<string, Profile>`, so stored profiles are shared objects, as in Java;
  - a ghost field `store` that holds the value of the database, a `map<string, ProfileData>`;
  - `Deleted`, the specification of `deleteProfile`. Its loop is the method pair `Sweep`/`SweepStep`.
- `Pamphlet` (`pamphlet.dfy`):
  - the class `Session`, which holds `db` and `current: Profile?`, an alias of a stored object;
  - one specification function per command on the store's value (`Enrolled`, `StatusChanged`, `PictureChanged`, `FriendRequest`); `Session.DeleteProfile` is specified by `ProfileDatabase.Deleted`.

`Session.Valid()` is the invariant that every command keeps:

- every stored profile is stored under its own name and lists no friend twice;
- every friend name is a stored name (`Closed`);
- friendship is symmetric (`Symmetric`);
- the selection is null or the object stored under its name.

In two places the documentation and the code disagree. The model follows the code in both:

- `deleteProfile` is documented to leave the database unchanged when the name is not stored (FacePamphletDatabase.java:53-54). The sweep runs anyway, so a stale friend name is still scrubbed:
  - `DeletedAbsentCanChange` exhibits the change;
  - `DeletedAbsentUnchanged` gives the condition under which the documented promise holds;
  - in a consistent store, that condition always holds (`DeletedAbsentClosed`).
- `toString` is documented as "Alice (coding): ...", but the code writes a space before the colon: "Alice (coding) : ...". `Describe` follows the code.

## Model

| member | source | states |
|---|---|---|
| Profiles.NewProfile | FacePamphletProfile.java:21-23 | a new profile has the given name, an unset status, no image and no friends |
| Profiles.Profile.constructor | FacePamphletProfile.java:21-23 | the constructed object has the value `NewProfile(name)` and a duplicate-free (empty) friend list |
| Profiles.Profile.GetStatus | FacePamphletProfile.java:51-56 | answers the last status set; it is "" exactly when none was set, null was set or "" was set |
| Profiles.Profile.SetStatus | FacePamphletProfile.java:59-61 | only the status changes; name, image and friends stay |
| Profiles.Profile.SetImage | FacePamphletProfile.java:42-44 | only the image changes |
| Profiles.Profile.ContainsFriend | FacePamphletProfile.java:106-111 | true exactly when some position of the friend list holds exactly `n` (case-sensitive) |
| Profiles.AddedFriend | FacePamphletProfile.java:71-77 | `f` ends up listed; when absent it is appended and the old list is a prefix; when present the list is unchanged; membership is old membership plus `f`; no duplicates are introduced |
| Profiles.Profile.AddFriend | FacePamphletProfile.java:71-77 | answers true exactly when `f` was not listed; the new friend list is `AddedFriend` of the old one; everything else is unchanged and the list stays duplicate-free |
| Profiles.IndexOf | FacePamphletProfile.java:88 | the index of the first occurrence: it holds `x` and no earlier position does |
| Profiles.RemovedFriend | FacePamphletProfile.java:86-92 | an absent name leaves the list unchanged; a present one makes it exactly one shorter |
| Profiles.RemovedFriendAtIndexOf | FacePamphletProfile.java:88 | `RemovedFriend` is the list with the element at `indexOf(f)` cut out, as `remove(indexOf(f))` does |
| Profiles.Without | FacePamphletProfile.java:79-85 | reference definition: the names of the list other than `f`, in order |
| Profiles.RemovedFriendIsWithout | FacePamphletProfile.java:86-92 | on a duplicate-free list, removing the first `f` removes every `f` and keeps the others in their order |
| Profiles.WithoutNoDups | FacePamphletProfile.java:86-92 | dropping a name keeps a list duplicate-free |
| Profiles.RemovedFriendNoDups | FacePamphletProfile.java:86-92 | removal keeps the list duplicate-free; afterwards a name is listed exactly when it was listed before and is not `f` |
| Profiles.Profile.RemoveFriend | FacePamphletProfile.java:86-92 | answers true exactly when `f` was listed; the new friend list is `RemovedFriend` of the old one; everything else is unchanged and the list stays duplicate-free |
| Profiles.NoDupsCountAtMostOne | FacePamphletProfile.java:71-77 | in a duplicate-free list every name occurs at most once |
| Profiles.AddedFriendTwice | FacePamphletProfile.java:71-77 | adding the same friend twice equals adding it once, and leaves exactly one copy |
| Profiles.AddedThenRemoved | FacePamphletProfile.java:71-92 | removing a friend that was just added restores the previous list |
| Profiles.FormatArray | FacePamphletProfile.java:138-144 | `formatArray` (the list's `toString`, every '[' and ']' deleted, then trimmed) holds no bracket and is empty or has visible characters at both ends |
| Profiles.Describe | FacePamphletProfile.java:123-132 | `toString` starts with name + " (" + status or "" + ") : ", with the code's space before the colon, and the friends part after it holds no bracket |
| Profiles.Profile.ToString | FacePamphletProfile.java:123-132 | for plain friend names, the object's `toString` is name + " (" + `getStatus()` + ") : " + the friends joined by ", " |
| Profiles.FormatArrayJoins | FacePamphletProfile.java:138-144 | for friend names that are `PlainItem`s, `formatArray` is the names joined by ", " |
| Profiles.DescribeListsFriends | FacePamphletProfile.java:123-132 | for plain friend names, `toString` is name + " (" + status or "" + ") : " + the friends joined by ", " in list order |
| Format.Join | FacePamphletProfile.java:139 | the joined text of a non-empty list starts with the first item |
| Format.ListToString | FacePamphletProfile.java:139 | `toString` of the list is at least two characters long, opens with '[' and closes with ']' |
| Format.DeleteAll | FacePamphletProfile.java:140-141 | after `replace(c, "")` no `c` remains and the text is no longer than before |
| Format.DeleteAllAbsent | FacePamphletProfile.java:140-141 | deleting a character that does not occur changes nothing |
| Format.DeleteAllKeepsOut | FacePamphletProfile.java:140-141 | deleting one character introduces no other: a character absent before is absent after |
| Format.DeleteAllAppend | FacePamphletProfile.java:140-141 | deleting distributes over concatenation |
| Format.JoinExcludes | FacePamphletProfile.java:139 | a character in no item and not in the separator is not in the joined text |
| Format.JoinEnds | FacePamphletProfile.java:139 | joined non-empty items start with the first item's first character and end with the last item's last character |
| Format.StripBrackets | FacePamphletProfile.java:140-141 | deleting '[' and then ']' from "[" + j + "]" gives back `j` when `j` has no bracket |
| Format.ListWithoutBrackets | FacePamphletProfile.java:139-141 | with no bracket in any item, the two deletions turn the list's `toString` into the items joined by ", " |
| Format.Trim | FacePamphletProfile.java:142 | `trim` answers a text no longer than its input that is empty or starts and ends with a character above U+0020; `TrimIsVisibleSlice` pins which characters it drops |
| Format.TrimLeadingSuffix | FacePamphletProfile.java:142 | the dropped prefix consists only of characters up to U+0020, and the suffix left is empty or starts with a visible character |
| Format.TrimTrailingPrefix | FacePamphletProfile.java:142 | the dropped suffix consists only of characters up to U+0020, and the prefix left is empty or ends with a visible character |
| Format.TrimIsVisibleSlice | FacePamphletProfile.java:142 | `trim` answers the slice of its input from the first to the last character above U+0020: every character before and after the slice is up to U+0020, and the slice is empty or has visible characters at both ends |
| Format.TrimKeepsVisibleEnds | FacePamphletProfile.java:142 | a text with visible ends is its own `trim` |
| Format.UnbracketedList | FacePamphletProfile.java:138-144 | for `PlainItem`s, the whole `formatArray` pipeline yields the items joined by ", " |
| ProfileDatabase.Database.Valid | FacePamphletDatabase.java:29-31 | a valid database's value is well formed: each key is its profile's name and no friend list has duplicates |
| ProfileDatabase.Database.constructor | FacePamphletDatabase.java:18-20 | a new database is empty |
| ProfileDatabase.Database.AddProfile | FacePamphletDatabase.java:29-31 | the profile is stored under its own name, replacing any earlier entry; all other entries stay |
| ProfileDatabase.Database.GetProfile | FacePamphletDatabase.java:39-44 | null exactly when the name is no key; otherwise the stored object, whose name is the key |
| ProfileDatabase.Database.ContainsProfile | FacePamphletDatabase.java:88-93 | true exactly when `getProfile` finds a profile |
| ProfileDatabase.Database.IsFriendsWith | FacePamphletDatabase.java:73-81 | the loop answers true exactly when the profile's friend list contains the name |
| ProfileDatabase.Database.DeleteProfile | FacePamphletDatabase.java:56-67 | the key is removed, the other keys keep the same objects, the removed object is left untouched, and the value becomes `Deleted(old, n)` |
| ProfileDatabase.Database.Sweep | FacePamphletDatabase.java:60-66 | after the loop every stored profile is its earlier value with the first `n` removed |
| ProfileDatabase.Database.SweepStep | FacePamphletDatabase.java:61-65 | one iteration scrubs exactly the profile under `k` and keeps the others |
| ProfileDatabase.Scrubbed | FacePamphletDatabase.java:60-66 | the sweep keeps the set of keys |
| ProfileDatabase.ScrubbedWellFormed | FacePamphletDatabase.java:60-66 | the sweep keeps the store well formed |
| ProfileDatabase.Deleted | FacePamphletDatabase.java:56-67 | the keys after a delete are the old keys without `n` |
| ProfileDatabase.DeletedUnlinks | FacePamphletDatabase.java:47-67 | after a delete the store stays well formed and no remaining profile lists `n`; each remaining profile keeps name, status and image, and its list loses only `n`, in order |
| ProfileDatabase.DeletedAbsentUnchanged | FacePamphletDatabase.java:53-67 | deleting a name that is no key and that no profile lists leaves the store unchanged |
| ProfileDatabase.DeletedAbsentCanChange | FacePamphletDatabase.java:53-67 | deleting a name that is no key still removes it from a friend list that holds it |
| ProfileDatabase.Database.OthersKept | FacePamphlet.java:177-178 | when the controller mutates one stored profile in place, every other stored profile keeps its value |
| Pamphlet.Befriended | FacePamphlet.java:177-178 | the two steps of addFriend keep the keys of the store |
| Pamphlet.BefriendedFriends | FacePamphlet.java:177-178 | only the two friend lists change: each gains the other name, everything else stays, and no duplicates appear |
| Pamphlet.BefriendedConsistent | FacePamphlet.java:177-178 | befriending keeps the store consistent and leaves the two listing each other; other profiles are untouched |
| Pamphlet.OneSidedIsAsymmetric | FacePamphlet.java:177 | the first step alone would break symmetry, so the second step is needed |
| Pamphlet.CanBefriend | FacePamphlet.java:219-232 | the three checks of `isAddFriendValid`: when they pass, a profile is selected and stored, `n` is stored, and the selected profile's `addFriend(n)` appends `n` |
| Pamphlet.FriendRequest | FacePamphlet.java:170-182 | an addFriend request keeps the keys of the store |
| Pamphlet.FriendRequestConsistent | FacePamphlet.java:170-182 | a request keeps the store consistent; an accepted one leaves the selected profile and `n` listing each other |
| Pamphlet.FriendRequestTwice | FacePamphlet.java:227-230 | for every store, repeating a request changes nothing, because the repeat fails the "already friends" check |
| Pamphlet.Enrolled | FacePamphlet.java:238-255 | addProfile adds `n` to the keys, keeps every existing entry, and stores a fresh profile only for a new name |
| Pamphlet.StatusChanged | FacePamphlet.java:149-156 | only the selected profile's status changes, to the text; nothing changes without a selection |
| Pamphlet.PictureChanged | FacePamphlet.java:162-167 | only the selected profile's image changes, and only when the image was loaded |
| Pamphlet.EnrolledConsistent | FacePamphlet.java:244-251 | adding a profile keeps the store consistent |
| Pamphlet.DeletedConsistent | FacePamphlet.java:261-272 | deleting a profile keeps the store consistent |
| Pamphlet.DeletedAbsentClosed | FacePamphletDatabase.java:53-67 | in a closed store, deleting a name that is no key changes nothing, as documented |
| Pamphlet.RestampedConsistent | FacePamphlet.java:149-167 | status and picture changes keep the store consistent |
| Pamphlet.Session.constructor | FacePamphlet.java:35 | the session starts with an empty, consistent store and no selection |
| Pamphlet.Session.IsProfileSelected | FacePamphlet.java:187-193 | true exactly when a profile is selected |
| Pamphlet.Session.AddProfile | FacePamphlet.java:238-255 | afterwards `n` is selected and the store is `Enrolled(old, n)`; an existing name keeps its stored object and only a new name gets a fresh object; the invariant is kept |
| Pamphlet.Session.DeleteProfile | FacePamphlet.java:261-272 | the selection is cleared and the store becomes `Deleted(old, n)`, which is the old store when `n` was absent; the invariant is kept |
| Pamphlet.Session.LookupProfile | FacePamphlet.java:278-289 | selects `n` when stored and answers its `toString`, otherwise clears the selection; the store is untouched and the invariant is kept |
| Pamphlet.Session.ChangeStatus | FacePamphlet.java:149-156 | the store becomes `StatusChanged(old, selection, text)` with the same objects; the invariant is kept |
| Pamphlet.Session.ChangePicture | FacePamphlet.java:162-167 | the store becomes `PictureChanged(old, selection, loaded)` with the same objects; the invariant is kept |
| Pamphlet.Session.IsAddFriendValid | FacePamphlet.java:219-232 | true exactly when a profile is selected, `n` is stored and the selected profile does not list `n` |
| Pamphlet.Session.AddFriend | FacePamphlet.java:170-182 | the store becomes `FriendRequest(old, selection, n)`: both profiles list each other when the checks pass, and nothing changes otherwise; the selection and the invariant are kept |

## Left out

- FacePamphletCanvas.java is not part of this model. It only draws the profile.
- The window is left out: `init`, the interactors, `actionPerformed` with its empty-text-field checks, and every `showMessage`/`displayProfile` call. The commands therefore accept any name, including "".
- Image loading in `addImage` reads a file. Its outcome is the parameter `loaded` of `Session.ChangePicture`, where `None` means the file could not be opened.
- `getName`, `getImage` and `getFriends` are plain field reads (`name`, `image`, `friends`). The iterator of `getFriends` is the `friends` sequence itself.
- `HashMap` iteration order in the delete sweep is left open: `Sweep` picks the next key arbitrarily. The result does not depend on the order.
- Java `null` for a status is `None`. Profile names and friend names are never null here.
- Profiles.DescribeListsFriends: stated only for friend names that are `PlainItem`s (non-empty, no bracket, no character up to U+0020 at either end). Otherwise `formatArray` also deletes brackets inside names and trims blanks off the first and last name, which `Describe` itself still models.
