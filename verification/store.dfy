/** The credential store behind the auth handlers: the `User` and `Profile`
    collections, as one immutable value.

    Users are keyed by their email, the natural key every handler looks them
    up by. Profiles are kept in insertion order, which the model uses to pick
    one when several match (the document store itself guarantees no order);
    a profile refers to its user by the user's id. Ids are
    opaque and store-assigned: `nextId` stands in for the document store's id
    generator and is larger than every id handed out so far. */
module CredentialStore {
  import opened Options

  /** The `image` field of the upload request's body, kept as opaque bytes. */
  datatype Image = Image(data: seq<bv8>)

  datatype User = User(id: nat, name: string, email: string, passwordHash: string)

  /** A profile attachment; `owner` is the id of the user it belongs to. */
  datatype Profile = Profile(id: nat, owner: nat, image: Option<Image>)

  datatype Store = Store(users: map<string, User>, profiles: seq<Profile>, nextId: nat)

  /** The ids of all stored users. */
  function UserIds(s: Store): set<nat> {
    set e | e in s.users :: s.users[e].id
  }

  /** Well-formedness of a store: each user sits under its own email, ids are
      unique and below `nextId`, and every profile belongs to a stored user. */
  ghost predicate Valid(s: Store) {
    && (forall e :: e in s.users ==> s.users[e].email == e && s.users[e].id < s.nextId)
    && (forall e1, e2 :: e1 in s.users && e2 in s.users && e1 != e2 ==> s.users[e1].id != s.users[e2].id)
    && (forall i :: 0 <= i < |s.profiles| ==> s.profiles[i].id < s.nextId && s.profiles[i].owner in UserIds(s))
    && (forall i, j :: 0 <= i < j < |s.profiles| ==> s.profiles[i].id != s.profiles[j].id)
  }

  /** `User.findOne({ email })`: on a valid store, looking the email up as a
      key finds exactly the user whose email field is `email`. */
  function FindUser(s: Store, email: string): (r: Option<User>)
    ensures r.Some? <==> email in s.users
    ensures r.Some? ==> r.value == s.users[email]
    ensures Valid(s) ==> (r.Some? <==> exists e :: e in s.users && s.users[e].email == email)
    ensures Valid(s) && r.Some? ==> r.value.email == email
  {
    if email in s.users then Some(s.users[email]) else None
  }

  /** Number of profiles in `ps` that belong to the user with id `owner`. */
  function CountOwned(ps: seq<Profile>, owner: nat): nat {
    if |ps| == 0 then 0
    else (if ps[0].owner == owner then 1 else 0) + CountOwned(ps[1..], owner)
  }

  /** `Profile.findOne({ user: owner })`: the position of the first profile,
      in insertion order, that belongs to `owner`, if any. */
  function FirstOwned(ps: seq<Profile>, owner: nat): (r: Option<nat>)
    ensures r.Some? ==> r.value < |ps| && ps[r.value].owner == owner
    ensures r.Some? ==> forall j :: 0 <= j < r.value ==> ps[j].owner != owner
    ensures r.None? <==> forall j :: 0 <= j < |ps| ==> ps[j].owner != owner
  {
    if |ps| == 0 then None
    else if ps[0].owner == owner then Some(0)
    else
      match FirstOwned(ps[1..], owner)
      case None => None
      case Some(k) => Some(k + 1)
  }

  /** `new User({ name, email, password }).save()`, with a fresh id. */
  function CreateUser(s: Store, name: string, email: string, passwordHash: string): (s': Store)
    requires email !in s.users
    ensures s'.users.Keys == s.users.Keys + {email}
    ensures s'.users[email] == User(s.nextId, name, email, passwordHash)
    ensures forall e :: e in s.users ==> s'.users[e] == s.users[e]
    ensures s'.profiles == s.profiles && s'.nextId == s.nextId + 1
  {
    Store(s.users[email := User(s.nextId, name, email, passwordHash)], s.profiles, s.nextId + 1)
  }

  /** `existingUser.password = hash; existingUser.save()`. */
  function SetPasswordHash(s: Store, email: string, passwordHash: string): (s': Store)
    requires email in s.users
    ensures s'.users.Keys == s.users.Keys
    ensures s'.users[email] == s.users[email].(passwordHash := passwordHash)
    ensures forall e :: e in s.users && e != email ==> s'.users[e] == s.users[e]
    ensures s'.profiles == s.profiles && s'.nextId == s.nextId
  {
    s.(users := s.users[email := s.users[email].(passwordHash := passwordHash)])
  }

  /** `new Profile({ user: owner, image }).save()`, with a fresh id. */
  function AddProfile(s: Store, owner: nat, image: Option<Image>): (s': Store)
    ensures |s'.profiles| == |s.profiles| + 1
    ensures s'.profiles[..|s.profiles|] == s.profiles
    ensures s'.profiles[|s.profiles|] == Profile(s.nextId, owner, image)
    ensures s'.users == s.users && s'.nextId == s.nextId + 1
  {
    s.(profiles := s.profiles + [Profile(s.nextId, owner, image)], nextId := s.nextId + 1)
  }

  /** `Profile.deleteOne({ _id })` for the profile at position `i`. */
  function DeleteProfileAt(s: Store, i: nat): (s': Store)
    requires i < |s.profiles|
    ensures |s'.profiles| == |s.profiles| - 1
    ensures multiset(s'.profiles) + multiset{s.profiles[i]} == multiset(s.profiles)
    ensures s'.users == s.users && s'.nextId == s.nextId
  {
    assert s.profiles == s.profiles[..i] + [s.profiles[i]] + s.profiles[i + 1..];
    s.(profiles := s.profiles[..i] + s.profiles[i + 1..])
  }

  lemma {:induction false} CountOwnedAppend(ps: seq<Profile>, p: Profile, owner: nat)
    ensures CountOwned(ps + [p], owner) == CountOwned(ps, owner) + (if p.owner == owner then 1 else 0)
    decreases |ps|
  {
    if |ps| == 0 {
      assert ps + [p] == [p];
    } else {
      assert (ps + [p])[1..] == ps[1..] + [p];
      CountOwnedAppend(ps[1..], p, owner);
    }
  }

  lemma {:induction false} CountOwnedConcat(a: seq<Profile>, b: seq<Profile>, owner: nat)
    ensures CountOwned(a + b, owner) == CountOwned(a, owner) + CountOwned(b, owner)
    decreases |a|
  {
    if |a| == 0 {
      assert a + b == b;
    } else {
      assert (a + b)[1..] == a[1..] + b;
      CountOwnedConcat(a[1..], b, owner);
    }
  }

  /** A profile belongs to `owner` somewhere in `ps` exactly when the count is positive. */
  lemma {:induction false} CountOwnedPositive(ps: seq<Profile>, owner: nat)
    ensures CountOwned(ps, owner) > 0 <==> exists j :: 0 <= j < |ps| && ps[j].owner == owner
    decreases |ps|
  {
    if |ps| > 0 {
      CountOwnedPositive(ps[1..], owner);
      if CountOwned(ps[1..], owner) > 0 {
        var j :| 0 <= j < |ps[1..]| && ps[1..][j].owner == owner;
        assert ps[j + 1].owner == owner;
      }
      if exists j :: 0 <= j < |ps| && ps[j].owner == owner {
        var j :| 0 <= j < |ps| && ps[j].owner == owner;
        if j > 0 {
          assert ps[1..][j - 1].owner == owner;
        }
      }
    }
  }

  /** Deleting the profile at `i` takes one away from its owner's count and
      leaves every other user's count alone. */
  lemma CountOwnedDelete(s: Store, i: nat, owner: nat)
    requires i < |s.profiles|
    ensures CountOwned(DeleteProfileAt(s, i).profiles, owner)
            == CountOwned(s.profiles, owner) - (if s.profiles[i].owner == owner then 1 else 0)
  {
    var ps := s.profiles;
    assert ps == ps[..i] + ([ps[i]] + ps[i + 1..]);
    CountOwnedConcat(ps[..i], [ps[i]] + ps[i + 1..], owner);
    CountOwnedConcat([ps[i]], ps[i + 1..], owner);
    CountOwnedConcat(ps[..i], ps[i + 1..], owner);
    assert CountOwned([ps[i]], owner) == if ps[i].owner == owner then 1 else 0 by {
      assert [ps[i]][1..] == [];
    }
  }

  /** Adding a profile gives its owner exactly one more, and nobody else any. */
  lemma CountOwnedAdd(s: Store, owner: nat, image: Option<Image>, other: nat)
    ensures CountOwned(AddProfile(s, owner, image).profiles, other)
            == CountOwned(s.profiles, other) + (if other == owner then 1 else 0)
  {
    CountOwnedAppend(s.profiles, Profile(s.nextId, owner, image), other);
  }

  lemma DeleteProfileAtValid(s: Store, i: nat)
    requires Valid(s) && i < |s.profiles|
    ensures Valid(DeleteProfileAt(s, i))
  {
  }
}
