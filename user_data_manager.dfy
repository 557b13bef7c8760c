/**
 * The in-memory user store: a dictionary from user id to profile, kept in
 * insertion order as Python dictionaries are, and metadata whose
 * `total_users` always equals the number of stored users. Reading and
 * writing the JSON file and the clock are not modelled: each change takes
 * the current timestamp as a parameter.
 */
module UserData {

  import opened Wrappers

  /** A JSON value as a profile dictionary holds it. */
  datatype Json =
    | JNull
    | JBool(b: bool)
    | JNumber(n: real)
    | JString(s: string)
    | JArray(items: seq<Json>)
    | JObject(members: map<string, Json>)

  const LastUpdatedKey: string := "last_updated"
  const UserIdKey: string := "user_id"

  /**
   * A profile dictionary. The store keeps the caller's object itself, not a
   * copy, so a later change by the caller shows through the store.
   */
  class Profile {
    var fields: map<string, Json>

    constructor (fields: map<string, Json>)
      ensures this.fields == fields
    {
      this.fields := fields;
    }
  }

  /** `ids` with `id` taken out, the rest in order: the key order after `del users[id]`. */
  function Erase(ids: seq<string>, id: string): (r: seq<string>)
    ensures forall x :: x in r <==> x in ids && x != id
    ensures Distinct(ids) ==> Distinct(r)
    ensures |r| <= |ids|
  {
    if ids == [] then []
    else
      var rest := Erase(ids[1..], id);
      assert forall x :: x in ids <==> x == ids[0] || x in ids[1..];
      assert Distinct(ids) ==> Distinct(ids[1..]) && ids[0] !in ids[1..] by {
        if Distinct(ids) {
          forall i, j | 0 <= i < j < |ids[1..]| ensures ids[1..][i] != ids[1..][j] {
            assert ids[1..][i] == ids[i + 1] && ids[1..][j] == ids[j + 1];
          }
          forall k | 0 <= k < |ids[1..]| ensures ids[1..][k] != ids[0] {
            assert ids[1..][k] == ids[k + 1];
          }
        }
      }
      if ids[0] == id then rest else [ids[0]] + rest
  }

  /** An id that is not listed leaves the list as it is. */
  lemma {:induction false} EraseAbsent(ids: seq<string>, id: string)
    requires id !in ids
    ensures Erase(ids, id) == ids
  {
    if ids != [] {
      EraseAbsent(ids[1..], id);
      assert ids == [ids[0]] + ids[1..];
    }
  }

  /** Taking an id out works piece by piece, so the remaining ids keep their relative order. */
  lemma {:induction false} EraseAppend(a: seq<string>, b: seq<string>, id: string)
    ensures Erase(a + b, id) == Erase(a, id) + Erase(b, id)
  {
    if a == [] {
      assert a + b == b;
    } else {
      assert (a + b)[0] == a[0];
      assert (a + b)[1..] == a[1..] + b;
      EraseAppend(a[1..], b, id);
    }
  }

  /** In a list of distinct ids, taking out the id at `i` leaves exactly the ids before and after it. */
  lemma EraseAt(ids: seq<string>, i: nat)
    requires Distinct(ids) && i < |ids|
    ensures Erase(ids, ids[i]) == ids[..i] + ids[i + 1..]
  {
    DistinctAround(ids, i);
    SplitAt(ids, i);
    EraseOnly(ids[..i], ids[i], ids[i + 1..]);
  }

  lemma SplitAt(ids: seq<string>, i: nat)
    requires i < |ids|
    ensures ids == ids[..i] + [ids[i]] + ids[i + 1..]
  {
    assert ids[i..] == [ids[i]] + ids[i + 1..];
  }

  lemma EraseOnly(before: seq<string>, id: string, after: seq<string>)
    requires id !in before && id !in after
    ensures Erase(before + [id] + after, id) == before + after
  {
    assert before + [id] + after == before + ([id] + after);
    EraseAppend(before, [id] + after, id);
    EraseAbsent(before, id);
    EraseOne(id, after);
  }

  /** The id at `i` of a list of distinct ids occurs neither before nor after `i`, and is removed there. */
  lemma DistinctAround(ids: seq<string>, i: nat)
    requires Distinct(ids) && i < |ids|
    ensures ids[i] !in ids[..i] && ids[i] !in ids[i + 1..]
  {
    var before, after := ids[..i], ids[i + 1..];
    forall k | 0 <= k < i ensures before[k] != ids[i] {
      assert before[k] == ids[k];
    }
    forall k | 0 <= k < |after| ensures after[k] != ids[i] {
      assert after[k] == ids[i + 1 + k];
    }
  }

  lemma EraseOne(id: string, after: seq<string>)
    requires id !in after
    ensures Erase([id] + after, id) == after
  {
    assert ([id] + after)[1..] == after;
    EraseAbsent(after, id);
  }

  /** Appending a new id keeps the ids distinct. */
  lemma DistinctAppend(ids: seq<string>, id: string)
    requires Distinct(ids) && id !in ids
    ensures Distinct(ids + [id])
  {
    var r := ids + [id];
    forall i, j | 0 <= i < j < |r| ensures r[i] != r[j] {
      assert r[i] == ids[i];
      if j < |ids| {
        assert r[j] == ids[j];
      }
    }
  }

  /** A list of distinct ids has as many entries as the set of its ids. */
  lemma {:induction false} DistinctCount(ids: seq<string>, keys: set<string>)
    requires Distinct(ids)
    requires forall x :: x in keys <==> x in ids
    ensures |keys| == |ids|
  {
    if ids != [] {
      var last := ids[|ids| - 1];
      var init := ids[..|ids| - 1];
      assert ids == init + [last];
      assert last !in init by {
        forall k | 0 <= k < |init| ensures init[k] != last {
          assert init[k] == ids[k];
        }
      }
      assert Distinct(init) by {
        forall i, j | 0 <= i < j < |init| ensures init[i] != init[j] {
          assert init[i] == ids[i] && init[j] == ids[j];
        }
      }
      DistinctCount(init, keys - {last});
    }
  }

  class UserDataManager {
    /** `users['users']`. */
    var users: map<string, Profile>
    /** The order in which the ids of `users` were first inserted. */
    var order: seq<string>
    /** `users['metadata']`. */
    var created: string
    var totalUsers: int
    var lastUpdated: string

    ghost predicate Valid()
      reads this
    {
      && Distinct(order)
      && (forall id :: id in users <==> id in order)
      && totalUsers == |users|
    }

    /** The store `_load_users` creates when there is no file yet, stamped `now`. */
    constructor (now: string)
      ensures Valid()
      ensures users == map[] && order == [] && totalUsers == 0
      ensures created == now && lastUpdated == now
    {
      users := map[];
      order := [];
      created := now;
      totalUsers := 0;
      lastUpdated := now;
    }

    /** The count the metadata reports is also the number of ids `get_all_users` walks through. */
    lemma CountMatchesOrder()
      requires Valid()
      ensures totalUsers == |order|
    {
      DistinctCount(order, users.Keys);
    }

    /**
     * `save_user_profile(user_id, profile_data)`, at time `now`: stamps the
     * caller's dictionary and stores that very dictionary under the id.
     */
    method SaveUserProfile(userId: string, profile: Profile, now: string) returns (ok: bool)
      requires Valid()
      modifies this, profile
      ensures Valid()
      ensures ok
      ensures profile.fields == old(profile.fields)[LastUpdatedKey := JString(now)][UserIdKey := JString(userId)]
      ensures users == old(users)[userId := profile]
      ensures order == if userId in old(users) then old(order) else old(order) + [userId]
      ensures totalUsers == if userId in old(users) then old(totalUsers) else old(totalUsers) + 1
      ensures lastUpdated == now && created == old(created)
    {
      profile.fields := profile.fields[LastUpdatedKey := JString(now)];
      profile.fields := profile.fields[UserIdKey := JString(userId)];
      if userId !in users {
        DistinctAppend(order, userId);
        order := order + [userId];
      }
      users := users[userId := profile];
      totalUsers := |users|;
      lastUpdated := now;
      ok := true;
    }

    /** `get_user_profile(user_id)`: the stored dictionary, or None for an unknown id. */
    function GetUserProfile(userId: string): (r: Option<Profile>)
      reads this
      ensures r.Some? <==> userId in users
      ensures r.Some? ==> r.value == users[userId]
    {
      if userId in users then Some(users[userId]) else None
    }

    /** `get_all_users()`: every stored profile once, in insertion order. */
    function GetAllUsers(): (r: seq<Profile>)
      reads this
      requires Valid()
      ensures |r| == |order| == totalUsers
      ensures forall i :: 0 <= i < |r| ==> r[i] == users[order[i]]
      ensures forall id :: id in users ==> users[id] in r
    {
      CountMatchesOrder();
      var ids, byId := order, users;
      var r := seq(|ids|, i requires 0 <= i < |ids| => byId[ids[i]]);
      assert forall id :: id in users ==> users[id] in r by {
        forall id | id in users ensures users[id] in r {
          var i :| 0 <= i < |order| && order[i] == id;
          assert r[i] == users[id];
        }
      }
      r
    }

    /** `delete_user_profile(user_id)`, at time `now`. */
    method DeleteUserProfile(userId: string, now: string) returns (ok: bool)
      requires Valid()
      modifies this
      ensures Valid()
      ensures ok <==> userId in old(users)
      ensures ok ==> users == old(users) - {userId} && order == Erase(old(order), userId)
      ensures ok ==> totalUsers == old(totalUsers) - 1 && lastUpdated == now
      ensures !ok ==> users == old(users) && order == old(order)
      ensures !ok ==> totalUsers == old(totalUsers) && lastUpdated == old(lastUpdated)
      ensures created == old(created)
    {
      if userId in users {
        users := users - {userId};
        order := Erase(order, userId);
        totalUsers := |users|;
        lastUpdated := now;
        ok := true;
      } else {
        ok := false;
      }
    }
  }

  /**
   * Saving and then reading back: the store answers with the caller's own
   * dictionary, now carrying the id and the save time.
   */
  method SaveThenGet(store: UserDataManager, userId: string, profile: Profile, now: string)
    returns (found: Option<Profile>)
    requires store.Valid()
    modifies store, profile
    ensures store.Valid()
    ensures found == Some(profile)
    ensures UserIdKey in profile.fields && profile.fields[UserIdKey] == JString(userId)
    ensures LastUpdatedKey in profile.fields && profile.fields[LastUpdatedKey] == JString(now)
  {
    var ok := store.SaveUserProfile(userId, profile, now);
    found := store.GetUserProfile(userId);
  }
}
