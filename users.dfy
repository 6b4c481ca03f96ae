/**
 * The users service: listing users without their passwords, looking one up,
 * registering a user with a hashed password, changing a password after checking
 * the old one, and the paginated user listing.
 *
 * The users repository is the state of `UsersService`: a map from id to stored
 * record plus the order in which the repository lists them. The password hasher
 * is a pair of opaque functions passed in by the caller, and each repository
 * write takes a flag saying whether the store failed.
 */
module Users {
  import opened Wrappers
  import opened Paging

  type UserId = string

  /** What the hasher produces; a stored password has this type, so a
      plaintext string can never be stored in its place. */
  datatype Digest = Digest(text: string)

  /** A stored user record, password digest included. */
  datatype User = User(id: UserId, name: string, email: string, password: Digest)

  /** The public shape of a user: the password is not one of its fields. */
  datatype PublicUser = PublicUser(id: UserId, name: string, email: string)

  /** The password hasher: `hashPassword` and `bcrypt.compare`, both opaque. */
  datatype Hasher = Hasher(hash: string -> Digest, compare: (string, Digest) -> bool)

  /** A hasher whose compare accepts every password against its own digest. */
  ghost predicate Sound(h: Hasher)
  {
    forall p :: h.compare(p, h.hash(p))
  }

  /** The `id`/`name`/`email` allow-list that every public answer goes through. */
  function Project(u: User): PublicUser
  {
    PublicUser(u.id, u.name, u.email)
  }

  /** The records of `ids`, looked up one by one, in the order of `ids`. */
  function InOrder(records: map<UserId, User>, ids: seq<UserId>): (users: seq<User>)
    requires forall i :: 0 <= i < |ids| ==> ids[i] in records
    ensures |users| == |ids|
    ensures forall i :: 0 <= i < |ids| ==> users[i] == records[ids[i]]
  {
    if ids == [] then [] else [records[ids[0]]] + InOrder(records, ids[1..])
  }

  // ---------------------------------------------------------------------
  // getFilteredUsers
  // ---------------------------------------------------------------------

  /** `Array.prototype.slice(begin, end)`: a negative bound counts from the
      end, both bounds are clamped to the list, and an end at or before the
      start gives the empty list. */
  function Slice<T>(s: seq<T>, begin: int, end: int): (r: seq<T>)
    ensures var from, to := RelativeIndex(begin, |s|), RelativeIndex(end, |s|);
      && |r| == (if from < to then to - from else 0)
      && forall i :: 0 <= i < |r| ==> r[i] == s[from + i]
  {
    var from := RelativeIndex(begin, |s|);
    var to := RelativeIndex(end, |s|);
    if from < to then s[from..to] else []
  }

  function RelativeIndex(i: int, len: nat): (k: nat)
    ensures k <= len
  {
    if i < 0 then (if len + i < 0 then 0 else len + i)
    else if i > len then len
    else i
  }

  /** The result of `getFilteredUsers`. */
  datatype UsersPage = UsersPage(
    count: nat,
    total_pages: nat,
    has_previous_page: bool,
    has_next_page: bool,
    users: seq<User>)

  /** `getFilteredUsers(page_number, page_size)` applied to the list that the
      repository returns. `count` is the number of users in the whole list. */
  function FilteredUsers(users: seq<User>, pageNumber: int, pageSize: int): (r: UsersPage)
    requires pageNumber >= 1 && pageSize >= 1
    ensures r.count == |users|
    ensures r.total_pages * pageSize >= |users|
    ensures r.total_pages == 0 || (r.total_pages - 1) * pageSize < |users|
    ensures r.has_previous_page <==> pageNumber > 1
    ensures r.has_next_page <==> pageNumber < r.total_pages
  {
    var count := |users|;
    var total_pages := CeilDiv(count, pageSize);
    var start_index := (pageNumber - 1) * pageSize;
    var end_index := Min(start_index + pageSize, count);
    UsersPage(count, total_pages, pageNumber > 1, pageNumber < total_pages,
              Slice(users, start_index, end_index))
  }

  /** The slice computed with `Math.min` and `slice` is exactly the reference
      page: the contiguous run of at most `pageSize` users that starts after
      the users of the earlier pages, in repository order. */
  lemma FilteredUsersIsPage(users: seq<User>, pageNumber: int, pageSize: int)
    requires pageNumber >= 1 && pageSize >= 1
    ensures FilteredUsers(users, pageNumber, pageSize).users
         == Window(users, Offset(pageNumber, pageSize), pageSize)
  {
    var start := Offset(pageNumber, pageSize);
    var end := Min(start + pageSize, |users|);
    assert RelativeIndex(start, |users|) == Min(start, |users|);
    assert RelativeIndex(end, |users|) == end;
  }

  /** The flags speak about users: there is a previous page exactly when
      users were skipped, and a next page exactly when a user follows this
      page. */
  lemma FilteredUsersFlags(users: seq<User>, pageNumber: int, pageSize: int)
    requires pageNumber >= 1 && pageSize >= 1
    ensures var r := FilteredUsers(users, pageNumber, pageSize);
      && (r.has_previous_page <==> Offset(pageNumber, pageSize) > 0)
      && (r.has_next_page <==> pageNumber * pageSize < |users|)
  {
    HasNextIffItemsFollow(|users|, pageSize, pageNumber);
  }

  /** A page number past `total_pages` yields no users, no error and no next
      page; every page up to `total_pages` holds at least one user. */
  lemma FilteredUsersBeyondLast(users: seq<User>, pageNumber: int, pageSize: int)
    requires pageNumber >= 1 && pageSize >= 1
    ensures var r := FilteredUsers(users, pageNumber, pageSize);
      && (r.users == [] <==> pageNumber > r.total_pages)
      && (pageNumber >= r.total_pages ==> !r.has_next_page)
  {
    FilteredUsersIsPage(users, pageNumber, pageSize);
    PageEmptyIffBeyondLast(users, pageSize, pageNumber);
  }

  // ---------------------------------------------------------------------
  // The repository and the service operations that use it
  // ---------------------------------------------------------------------

  class UsersService {
    /** The users repository: stored records by id ... */
    var records: map<UserId, User>
    /** ... and the order in which the repository lists them. */
    var order: seq<UserId>

    ghost predicate Valid()
      reads this
    {
      && (forall i, j :: 0 <= i < j < |order| ==> order[i] != order[j])
      && (forall i :: 0 <= i < |order| ==> order[i] in records)
      && (forall id :: id in records ==> id in order)
      && (forall id :: id in records ==> records[id].id == id)
    }

    constructor ()
      ensures Valid() && records == map[] && order == []
    {
      records := map[];
      order := [];
    }

    /** What the repository's `getUsers` returns: every stored record once,
        in repository order. */
    function Listing(): (users: seq<User>)
      reads this
      requires Valid()
      ensures |users| == |order| == |records|
      ensures forall i :: 0 <= i < |users| ==> users[i] == records[order[i]]
      ensures forall u :: u in users <==> u in records.Values
    {
      ListingCoversRecords();
      InOrder(records, order)
    }

    lemma ListingCoversRecords()
      requires Valid()
      ensures |order| == |records|
    {
      var ids := set i | 0 <= i < |order| :: order[i];
      assert ids == records.Keys;
      DistinctCardinality(order);
    }

    /** The user at position i of the listing carries id `order[i]`. */
    lemma ListedIds()
      requires Valid()
      ensures forall i :: 0 <= i < |order| ==> order[i] in records && records[order[i]].id == order[i]
    {
    }

    /** `getUsers`: one entry per stored user, in repository order, carrying
        that user's id, name and email and nothing else. */
    method GetUsers() returns (results: seq<PublicUser>)
      requires Valid()
      ensures |results| == |order| == |records|
      ensures forall i :: 0 <= i < |results| ==>
        order[i] in records &&
        results[i] == PublicUser(order[i], records[order[i]].name, records[order[i]].email)
    {
      var users := Listing();
      results := [];
      for i := 0 to |users|
        invariant |results| == i
        invariant forall k :: 0 <= k < i ==>
          results[k] == Project(users[k])
      {
        var user := users[i];
        ghost var before := results;
        results := results + [Project(user)];
        assert results[..i] == before && results[i] == Project(user);
      }
      ListedIds();
    }

    /** `getUser`: null for an unknown id, otherwise the public projection of
        that user. */
    function GetUser(id: UserId): (r: Option<PublicUser>)
      reads this
      requires Valid()
      ensures r == None <==> id !in records
      ensures r.Some? ==> r.value == PublicUser(id, records[id].name, records[id].email)
    {
      if id in records then Some(Project(records[id])) else None
    }

    /** `createUser`: hash the password, insert the record, answer `true`; if
        the insert fails (a store error, or a clash on the id the store
        assigns), answer null and change nothing. */
    method CreateUser(name: string, email: string, password: string, hasher: Hasher,
                      newId: UserId, insertFails: bool) returns (r: Option<bool>)
      requires Valid()
      modifies this
      ensures Valid()
      ensures r == None || r == Some(true)
      ensures r == None <==> insertFails || newId in old(records)
      ensures r == None ==> records == old(records) && order == old(order)
      ensures r == Some(true) ==>
        && records == old(records)[newId := User(newId, name, email, hasher.hash(password))]
        && order == old(order) + [newId]
        && GetUser(newId) == Some(PublicUser(newId, name, email))
    {
      var hashedPassword := hasher.hash(password);
      if insertFails || newId in records {
        return None;
      }
      records := records[newId := User(newId, name, email, hashedPassword)];
      order := order + [newId];
      return Some(true);
    }

    /** `changeUserPassword`: null for an unknown id; `false`, with nothing
        stored, when the old password does not match; otherwise the digest of
        the new password replaces the stored one and the answer is `true`, or
        null if that update fails. */
    method ChangeUserPassword(id: UserId, oldPassword: string, newPassword: string,
                              hasher: Hasher, updateFails: bool) returns (r: Option<bool>)
      requires Valid()
      modifies this
      ensures Valid()
      ensures order == old(order) && records.Keys == old(records.Keys)
      ensures id !in old(records) ==> r == None && records == old(records)
      ensures id in old(records) && !hasher.compare(oldPassword, old(records)[id].password) ==>
        r == Some(false) && records == old(records)
      ensures id in old(records) && hasher.compare(oldPassword, old(records)[id].password) && updateFails ==>
        r == None && records == old(records)
      ensures id in old(records) && hasher.compare(oldPassword, old(records)[id].password) && !updateFails ==>
        r == Some(true) &&
        records == old(records)[id := old(records)[id].(password := hasher.hash(newPassword))]
      ensures r == Some(true) && Sound(hasher) ==> hasher.compare(newPassword, records[id].password)
    {
      if id !in records {
        return None;
      }
      var user := records[id];
      var isMatch := hasher.compare(oldPassword, user.password);
      var hashedNewPassword := hasher.hash(newPassword);
      if !isMatch {
        return Some(false);
      }
      if updateFails {
        return None;
      }
      records := records[id := user.(password := hashedNewPassword)];
      return Some(true);
    }
  }

  /** A list without repetitions has as many elements as the set of them. */
  lemma {:induction false} DistinctCardinality<T>(s: seq<T>)
    requires forall i, j :: 0 <= i < j < |s| ==> s[i] != s[j]
    ensures |set i | 0 <= i < |s| :: s[i]| == |s|
  {
    if s != [] {
      var rest := s[1..];
      DistinctCardinality(rest);
      var all := set i | 0 <= i < |s| :: s[i];
      var tail := set i | 0 <= i < |rest| :: rest[i];
      assert all == {s[0]} + tail by {
        forall x | x in all ensures x in {s[0]} + tail {
          var i :| 0 <= i < |s| && s[i] == x;
          if i > 0 { assert rest[i - 1] == x; }
        }
      }
      assert s[0] !in tail by {
        forall i | 0 <= i < |rest| ensures rest[i] != s[0] {
          assert rest[i] == s[i + 1];
        }
      }
    }
  }
}
