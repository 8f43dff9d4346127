/**
 * The persistent state the blog reads and writes: the Category, Post and
 * AboutUs tables, and the framework's User, Group and Permission tables.
 *
 * A table is a sequence of rows in primary-key order. Primary keys come from
 * a counter that deleting rows never winds back, so a table whose ids are
 * strictly ascending and below its counter is well formed (`Valid`).
 */
module Store {
  import opened Basics

  /** One row of a table: the primary key and the record. */
  datatype Row<T> = Row(id: nat, val: T)

  /** A blog post. `category` and `owner` are foreign keys (None is SQL NULL). */
  datatype Post = Post(
    title: string,
    content: string,
    imgUrl: string,
    slug: string,
    category: Option<nat>,
    owner: Option<nat>,
    published: bool)

  /** A framework user: group memberships by group name, and the two flags `has_perm` consults. */
  datatype User = User(
    username: string,
    email: string,
    groups: set<string>,
    active: bool,
    superuser: bool)

  datatype Store = Store(
    categories: seq<Row<string>>,     // category names
    nextCategoryId: nat,
    posts: seq<Row<Post>>,
    nextPostId: nat,
    users: map<nat, User>,
    nextUserId: nat,
    groups: map<string, set<string>>, // group name -> permission codenames
    permissions: set<string>,         // codenames of the blog app's permission rows
    about: seq<string>)               // AboutUs contents, in primary-key order

  // Permission codenames of the blog app's Post model.
  const ViewPost := "view_post"
  const AddPost := "add_post"
  const ChangePost := "change_post"
  const DeletePost := "delete_post"
  const CanPublish := "can_publish"

  // The three canonical groups.
  const Readers := "Readers"
  const Authors := "Authors"
  const Editors := "Editors"

  /** Ids strictly ascending and below the table's counter. */
  ghost predicate Ascending<T>(rows: seq<Row<T>>, next: nat) {
    && (forall i, j :: 0 <= i < j < |rows| ==> rows[i].id < rows[j].id)
    && (forall i :: 0 <= i < |rows| ==> rows[i].id < next)
  }

  ghost predicate Valid(s: Store) {
    && Ascending(s.posts, s.nextPostId)
    && Ascending(s.categories, s.nextCategoryId)
    && (forall u :: u in s.users ==> u < s.nextUserId)
  }

  /** The rows a `filter(...)` query returns, in table order. */
  function Where<T(!new)>(rows: seq<T>, p: T -> bool): (r: seq<T>)
    ensures |r| <= |rows|
    ensures forall x :: x in r <==> x in rows && p(x)
  {
    if |rows| == 0 then []
    else (if p(rows[0]) then [rows[0]] else []) + Where(rows[1..], p)
  }

  /** Filtering a table read in two parts is filtering each part, in the same order. */
  lemma {:induction false} WhereAppend<T(!new)>(a: seq<T>, b: seq<T>, p: T -> bool)
    ensures Where(a + b, p) == Where(a, p) + Where(b, p)
  {
    if |a| > 0 {
      WhereAppend(a[1..], b, p);
      assert (a + b)[1..] == a[1..] + b;
    } else {
      assert a + b == b;
    }
  }

  /** A `filter` keeps the ascending-id invariant of the table it reads. */
  lemma {:induction false} WhereAscending<T(!new)>(rows: seq<Row<T>>, next: nat, p: Row<T> -> bool)
    ensures Ascending(rows, next) ==> Ascending(Where(rows, p), next)
  {
    if |rows| > 0 && Ascending(rows, next) {
      WhereAscending(rows[1..], next, p);
      var tail := Where(rows[1..], p);
      forall x | x in tail ensures rows[0].id < x.id {
        var k :| 0 <= k < |rows[1..]| && rows[1..][k] == x;
        assert rows[k + 1] == x;
      }
    }
  }

  /** The record `get(pk=id)` returns, if any. */
  function Find<T>(rows: seq<Row<T>>, id: nat): (r: Option<T>)
    ensures r.Some? <==> exists i :: 0 <= i < |rows| && rows[i].id == id
    ensures r.Some? ==> Row(id, r.value) in rows
  {
    if |rows| == 0 then None
    else if rows[0].id == id then Some(rows[0].val)
    else Find(rows[1..], id)
  }

  /** Saving a changed record: every row with key `id` now holds `v`. */
  function Replace<T>(rows: seq<Row<T>>, id: nat, v: T): (r: seq<Row<T>>)
    ensures |r| == |rows|
    ensures forall i :: 0 <= i < |rows| ==> r[i].id == rows[i].id
    ensures forall i :: 0 <= i < |rows| && rows[i].id != id ==> r[i] == rows[i]
    ensures forall i :: 0 <= i < |rows| && rows[i].id == id ==> r[i].val == v
  {
    if |rows| == 0 then []
    else [if rows[0].id == id then Row(id, v) else rows[0]] + Replace(rows[1..], id, v)
  }

  /** `get(pk=id).delete()`: the table without the rows whose key is `id`. */
  function Without<T(!new)>(rows: seq<Row<T>>, id: nat): (r: seq<Row<T>>)
    ensures forall x :: x in r <==> x in rows && x.id != id
  {
    Where(rows, (x: Row<T>) => x.id != id)
  }

  /** Deleting the row with key `id` leaves every other key's record as it was. */
  lemma {:induction false} FindAfterDelete<T(!new)>(rows: seq<Row<T>>, id: nat)
    ensures forall other :: Find(Without(rows, id), other) == if other == id then None else Find(rows, other)
  {
    if |rows| > 0 {
      FindAfterDelete(rows[1..], id);
      var p := (x: Row<T>) => x.id != id;
      assert Where(rows, p) == (if p(rows[0]) then [rows[0]] else []) + Where(rows[1..], p);
      if p(rows[0]) {
        assert Where(rows, p)[1..] == Where(rows[1..], p);
      } else {
        assert Where(rows, p) == Where(rows[1..], p);
      }
    }
  }

  /** In a table with unique keys, deleting a present key removes exactly one row. */
  lemma {:induction false} WithoutDropsOne<T(!new)>(rows: seq<Row<T>>, next: nat, id: nat)
    ensures Ascending(rows, next) && Find(rows, id).Some? ==> |Without(rows, id)| == |rows| - 1
  {
    if !(Ascending(rows, next) && Find(rows, id).Some?) {
      return;
    }
    var p := (x: Row<T>) => x.id != id;
    assert Where(rows, p) == (if p(rows[0]) then [rows[0]] else []) + Where(rows[1..], p);
    if rows[0].id == id {
      WhereKeepsAll(rows[1..], p);
    } else {
      WithoutDropsOne(rows[1..], next, id);
    }
  }

  lemma {:induction false} WhereKeepsAll<T(!new)>(rows: seq<T>, p: T -> bool)
    requires forall i :: 0 <= i < |rows| ==> p(rows[i])
    ensures Where(rows, p) == rows
  {
    if |rows| > 0 {
      WhereKeepsAll(rows[1..], p);
    }
  }

  /** Saving record `v` under key `id` changes what `get` returns for that key only. */
  lemma {:induction false} FindAfterReplace<T>(rows: seq<Row<T>>, id: nat, v: T)
    ensures forall other :: Find(Replace(rows, id, v), other) ==
              if other == id && Find(rows, id).Some? then Some(v) else Find(rows, other)
  {
    if |rows| > 0 {
      FindAfterReplace(rows[1..], id, v);
      assert Replace(rows, id, v)[1..] == Replace(rows[1..], id, v);
    }
  }

  /** Saving the same record twice is saving it once. */
  lemma {:induction false} ReplaceTwice<T>(rows: seq<Row<T>>, id: nat, v: T)
    ensures Replace(Replace(rows, id, v), id, v) == Replace(rows, id, v)
  {
    if |rows| > 0 {
      ReplaceTwice(rows[1..], id, v);
      assert Replace(rows, id, v)[1..] == Replace(rows[1..], id, v);
    }
  }

  /** Inserting a row at the end of the table: only a key the table did not hold finds the new record. */
  lemma {:induction false} FindAfterAppend<T>(rows: seq<Row<T>>, id: nat, v: T)
    ensures forall other :: Find(rows + [Row(id, v)], other) ==
              if Find(rows, other).Some? then Find(rows, other) else if other == id then Some(v) else None
  {
    if |rows| > 0 {
      FindAfterAppend(rows[1..], id, v);
      assert (rows + [Row(id, v)])[1..] == rows[1..] + [Row(id, v)];
    }
  }

  /** The string `has_perm` expects for a blog permission: "app_label.codename". */
  function PermName(codename: string): (r: string)
    ensures |r| == |codename| + 5 && r[4] == '.'
  {
    "blog." + codename
  }

  /**
   * `user.has_perm(perm)` under the default backend: an active superuser has
   * every permission; any other active user has exactly the permissions of
   * the groups it belongs to; the anonymous user has none.
   */
  predicate HasPerm(s: Store, user: Option<nat>, perm: string) {
    match user
    case None => false
    case Some(u) =>
      && u in s.users
      && s.users[u].active
      && (|| s.users[u].superuser
          || exists g, c :: g in s.users[u].groups && g in s.groups && c in s.groups[g] && PermName(c) == perm)
  }

  /**
   * The three cases of `has_perm` for a blog permission: the anonymous user and
   * an inactive or unknown account hold nothing, an active superuser holds it,
   * and any other active user holds it iff one of the user's groups lists its codename.
   */
  lemma HasPermCases(s: Store, user: Option<nat>, codename: string)
    ensures user.None? ==> !HasPerm(s, user, PermName(codename))
    ensures user.Some? && (user.value !in s.users || !s.users[user.value].active) ==>
              !HasPerm(s, user, PermName(codename))
    ensures user.Some? && user.value in s.users && s.users[user.value].active && s.users[user.value].superuser ==>
              HasPerm(s, user, PermName(codename))
    ensures user.Some? && user.value in s.users && s.users[user.value].active && !s.users[user.value].superuser ==>
              (HasPerm(s, user, PermName(codename)) <==>
               exists g :: g in s.users[user.value].groups && g in s.groups && codename in s.groups[g])
  {
    forall c | PermName(c) == PermName(codename) ensures c == codename {
      assert c == PermName(c)[5..];
      assert codename == PermName(codename)[5..];
    }
  }

  /** A permission string without the "app_label." dot is held only by active superusers. */
  lemma UndottedPermissionOnlySuperusers(s: Store, user: Option<nat>, perm: string)
    requires |perm| > 4 && perm[4] != '.'
    ensures HasPerm(s, user, perm) <==>
            user.Some? && user.value in s.users && s.users[user.value].active && s.users[user.value].superuser
  {
  }
}
