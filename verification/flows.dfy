/**
 * End-to-end runs across the modules: the authorization bootstrap followed by
 * a registration, and the two seed commands run one after the other.
 */
module Flows {
  import opened Basics
  import opened Store
  import opened Bootstrap
  import opened Views
  import opened Seed

  /**
   * After a successful bootstrap, a freshly registered user can view posts and
   * cannot author them: the dashboard answers 403. The detail view as written
   * still turns that reader away; the corrected check lets the reader through.
   */
  lemma NewReaderAfterBootstrap(s: Store, form: NewUser, slug: string)
    requires BasePermissionsPresent(s.permissions)
    ensures
      var booted := CreateGroupsPermissions(s);
      var registered := Register(booted, Request(None, POST, None), Some(form)).store;
      var reader := Request(Some(booted.nextUserId), GET, None);
      && HasPerm(registered, reader.user, PermName(ViewPost))
      && !HasPerm(registered, reader.user, PermName(AddPost))
      && Dashboard(registered, reader).outcome == Forbidden
      && Detail(registered, reader, slug).outcome == Redirect(IndexUrl)
      && DetailIntended(registered, reader, slug).outcome == ShowPublished(registered, slug)
  {
    var booted := CreateGroupsPermissions(s);
    var registered := Register(booted, Request(None, POST, None), Some(form)).store;
    var u := booted.nextUserId;
    assert registered.users[u].groups == {Readers};
    assert registered.groups[Readers] == ReadersPermissions;
    assert Readers in registered.users[u].groups && ViewPost in registered.groups[Readers];
    assert PermName(AddPost) != PermName(ViewPost);
    DetailRedirectsAllButSuperusers(registered, Request(Some(u), GET, None), slug);
  }

  /**
   * The same reader asks for the slug of the one published post that carries
   * it: the detail view as written sends them to the index, while the
   * corrected check renders that post.
   */
  lemma NewReaderSeesPublishedPost(s: Store, form: NewUser, x: Row<Post>, registered: Store, reader: Request)
    requires Valid(s) && BasePermissionsPresent(s.permissions)
    requires x in s.posts && x.val.published
    requires forall y :: y in s.posts && y.val.slug == x.val.slug && y.val.published ==> y.id == x.id
    requires registered == Register(CreateGroupsPermissions(s), Request(None, POST, None), Some(form)).store
    requires reader == Request(Some(CreateGroupsPermissions(s).nextUserId), GET, None)
    ensures Detail(registered, reader, x.val.slug).outcome == Redirect(IndexUrl)
    ensures DetailIntended(registered, reader, x.val.slug).outcome.Render?
    ensures DetailIntended(registered, reader, x.val.slug).outcome.page.post == x
  {
    NewReaderAfterBootstrap(s, form, x.val.slug);
    assert registered.posts == s.posts;
    ShowPublishedRendersUniqueMatch(registered, x.val.slug, x);
  }

  /**
   * The operator's seeding run: categories first, then posts. With the five
   * categories in place the post command completes, and every one of the 20
   * posts lands in one of the five new categories.
   */
  method SeedAll(s: Store, slugOf: string -> string, publishedDefault: bool) returns (r: Store)
    ensures |r.categories| == 5 && Names(r.categories) == CategoryNames
    ensures |r.posts| == SeedCount
    ensures forall i :: 0 <= i < |r.posts| ==>
              exists c :: c in r.categories && r.posts[i].val.category == Some(c.id)
    ensures Valid(s) ==> Valid(r)
  {
    var withCategories := PopulateCategories(s);
    var completed;
    r, completed := PopulatePosts(withCategories, slugOf, publishedDefault);
  }
}
