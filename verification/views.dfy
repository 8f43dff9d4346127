/**
 * The blog's request handlers. Each is a transition from the store and the
 * request to a new store and an outcome: a rendered page, a redirect to a
 * named route, 404, 403, or 500 for an exception the view does not catch.
 * The login_required decorator sends anonymous users to the login route.
 * Forms are not modelled: a handler that validates one takes the form's
 * verdict and cleaned data as a parameter (None: the form is invalid).
 */
module Views {
  import opened Basics
  import opened Store
  import opened Paginate

  /** Every verb other than POST takes the views' GET branch. */
  datatype Method = GET | POST

  /**
   * `request.user` as a user id (None: the anonymous user), the HTTP verb, and
   * the `page` query parameter (None: absent or not an integer). An id whose
   * account is missing or inactive is taken as signed in, not as anonymous.
   */
  datatype Request = Request(user: Option<nat>, verb: Method, page: Option<int>)

  datatype Route = IndexUrl | LoginUrl | DashboardUrl

  datatype Page =
    | PostList(entries: seq<Row<Post>>)
    | PostDetail(post: Row<Post>, related: seq<Row<Post>>)
    | AboutPage(content: string)
    | RegisterForm
    | NewPostForm(categories: seq<Row<string>>)
    | EditPostForm(post: Row<Post>, categories: seq<Row<string>>)

  datatype Outcome = Render(page: Page) | Redirect(to: Route) | NotFound | Forbidden | ServerError

  datatype Step = Step(store: Store, outcome: Outcome)

  /** The registration form's cleaned data. */
  datatype NewUser = NewUser(username: string, email: string)

  const DefaultAbout := "Default content goes here."
  /** The permission string the detail view checks, exactly as written. */
  const DetailPermissionAsWritten := "blog_view_post"
  const RelatedLimit: nat := 3

  /** `Post.objects.filter(is_published=True)` */
  function Published(rows: seq<Row<Post>>): (r: seq<Row<Post>>)
    ensures forall x :: x in r <==> x in rows && x.val.published
  {
    Where(rows, (x: Row<Post>) => x.val.published)
  }

  /** `Post.objects.filter(user=user)` */
  function OwnedBy(rows: seq<Row<Post>>, user: Option<nat>): (r: seq<Row<Post>>)
    ensures forall x :: x in r <==> x in rows && x.val.owner == user
  {
    Where(rows, (x: Row<Post>) => x.val.owner == user)
  }

  /** The posts that may carry this slug on the detail page: published ones. */
  function PublishedWithSlug(rows: seq<Row<Post>>, slug: string): (r: seq<Row<Post>>)
    ensures forall x :: x in r <==> x in rows && x.val.slug == slug && x.val.published
  {
    Where(rows, (x: Row<Post>) => x.val.slug == slug && x.val.published)
  }

  /** `Post.objects.filter(category=post.category).exclude(pk=post.id)` */
  function SameCategoryOthers(rows: seq<Row<Post>>, post: Row<Post>): (r: seq<Row<Post>>)
    ensures forall x :: x in r <==> x in rows && x.val.category == post.val.category && x.id != post.id
  {
    Where(rows, (x: Row<Post>) => x.val.category == post.val.category && x.id != post.id)
  }

  /** index: one page of the published posts. */
  function Index(s: Store, req: Request): (r: Step)
    ensures r.store == s
    ensures r.outcome.Render? && r.outcome.page.PostList?
    ensures |r.outcome.page.entries| <= PerPage
    ensures forall x :: x in r.outcome.page.entries ==> x in s.posts && x.val.published
    // the page served: the first without a number, the requested one in range, the last otherwise
    ensures req.page.None? ==> r.outcome.page.entries == PageOf(Published(s.posts), 1)
    ensures req.page.Some? && 1 <= req.page.value <= NumPages(|Published(s.posts)|) ==>
              r.outcome.page.entries == PageOf(Published(s.posts), req.page.value)
    ensures req.page.Some? && !(1 <= req.page.value <= NumPages(|Published(s.posts)|)) ==>
              r.outcome.page.entries == PageOf(Published(s.posts), NumPages(|Published(s.posts)|))
  {
    var listed := Published(s.posts);
    Step(s, Render(PostList(PageOf(listed, PageNumber(|listed|, req.page)))))
  }

  /** Paging through the index shows a post exactly when it is published. */
  lemma IndexListsExactlyPublished(s: Store, req: Request, x: Row<Post>)
    requires x in s.posts
    ensures x.val.published <==>
            exists k :: 1 <= k <= NumPages(|Published(s.posts)|) &&
                        x in Index(s, req.(page := Some(k))).outcome.page.entries
  {
    var listed := Published(s.posts);
    OnSomePage(listed, x);
    forall k | 1 <= k <= NumPages(|listed|)
      ensures Index(s, req.(page := Some(k))).outcome.page.entries == PageOf(listed, k)
    {
    }
  }

  /**
   * The lookup half of detail: the published post with the slug (404 if there
   * is none, an uncaught MultipleObjectsReturned if there are several), and up
   * to three other posts of its category, published or not.
   */
  function ShowPublished(s: Store, slug: string): (r: Outcome)
    ensures r.NotFound? || r.ServerError? || (r.Render? && r.page.PostDetail?)
    ensures r.NotFound? <==> forall x :: x in s.posts ==> !(x.val.slug == slug && x.val.published)
    ensures r.Render? ==>
              && r.page.post in s.posts
              && r.page.post.val.slug == slug
              && r.page.post.val.published
              && |r.page.related| <= RelatedLimit
              && (forall y :: y in r.page.related ==>
                    y in s.posts && y.val.category == r.page.post.val.category && y.id != r.page.post.id)
    // the related panel is the first three such posts in table order: all of them when there are no more than three
    ensures r.Render? ==>
              && |r.page.related| <= |SameCategoryOthers(s.posts, r.page.post)|
              && r.page.related == SameCategoryOthers(s.posts, r.page.post)[..|r.page.related|]
    ensures r.Render? ==>
              |r.page.related| == if |SameCategoryOthers(s.posts, r.page.post)| < RelatedLimit
                                  then |SameCategoryOthers(s.posts, r.page.post)| else RelatedLimit
    ensures r.Render? && |SameCategoryOthers(s.posts, r.page.post)| <= RelatedLimit ==>
              forall y :: y in s.posts && y.val.category == r.page.post.val.category && y.id != r.page.post.id ==>
                y in r.page.related
  {
    var matches := PublishedWithSlug(s.posts, slug);
    if |matches| == 0 then
      NotFound
    else
      assert matches[0] in matches;
      if |matches| > 1 then
        ServerError
      else
        var others := SameCategoryOthers(s.posts, matches[0]);
        var n := if |others| < RelatedLimit then |others| else RelatedLimit;
        assert forall y :: y in others[..n] ==> y in others;
        Render(PostDetail(matches[0], others[..n]))
  }

  /** In a well-formed store the related panel lists its posts in ascending key order. */
  lemma ShowPublishedRelatedAscending(s: Store, slug: string)
    requires Valid(s)
    ensures ShowPublished(s, slug).Render? ==> Ascending(ShowPublished(s, slug).page.related, s.nextPostId)
  {
    var r := ShowPublished(s, slug);
    if r.Render? {
      var post := r.page.post;
      var others := SameCategoryOthers(s.posts, post);
      WhereAscending(s.posts, s.nextPostId, (x: Row<Post>) => x.val.category == post.val.category && x.id != post.id);
      assert r.page.related == others[..|r.page.related|];
    }
  }

  /** With unique keys, detail fails with 500 exactly when two published posts share the slug. */
  lemma ShowPublishedErrorsOnDuplicateSlug(s: Store, slug: string)
    requires Valid(s)
    ensures ShowPublished(s, slug).ServerError? <==>
            exists x, y :: x in s.posts && y in s.posts && x.id != y.id &&
                           x.val.slug == slug && x.val.published && y.val.slug == slug && y.val.published
  {
    var matches := PublishedWithSlug(s.posts, slug);
    WhereAscending(s.posts, s.nextPostId, (x: Row<Post>) => x.val.slug == slug && x.val.published);
    if |matches| > 1 {
      assert matches[0] in matches && matches[1] in matches;
    }
    if |matches| <= 1 {
      forall x, y | x in matches && y in matches ensures x == y {
      }
    }
  }

  /** In a well-formed store, the one published post with the slug is the one rendered. */
  lemma ShowPublishedRendersUniqueMatch(s: Store, slug: string, x: Row<Post>)
    requires Valid(s)
    requires x in s.posts && x.val.slug == slug && x.val.published
    requires forall y :: y in s.posts && y.val.slug == slug && y.val.published ==> y.id == x.id
    ensures ShowPublished(s, slug).Render? && ShowPublished(s, slug).page.post == x
  {
    ShowPublishedErrorsOnDuplicateSlug(s, slug);
    var shown := ShowPublished(s, slug).page.post;
    var i :| 0 <= i < |s.posts| && s.posts[i] == shown;
    var j :| 0 <= j < |s.posts| && s.posts[j] == x;
    assert i == j;
  }

  /**
   * detail as written: anyone who does not hold the literal permission string
   * "blog_view_post" is redirected to the index before any lookup.
   */
  function Detail(s: Store, req: Request, slug: string): (r: Step)
    ensures r.store == s
    ensures r.outcome == Redirect(IndexUrl) <==> !HasPerm(s, req.user, DetailPermissionAsWritten)
    ensures r.outcome.NotFound? <==>
              HasPerm(s, req.user, DetailPermissionAsWritten) &&
              forall x :: x in s.posts ==> !(x.val.slug == slug && x.val.published)
    ensures r.outcome.Render? ==>
              && HasPerm(s, req.user, DetailPermissionAsWritten)
              && r.outcome.page.PostDetail?
              && r.outcome.page.post in s.posts
              && r.outcome.page.post.val.slug == slug
              && r.outcome.page.post.val.published
    ensures HasPerm(s, req.user, DetailPermissionAsWritten) ==> r.outcome == ShowPublished(s, slug)
  {
    if !HasPerm(s, req.user, DetailPermissionAsWritten) then Step(s, Redirect(IndexUrl))
    else Step(s, ShowPublished(s, slug))
  }

  /**
   * "blog_view_post" has no "app_label." dot, so no group grants it: the as-written
   * view redirects every user who is not an active superuser.
   */
  lemma DetailRedirectsAllButSuperusers(s: Store, req: Request, slug: string)
    requires req.user.None? || req.user.value !in s.users ||
             !s.users[req.user.value].active || !s.users[req.user.value].superuser
    ensures Detail(s, req, slug) == Step(s, Redirect(IndexUrl))
  {
    UndottedPermissionOnlySuperusers(s, req.user, DetailPermissionAsWritten);
  }

  /** detail with the permission string its codename implies: blog.view_post. */
  function DetailIntended(s: Store, req: Request, slug: string): (r: Step)
    ensures r.store == s
    ensures r.outcome == Redirect(IndexUrl) <==> !HasPerm(s, req.user, PermName(ViewPost))
    ensures r.outcome.NotFound? <==>
              HasPerm(s, req.user, PermName(ViewPost)) &&
              forall x :: x in s.posts ==> !(x.val.slug == slug && x.val.published)
    ensures r.outcome.Render? ==>
              && HasPerm(s, req.user, PermName(ViewPost))
              && r.outcome.page.PostDetail?
              && r.outcome.page.post in s.posts
              && r.outcome.page.post.val.slug == slug
              && r.outcome.page.post.val.published
    ensures HasPerm(s, req.user, PermName(ViewPost)) ==> r.outcome == ShowPublished(s, slug)
  {
    if !HasPerm(s, req.user, PermName(ViewPost)) then Step(s, Redirect(IndexUrl))
    else Step(s, ShowPublished(s, slug))
  }

  /** about: the first AboutUs record's content, or the fixed default when there is none or it is blank. */
  function About(s: Store): (r: Step)
    ensures r.store == s
    ensures r.outcome.Render? && r.outcome.page.AboutPage?
    ensures r.outcome.page.content != ""
    ensures |s.about| > 0 && s.about[0] != "" ==> r.outcome.page.content == s.about[0]
    ensures |s.about| == 0 || s.about[0] == "" ==> r.outcome.page.content == DefaultAbout
  {
    if |s.about| == 0 || s.about[0] == "" then Step(s, Render(AboutPage(DefaultAbout)))
    else Step(s, Render(AboutPage(s.about[0])))
  }

  /**
   * register: a valid POST saves one new active, non-staff user, creates the
   * Readers group if it is missing, adds the user to it, and redirects to login.
   */
  function Register(s: Store, req: Request, form: Option<NewUser>): (r: Step)
    ensures !(req.verb == POST && form.Some?) ==> r == Step(s, Render(RegisterForm))
    ensures req.verb == POST && form.Some? ==>
              && r.outcome == Redirect(LoginUrl)
              && r.store == s.(users := r.store.users, nextUserId := r.store.nextUserId, groups := r.store.groups)
              && r.store.users.Keys == s.users.Keys + {s.nextUserId}
              && r.store.users[s.nextUserId] == User(form.value.username, form.value.email, {Readers}, true, false)
              && (forall u :: u in s.users && u != s.nextUserId ==> r.store.users[u] == s.users[u])
              && r.store.groups.Keys == s.groups.Keys + {Readers}
              && (forall g :: g in s.groups ==> r.store.groups[g] == s.groups[g])
    // get_or_create makes a missing Readers group with no permissions
    ensures req.verb == POST && form.Some? && Readers !in s.groups ==> r.store.groups[Readers] == {}
    ensures Valid(s) ==> Valid(r.store)
    ensures Valid(s) && req.verb == POST && form.Some? ==> |r.store.users| == |s.users| + 1
  {
    if req.verb == POST && form.Some? then
      var id := s.nextUserId;
      var saved := s.(users := s.users[id := User(form.value.username, form.value.email, {}, true, false)],
                      nextUserId := id + 1);
      var withGroup := saved.(groups := if Readers in saved.groups then saved.groups else saved.groups[Readers := {}]);
      var user := withGroup.users[id];
      var joined := withGroup.(users := withGroup.users[id := user.(groups := user.groups + {Readers})]);
      assert Valid(s) ==> id !in s.users;
      Step(joined, Redirect(LoginUrl))
    else
      Step(s, Render(RegisterForm))
  }

  /** dashboard: login required, then the blog.add_post permission (403 without it), then one page of the user's own posts. */
  function Dashboard(s: Store, req: Request): (r: Step)
    ensures r.store == s
    ensures req.user.None? ==> r.outcome == Redirect(LoginUrl)
    ensures req.user.Some? && !HasPerm(s, req.user, PermName(AddPost)) ==> r.outcome == Forbidden
    ensures req.user.Some? && HasPerm(s, req.user, PermName(AddPost)) ==>
              && r.outcome.Render? && r.outcome.page.PostList?
              && |r.outcome.page.entries| <= PerPage
              && forall x :: x in r.outcome.page.entries ==> x in s.posts && x.val.owner == req.user
    // the page served: the first without a number, the requested one in range, the last otherwise
    ensures req.user.Some? && HasPerm(s, req.user, PermName(AddPost)) && req.page.None? ==>
              r.outcome.page.entries == PageOf(OwnedBy(s.posts, req.user), 1)
    ensures req.user.Some? && HasPerm(s, req.user, PermName(AddPost)) &&
            req.page.Some? && 1 <= req.page.value <= NumPages(|OwnedBy(s.posts, req.user)|) ==>
              r.outcome.page.entries == PageOf(OwnedBy(s.posts, req.user), req.page.value)
    ensures req.user.Some? && HasPerm(s, req.user, PermName(AddPost)) &&
            req.page.Some? && !(1 <= req.page.value <= NumPages(|OwnedBy(s.posts, req.user)|)) ==>
              r.outcome.page.entries == PageOf(OwnedBy(s.posts, req.user), NumPages(|OwnedBy(s.posts, req.user)|))
  {
    if req.user.None? then Step(s, Redirect(LoginUrl))
    else if !HasPerm(s, req.user, PermName(AddPost)) then Step(s, Forbidden)
    else
      var mine := OwnedBy(s.posts, req.user);
      Step(s, Render(PostList(PageOf(mine, PageNumber(|mine|, req.page)))))
  }

  /** Paging through a permitted user's dashboard shows a post exactly when the user owns it. */
  lemma DashboardListsExactlyOwn(s: Store, req: Request, x: Row<Post>)
    requires req.user.Some? && HasPerm(s, req.user, PermName(AddPost))
    requires x in s.posts
    ensures x.val.owner == req.user <==>
            exists k :: 1 <= k <= NumPages(|OwnedBy(s.posts, req.user)|) &&
                        x in Dashboard(s, req.(page := Some(k))).outcome.page.entries
  {
    var mine := OwnedBy(s.posts, req.user);
    OnSomePage(mine, x);
    forall k | 1 <= k <= NumPages(|mine|)
      ensures Dashboard(s, req.(page := Some(k))).outcome.page.entries == PageOf(mine, k)
    {
    }
  }

  /** new_post: a valid POST saves the form's post with the requester as owner, under a fresh key. */
  function NewPost(s: Store, req: Request, form: Option<Post>): (r: Step)
    ensures req.user.None? ==> r == Step(s, Redirect(LoginUrl))
    ensures req.user.Some? && !(req.verb == POST && form.Some?) ==> r == Step(s, Render(NewPostForm(s.categories)))
    ensures req.user.Some? && req.verb == POST && form.Some? ==>
              && r.outcome == Redirect(DashboardUrl)
              && r.store == s.(posts := r.store.posts, nextPostId := r.store.nextPostId)
              && r.store.posts == s.posts + [Row(s.nextPostId, form.value.(owner := req.user))]
              && r.store.nextPostId > s.nextPostId
    // the fresh key finds the requester's post, every other key what it found before
    ensures Valid(s) && req.user.Some? && req.verb == POST && form.Some? ==>
              forall k :: Find(r.store.posts, k) ==
                if k == s.nextPostId then Some(form.value.(owner := req.user)) else Find(s.posts, k)
    ensures Valid(s) ==> Valid(r.store)
  {
    if req.user.None? then Step(s, Redirect(LoginUrl))
    else if req.verb == POST && form.Some? then
      var post := form.value.(owner := req.user);
      FindAfterAppend(s.posts, s.nextPostId, post);
      assert Valid(s) ==> Find(s.posts, s.nextPostId).None?;
      Step(s.(posts := s.posts + [Row(s.nextPostId, post)], nextPostId := s.nextPostId + 1), Redirect(DashboardUrl))
    else
      Step(s, Render(NewPostForm(s.categories)))
  }

  /**
   * edit_post: 404 for a missing key; a requester who is not the owner is sent
   * to the dashboard with nothing saved; the owner's valid POST saves what the
   * form makes of the post.
   */
  function EditPost(s: Store, req: Request, id: nat, form: Post -> Option<Post>): (r: Step)
    ensures req.user.None? ==> r == Step(s, Redirect(LoginUrl))
    ensures req.user.Some? && Find(s.posts, id).None? ==> r == Step(s, NotFound)
    ensures req.user.Some? && Find(s.posts, id).Some? && Find(s.posts, id).value.owner != req.user ==>
              r == Step(s, Redirect(DashboardUrl))
    // the owner's valid POST saves what the form makes of the post, and nothing else
    ensures req.user.Some? && Find(s.posts, id).Some? && Find(s.posts, id).value.owner == req.user &&
            req.verb == POST && form(Find(s.posts, id).value).Some? ==>
              && r.outcome == Redirect(DashboardUrl)
              && r.store == s.(posts := r.store.posts)
              && forall k :: Find(r.store.posts, k) ==
                   if k == id then form(Find(s.posts, id).value) else Find(s.posts, k)
    ensures req.user.Some? && Find(s.posts, id).Some? && Find(s.posts, id).value.owner == req.user &&
            !(req.verb == POST && form(Find(s.posts, id).value).Some?) ==>
              r == Step(s, Render(EditPostForm(Row(id, Find(s.posts, id).value), s.categories)))
    ensures Valid(s) ==> Valid(r.store)
  {
    if req.user.None? then Step(s, Redirect(LoginUrl))
    else match Find(s.posts, id)
      case None => Step(s, NotFound)
      case Some(post) =>
        if post.owner != req.user then Step(s, Redirect(DashboardUrl))
        else if req.verb == POST && form(post).Some? then
          FindAfterReplace(s.posts, id, form(post).value);
          Step(s.(posts := Replace(s.posts, id, form(post).value)), Redirect(DashboardUrl))
        else
          Step(s, Render(EditPostForm(Row(id, post), s.categories)))
  }

  /** delete_post: 404 for a missing key; otherwise the row goes, whoever asks. */
  function DeletePost(s: Store, req: Request, id: nat): (r: Step)
    ensures req.user.None? ==> r == Step(s, Redirect(LoginUrl))
    ensures req.user.Some? && Find(s.posts, id).None? ==> r == Step(s, NotFound)
    ensures req.user.Some? && Find(s.posts, id).Some? ==>
              && r.outcome == Redirect(DashboardUrl)
              && r.store == s.(posts := r.store.posts)
              && (forall x :: x in r.store.posts <==> x in s.posts && x.id != id)
              && (forall k :: Find(r.store.posts, k) == if k == id then None else Find(s.posts, k))
    ensures Valid(s) && req.user.Some? && Find(s.posts, id).Some? ==> |r.store.posts| == |s.posts| - 1
    ensures Valid(s) ==> Valid(r.store)
  {
    if req.user.None? then Step(s, Redirect(LoginUrl))
    else match Find(s.posts, id)
      case None => Step(s, NotFound)
      case Some(_) =>
        FindAfterDelete(s.posts, id);
        WithoutDropsOne(s.posts, s.nextPostId, id);
        WhereAscending(s.posts, s.nextPostId, (x: Row<Post>) => x.id != id);
        Step(s.(posts := Without(s.posts, id)), Redirect(DashboardUrl))
  }

  /** delete_post never looks at the owner: any two signed-in users get the same result. */
  lemma DeletePostIgnoresOwner(s: Store, req1: Request, req2: Request, id: nat)
    requires req1.user.Some? && req2.user.Some?
    ensures DeletePost(s, req1, id) == DeletePost(s, req2, id)
  {
  }

  /** publish_post: 404 for a missing key; otherwise the post is marked published, whoever asks. */
  function PublishPost(s: Store, req: Request, id: nat): (r: Step)
    ensures req.user.None? ==> r == Step(s, Redirect(LoginUrl))
    ensures req.user.Some? && Find(s.posts, id).None? ==> r == Step(s, NotFound)
    ensures req.user.Some? && Find(s.posts, id).Some? ==>
              && r.outcome == Redirect(DashboardUrl)
              && r.store == s.(posts := r.store.posts)
              && (forall k :: Find(r.store.posts, k) ==
                    if k == id then Some(Find(s.posts, id).value.(published := true)) else Find(s.posts, k))
              && |r.store.posts| == |s.posts|
              && (forall i :: 0 <= i < |s.posts| ==> r.store.posts[i].id == s.posts[i].id)
              && (forall i :: 0 <= i < |s.posts| && s.posts[i].id != id ==> r.store.posts[i] == s.posts[i])
    ensures Valid(s) ==> Valid(r.store)
  {
    if req.user.None? then Step(s, Redirect(LoginUrl))
    else match Find(s.posts, id)
      case None => Step(s, NotFound)
      case Some(post) =>
        var published := post.(published := true);
        FindAfterReplace(s.posts, id, published);
        Step(s.(posts := Replace(s.posts, id, published)), Redirect(DashboardUrl))
  }

  /** Publishing an already published post changes nothing further. */
  lemma PublishPostIdempotent(s: Store, req: Request, id: nat)
    ensures PublishPost(PublishPost(s, req, id).store, req, id) == PublishPost(s, req, id)
  {
    if req.user.Some? && Find(s.posts, id).Some? {
      var v := Find(s.posts, id).value.(published := true);
      FindAfterReplace(s.posts, id, v);
      ReplaceTwice(s.posts, id, v);
    }
  }

  /** publish_post never looks at the owner: any two signed-in users get the same result. */
  lemma PublishPostIgnoresOwner(s: Store, req1: Request, req2: Request, id: nat)
    requires req1.user.Some? && req2.user.Some?
    ensures PublishPost(s, req1, id) == PublishPost(s, req2, id)
  {
  }
}
