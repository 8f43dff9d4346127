# Blog request flow and authorization, modelled in Dafny

This project models the behavioural core of a small server-rendered blog:

- the two request gates of the middleware: signed-in users are sent home from the login and register pages, and anonymous visitors are sent from the dashboard to login;
- the post-migrate authorization bootstrap that binds the groups Readers, Authors and Editors to fixed permission sets;
- the blog's request handlers: index, detail, about, register, dashboard, new post, edit post, delete post, publish post;
- the two seed commands that reset the category and post tables.

The database is an immutable `Store` value (`store.dfy`). Each table is a sequence of rows in primary-key order. Keys come from a counter that deletion never winds back. A well-formed store (`Store.Valid`) has strictly ascending keys below the counter. Each handler is a pure transition from a store and a request to a new store and an outcome. The outcome is a rendered page, a redirect to a named route, 404, 403, or 500 for an exception the view does not catch. Forms are not modelled. A handler takes the form's verdict and cleaned data as a parameter, where `None` means the form is invalid. `has_perm` is modelled after the default model backend (`Store.HasPerm`):

- an active superuser holds every permission;
- any other active user holds `"blog." + codename` for each codename in the groups they belong to;
- the anonymous user holds none.

Modules: `Basics` (Option, Result), `Store`, `Paginate` (Django's `Paginator(..., 5).get_page`), `Gates`, `Bootstrap`, `Views`, `Seed`, and `Flows` (runs that cross modules).

Where the code is inconsistent with itself, the model follows the code as written:

- delete and publish have no ownership check;
- detail checks the literal string `blog_view_post` (see Findings);
- the seed commands are not idempotent in their keys, and populate_posts picks categories at random.

## Model

| member | source | states |
|---|---|---|
| Gates.RedirectAuthenticated | myapp/myapp/middleware.py:11-19 | redirects exactly when the session is authenticated and the path is the login or register path, and the redirect goes to the index path |
| Gates.RestrictUnauthenticated | myapp/myapp/middleware.py:25-32 | redirects exactly when the session is anonymous and the path is the dashboard path, and the redirect goes to the login path |
| Gates.AtMostOneGateRedirects | myapp/myapp/middleware.py:11-32 | no request is redirected by both gates |
| Gates.GateOrderIrrelevant | myapp/myapp/middleware.py:11-32 | both installation orders of the gates give the same response and the same state, for every view |
| Gates.RedirectSkipsHandler | myapp/myapp/middleware.py:12-16 | when a gate redirects, the view is not invoked: the result is the same for any two views and the state is unchanged |
| Gates.PassThroughIsTransparent | myapp/myapp/middleware.py:18-19 | when neither gate redirects, the client gets exactly the view's response on the state the view leaves |
| Gates.NoRedirectForIntendedAudience | myapp/myapp/middleware.py:12-28 | if the dashboard path differs from login and register, anonymous visitors on login/register and signed-in users on the dashboard pass both gates |
| Bootstrap.GetOrCreateGroup | myapp/blog/signals.py:6-8 | the named group exists afterwards; an existing group and every other group keep their permissions; a new group starts empty |
| Bootstrap.GetPermission | myapp/blog/signals.py:11-19 | a permission lookup succeeds exactly when the codename exists |
| Bootstrap.AssignPermissions | myapp/blog/signals.py:11-31 | the permission phase succeeds exactly when view, add, change and delete exist |
| Bootstrap.CreateGroupsPermissions | myapp/blog/signals.py:3-36 | the three groups exist afterwards; no other group is touched; on success the sets are exactly {view}, {add, change, delete}, {can_publish, add, change, delete}, replacing prior sets, and can_publish is created; on failure the permission table and all pre-existing groups are unchanged and newly created groups are empty |
| Bootstrap.BootstrapIdempotent | myapp/blog/signals.py:6-31 | running the hook twice gives the same store as running it once |
| Paginate.NumPages | myapp/blog/views.py:26 | the page count is the least n >= 1 with count <= 5n |
| Paginate.PageNumber | myapp/blog/views.py:27-28 | the page served is always between 1 and the page count, and it is the requested page whenever that page is in range |
| Paginate.PageOf | myapp/blog/views.py:26-28 | a page holds at most 5 items, every page but the last holds exactly 5, and every item comes from the list |
| Paginate.PagesCoverAll | myapp/blog/views.py:26-28 | laying pages 1..num_pages end to end gives back the whole list, in order, without duplicates or omissions |
| Paginate.OnSomePage | myapp/blog/views.py:26-28 | an item is in the list iff it is on some page 1..num_pages |
| Store.Where | myapp/blog/views.py:25 | a filter query returns a row iff the row is in the table and meets the condition |
| Store.WhereAppend | myapp/blog/views.py:25 | filtering keeps table order: filtering two consecutive parts of a table gives the two filtered parts one after the other |
| Store.Find | myapp/blog/views.py:207 | a lookup by key finds a record iff a row with that key exists, and the record found is that row's |
| Store.Without | myapp/blog/views.py:228 | deleting a key leaves exactly the rows with other keys |
| Store.Replace | myapp/blog/views.py:216 | saving a record keeps the table's length and keys, replaces the rows with that key and leaves every other row as it was |
| Store.FindAfterDelete | myapp/blog/views.py:227-228 | after deleting a key, that key finds nothing and every other key finds what it found before |
| Store.FindAfterReplace | myapp/blog/views.py:214-216 | after saving a record under an existing key, that key finds the new record and every other key what it found before |
| Store.FindAfterAppend | myapp/blog/views.py:194-196 | after inserting a row at the end, every key the table held finds what it found before, and only the new key, if it was not held, finds the new record |
| Store.WithoutDropsOne | myapp/blog/views.py:227-228 | in a table with unique keys, deleting a present key removes exactly one row |
| Store.ReplaceTwice | myapp/blog/views.py:234-235 | saving the same record twice is the same as saving it once |
| Store.HasPermCases | myapp/blog/views.py:118-119 | `has_perm` for a blog permission: false for the anonymous user and for unknown or inactive accounts, true for an active superuser, and for any other active user true iff one of their groups lists the codename |
| Store.UndottedPermissionOnlySuperusers | myapp/blog/views.py:33 | a permission string without the "app_label." dot is held exactly by active superusers |
| Views.Published | myapp/blog/views.py:25 | the listed rows are exactly the published rows of the table |
| Views.OwnedBy | myapp/blog/views.py:122 | the listed rows are exactly the rows owned by the user |
| Views.PublishedWithSlug | myapp/blog/views.py:37 | the candidates are exactly the published rows with the slug |
| Views.SameCategoryOthers | myapp/blog/views.py:38 | the candidates are exactly the other rows with the same category |
| Views.Index | myapp/blog/views.py:23-29 | the store is unchanged; the page has at most 5 posts, each published and in the store; it is page 1 of the published posts without a page number, the requested page when that is in range, and the last page otherwise |
| Views.IndexListsExactlyPublished | myapp/blog/views.py:25-28 | a post appears on some index page iff it is published |
| Views.ShowPublished | myapp/blog/views.py:36-41 | 404 iff no published post has the slug; a rendered post has the slug and is published; at most 3 related posts, the first of the other posts of its category in table order (not filtered by publication), all of them when there are at most 3 |
| Views.ShowPublishedRelatedAscending | myapp/blog/views.py:38 | in a well-formed store the related posts come in ascending key order |
| Views.ShowPublishedRendersUniqueMatch | myapp/blog/views.py:37-41 | in a well-formed store, when exactly one published post carries the slug, that post is rendered |
| Views.ShowPublishedErrorsOnDuplicateSlug | myapp/blog/views.py:37 | in a well-formed store, the lookup ends in a 500 iff two distinct published posts share the slug |
| Views.Detail | myapp/blog/views.py:32-41 | the store is unchanged; the answer is a redirect to the index iff the requester lacks the literal permission "blog_view_post"; 404 iff the requester holds it and no published post has the slug; a rendered post is published and has the slug; a requester who holds it gets exactly the published lookup |
| Views.DetailRedirectsAllButSuperusers | myapp/blog/views.py:33-35 | every requester who is not an active superuser is redirected to the index |
| Views.DetailIntended | myapp/blog/views.py:33-35 | corrected check: the answer is a redirect to the index iff the requester lacks blog.view_post; otherwise exactly the published lookup: 404 iff no published post has the slug, and a rendered post is published and has the slug; the store is unchanged |
| Views.About | myapp/blog/views.py:78-84 | the about text is never blank: the first record's content when it is non-empty, else "Default content goes here." |
| Views.Register | myapp/blog/views.py:87-100 | a valid POST adds exactly one user under a fresh key, whose only group is Readers, creates an empty Readers group if missing, leaves other users and groups unchanged, keeps the store well formed, and redirects to login; otherwise nothing changes |
| Views.Dashboard | myapp/blog/views.py:118-127 | anonymous: redirect to login; without blog.add_post: 403; otherwise at most 5 posts, all owned by the requester, namely page 1 of the requester's posts without a page number, the requested page when in range, and the last page otherwise; the store is unchanged |
| Views.DashboardListsExactlyOwn | myapp/blog/views.py:122-125 | a post appears on some dashboard page iff the requester owns it |
| Views.NewPost | myapp/blog/views.py:187-201 | anonymous: redirect to login; a valid POST appends one post owned by the requester under a fresh key, which then finds that post while every other key finds what it found before, changes no other table, and keeps the store well formed; otherwise the form is rendered with no change |
| Views.EditPost | myapp/blog/views.py:204-222 | 404 for a missing key; a non-owner is redirected to the dashboard with the store unchanged; the owner's valid POST always saves: the answer is a redirect to the dashboard, only the post table changes, the edited key finds the form's post and every other key what it found before; the owner's GET or invalid POST renders the form with the store unchanged |
| Views.DeletePost | myapp/blog/views.py:225-230 | 404 for a missing key; otherwise exactly the rows with that key are removed (one row in a well-formed store), that key finds nothing while every other key finds what it found before, and the answer is a redirect to the dashboard |
| Views.DeletePostIgnoresOwner | myapp/blog/views.py:225-230 | any two signed-in requesters get the same result: there is no ownership check |
| Views.PublishPost | myapp/blog/views.py:231-237 | 404 for a missing key; otherwise the key finds the same post marked published, every other key and row is unchanged, and the answer is a redirect to the dashboard |
| Views.PublishPostIdempotent | myapp/blog/views.py:233-235 | publishing twice gives the same store and outcome as publishing once |
| Views.PublishPostIgnoresOwner | myapp/blog/views.py:231-237 | any two signed-in requesters get the same result: there is no ownership check |
| Seed.CreateCategories | myapp/blog/management/commands/populate_categories.py:20-21 | inserting names appends one row per name, in order, under consecutive fresh keys, and changes nothing else |
| Seed.PopulateCategories | myapp/blog/management/commands/populate_categories.py:9-21 | afterwards there are exactly 5 categories named sports, Technology, Science, Arts, Food in that order, all under fresh keys, so no prior row survives; only the category table changes |
| Seed.PopulateCategoriesTwice | myapp/blog/management/commands/populate_categories.py:11-21 | a second run leaves the same names, and the same multiset of names, as the first |
| Seed.PopulatePosts | myapp/blog/management/commands/populate_posts.py:10-89 | all prior posts are deleted; with no category the command stops there, leaving zero posts; otherwise exactly 20 posts, the i-th with titles[i], contents[i] and img_urls[i], under fresh keys, each in a category that existed at run time; the category table is never modified |
| Flows.NewReaderAfterBootstrap | myapp/blog/views.py:91-97 | after a successful bootstrap, a newly registered user holds blog.view_post but not blog.add_post, gets 403 from the dashboard, is still redirected by the detail view as written, and gets the published lookup from the corrected check |
| Flows.NewReaderSeesPublishedPost | myapp/blog/views.py:33-41 | in a well-formed store, that new reader asking for the slug of the one published post carrying it is redirected by the view as written and shown exactly that post by the corrected check |
| Flows.SeedAll | myapp/blog/management/commands/populate_posts.py:85-89 | seeding categories and then posts yields 5 categories and 20 posts, each post in one of the 5 new categories |

## Findings

| source | as written | input that shows it | evidently intended | confidence | as-written member | corrected member |
|---|---|---|---|---|---|---|
| myapp/blog/views.py:33 | `has_perm('blog_view_post')`. Permission strings have the form "app_label.codename", so no group can grant this string. | A Readers member who holds view_post asks for the slug of a published post. They are redirected to the index. Every active non-superuser is. | `has_perm('blog.view_post')` | high; not executed | Views.DetailRedirectsAllButSuperusers | Views.DetailIntended |

`Flows.NewReaderSeesPublishedPost` shows both halves on the same reader. `Views.Detail` (as written) redirects them to the index. `Views.DetailIntended` renders the published post they asked for.

## Left out

- contact, login, logout, forgot_password and reset_password: their behaviour lies in framework collaborators: authentication, sessions, token generation and checking, password hashing, mail delivery, and base64 uid encoding.
- old_url_redirect, new_url_view and custom_page_not_found: trivial routing glue.
- Templates, flash messages, logging, and the success and error lines the hook and commands print: these are presentation and I/O.
- Form validation: forms.py is not part of this model. Each form is a parameter carrying its verdict and cleaned data. Only the edit form is a function of the instance it is bound to.
- models.py is not part of this model. Left open:
  - slug generation, which populate_posts takes as a parameter;
  - the initial is_published value, a parameter of populate_posts and part of the form result in new_post;
  - the default query ordering, for which tables are read in primary-key order;
  - database uniqueness constraints.
- Permissions of apps other than blog are not modelled. So `Permission.objects.get` fails only with DoesNotExist, never with MultipleObjectsReturned. The can_publish row's content type (id 7) is taken to be the blog's Post, and its get_or_create is matched on the codename alone.
- Direct user permissions, and authorization backends other than the model backend.
- The login_required redirect target: settings.py is not part of this model. It is taken to be the blog's login route, and the `next` parameter is dropped. A session whose user no longer exists, or whose account is inactive, is not distinguished from a signed-in one; the model backend would treat both as anonymous, and login_required would redirect them to login. For them the model answers as for a signed-in user without permissions: 403 from the dashboard, while new, edit, delete and publish run as for any signed-in user.
- Cascading deletion of posts when populate_categories deletes their categories, and database errors on save.
- The paginator's Page object: navigation and counts. Only the slice served and the page-number handling of get_page are modelled.
- The gates' URL resolution: the resolved paths are a `Routes` parameter.
- Seed.PopulatePosts: the created posts have no owner, so the 20-post result assumes the post's user column is nullable (models.py is not part of this model); were it not, the first insert would raise and the table would stay empty.
- Seed.PopulatePosts: the category of each post is any existing one. The uniform distribution of `random.choice` is not modelled.
