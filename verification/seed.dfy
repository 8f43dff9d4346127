/**
 * The two administrative seed commands: populate_categories replaces the
 * category table with five fixed names; populate_posts replaces the post
 * table with twenty fixed posts, each in a category picked at random.
 */
module Seed {
  import opened Basics
  import opened Store

  const CategoryNames: seq<string> := ["sports", "Technology", "Science", "Arts", "Food"]

  const Titles: seq<string> := [
    "The Future of AI",
    "Climate Change Solutions",
    "Remote Work Trends",
    "Quantum Computing Explained",
    "Renewable Energy Innovations",
    "Deep Learning Demystified",
    "Post-Pandemic Economic Outlook",
    "Blockchain in Finance",
    "Storytelling in Marketing",
    "Medical Technology Advances",
    "Space Exploration Challenges",
    "Psychology of Decision Making",
    "Evolution of Social Media",
    "The Art of Cooking",
    "Cultural Diversity in Society",
    "Sustainable Development Investments",
    "Globalization Impact",
    "Power of Mindfulness",
    "Online Learning Revolution",
    "Art and Technology Fusion"
  ]

  const Contents: seq<string> := [
    "Exploring the future of artificial intelligence and its impact on society...",
    "Discovering solutions to combat climate change and protect the environment...",
    "Analyzing trends and challenges in remote work environments...",
    "An introduction to the principles and applications of quantum computing...",
    "Investigating the latest innovations in renewable energy sources...",
    "Understanding the fundamentals of deep learning and neural networks...",
    "Examining the economic landscape in the aftermath of the COVID-19 pandemic...",
    "Exploring the potential of blockchain technology in the financial sector...",
    "Harnessing the power of storytelling to create compelling marketing campaigns...",
    "Highlighting breakthroughs and advancements in medical technology...",
    "Addressing the obstacles and opportunities in space exploration...",
    "Exploring the psychological factors influencing decision-making processes...",
    "Tracing the evolution of social media platforms and their impact on society...",
    "Celebrating the art of cooking and culinary creativity...",
    "Promoting inclusivity and embracing diversity in modern communities...",
    "Investigating sustainable development initiatives and their impact on the future...",
    "Examining the effects of globalization on local and global economies...",
    "Embracing mindfulness practices for enhanced well-being and productivity...",
    "Revolutionizing education through online learning platforms and resources...",
    "Exploring the intersection of art, design, and technology in the digital age..."
  ]

  const ImgUrls: seq<string> := [
    "https://picsum.photos/id/1/800/400",
    "https://picsum.photos/id/2/200/300",
    "https://picsum.photos/id/3/200/300",
    "https://picsum.photos/id/4/200/300",
    "https://picsum.photos/id/5/200/300",
    "https://picsum.photos/id/6/200/300",
    "https://picsum.photos/id/7/200/300",
    "https://picsum.photos/id/8/200/300",
    "https://picsum.photos/id/9/200/300",
    "https://picsum.photos/id/10/200/300",
    "https://picsum.photos/id/11/200/300",
    "https://picsum.photos/id/12/200/300",
    "https://picsum.photos/id/13/200/300",
    "https://picsum.photos/id/14/200/300",
    "https://picsum.photos/id/15/200/300",
    "https://picsum.photos/id/16/200/300",
    "https://picsum.photos/id/17/200/300",
    "https://picsum.photos/id/18/200/300",
    "https://picsum.photos/id/19/200/300",
    "https://picsum.photos/id/20/200/300"
  ]

  const SeedCount: nat := 20

  /** The names of a category table, in row order. */
  function Names(rows: seq<Row<string>>): (r: seq<string>)
    ensures |r| == |rows|
    ensures forall i :: 0 <= i < |rows| ==> r[i] == rows[i].val
  {
    if |rows| == 0 then [] else [rows[0].val] + Names(rows[1..])
  }

  /** `Category.objects.create(name=...)` for each name in turn. */
  function CreateCategories(s: Store, names: seq<string>): (r: Store)
    ensures r == s.(categories := r.categories, nextCategoryId := r.nextCategoryId)
    ensures r.nextCategoryId == s.nextCategoryId + |names|
    ensures |r.categories| == |s.categories| + |names|
    ensures r.categories[..|s.categories|] == s.categories
    ensures forall k :: 0 <= k < |names| ==>
              r.categories[|s.categories| + k] == Row(s.nextCategoryId + k, names[k])
    decreases |names|
  {
    if |names| == 0 then s
    else
      var created := s.(categories := s.categories + [Row(s.nextCategoryId, names[0])],
                        nextCategoryId := s.nextCategoryId + 1);
      CreateCategories(created, names[1..])
  }

  /** populate_categories: delete every category, then insert the five names in order. */
  function PopulateCategories(s: Store): (r: Store)
    ensures r == s.(categories := r.categories, nextCategoryId := r.nextCategoryId)
    ensures |r.categories| == 5
    ensures Names(r.categories) == CategoryNames
    // every prior row is gone: the new keys are all fresh
    ensures forall i :: 0 <= i < |r.categories| ==> r.categories[i].id >= s.nextCategoryId
    ensures Valid(s) ==> Valid(r)
  {
    var r := CreateCategories(s.(categories := []), CategoryNames);
    assert forall k :: 0 <= k < |CategoryNames| ==> r.categories[k] == Row(s.nextCategoryId + k, CategoryNames[k]);
    assert Names(r.categories) == CategoryNames;
    r
  }

  /** A second run leaves the same names as the first; only the keys move on. */
  lemma PopulateCategoriesTwice(s: Store)
    ensures Names(PopulateCategories(PopulateCategories(s)).categories) == Names(PopulateCategories(s).categories)
    ensures multiset(Names(PopulateCategories(PopulateCategories(s)).categories)) == multiset(CategoryNames)
  {
  }

  /** Row `k` of the seeded post table: the k-th fixed post, under the k-th fresh key, in an existing category. */
  ghost predicate SeededPost(s: Store, slugOf: string -> string, publishedDefault: bool, row: Row<Post>, k: nat) {
    && k < SeedCount
    && row.id == s.nextPostId + k
    && row.val.title == Titles[k]
    && row.val.content == Contents[k]
    && row.val.imgUrl == ImgUrls[k]
    && row.val.slug == slugOf(Titles[k])
    && row.val.owner == None
    && row.val.published == publishedDefault
    && exists c :: c in s.categories && row.val.category == Some(c.id)
  }

  /**
   * populate_posts: delete every post, then create post i from titles[i],
   * contents[i] and img_urls[i] in a category chosen at random among the
   * existing ones. With no category the random choice raises after the
   * deletion (`completed` is false) and the post table stays empty. The
   * model's own defaults are parameters: the slug the model derives from a
   * title, and the initial publication flag.
   */
  method PopulatePosts(s: Store, slugOf: string -> string, publishedDefault: bool) returns (r: Store, completed: bool)
    ensures r == s.(posts := r.posts, nextPostId := r.nextPostId)
    ensures completed <==> |s.categories| > 0
    ensures !completed ==> r.posts == [] && r.nextPostId == s.nextPostId
    ensures completed ==> |r.posts| == SeedCount
    ensures completed ==> forall i :: 0 <= i < |r.posts| ==> SeededPost(s, slugOf, publishedDefault, r.posts[i], i)
    ensures Valid(s) ==> Valid(r)
  {
    r := s.(posts := []);
    if |s.categories| == 0 {
      completed := false;
      return;
    }
    var i := 0;
    while i < SeedCount
      invariant 0 <= i <= SeedCount
      invariant r == s.(posts := r.posts, nextPostId := r.nextPostId)
      invariant r.nextPostId == s.nextPostId + i
      invariant |r.posts| == i
      invariant forall k :: 0 <= k < i ==> SeededPost(s, slugOf, publishedDefault, r.posts[k], k)
    {
      assert s.categories[0] in s.categories;
      var category :| category in s.categories;
      var post := Post(Titles[i], Contents[i], ImgUrls[i], slugOf(Titles[i]), Some(category.id), None, publishedDefault);
      assert SeededPost(s, slugOf, publishedDefault, Row(r.nextPostId, post), i);
      r := r.(posts := r.posts + [Row(r.nextPostId, post)], nextPostId := r.nextPostId + 1);
      i := i + 1;
    }
    completed := true;
  }
}
