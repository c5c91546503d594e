/**
 * The data side of the HTML report (report_generator.py): the figures
 * `ReportData` derives from the scraped posts, the newest-first ordering the
 * template lists them in, and the guard that skips the report when there is
 * nothing to show. Dates are integers: a post's instant for ordering, day
 * numbers for the age span.
 */
module Report {
  import opened Optional
  import Scraper

  type Post = Scraper.Post

  /** `ReportData`: the posts, the cutoff day and the day the report is generated. */
  datatype ReportData = ReportData(posts: seq<Post>, cutoffDay: int, generationDay: int)

  /** The values `template_data` hands to the template (the date strings are left out). */
  datatype TemplateView = TemplateView(
    posts: seq<Post>,
    totalPosts: nat,
    totalAccounts: nat,
    maxPostAge: nat)

  // ---- Counts ----------------------------------------------------------------

  /** `total_posts`. */
  function TotalPosts(data: ReportData): nat {
    |data.posts|
  }

  /** The set `{p.account for p in posts}`. */
  function Accounts(posts: seq<Post>): set<string> {
    set p | p in posts :: p.account
  }

  /** `accounts_count`: how many distinct accounts the posts come from. */
  function AccountsCount(posts: seq<Post>): nat {
    |Accounts(posts)|
  }

  lemma AccountsSnoc(posts: seq<Post>, p: Post)
    ensures Accounts(posts + [p]) == Accounts(posts) + {p.account}
  {
    var all := posts + [p];
    forall a | a in Accounts(all) ensures a in Accounts(posts) + {a} && (a in Accounts(posts) || a == p.account) {
      var q :| q in all && q.account == a;
      if q != p {
        assert q in posts;
      }
    }
    forall a | a in Accounts(posts) ensures a in Accounts(all) {
      var q :| q in posts && q.account == a;
      assert q in all;
    }
    assert p in all;
  }

  /**
   * There are never more accounts than posts, and at least one as soon as
   * there is a post.
   */
  lemma {:induction false} AccountsCountBounds(posts: seq<Post>)
    ensures AccountsCount(posts) <= |posts|
    ensures posts != [] ==> AccountsCount(posts) >= 1
    decreases |posts|
  {
    if posts == [] {
      assert Accounts(posts) == {};
    } else {
      var init := posts[..|posts| - 1];
      var last := posts[|posts| - 1];
      assert posts == init + [last];
      AccountsSnoc(init, last);
      AccountsCountBounds(init);
      assert last.account in Accounts(posts);
    }
  }

  /** Posts of one account all count as one. */
  lemma SingleAccount(posts: seq<Post>, a: string)
    requires posts != [] && forall i :: 0 <= i < |posts| ==> posts[i].account == a
    ensures AccountsCount(posts) == 1
  {
    assert posts[0] in posts;
    assert Accounts(posts) == {a};
  }

  // ---- Newest-first ordering -------------------------------------------------

  /** Non-increasing in `datePosted`. */
  predicate NewestFirst(posts: seq<Post>) {
    forall i, j :: 0 <= i < j < |posts| ==> posts[i].datePosted >= posts[j].datePosted
  }

  /** The posts dated `date`, in their order. */
  function DatedOn(posts: seq<Post>, date: int): seq<Post> {
    if posts == [] then []
    else
      var init := DatedOn(posts[..|posts| - 1], date);
      if posts[|posts| - 1].datePosted == date then init + [posts[|posts| - 1]] else init
  }

  /**
   * Puts `p` after every post at least as new as it and before the first
   * older one, so that it follows posts of its own date.
   */
  function Insert(sorted: seq<Post>, p: Post): (r: seq<Post>)
    ensures multiset(r) == multiset(sorted) + multiset{p}
    ensures |r| == |sorted| + 1
  {
    if sorted == [] then [p]
    else if sorted[0].datePosted < p.datePosted then [p] + sorted
    else
      assert sorted == [sorted[0]] + sorted[1..];
      [sorted[0]] + Insert(sorted[1..], p)
  }

  /**
   * `sorted(posts, key=date_posted, reverse=True)`: Python's sort is stable
   * and `reverse=True` keeps posts of equal date in their original order, so
   * the result is the stable insertion of each post in turn.
   */
  function SortedPosts(posts: seq<Post>): seq<Post> {
    if posts == [] then []
    else Insert(SortedPosts(posts[..|posts| - 1]), posts[|posts| - 1])
  }

  lemma {:induction false} InsertNewestFirst(sorted: seq<Post>, p: Post)
    requires NewestFirst(sorted)
    ensures NewestFirst(Insert(sorted, p))
    decreases |sorted|
  {
    if sorted != [] && sorted[0].datePosted >= p.datePosted {
      var rest := Insert(sorted[1..], p);
      InsertNewestFirst(sorted[1..], p);
      assert multiset(rest) == multiset(sorted[1..]) + multiset{p};
      forall j | 0 <= j < |rest| ensures sorted[0].datePosted >= rest[j].datePosted {
        assert rest[j] in multiset(rest);
        if rest[j] != p {
          assert rest[j] in multiset(sorted[1..]);
          var k :| 0 <= k < |sorted[1..]| && sorted[1..][k] == rest[j];
          assert sorted[0].datePosted >= sorted[k + 1].datePosted;
        }
      }
    }
  }

  /** Inserting `p` appends it to the posts of its own date and leaves other dates alone. */
  lemma {:induction false} InsertDatedOn(sorted: seq<Post>, p: Post, date: int)
    requires NewestFirst(sorted)
    ensures DatedOn(Insert(sorted, p), date)
         == if p.datePosted == date then DatedOn(sorted, date) + [p] else DatedOn(sorted, date)
    decreases |sorted|
  {
    if sorted == [] {
      assert DatedOn([p], date) == DatedOn([], date) + (if p.datePosted == date then [p] else []);
    } else if sorted[0].datePosted < p.datePosted {
      InsertInFront(sorted, p, date);
    } else {
      InsertDatedOn(sorted[1..], p, date);
      InsertBehind(sorted, p, date);
    }
  }

  /** The step of `InsertDatedOn` where `p` goes past the first post. */
  lemma InsertBehind(sorted: seq<Post>, p: Post, date: int)
    requires sorted != [] && sorted[0].datePosted >= p.datePosted
    requires DatedOn(Insert(sorted[1..], p), date)
          == if p.datePosted == date then DatedOn(sorted[1..], date) + [p] else DatedOn(sorted[1..], date)
    ensures DatedOn(Insert(sorted, p), date)
         == if p.datePosted == date then DatedOn(sorted, date) + [p] else DatedOn(sorted, date)
  {
    var rest := Insert(sorted[1..], p);
    assert Insert(sorted, p) == [sorted[0]] + rest;
    assert [sorted[0]] + sorted[1..] == sorted;
    DatedOnPrepend(rest, sorted[0], date);
    DatedOnPrepend(sorted[1..], sorted[0], date);
  }

  /** A post newer than every sorted post goes in front, before no post of its date. */
  lemma InsertInFront(sorted: seq<Post>, p: Post, date: int)
    requires NewestFirst(sorted) && sorted != [] && sorted[0].datePosted < p.datePosted
    ensures DatedOn([p] + sorted, date)
         == if p.datePosted == date then DatedOn(sorted, date) + [p] else DatedOn(sorted, date)
  {
    DatedOnPrepend(sorted, p, date);
    if p.datePosted == date {
      forall i | 0 <= i < |sorted| ensures sorted[i].datePosted < date {
        assert sorted[0].datePosted >= sorted[i].datePosted;
      }
      DatedOnNone(sorted, date);
    }
  }

  lemma {:induction false} DatedOnPrepend(posts: seq<Post>, p: Post, date: int)
    ensures DatedOn([p] + posts, date)
         == (if p.datePosted == date then [p] else []) + DatedOn(posts, date)
    decreases |posts|
  {
    if posts != [] {
      var init := posts[..|posts| - 1];
      assert ([p] + posts)[..|posts|] == [p] + init;
      DatedOnPrepend(init, p, date);
    }
  }

  lemma {:induction false} DatedOnNone(posts: seq<Post>, date: int)
    requires forall i :: 0 <= i < |posts| ==> posts[i].datePosted < date
    ensures DatedOn(posts, date) == []
    decreases |posts|
  {
    if posts != [] {
      DatedOnNone(posts[..|posts| - 1], date);
    }
  }

  /**
   * The ordering the template lists: a permutation of the posts, newest
   * first, and stable: the posts of any one date keep their original order.
   */
  lemma {:induction false} SortedPostsCorrect(posts: seq<Post>)
    ensures |SortedPosts(posts)| == |posts|
    ensures multiset(SortedPosts(posts)) == multiset(posts)
    ensures NewestFirst(SortedPosts(posts))
    ensures forall date :: DatedOn(SortedPosts(posts), date) == DatedOn(posts, date)
    decreases |posts|
  {
    if posts != [] {
      var init := posts[..|posts| - 1];
      var last := posts[|posts| - 1];
      SortedPostsCorrect(init);
      assert posts == init + [last];
      InsertNewestFirst(SortedPosts(init), last);
      forall date ensures DatedOn(SortedPosts(posts), date) == DatedOn(posts, date) {
        InsertDatedOn(SortedPosts(init), last, date);
      }
    }
  }

  // ---- Age span and template values -----------------------------------------

  /**
   * `_calculate_max_post_age`: the whole days from the cutoff day to the
   * generation day, or 0 when the cutoff lies after the generation day.
   */
  function MaxPostAge(data: ReportData): (age: nat)
    ensures age >= data.generationDay - data.cutoffDay
    ensures age == 0 || age == data.generationDay - data.cutoffDay
  {
    if data.generationDay >= data.cutoffDay then data.generationDay - data.cutoffDay else 0
  }

  /** `template_data`, without the two strftime strings. */
  function TemplateData(data: ReportData): (view: TemplateView)
    ensures |view.posts| == view.totalPosts == TotalPosts(data)
    ensures multiset(view.posts) == multiset(data.posts)
    ensures NewestFirst(view.posts)
    ensures view.totalAccounts == AccountsCount(data.posts) <= view.totalPosts
    ensures data.posts != [] ==> view.totalAccounts >= 1
    ensures view.maxPostAge == MaxPostAge(data)
  {
    SortedPostsCorrect(data.posts);
    AccountsCountBounds(data.posts);
    TemplateView(SortedPosts(data.posts), TotalPosts(data), AccountsCount(data.posts), MaxPostAge(data))
  }

  // ---- Report generation -----------------------------------------------------

  /** What `generate_html_report` did: the path it returns and the view it rendered, if any. */
  datatype ReportRun = ReportRun(result: Option<string>, rendered: Option<TemplateView>)

  /**
   * `generate_html_report`. `writeOk(view)` says whether loading the template,
   * rendering `view` and writing the file all succeed; any failure there is
   * caught and turned into no result.
   */
  function GenerateHtmlReport(data: ReportData, outputPath: string, writeOk: TemplateView -> bool): (run: ReportRun)
    ensures data.posts == [] ==> run == ReportRun(None, None)
    ensures data.posts != [] ==> run.rendered == Some(TemplateData(data))
    ensures data.posts != [] ==> (run.result == Some(outputPath) <==> writeOk(TemplateData(data)))
    ensures run.result == None || run.result == Some(outputPath)
  {
    if data.posts == [] then ReportRun(None, None)
    else
      var view := TemplateData(data);
      ReportRun(if writeOk(view) then Some(outputPath) else None, Some(view))
  }
}
