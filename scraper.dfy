/**
 * The selection logic of `InstagramScraper` (instagram_scraper.py): which
 * links of a profile grid become post URLs, how a page is opened with
 * retries, which posts survive the cutoff, which caption is taken, and when
 * an account is given up after a run of misses.
 *
 * The browser is not modelled. What the page answers is an input: a `Page`
 * value says, for one URL, how each navigation attempt ends, what the link
 * grid and the post's `time` element hold and what each caption selector
 * finds. `site(url)` is the page the browser shows for `url`.
 */
module Scraper {
  import opened Optional
  import opened Text

  // ---- Data model ----------------------------------------------------------

  /** `InstagramPost`; `datePosted` is an instant in seconds since the epoch. */
  datatype Post = Post(url: string, account: string, caption: string, datePosted: int)

  /** What `_get_post_date` produced: an instant, and whether it has a time zone. */
  datatype PostDate = PostDate(instant: int, aware: bool)

  /**
   * How one `goto` attempt of `_navigate_to_url` ends: an exception escapes
   * the attempt (`Raised`), the login form is detected (`LoginWall`), or
   * the page loaded, with the HTTP status of the response if there was one.
   */
  datatype Attempt = Raised | LoginWall | Loaded(status: Option<int>)

  /**
   * The browser's view of one URL.
   * - `attempts(k)`: how navigation attempt `k` (counted from 0) ends;
   * - `linksAppear`: whether a post link shows up within the initial wait;
   * - `linkCounts(k)`: the number of post links at the `k`-th probe of the scroll loop;
   * - `hrefs`: the `href` attribute of each post link once scrolling is over, in page order;
   * - `date`: what the `time[datetime]` element parses to, if anything;
   * - `captions`: the inner text each caption selector finds, in the order
   *   they are tried (the primary XPath, then three fallbacks); `None` when
   *   the selector matches nothing or raises.
   */
  datatype Page = Page(
    attempts: nat -> Attempt,
    linksAppear: bool,
    linkCounts: nat -> nat,
    hrefs: seq<Option<string>>,
    date: Option<PostDate>,
    captions: seq<Option<string>>)

  const NavigationAttempts: nat := 3
  const ScrollSteps: nat := 10
  const MaxOldStreak: nat := 3

  // ---- URL helpers ---------------------------------------------------------

  predicate IsSlash(c: char) { c == '/' }
  predicate IsQueryMark(c: char) { c == '?' }

  /** `_is_valid_post_url`: the URL points at a post or a reel. */
  function IsValidPostUrl(url: string): (b: bool)
    ensures b <==> (exists i :: OccursAt("/p/", url, i)) || (exists i :: OccursAt("/reel/", url, i))
  {
    Contains(url, "/p/") || Contains(url, "/reel/")
  }

  /**
   * The URL a link refers to: a site-relative href is put under the base URL
   * (without its trailing slashes), any other href is already absolute. The
   * href always ends the result, so a post or reel link stays one.
   */
  function AbsoluteUrl(instagramUrl: string, href: string): (full: string)
    ensures |full| >= |href| && full[|full| - |href|..] == href
    ensures StartsWith(href, "/") ==>
      |full| == |TrimRight(instagramUrl, IsSlash)| + |href| && StartsWith(full, TrimRight(instagramUrl, IsSlash))
    ensures !StartsWith(href, "/") ==> full == href
  {
    if StartsWith(href, "/") then
      var base := TrimRight(instagramUrl, IsSlash);
      assert (base + href)[..|base|] == base;
      base + href
    else href
  }

  /** A post or reel link stays one once it is made absolute. */
  lemma AbsoluteUrlValid(instagramUrl: string, href: string)
    requires IsValidPostUrl(href)
    ensures IsValidPostUrl(AbsoluteUrl(instagramUrl, href))
  {
    if StartsWith(href, "/") {
      var base := TrimRight(instagramUrl, IsSlash);
      ContainsAppend(base, href, "/p/");
      ContainsAppend(base, href, "/reel/");
    }
  }

  /** `s.split("?")[0]`: everything before the first '?'. */
  function BeforeQuery(s: string): (r: string)
    ensures |r| <= |s| && r == s[..|r|] && '?' !in r
    ensures |r| < |s| ==> s[|r|] == '?'
  {
    var r := Split(s, IsQueryMark)[0];
    assert NoSeparator(r, IsQueryMark);
    r
  }

  /**
   * `_normalize_post_url`: `None` for a non-post URL; otherwise the absolute
   * URL cut before the first '?', with the trailing slashes removed.
   */
  function NormalizePostUrl(instagramUrl: string, href: string): (r: Option<string>)
    ensures r.None? <==> !IsValidPostUrl(href)
    ensures r.Some? ==> '?' !in r.value
    ensures r.Some? ==> r.value == [] || r.value[|r.value| - 1] != '/'
    ensures r.Some? ==>
      var cut := BeforeQuery(AbsoluteUrl(instagramUrl, href));
      |r.value| <= |cut| && r.value == cut[..|r.value|]
      && forall k :: |r.value| <= k < |cut| ==> cut[k] == '/'
  {
    if !IsValidPostUrl(href) then None
    else Some(TrimRight(BeforeQuery(AbsoluteUrl(instagramUrl, href)), IsSlash))
  }

  /**
   * Normalising is idempotent on the absolute post URLs it produces: feeding
   * a normalised URL back in returns it unchanged.
   */
  lemma NormalizeIdempotent(instagramUrl: string, href: string)
    requires NormalizePostUrl(instagramUrl, href).Some?
    requires IsValidPostUrl(NormalizePostUrl(instagramUrl, href).value)
    requires !StartsWith(NormalizePostUrl(instagramUrl, href).value, "/")
    ensures var v := NormalizePostUrl(instagramUrl, href).value;
            NormalizePostUrl(instagramUrl, v) == Some(v)
  {
    var v := NormalizePostUrl(instagramUrl, href).value;
    assert NoSeparator(v, IsQueryMark);
    SplitNoSeparator(v, IsQueryMark);
    assert BeforeQuery(v) == v;
  }

  /** `BeforeQuery` cuts at the first '?', wherever that is. */
  lemma BeforeQueryAt(s: string, q: nat)
    requires q <= |s| && '?' !in s[..q] && (q == |s| || s[q] == '?')
    ensures BeforeQuery(s) == s[..q]
  {
  }

  /** The normalised form, given the intermediate values it is built from. */
  lemma NormalizedVia(instagramUrl: string, href: string, full: string, cut: string, r: string)
    requires IsValidPostUrl(href) && AbsoluteUrl(instagramUrl, href) == full
    requires BeforeQuery(full) == cut && TrimRight(cut, IsSlash) == r
    ensures NormalizePostUrl(instagramUrl, href) == Some(r)
  {
  }

  // The URLs the validity and normalisation tests exercise. Each literal fact
  // sits in a lemma of its own, which keeps every proof obligation small.

  lemma PostAndReelUrlsValid()
    ensures IsValidPostUrl("https://instagram.com/p/123/")
    ensures IsValidPostUrl("https://instagram.com/reel/123/")
  {
    ContainedAt("https://instagram.com/p/123/", "/p/", 21);
    ContainedAt("https://instagram.com/reel/123/", "/reel/", 21);
  }

  lemma StoryUrlPieces()
    ensures "https://instagram.com/story/123/" == "htt" + "p" + "s://instagram.com/story/123/"
    ensures 'p' !in "s://instagram.com/story/123/"
  {
  }

  lemma StoryUrlNoPost()
    ensures !Contains("https://instagram.com/story/123/", "/p/")
  {
    StoryUrlPieces();
    AnchoredNotContained("https://instagram.com/story/123/", "/p/", 1, "htt", "s://instagram.com/story/123/", 0);
  }

  lemma StoryUrlNoReel()
    ensures !Contains("https://instagram.com/story/123/", "/reel/")
  {
    AbsentCharNotContained("https://instagram.com/story/123/", "/reel/", 2);
  }

  lemma StoryUrlInvalid()
    ensures !IsValidPostUrl("https://instagram.com/story/123/")
  {
    StoryUrlNoPost();
    StoryUrlNoReel();
  }

  lemma BareHostPieces()
    ensures "https://instagram.com/" == "htt" + "p" + "s://instagram.com/"
    ensures 'p' !in "s://instagram.com/"
  {
  }

  lemma BareHostNoPost()
    ensures !Contains("https://instagram.com/", "/p/")
  {
    BareHostPieces();
    AnchoredNotContained("https://instagram.com/", "/p/", 1, "htt", "s://instagram.com/", 0);
  }

  lemma BareHostNoReel()
    ensures !Contains("https://instagram.com/", "/reel/")
  {
    AbsentCharNotContained("https://instagram.com/", "/reel/", 2);
  }

  lemma BareHostInvalid()
    ensures !IsValidPostUrl("https://instagram.com/")
  {
    BareHostNoPost();
    BareHostNoReel();
  }

  /** The default base URL loses its trailing slash before a relative href is appended. */
  lemma DefaultBaseTrimmed()
    ensures TrimRight("https://www.instagram.com/", IsSlash) == "https://www.instagram.com"
  {
    TrimRightAt("https://www.instagram.com/", IsSlash, 25);
    assert "https://www.instagram.com/"[..25] == "https://www.instagram.com";
  }

  lemma PostUrlPieces()
    ensures '?' !in "https://www.instagram.com/p/123/"
    ensures "https://www.instagram.com/p/123/"[..31] == "https://www.instagram.com/p/123"
  {
  }

  lemma PostUrlTrimmed()
    ensures TrimRight("https://www.instagram.com/p/123/", IsSlash) == "https://www.instagram.com/p/123"
  {
    PostUrlPieces();
    TrimRightAt("https://www.instagram.com/p/123/", IsSlash, 31);
  }

  lemma PostUrlNoQuery()
    ensures BeforeQuery("https://www.instagram.com/p/123/") == "https://www.instagram.com/p/123/"
  {
    var post := "https://www.instagram.com/p/123/";
    PostUrlPieces();
    assert post[..|post|] == post;
    BeforeQueryAt(post, |post|);
  }

  lemma PostUrlKept()
    ensures AbsoluteUrl("https://www.instagram.com/", "https://www.instagram.com/p/123/")
         == "https://www.instagram.com/p/123/"
    ensures IsValidPostUrl("https://www.instagram.com/p/123/")
  {
    assert "https://www.instagram.com/p/123/"[0] == 'h';
    PostUrlValid();
  }

  lemma PostUrlValid()
    ensures IsValidPostUrl("https://www.instagram.com/p/123/")
  {
    ContainedAt("https://www.instagram.com/p/123/", "/p/", 25);
  }

  /** A post URL without a query loses only its trailing slash. */
  lemma PlainPostUrlNormalized()
    ensures NormalizePostUrl("https://www.instagram.com/", "https://www.instagram.com/p/123/")
         == Some("https://www.instagram.com/p/123")
  {
    var post := "https://www.instagram.com/p/123/";
    PostUrlKept();
    PostUrlNoQuery();
    PostUrlTrimmed();
    NormalizedVia("https://www.instagram.com/", post, post, post, "https://www.instagram.com/p/123");
  }

  lemma RelativeHrefResolved()
    ensures AbsoluteUrl("https://www.instagram.com/", "/p/123/") == "https://www.instagram.com/p/123/"
    ensures IsValidPostUrl("/p/123/")
  {
    ContainedAt("/p/123/", "/p/", 0);
    DefaultBaseTrimmed();
    assert "https://www.instagram.com" + "/p/123/" == "https://www.instagram.com/p/123/";
  }

  lemma RelativePostUrlNormalized()
    ensures NormalizePostUrl("https://www.instagram.com/", "/p/123/")
         == Some("https://www.instagram.com/p/123")
  {
    RelativeHrefResolved();
    PostUrlNoQuery();
    PostUrlTrimmed();
    var post := "https://www.instagram.com/p/123/";
    NormalizedVia("https://www.instagram.com/", "/p/123/", post, post, "https://www.instagram.com/p/123");
  }

  lemma TrackedUrlCut()
    ensures BeforeQuery("https://www.instagram.com/p/123/?utm_source=test") == "https://www.instagram.com/p/123/"
  {
    var post := "https://www.instagram.com/p/123/";
    var tracked := post + "?utm_source=test";
    assert tracked == "https://www.instagram.com/p/123/?utm_source=test";
    assert tracked[..|post|] == post;
    PostUrlPieces();
    BeforeQueryAt(tracked, |post|);
  }

  lemma TrackedUrlKept()
    ensures AbsoluteUrl("https://www.instagram.com/", "https://www.instagram.com/p/123/?utm_source=test")
         == "https://www.instagram.com/p/123/?utm_source=test"
    ensures IsValidPostUrl("https://www.instagram.com/p/123/?utm_source=test")
  {
    var post := "https://www.instagram.com/p/123/";
    var tracked := post + "?utm_source=test";
    assert tracked == "https://www.instagram.com/p/123/?utm_source=test";
    assert tracked[0] == 'h';
    assert tracked[25..28] == post[25..28];
    ContainedAt(tracked, "/p/", 25);
  }

  lemma TrackedPostUrlNormalized()
    ensures NormalizePostUrl("https://www.instagram.com/", "https://www.instagram.com/p/123/?utm_source=test")
         == Some("https://www.instagram.com/p/123")
  {
    var tracked := "https://www.instagram.com/p/123/?utm_source=test";
    TrackedUrlKept();
    TrackedUrlCut();
    PostUrlTrimmed();
    NormalizedVia("https://www.instagram.com/", tracked, tracked, "https://www.instagram.com/p/123/",
      "https://www.instagram.com/p/123");
  }

  lemma StoryUrlNotNormalized()
    ensures NormalizePostUrl("https://www.instagram.com/", "https://instagram.com/story/123/") == None
  {
    StoryUrlInvalid();
  }

  // ---- Link collection -----------------------------------------------------

  /** `last_count` before scroll probe `k`: -1 at first, then the previous probe. */
  function PreviousCount(linkCounts: nat -> nat, k: nat): int {
    if k == 0 then -1 else linkCounts(k - 1)
  }

  /** Probe `k` saw a new count, still below `maxLinks`, so the grid was scrolled. */
  predicate ScrolledAt(linkCounts: nat -> nat, maxLinks: int, k: nat) {
    linkCounts(k) != PreviousCount(linkCounts, k) && linkCounts(k) < maxLinks
  }

  /**
   * The scroll loop of `_collect_links`: probe the number of links, stop
   * when it did not change or reached `maxLinks`, otherwise scroll once more;
   * at most ten probes. Returns how many times the grid was scrolled.
   */
  method ScrollGrid(linkCounts: nat -> nat, maxLinks: int) returns (scrolls: nat)
    ensures scrolls <= ScrollSteps
    ensures forall k :: 0 <= k < scrolls ==> ScrolledAt(linkCounts, maxLinks, k)
    ensures scrolls < ScrollSteps ==> !ScrolledAt(linkCounts, maxLinks, scrolls)
  {
    var lastCount := -1;
    scrolls := 0;
    while scrolls < ScrollSteps
      invariant scrolls <= ScrollSteps
      invariant lastCount == PreviousCount(linkCounts, scrolls)
      invariant forall k :: 0 <= k < scrolls ==> ScrolledAt(linkCounts, maxLinks, k)
    {
      var count := linkCounts(scrolls);
      if count == lastCount || count >= maxLinks {
        return;
      }
      lastCount := count;
      scrolls := scrolls + 1;
    }
  }

  /** The URL one link contributes: its normalised href, unless empty or not a post. */
  function LinkUrl(instagramUrl: string, href: Option<string>): (r: seq<string>)
    ensures |r| <= 1
    ensures forall u :: u in r ==> u != [] && href.Some? && NormalizePostUrl(instagramUrl, href.value) == Some(u)
  {
    if href.None? || href.value == [] then []
    else match NormalizePostUrl(instagramUrl, href.value)
      case None => []
      case Some(n) => if n == [] then [] else [n]
  }

  /** The URLs the links `hrefs` contribute, in page order, duplicates included. */
  function LinkUrls(instagramUrl: string, hrefs: seq<Option<string>>): (r: seq<string>)
    ensures |r| <= |hrefs|
    ensures forall u :: u in r ==>
      u != [] && exists i :: 0 <= i < |hrefs| && hrefs[i].Some? && NormalizePostUrl(instagramUrl, hrefs[i].value) == Some(u)
  {
    if hrefs == [] then []
    else
      var init := hrefs[..|hrefs| - 1];
      var r := LinkUrls(instagramUrl, init) + LinkUrl(instagramUrl, hrefs[|hrefs| - 1]);
      assert forall i :: 0 <= i < |init| ==> init[i] == hrefs[i];
      r
  }

  /** Keep the first occurrence of every element, in order of first appearance. */
  function Dedup(s: seq<string>): (r: seq<string>)
    ensures |r| <= |s|
    ensures forall x :: x in r <==> x in s
  {
    if s == [] then []
    else
      var init := s[..|s| - 1];
      var last := s[|s| - 1];
      assert s == init + [last];
      Dedup(init) + (if last in init then [] else [last])
  }

  lemma LinkUrlsSnoc(instagramUrl: string, hrefs: seq<Option<string>>, i: nat)
    requires i < |hrefs|
    ensures LinkUrls(instagramUrl, hrefs[..i + 1])
         == LinkUrls(instagramUrl, hrefs[..i]) + LinkUrl(instagramUrl, hrefs[i])
  {
    assert hrefs[..i + 1][..i] == hrefs[..i];
  }

  lemma DedupSnoc(s: seq<string>, x: string)
    ensures Dedup(s + [x]) == Dedup(s) + (if x in s then [] else [x])
  {
    assert (s + [x])[..|s|] == s;
  }

  /** The elements of `s` are pairwise distinct. */
  predicate Distinct(s: seq<string>) {
    forall i, j :: 0 <= i < j < |s| ==> s[i] != s[j]
  }

  lemma {:induction false} DedupDistinct(s: seq<string>)
    ensures Distinct(Dedup(s))
  {
    if s != [] {
      DedupDistinct(s[..|s| - 1]);
    }
  }

  /** How many links `_collect_links` reads: `min(count, max_links)`, none if negative. */
  function LinkBudget(count: nat, maxLinks: int): (n: nat)
    ensures n <= count && (n <= maxLinks || (n == 0 && maxLinks < 0))
    ensures maxLinks >= 0 ==> n == count || n == maxLinks
  {
    if maxLinks < 0 then 0 else if count < maxLinks then count else maxLinks
  }

  /**
   * The href loop of `_collect_links`: read the first `min(count, max_links)`
   * links, normalise each non-empty href, and keep the URLs not seen before,
   * stopping once `max_links` URLs are kept.
   */
  method ReadLinks(instagramUrl: string, hrefs: seq<Option<string>>, maxLinks: int)
    returns (urls: seq<string>)
    ensures urls == Dedup(LinkUrls(instagramUrl, hrefs[..LinkBudget(|hrefs|, maxLinks)]))
  {
    var seen: set<string> := {};
    urls := [];
    var count := LinkBudget(|hrefs|, maxLinks);
    var i := 0;
    while i < count
      invariant i <= count
      invariant urls == Dedup(LinkUrls(instagramUrl, hrefs[..i]))
      invariant forall u :: u in seen <==> u in urls
      invariant |urls| <= i
    {
      ReadLinksStep(instagramUrl, hrefs, i);
      var href := hrefs[i];
      if href.None? || href.value == [] {
        i := i + 1;
        continue;
      }
      var n := NormalizePostUrl(instagramUrl, href.value);
      if n.Some? && n.value != [] && n.value !in seen {
        urls := urls + [n.value];
        seen := seen + {n.value};
        if |urls| >= maxLinks {
          i := i + 1;
          assert i == count;
          return;
        }
      }
      i := i + 1;
    }
    assert hrefs[..count] == hrefs[..i];
  }

  /** One link read: its URL is kept when there is one and it has not been seen. */
  lemma ReadLinksStep(instagramUrl: string, hrefs: seq<Option<string>>, i: nat)
    requires i < |hrefs|
    ensures var before := LinkUrls(instagramUrl, hrefs[..i]);
            var u := LinkUrl(instagramUrl, hrefs[i]);
            Dedup(LinkUrls(instagramUrl, hrefs[..i + 1]))
              == Dedup(before) + (if u == [] || u[0] in before then [] else u)
  {
    LinkUrlsSnoc(instagramUrl, hrefs, i);
    var before := LinkUrls(instagramUrl, hrefs[..i]);
    var u := LinkUrl(instagramUrl, hrefs[i]);
    if u == [] {
      assert before + u == before;
    } else {
      assert u == [u[0]];
      DedupSnoc(before, u[0]);
    }
  }

  /** What `_collect_links` returns for a page, as a value. */
  function CollectedLinks(instagramUrl: string, page: Page, maxLinks: int): seq<string> {
    if !page.linksAppear then []
    else Dedup(LinkUrls(instagramUrl, page.hrefs[..LinkBudget(|page.hrefs|, maxLinks)]))
  }

  /**
   * `_collect_links`: nothing if no link appears within the initial wait;
   * otherwise scroll, then read at most `max_links` distinct, non-empty
   * normalised post URLs in page order.
   */
  method CollectLinks(instagramUrl: string, page: Page, maxLinks: int) returns (urls: seq<string>)
    ensures urls == CollectedLinks(instagramUrl, page, maxLinks)
    ensures !page.linksAppear ==> urls == []
    ensures |urls| <= LinkBudget(|page.hrefs|, maxLinks)
    ensures Distinct(urls)
    ensures forall u :: u in urls ==>
      u != [] && (exists i :: 0 <= i < |page.hrefs| && page.hrefs[i].Some?
                    && NormalizePostUrl(instagramUrl, page.hrefs[i].value) == Some(u))
  {
    if !page.linksAppear {
      return [];
    }
    var _ := ScrollGrid(page.linkCounts, maxLinks);
    urls := ReadLinks(instagramUrl, page.hrefs, maxLinks);
    var budget := LinkBudget(|page.hrefs|, maxLinks);
    DedupDistinct(LinkUrls(instagramUrl, page.hrefs[..budget]));
    assert forall i :: 0 <= i < budget ==> page.hrefs[..budget][i] == page.hrefs[i];
  }

  // ---- Navigation ----------------------------------------------------------

  /**
   * How many `goto` calls `_navigate_to_url` makes, counting from attempt
   * `k`: it goes on only after an attempt that raised, and stops after three.
   */
  function Tries(attempts: nat -> Attempt, k: nat): (n: nat)
    requires k < NavigationAttempts
    ensures k < n <= NavigationAttempts
    ensures forall j :: k <= j < n - 1 ==> attempts(j).Raised?
    ensures n < NavigationAttempts ==> !attempts(n - 1).Raised?
    decreases NavigationAttempts - k
  {
    if attempts(k).Raised? && k + 1 < NavigationAttempts then Tries(attempts, k + 1) else k + 1
  }

  /** `_navigate_to_url` succeeds: the last attempt made loaded the page. */
  predicate Navigated(attempts: nat -> Attempt) {
    attempts(Tries(attempts, 0) - 1).Loaded?
  }

  /**
   * `_navigate_to_url`: at most three attempts; after failed attempt `k < 3`
   * wait `1000 * k` ms; a login wall fails at once; a loaded page succeeds
   * whatever its HTTP status.
   */
  method NavigateToUrl(attempts: nat -> Attempt) returns (ok: bool, tries: nat, waits: seq<int>)
    ensures ok == Navigated(attempts) && tries == Tries(attempts, 0)
    ensures 1 <= tries <= NavigationAttempts
    ensures ok ==> attempts(tries - 1).Loaded?
    ensures attempts(0) == LoginWall ==> !ok && tries == 1
    ensures |waits| == tries - 1
    ensures forall k :: 0 <= k < |waits| ==> waits[k] == 1000 * (k + 1)
  {
    var attempt := 1;
    waits := [];
    while attempt <= NavigationAttempts
      invariant 1 <= attempt <= NavigationAttempts + 1
      invariant forall j :: 0 <= j < attempt - 1 ==> attempts(j).Raised?
      invariant |waits| == if attempt <= NavigationAttempts then attempt - 1 else NavigationAttempts - 1
      invariant forall k :: 0 <= k < |waits| ==> waits[k] == 1000 * (k + 1)
      invariant attempt <= NavigationAttempts ==> Tries(attempts, 0) == Tries(attempts, attempt - 1)
      decreases NavigationAttempts + 1 - attempt
    {
      match attempts(attempt - 1)
      case Loaded(status) =>
        // An HTTP status of 400 or more is only logged.
        return true, attempt, waits;
      case LoginWall =>
        return false, attempt, waits;
      case Raised =>
        if attempt < NavigationAttempts {
          waits := waits + [1000 * attempt];
        }
        attempt := attempt + 1;
    }
    return false, NavigationAttempts, waits;
  }

  // ---- Caption and post extraction -----------------------------------------

  /** The stripped text one caption selector found, "" if it found nothing. */
  function ProbeText(probe: Option<string>): string {
    if probe.None? then [] else Strip(probe.value)
  }

  /**
   * `_get_post_caption` as a value: the first non-empty stripped text among
   * the selectors, in the order tried, or "" when all fail.
   */
  function FirstCaption(probes: seq<Option<string>>): (r: string)
    ensures IsStripped(r)
    ensures r == [] <==> forall i :: 0 <= i < |probes| ==> ProbeText(probes[i]) == []
    ensures r != [] ==> exists i :: FirstTextAt(probes, i) && ProbeText(probes[i]) == r
  {
    if probes == [] then []
    else if ProbeText(probes[0]) != [] then
      assert FirstTextAt(probes, 0);
      ProbeText(probes[0])
    else
      var r := FirstCaption(probes[1..]);
      FirstCaptionShift(probes, r);
      r
  }

  /** Probe `i` is the first whose stripped text is non-empty. */
  ghost predicate FirstTextAt(probes: seq<Option<string>>, i: int) {
    0 <= i < |probes| && ProbeText(probes[i]) != []
    && forall j :: 0 <= j < i ==> ProbeText(probes[j]) == []
  }

  /** A probe with no text in front moves every answer one place on. */
  lemma FirstCaptionShift(probes: seq<Option<string>>, r: string)
    requires probes != [] && ProbeText(probes[0]) == []
    requires r == [] <==> forall i :: 0 <= i < |probes| - 1 ==> ProbeText(probes[1..][i]) == []
    requires r != [] ==> exists i :: FirstTextAt(probes[1..], i) && ProbeText(probes[1..][i]) == r
    ensures r == [] <==> forall i :: 0 <= i < |probes| ==> ProbeText(probes[i]) == []
    ensures r != [] ==> exists i :: FirstTextAt(probes, i) && ProbeText(probes[i]) == r
  {
    if r == [] {
      forall i | 0 < i < |probes| ensures ProbeText(probes[i]) == [] {
        assert probes[i] == probes[1..][i - 1];
      }
    } else {
      var k :| FirstTextAt(probes[1..], k) && ProbeText(probes[1..][k]) == r;
      assert probes[1..][k] == probes[k + 1];
      forall j | 0 < j < k + 1 ensures ProbeText(probes[j]) == [] {
        assert probes[j] == probes[1..][j - 1];
      }
      assert FirstTextAt(probes, k + 1);
    }
  }

  /** `_get_post_caption`: try the selectors in order, first non-empty text wins. */
  method GetPostCaption(probes: seq<Option<string>>) returns (caption: string)
    ensures caption == FirstCaption(probes)
    ensures IsStripped(caption)
  {
    var i := 0;
    while i < |probes|
      invariant i <= |probes|
      invariant FirstCaption(probes) == FirstCaption(probes[i..])
    {
      assert probes[i..][1..] == probes[i + 1..];
      var probe := probes[i];
      if probe.Some? {
        var text := Strip(probe.value);
        if text != [] {
          return text;
        }
      }
      i := i + 1;
    }
    return [];
  }

  /**
   * `_extract_post_data` as a value: no post if navigation fails, the page
   * has no date, the date has no time zone, or the post is older than the
   * cutoff; otherwise the post at `url` for `account`, with its caption.
   */
  function ExtractedPost(url: string, account: string, cutoff: int, page: Page): Option<Post> {
    if !Navigated(page.attempts) then None
    else match page.date
      case None => None
      case Some(d) =>
        if !d.aware then None
        else if d.instant < cutoff then None
        else Some(Post(url, account, FirstCaption(page.captions), d.instant))
  }

  /**
   * `_extract_post_data` drops a post in exactly four cases; a post it keeps
   * is the one asked for, dated no earlier than the cutoff, with the caption
   * of the selector chain.
   */
  lemma ExtractedPostCases(url: string, account: string, cutoff: int, page: Page)
    ensures var r := ExtractedPost(url, account, cutoff, page);
      && (r.None? <==>
           !Navigated(page.attempts) || page.date.None? || !page.date.value.aware
           || page.date.value.instant < cutoff)
      && (r.Some? ==>
           r.value.url == url && r.value.account == account
           && r.value.datePosted == page.date.value.instant && r.value.datePosted >= cutoff
           && r.value.caption == FirstCaption(page.captions) && IsStripped(r.value.caption))
  {
  }

  /** `_extract_post_data`: open the post and keep it only if it is recent enough. */
  method ExtractPostData(url: string, account: string, cutoff: int, page: Page)
    returns (post: Option<Post>)
    ensures post == ExtractedPost(url, account, cutoff, page)
  {
    var ok, _, _ := NavigateToUrl(page.attempts);
    if !ok {
      return None;
    }
    if page.date.None? {
      return None;
    }
    var date := page.date.value;
    if !date.aware {
      return None;
    }
    if date.instant < cutoff {
      return None;
    }
    var caption := GetPostCaption(page.captions);
    return Some(Post(url, account, caption, date.instant));
  }

  // ---- Per-account processing ----------------------------------------------

  /** `f"{INSTAGRAM_URL.rstrip('/')}/{account}/"`. */
  function AccountUrl(instagramUrl: string, account: string): (u: string)
    ensures StartsWith(u, TrimRight(instagramUrl, IsSlash) + "/")
    ensures |u| > |account| && u[|u| - |account| - 1..] == account + "/"
    ensures |u| == |TrimRight(instagramUrl, IsSlash)| + |account| + 2
  {
    var u := TrimRight(instagramUrl, IsSlash) + "/" + account + "/";
    assert u[..|TrimRight(instagramUrl, IsSlash) + "/"|] == TrimRight(instagramUrl, IsSlash) + "/";
    u
  }

  /** The extraction outcome for each URL, in order. */
  function Outcomes(urls: seq<string>, account: string, cutoff: int, site: string -> Page)
    : (outs: seq<Option<Post>>)
    ensures |outs| == |urls|
  {
    if urls == [] then []
    else
      var last := urls[|urls| - 1];
      Outcomes(urls[..|urls| - 1], account, cutoff, site) + [ExtractedPost(last, account, cutoff, site(last))]
  }

  lemma {:induction false} OutcomeAt(urls: seq<string>, account: string, cutoff: int, site: string -> Page, i: nat)
    requires i < |urls|
    ensures Outcomes(urls, account, cutoff, site)[i] == ExtractedPost(urls[i], account, cutoff, site(urls[i]))
    decreases |urls|
  {
    var init := urls[..|urls| - 1];
    if i < |init| {
      OutcomeAt(init, account, cutoff, site, i);
      assert init[i] == urls[i];
    }
  }

  /** The posts among the outcomes, in order. */
  function Found(outs: seq<Option<Post>>): (posts: seq<Post>)
    ensures |posts| <= |outs|
  {
    if outs == [] then []
    else Found(outs[..|outs| - 1]) + (if outs[|outs| - 1].Some? then [outs[|outs| - 1].value] else [])
  }

  /** Every post found is one of the outcomes. */
  lemma {:induction false} FoundMembers(outs: seq<Option<Post>>)
    ensures forall p :: p in Found(outs) ==> Some(p) in outs
    decreases |outs|
  {
    if outs != [] {
      var init := outs[..|outs| - 1];
      FoundMembers(init);
      assert forall o :: o in init ==> o in outs;
    }
  }

  /** Outcomes `j`, `j + 1` and `j + 2` are all misses. */
  ghost predicate MissRunAt(outs: seq<Option<Post>>, j: int) {
    0 <= j && j + 3 <= |outs| && outs[j].None? && outs[j + 1].None? && outs[j + 2].None?
  }

  lemma FoundSnoc(outs: seq<Option<Post>>, i: nat)
    requires i < |outs|
    ensures Found(outs[..i + 1])
         == Found(outs[..i]) + (if outs[i].Some? then [outs[i].value] else [])
  {
    assert outs[..i + 1][..i] == outs[..i];
  }

  /**
   * After `n` outcomes with `streak` misses since the last post found: the
   * streak is the run of misses at the end, and no earlier run of three
   * misses exists.
   */
  ghost predicate StreakAfter(outs: seq<Option<Post>>, n: nat, streak: nat) {
    n <= |outs| && streak < MaxOldStreak && streak <= n
    && (forall k :: n - streak <= k < n ==> outs[k].None?)
    && (n - streak - 1 >= 0 ==> outs[n - streak - 1].Some?)
    && (forall j :: 0 <= j && j + MaxOldStreak <= n ==> !MissRunAt(outs, j))
  }

  /**
   * One step of the post loop keeps the found posts and the streak
   * bookkeeping right; the third miss in a row ends the first run of three.
   */
  lemma ScanStep(outs: seq<Option<Post>>, n: nat, streak: nat, posts: seq<Post>)
    requires StreakAfter(outs, n, streak) && n < |outs| && posts == Found(outs[..n])
    ensures outs[n].Some? ==> StreakAfter(outs, n + 1, 0) && posts + [outs[n].value] == Found(outs[..n + 1])
    ensures outs[n].None? ==> posts == Found(outs[..n + 1])
    ensures outs[n].None? && streak + 1 < MaxOldStreak ==> StreakAfter(outs, n + 1, streak + 1)
    ensures outs[n].None? && streak + 1 >= MaxOldStreak ==>
      MissRunAt(outs, n + 1 - MaxOldStreak)
      && forall j :: 0 <= j && j + MaxOldStreak < n + 1 ==> !MissRunAt(outs, j)
  {
    FoundSnoc(outs, n);
  }

  /**
   * The post loop of `process_account`: extract the posts one URL at a
   * time, stopping right after three misses in a row (a post found resets
   * the count). `visited` is the number of post URLs opened: all of them,
   * or up to the end of the first run of three misses.
   */
  method ScanPosts(urls: seq<string>, account: string, cutoff: int, site: string -> Page)
    returns (posts: seq<Post>, visited: nat)
    ensures visited <= |urls|
    ensures posts == Found(Outcomes(urls, account, cutoff, site)[..visited])
    ensures visited == |urls| || MissRunAt(Outcomes(urls, account, cutoff, site), visited - MaxOldStreak)
    ensures forall j :: 0 <= j && j + MaxOldStreak < visited ==>
      !MissRunAt(Outcomes(urls, account, cutoff, site), j)
  {
    ghost var outs := Outcomes(urls, account, cutoff, site);
    posts := [];
    visited := 0;
    var oldStreak: nat := 0;
    while visited < |urls|
      invariant visited <= |urls|
      invariant posts == Found(outs[..visited])
      invariant StreakAfter(outs, visited, oldStreak)
    {
      ghost var n := visited;
      ScanStep(outs, n, oldStreak, posts);
      var post := ExtractPostData(urls[visited], account, cutoff, site(urls[visited]));
      OutcomeAt(urls, account, cutoff, site, n);
      assert post == outs[n];
      visited := visited + 1;
      if post.Some? {
        posts := posts + [post.value];
        oldStreak := 0;
      } else {
        oldStreak := oldStreak + 1;
        if oldStreak >= MaxOldStreak {
          return;
        }
      }
    }
  }

  /**
   * `process_account`: nothing if the profile page does not load or shows
   * no post URL; otherwise the posts the post loop finds among the collected
   * URLs, at most one per URL, all of the account and none older than the
   * cutoff.
   */
  method ProcessAccount(
    instagramUrl: string, maxPosts: int, account: string, cutoff: int, site: string -> Page)
    returns (posts: seq<Post>, urls: seq<string>, visited: nat)
    ensures !Navigated(site(AccountUrl(instagramUrl, account)).attempts) ==> urls == [] && posts == []
    ensures Navigated(site(AccountUrl(instagramUrl, account)).attempts) ==>
      urls == CollectedLinks(instagramUrl, site(AccountUrl(instagramUrl, account)), maxPosts)
    ensures visited <= |urls|
    ensures posts == Found(Outcomes(urls, account, cutoff, site)[..visited])
    ensures visited == |urls| || MissRunAt(Outcomes(urls, account, cutoff, site), visited - MaxOldStreak)
    ensures forall j :: 0 <= j && j + MaxOldStreak < visited ==>
      !MissRunAt(Outcomes(urls, account, cutoff, site), j)
    ensures |posts| <= |urls|
    ensures forall p :: p in posts ==> p.account == account && p.datePosted >= cutoff && p.url in urls
  {
    var profile := site(AccountUrl(instagramUrl, account));
    var loaded, _, _ := NavigateToUrl(profile.attempts);
    if !loaded {
      return [], [], 0;
    }
    urls := CollectLinks(instagramUrl, profile, maxPosts);
    if urls == [] {
      return [], [], 0;
    }
    posts, visited := ScanPosts(urls, account, cutoff, site);
    FoundPrefixFacts(Outcomes(urls, account, cutoff, site), visited, urls, account, cutoff, site);
  }

  /** What every found post owes to its outcome. */
  lemma FoundPrefixFacts(
    outs: seq<Option<Post>>, n: nat, urls: seq<string>, account: string, cutoff: int, site: string -> Page)
    requires outs == Outcomes(urls, account, cutoff, site) && n <= |outs|
    ensures forall p :: p in Found(outs[..n]) ==> p.account == account && p.datePosted >= cutoff && p.url in urls
  {
    FoundMembers(outs[..n]);
    forall p | p in Found(outs[..n])
      ensures p.account == account && p.datePosted >= cutoff && p.url in urls
    {
      assert Some(p) in outs[..n];
      var i :| 0 <= i < n && outs[..n][i] == Some(p);
      OutcomeAt(urls, account, cutoff, site, i);
      ExtractedPostCases(urls[i], account, cutoff, site(urls[i]));
    }
  }
}
