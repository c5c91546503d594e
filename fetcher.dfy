/**
 * The legacy fetcher (data_fetcher.py, `InstagramFetcher.get_recent_posts`):
 * for each configured account it fetches the profile, with retries, keeps
 * the newest feed posts up to a cap and back to a cutoff, and keeps count of
 * the accounts that succeeded and the ones it skipped.
 *
 * What one fetch attempt yields for an account is an oracle: `fetch(i, k)` is
 * the outcome of attempt `k` (counting from 1) for the `i`-th account. Feed
 * dates are instants; the cutoff is the instant "now minus the look-back".
 */
module Fetcher {
  import opened Optional
  import opened Text

  /** A post of a profile's feed, as instaloader yields it. */
  datatype FeedPost = FeedPost(shortcode: string, dateUtc: int, caption: Option<string>)

  /** The dictionary built for a kept post. */
  datatype PostData = PostData(url: string, date: int, shortcode: string, caption: string)

  /**
   * How one attempt ends: the profile does not exist, it is private, some
   * other exception with its message, or the profile's feed.
   */
  datatype Attempt = NotFound | Private | Failed(message: string) | Feed(posts: seq<FeedPost>)

  /** What the retry loop settles for one account. */
  datatype Verdict =
    | Fetched(posts: seq<PostData>)   // counted in `successful_accounts`
    | Skipped(reason: string)         // one entry in `skipped_accounts`
    | NotAttempted                    // only when there are no attempts at all

  // ---- One post --------------------------------------------------------------

  const PostUrlPrefix := "https://www.instagram.com/p/"
  const NoCaption := "No caption"

  function ToPostData(p: FeedPost): (d: PostData)
    ensures d.url == PostUrlPrefix + p.shortcode + "/"
    ensures d.shortcode == p.shortcode && d.date == p.dateUtc
    ensures d.caption == NoCaption <==> (p.caption == None || p.caption == Some([]) || p.caption == Some(NoCaption))
    ensures p.caption.Some? && p.caption.value != [] ==> d.caption == p.caption.value
  {
    var caption := if p.caption.Some? && p.caption.value != [] then p.caption.value else NoCaption;
    PostData(PostUrlPrefix + p.shortcode + "/", p.dateUtc, p.shortcode, caption)
  }

  // ---- Selection from one feed -----------------------------------------------

  /** The position of the first post older than the cutoff, or the feed's length. */
  function FirstOlder(feed: seq<FeedPost>, cutoff: int): (n: nat)
    ensures n <= |feed|
    ensures forall j :: 0 <= j < n ==> feed[j].dateUtc >= cutoff
    ensures n < |feed| ==> feed[n].dateUtc < cutoff
  {
    if feed == [] || feed[0].dateUtc < cutoff then 0 else 1 + FirstOlder(feed[1..], cutoff)
  }

  /** How many feed posts are kept: up to `cap`, and none from the first older one on. */
  function KeptCount(feed: seq<FeedPost>, cap: int, cutoff: int): nat {
    var newer := FirstOlder(feed, cutoff);
    if cap <= 0 then 0 else if cap < newer then cap else newer
  }

  /** Each feed post converted, in place. */
  function Converted(feed: seq<FeedPost>): seq<PostData> {
    seq(|feed|, j requires 0 <= j < |feed| => ToPostData(feed[j]))
  }

  /**
   * The posts `get_recent_posts` keeps from one feed: a prefix of the feed,
   * at most `cap` long, all at or after the cutoff, and it stops short of the
   * feed's end only at the cap or at the first older post.
   */
  function Recent(feed: seq<FeedPost>, cap: int, cutoff: int): (r: seq<PostData>)
    ensures |r| <= |feed| && (cap <= 0 ==> r == []) && (cap > 0 ==> |r| <= cap)
    ensures forall j :: 0 <= j < |r| ==> r[j] == ToPostData(feed[j]) && feed[j].dateUtc >= cutoff
    ensures forall j :: 0 <= j < |r| ==> r[j].date >= cutoff
    ensures |r| < |feed| && |r| < cap ==> feed[|r|].dateUtc < cutoff
  {
    Converted(feed[..KeptCount(feed, cap, cutoff)])
  }

  /** The feed loop of `get_recent_posts`, with its two `break`s. */
  method SelectRecent(feed: seq<FeedPost>, cap: int, cutoff: int) returns (kept: seq<PostData>)
    ensures kept == Recent(feed, cap, cutoff)
  {
    kept := [];
    var count := 0;
    var i := 0;
    while i < |feed|
      invariant 0 <= i <= |feed| && count == i == |kept|
      invariant i <= KeptCount(feed, cap, cutoff)
      invariant kept == Converted(feed[..i])
    {
      if count >= cap {
        break;
      }
      if feed[i].dateUtc < cutoff {
        break;
      }
      kept := kept + [ToPostData(feed[i])];
      count := count + 1;
      i := i + 1;
    }
    assert i == KeptCount(feed, cap, cutoff);
  }

  // ---- One account -------------------------------------------------------------

  /** The exception message mentions an access error. */
  predicate AccessDenied(message: string) {
    Contains(message, "401") || Contains(message, "403") || Contains(message, "HTTP error code 401")
  }

  /** The third test of the access check adds nothing: its text contains "401". */
  lemma AccessDeniedCodes(message: string)
    ensures AccessDenied(message) <==> Contains(message, "401") || Contains(message, "403")
  {
    if Contains(message, "HTTP error code 401") {
      var i :| OccursAt("HTTP error code 401", message, i);
      assert message[i + 16..i + 19] == message[i..i + 19][16..19];
      assert OccursAt("401", message, i + 16);
    }
  }

  /** The skipped-entry suffix after the final failed attempt. */
  function FailureReason(message: string): string {
    if AccessDenied(message) then " (access denied)" else " (error)"
  }

  /**
   * The retry loop from attempt `k` on: a feed settles the account as
   * fetched, a missing or private profile as skipped at once, and any other
   * failure moves on to the next attempt, or is the skipped reason when it
   * was the last one.
   */
  function VerdictFrom(attempts: nat -> Attempt, k: nat, maxRetries: int, cap: int, cutoff: int): Verdict
    requires k >= 1
    decreases maxRetries - k
  {
    if k > maxRetries then NotAttempted
    else match attempts(k)
      case Feed(feed) => Fetched(Recent(feed, cap, cutoff))
      case NotFound => Skipped(" (not found)")
      case Private => Skipped(" (private)")
      case Failed(message) =>
        if k < maxRetries then VerdictFrom(attempts, k + 1, maxRetries, cap, cutoff)
        else Skipped(FailureReason(message))
  }

  /** How many attempts the retry loop makes from attempt `k` on. */
  function TriesFrom(attempts: nat -> Attempt, k: nat, maxRetries: int): nat
    requires k >= 1
    decreases maxRetries - k
  {
    if k > maxRetries then 0
    else if attempts(k).Failed? && k < maxRetries then 1 + TriesFrom(attempts, k + 1, maxRetries)
    else 1
  }

  /**
   * With at least one attempt allowed the account always gets a verdict, at
   * most `maxRetries` attempts are made, and a missing or private profile
   * costs exactly one.
   */
  lemma {:induction false} VerdictSettled(attempts: nat -> Attempt, k: nat, maxRetries: int, cap: int, cutoff: int)
    requires 1 <= k <= maxRetries
    ensures !VerdictFrom(attempts, k, maxRetries, cap, cutoff).NotAttempted?
    ensures 1 <= TriesFrom(attempts, k, maxRetries) <= maxRetries - k + 1
    ensures attempts(k).NotFound? || attempts(k).Private? ==> TriesFrom(attempts, k, maxRetries) == 1
    decreases maxRetries - k
  {
    if attempts(k).Failed? && k < maxRetries {
      VerdictSettled(attempts, k + 1, maxRetries, cap, cutoff);
    }
  }

  /**
   * A skipped verdict after a run of failures names the final failure; a
   * fetched one holds what `Recent` keeps of the feed that ended the run.
   */
  lemma {:induction false} VerdictSource(attempts: nat -> Attempt, k: nat, maxRetries: int, cap: int, cutoff: int)
    requires 1 <= k
    ensures var v := VerdictFrom(attempts, k, maxRetries, cap, cutoff);
            var last := k + TriesFrom(attempts, k, maxRetries) - 1;
            (v.Fetched? ==> attempts(last).Feed? && v.posts == Recent(attempts(last).posts, cap, cutoff))
            && (v.Skipped? && attempts(last).Failed? ==> last == maxRetries && v.reason == FailureReason(attempts(last).message))
            && (forall j :: k <= j < last ==> attempts(j).Failed?)
    decreases maxRetries - k
  {
    if k <= maxRetries && attempts(k).Failed? && k < maxRetries {
      VerdictSource(attempts, k + 1, maxRetries, cap, cutoff);
    }
  }

  /** The retry loop of `get_recent_posts` for one account. */
  method FetchAccount(attempts: nat -> Attempt, maxRetries: int, cap: int, cutoff: int)
    returns (verdict: Verdict, tries: nat)
    ensures verdict == VerdictFrom(attempts, 1, maxRetries, cap, cutoff)
    ensures tries == TriesFrom(attempts, 1, maxRetries)
  {
    verdict := NotAttempted;
    tries := 0;
    var attempt := 1;
    while attempt <= maxRetries
      invariant 1 <= attempt && tries == attempt - 1
      invariant attempt <= maxRetries + 1 || maxRetries < 1
      invariant verdict == NotAttempted ==>
        VerdictFrom(attempts, 1, maxRetries, cap, cutoff) == VerdictFrom(attempts, attempt, maxRetries, cap, cutoff)
        && TriesFrom(attempts, 1, maxRetries) == tries + TriesFrom(attempts, attempt, maxRetries)
      invariant verdict != NotAttempted ==>
        attempt == maxRetries + 1 && verdict == VerdictFrom(attempts, 1, maxRetries, cap, cutoff)
        && tries == TriesFrom(attempts, 1, maxRetries)
      decreases maxRetries - attempt
    {
      tries := attempt;
      match attempts(attempt) {
        case Feed(feed) =>
          var kept := SelectRecent(feed, cap, cutoff);
          verdict := Fetched(kept);
          break;
        case NotFound =>
          verdict := Skipped(" (not found)");
          break;
        case Private =>
          verdict := Skipped(" (private)");
          break;
        case Failed(message) =>
          if attempt == maxRetries {
            verdict := Skipped(FailureReason(message));
          }
      }
      attempt := attempt + 1;
    }
  }

  // ---- All accounts --------------------------------------------------------------

  /** The verdict for each of the first `n` accounts. */
  function Verdicts(fetch: (nat, nat) -> Attempt, n: nat, maxRetries: int, cap: int, cutoff: int): seq<Verdict> {
    seq(n, (i: nat) requires i < n => VerdictFrom((k: nat) => fetch(i, k), 1, maxRetries, cap, cutoff))
  }

  /** One more account adds its own verdict and leaves the earlier ones as they were. */
  lemma VerdictsSnoc(fetch: (nat, nat) -> Attempt, n: nat, maxRetries: int, cap: int, cutoff: int)
    ensures Verdicts(fetch, n + 1, maxRetries, cap, cutoff)
         == Verdicts(fetch, n, maxRetries, cap, cutoff) + [VerdictFrom((k: nat) => fetch(n, k), 1, maxRetries, cap, cutoff)]
  {
  }

  /** `successful_accounts`: the fetched verdicts, whether or not they kept a post. */
  function SuccessCount(vs: seq<Verdict>): (n: nat)
    ensures n <= |vs|
  {
    if vs == [] then 0
    else SuccessCount(vs[..|vs| - 1]) + if vs[|vs| - 1].Fetched? then 1 else 0
  }

  /** `skipped_accounts`: each skipped account with its reason, in order. */
  function SkippedEntries(accounts: seq<string>, vs: seq<Verdict>): (entries: seq<string>)
    requires |accounts| == |vs|
    ensures |entries| <= |vs|
  {
    if vs == [] then []
    else
      var n := |vs| - 1;
      SkippedEntries(accounts[..n], vs[..n]) + if vs[n].Skipped? then [accounts[n] + vs[n].reason] else []
  }

  /** The `posts` dictionary: an account is set when its verdict kept a post; later entries win. */
  function PostsMap(accounts: seq<string>, vs: seq<Verdict>): map<string, seq<PostData>>
    requires |accounts| == |vs|
  {
    if vs == [] then map[]
    else
      var n := |vs| - 1;
      var before := PostsMap(accounts[..n], vs[..n]);
      if vs[n].Fetched? && vs[n].posts != [] then before[accounts[n] := vs[n].posts] else before
  }

  /**
   * When every account got a verdict, each is either counted successful or
   * has one skipped entry.
   */
  lemma {:induction false} AccountsAccounted(accounts: seq<string>, vs: seq<Verdict>)
    requires |accounts| == |vs|
    requires forall i :: 0 <= i < |vs| ==> !vs[i].NotAttempted?
    ensures SuccessCount(vs) + |SkippedEntries(accounts, vs)| == |vs|
    decreases |vs|
  {
    if vs != [] {
      var n := |vs| - 1;
      AccountsAccounted(accounts[..n], vs[..n]);
    }
  }

  /**
   * An account is a key of `posts` exactly when one of its verdicts kept a
   * post, and its entry is the kept posts of the last such verdict.
   */
  lemma {:induction false} PostsMapKeys(accounts: seq<string>, vs: seq<Verdict>, a: string)
    requires |accounts| == |vs|
    ensures a in PostsMap(accounts, vs) <==>
      exists i :: 0 <= i < |vs| && accounts[i] == a && vs[i].Fetched? && vs[i].posts != []
    ensures a in PostsMap(accounts, vs) ==>
      exists i :: 0 <= i < |vs| && accounts[i] == a && vs[i].Fetched? && PostsMap(accounts, vs)[a] == vs[i].posts != []
    decreases |vs|
  {
    if vs != [] {
      var n := |vs| - 1;
      PostsMapKeys(accounts[..n], vs[..n], a);
      if a in PostsMap(accounts[..n], vs[..n]) {
        var i :| 0 <= i < n && accounts[..n][i] == a && vs[..n][i].Fetched? && PostsMap(accounts[..n], vs[..n])[a] == vs[..n][i].posts;
        assert accounts[i] == a && vs[i] == vs[..n][i];
      }
      if exists i :: 0 <= i < |vs| && accounts[i] == a && vs[i].Fetched? && vs[i].posts != [] {
        var i :| 0 <= i < |vs| && accounts[i] == a && vs[i].Fetched? && vs[i].posts != [];
        if i < n {
          assert accounts[..n][i] == a && vs[..n][i] == vs[i];
        }
      }
    }
  }

  /** Verdict `i`, for account `a`, kept a post. */
  predicate KeptFor(accounts: seq<string>, vs: seq<Verdict>, a: string, i: int)
    requires |accounts| == |vs|
  {
    0 <= i < |vs| && accounts[i] == a && vs[i].Fetched? && vs[i].posts != []
  }

  /**
   * The entry of an account is the kept posts of its last verdict that kept
   * any: the dictionary assignment of a later listing overwrites an earlier one.
   */
  lemma {:induction false} PostsMapLast(accounts: seq<string>, vs: seq<Verdict>, a: string)
    requires |accounts| == |vs|
    ensures a in PostsMap(accounts, vs) ==>
      exists i :: KeptFor(accounts, vs, a, i) && PostsMap(accounts, vs)[a] == vs[i].posts
                  && forall j :: i < j < |vs| ==> !KeptFor(accounts, vs, a, j)
    decreases |vs|
  {
    if vs != [] {
      var n := |vs| - 1;
      if KeptFor(accounts, vs, a, n) {
        assert PostsMap(accounts, vs)[a] == vs[n].posts;
      } else if a in PostsMap(accounts, vs) {
        PostsMapLast(accounts[..n], vs[..n], a);
        var i :| KeptFor(accounts[..n], vs[..n], a, i) && PostsMap(accounts[..n], vs[..n])[a] == vs[..n][i].posts
                 && forall j :: i < j < n ==> !KeptFor(accounts[..n], vs[..n], a, j);
        assert accounts[..n][i] == accounts[i] && vs[..n][i] == vs[i];
        forall j | i < j < |vs|
          ensures !KeptFor(accounts, vs, a, j)
        {
          if j < n {
            assert !KeptFor(accounts[..n], vs[..n], a, j);
            assert accounts[..n][j] == accounts[j] && vs[..n][j] == vs[j];
          }
        }
        assert KeptFor(accounts, vs, a, i);
      }
    }
  }

  /**
   * `get_recent_posts`. Returns the posts dictionary together with the two
   * tallies the source logs at the end.
   */
  method GetRecentPosts(accounts: seq<string>, fetch: (nat, nat) -> Attempt, maxRetries: int, cap: int, cutoff: int)
    returns (posts: map<string, seq<PostData>>, successful: nat, skipped: seq<string>)
    ensures var vs := Verdicts(fetch, |accounts|, maxRetries, cap, cutoff);
            posts == PostsMap(accounts, vs) && successful == SuccessCount(vs)
            && skipped == SkippedEntries(accounts, vs)
  {
    posts := map[];
    successful := 0;
    skipped := [];
    var i: nat := 0;
    while i < |accounts|
      invariant 0 <= i <= |accounts|
      invariant var vs := Verdicts(fetch, i, maxRetries, cap, cutoff);
        posts == PostsMap(accounts[..i], vs) && successful == SuccessCount(vs)
        && skipped == SkippedEntries(accounts[..i], vs)
    {
      var verdict, _ := FetchAccount((k: nat) => fetch(i, k), maxRetries, cap, cutoff);
      ghost var before := Verdicts(fetch, i, maxRetries, cap, cutoff);
      ghost var after := Verdicts(fetch, i + 1, maxRetries, cap, cutoff);
      VerdictsSnoc(fetch, i, maxRetries, cap, cutoff);
      assert after[..i] == before && after[i] == verdict;
      assert accounts[..i + 1][..i] == accounts[..i];
      match verdict {
        case Fetched(kept) =>
          if kept != [] {
            posts := posts[accounts[i] := kept];
          }
          successful := successful + 1;
        case Skipped(reason) =>
          skipped := skipped + [accounts[i] + reason];
        case NotAttempted =>
      }
      i := i + 1;
    }
    assert accounts[..|accounts|] == accounts;
  }

  /**
   * The accounting of `get_recent_posts`: with at least one attempt allowed,
   * successful and skipped accounts together are all the accounts, and every
   * dictionary entry is a non-empty list of at most `cap` recent posts.
   */
  lemma GetRecentPostsAccounting(accounts: seq<string>, fetch: (nat, nat) -> Attempt, maxRetries: int, cap: int, cutoff: int)
    requires maxRetries >= 1
    ensures var vs := Verdicts(fetch, |accounts|, maxRetries, cap, cutoff);
            SuccessCount(vs) + |SkippedEntries(accounts, vs)| == |accounts|
  {
    var vs := Verdicts(fetch, |accounts|, maxRetries, cap, cutoff);
    forall i: nat | i < |vs| ensures !vs[i].NotAttempted? {
      VerdictSettled((k: nat) => fetch(i, k), 1, maxRetries, cap, cutoff);
    }
    AccountsAccounted(accounts, vs);
  }

  /** Every entry of the dictionary is a non-empty list of at most `cap` posts, all recent. */
  lemma PostsMapEntries(accounts: seq<string>, fetch: (nat, nat) -> Attempt, maxRetries: int, cap: int, cutoff: int, a: string)
    requires a in PostsMap(accounts, Verdicts(fetch, |accounts|, maxRetries, cap, cutoff))
    ensures var entry := PostsMap(accounts, Verdicts(fetch, |accounts|, maxRetries, cap, cutoff))[a];
            a in accounts && entry != [] && |entry| <= cap
            && forall j :: 0 <= j < |entry| ==> entry[j].date >= cutoff
  {
    var vs := Verdicts(fetch, |accounts|, maxRetries, cap, cutoff);
    PostsMapKeys(accounts, vs, a);
    var i :| 0 <= i < |vs| && accounts[i] == a && vs[i].Fetched? && PostsMap(accounts, vs)[a] == vs[i].posts != [];
    VerdictSource((k: nat) => fetch(i, k), 1, maxRetries, cap, cutoff);
  }
}
