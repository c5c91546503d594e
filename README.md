# Instagram Helper in Dafny

A verified model of the logic at the core of Instagram Helper, a tool that
collects the recent posts of a list of Instagram accounts and writes them
into an HTML report (or prints their cleaned captions). The model covers:

- **Scraper** (`instagram_scraper.py`):
  - which links of a profile grid become post URLs, and how they are
    normalised;
  - how a page is opened with up to three attempts;
  - which posts survive the cutoff date, and which caption selector wins;
  - when an account is given up after three misses in a row.
- **Report** (`report_generator.py`): the figures of `ReportData`, the stable
  newest-first ordering the template lists, and the guard that skips an
  empty report.
- **Fetcher** (`data_fetcher.py`): the per-account retry loop, the feed loop
  with its two `break`s, and the resulting dictionary and tallies.
- **Captions** (`posts_display.py`): the caption cleaning pipeline (emoji
  and hashtag removal, character filter, space collapsing, line filtering).
- **Gui** (`gui_app.py`): the account text area, read and written as one
  string, and the check of the three numeric settings.
- **Config** (`config.py`):
  - the two Instagram settings the window overwrites;
  - the first-existing-path search;
  - the WSL2 test;
  - the choice of the browser profile directory.
- **Text** and **Optional**: the Python string operations the source relies
  on (`in`, `strip`, `rstrip`, `split`, `join`, `lower`, `isspace`), and an
  option type.

The browser, the network, the clock, the file system and the environment
are inputs:

- A scraped page is a `Page` value: how each navigation attempt ends, the
  link grid, the parsed date and what each caption selector finds.
  `site(url)` is the page shown for `url`.
- An instaloader fetch is an `Attempt`: a feed, a missing or private
  profile, or an error message.
- Dates are integers: instants in seconds for ordering and cutoffs, and day
  numbers for the age span of the report.
- The regex classes `\w` and `str.isalnum` are passed in as character
  predicates (`isWord`, `isAlnum`). `\s` and `strip()` use Python's
  concrete `str.isspace` set.

Where the code and its tests disagree, the model follows the code:

- test_posts_display.py expects "No caption" for an empty or missing
  caption. `clean_caption` returns "" (posts_display.py:59-60).
- The same tests expect '@' to be removed. The character filter keeps '@'
  (posts_display.py:27).
- The same tests expect sentences to be split onto lines. `_clean_lines`
  does not split them (posts_display.py:33-54).

The tests at test_posts_display.py:11, 19 and 24 agree with the code, and
the model proves them.

## Model

| member | source | states |
|---|---|---|
| Text.Contains | instagram_scraper.py:287 | Python's `pat in s`: true exactly when `pat` occurs at some position of `s` |
| Text.TrimRight | instagram_scraper.py:292-294 | `rstrip`: the result is a prefix that does not end in a dropped character, and everything cut off is dropped |
| Text.Strip | posts_display.py:39 | `strip()`: the result is stripped, is a slice of the input, and only whitespace was removed on either side |
| Text.Split | posts_display.py:35 | `split` at separator characters: at least one piece, none holding a separator, the first piece a prefix ending at the first separator |
| Text.SplitCount | posts_display.py:35 | there is exactly one more piece than there are separators |
| Text.JoinSplit | posts_display.py:35 | joining the pieces with the separator gives back the text, when that is the only separator character in it |
| Text.SplitJoin | posts_display.py:52 | joining separator-free pieces with a separator and splitting again gives the pieces back |
| Text.StripTrailing | posts_display.py:39 | `strip()` of a stripped text followed by whitespace gives the text |
| Text.JoinStripped | posts_display.py:52-54 | joining non-empty stripped lines with "\n" gives a stripped text that starts and ends with those lines' characters |
| Scraper.IsValidPostUrl | instagram_scraper.py:285-287 | a URL is a post URL exactly when "/p/" or "/reel/" occurs in it |
| Scraper.AbsoluteUrl | instagram_scraper.py:292-293 | the href always ends the result; an href starting with "/" gets exactly the base URL without its trailing slashes in front of it; any other href is kept as it is |
| Scraper.AbsoluteUrlValid | instagram_scraper.py:285-293 | a post or reel link is still one once it is made absolute |
| Scraper.BeforeQuery | instagram_scraper.py:294 | `split("?")[0]`: the longest prefix without '?', ending right before the first '?' |
| Scraper.NormalizePostUrl | instagram_scraper.py:289-294 | `None` exactly for a non-post URL; otherwise the absolute URL cut at the first '?' and without trailing slashes: no '?', no final '/', and only slashes removed |
| Scraper.NormalizeIdempotent | instagram_scraper.py:289-294 | normalising an absolute URL that normalising produced returns it unchanged |
| Scraper.PostAndReelUrlsValid | tests/test_instagram_scraper.py:249-252 | the post and reel URLs of the tests are valid |
| Scraper.StoryUrlInvalid | tests/test_instagram_scraper.py:253-255 | the story URL of the tests is not a post URL |
| Scraper.BareHostInvalid | tests/test_instagram_scraper.py:256 | the bare host URL is not a post URL |
| Scraper.PlainPostUrlNormalized | tests/test_instagram_scraper.py:266-267 | an absolute post URL loses only its trailing slash |
| Scraper.RelativePostUrlNormalized | tests/test_instagram_scraper.py:262-263 | "/p/123/" becomes "https://www.instagram.com/p/123" |
| Scraper.TrackedPostUrlNormalized | tests/test_instagram_scraper.py:270-273 | the query string and the trailing slash are both removed |
| Scraper.StoryUrlNotNormalized | tests/test_instagram_scraper.py:276-277 | a story URL normalises to no URL |
| Scraper.ScrollGrid | instagram_scraper.py:124-132 | at most ten probes; every probe before the last made saw a new count below the cap, and the loop stops at the first probe that did not |
| Scraper.LinkUrls | instagram_scraper.py:137-141 | each URL the links contribute is non-empty and is the normalisation of one of the hrefs |
| Scraper.Dedup | instagram_scraper.py:142-144 | keeping first occurrences loses no value and adds none |
| Scraper.DedupDistinct | instagram_scraper.py:142-144 | the kept URLs are pairwise distinct |
| Scraper.LinkBudget | instagram_scraper.py:136 | `min(count, max_links)`: never more than either and, when `max_links` is not negative, equal to one of them; none when it is negative |
| Scraper.ReadLinks | instagram_scraper.py:134-147 | the href loop returns the first occurrences of the non-empty normalised post URLs among the first `min(count, max_links)` links |
| Scraper.ReadLinksStep | instagram_scraper.py:138-146 | one link adds its URL exactly when it has one that was not seen before |
| Scraper.CollectLinks | instagram_scraper.py:113-147 | nothing when no link appears; otherwise at most `min(count, max_links)` distinct non-empty URLs, each the normalisation of some href |
| Scraper.Tries | instagram_scraper.py:175-205 | the number of `goto` calls: between 1 and 3, every attempt but the last raised, and fewer than 3 only when the last did not raise |
| Scraper.NavigateToUrl | instagram_scraper.py:173-205 | success exactly when the last attempt loaded the page (whatever its HTTP status); a login wall fails at once; the waits are 1000 ms, 2000 ms, one after each failed attempt but the last |
| Scraper.FirstCaption | instagram_scraper.py:228-259 | the caption is stripped; it is "" exactly when every selector's stripped text is empty, and otherwise it is the first non-empty one |
| Scraper.GetPostCaption | instagram_scraper.py:228-259 | the selector loop returns that first non-empty stripped text |
| Scraper.ExtractedPostCases | instagram_scraper.py:149-171 | no post exactly when navigation fails, there is no date, the date has no time zone or it is before the cutoff; a kept post has the URL, account, date and chosen caption |
| Scraper.ExtractPostData | instagram_scraper.py:149-171 | the method returns that outcome |
| Scraper.AccountUrl | instagram_scraper.py:68 | the profile URL starts with the base without its trailing slashes, ends with "/", the account name and "/", and is exactly that long |
| Scraper.OutcomeAt | instagram_scraper.py:81-83 | the outcome of the `i`-th URL is the extraction of that URL's page |
| Scraper.FoundMembers | instagram_scraper.py:84-85 | every post found is one of the outcomes |
| Scraper.ScanStep | instagram_scraper.py:84-93 | a post resets the miss streak; the third miss in a row is the first run of three misses |
| Scraper.ScanPosts | instagram_scraper.py:77-93 | the posts are those found among the visited URLs, in order; it visits all URLs unless it stopped right after the first run of three misses |
| Scraper.ProcessAccount | instagram_scraper.py:63-98 | nothing when the profile does not load or shows no post URL; otherwise the scan's posts, at most one per URL, all of the account, all in the URL list and none before the cutoff |
| Scraper.FoundPrefixFacts | instagram_scraper.py:83-85 | every post found belongs to the account, is no older than the cutoff and has one of the URLs |
| Report.AccountsCountBounds | report_generator.py:100-102 | there are never more accounts than posts, and at least one account once there is a post |
| Report.SingleAccount | report_generator.py:100-102 | posts of one account count as one account |
| Report.Insert | report_generator.py:104-106 | inserting adds exactly the new post: one more element, same multiset plus it |
| Report.InsertNewestFirst | report_generator.py:104-106 | inserting into a newest-first list keeps it newest first |
| Report.InsertDatedOn | report_generator.py:104-106 | the inserted post goes after the posts of its own date and leaves other dates alone |
| Report.SortedPostsCorrect | report_generator.py:104-106 | `sorted(..., reverse=True)` is a permutation, newest first, and stable: each date's posts keep their original order |
| Report.MaxPostAge | report_generator.py:123-131 | `max(0, generation day - cutoff day)`: at least that span, and either the span or 0 |
| Report.TemplateData | report_generator.py:108-121 | the template gets the posts newest first as a permutation of the input, their count, a distinct-account count between 1 and the post count when there are posts, and the age span |
| Report.GenerateHtmlReport | report_generator.py:134-166 | no posts gives no report and no rendering; otherwise the template data is rendered and the output path is returned exactly when writing succeeds |
| Fetcher.ToPostData | data_fetcher.py:144-149 | the URL is the post prefix, the shortcode and "/"; the caption is "No caption" exactly when the post's caption is missing, empty or already "No caption" |
| Fetcher.FirstOlder | data_fetcher.py:140-142 | the position of the first post older than the cutoff, all before it recent |
| Fetcher.Recent | data_fetcher.py:135-151 | the kept posts are a converted prefix of the feed, at most `cap` (none when `cap` ≤ 0), all recent, stopping only at the cap or the first older post |
| Fetcher.SelectRecent | data_fetcher.py:135-151 | the feed loop with its two `break`s keeps exactly that prefix |
| Fetcher.AccessDeniedCodes | data_fetcher.py:174 | the access check is "401 or 403 in the message"; its third test adds nothing |
| Fetcher.VerdictSettled | data_fetcher.py:130-187 | with at least one attempt allowed every account gets a verdict, at most `MAX_RETRIES` attempts are made, and a missing or private profile takes one |
| Fetcher.VerdictSource | data_fetcher.py:130-187 | a fetched verdict holds the recent posts of the feed that ended the run of failures; a skip after failures happens at the last allowed attempt with the matching reason |
| Fetcher.FetchAccount | data_fetcher.py:129-187 | the retry loop settles the account as the verdict function says, after the counted attempts |
| Fetcher.SuccessCount | data_fetcher.py:153-159 | the number of fetched verdicts never exceeds the number of accounts |
| Fetcher.SkippedEntries | data_fetcher.py:164-187 | at most one skipped entry per account |
| Fetcher.AccountsAccounted | data_fetcher.py:153-187 | when every account got a verdict, successes plus skips equal the number of accounts |
| Fetcher.PostsMapKeys | data_fetcher.py:153-154 | an account is a key exactly when one of its verdicts kept a post, and its entry is the non-empty post list of such a verdict |
| Fetcher.PostsMapLast | data_fetcher.py:153-154 | the entry of an account is the post list of its last verdict that kept a post: a later listing of the same account overwrites an earlier one |
| Fetcher.GetRecentPosts | data_fetcher.py:113-200 | the account loop builds the dictionary, the success count and the skipped list of the verdicts |
| Fetcher.GetRecentPostsAccounting | data_fetcher.py:123-196 | with `MAX_RETRIES` ≥ 1, every account is counted as either successful or skipped |
| Fetcher.PostsMapEntries | data_fetcher.py:135-154 | every dictionary entry belongs to a listed account and is a non-empty list of at most `cap` posts, none before the cutoff |
| Captions.RemoveWide | posts_display.py:16 | no character beyond U+FFFF is left |
| Captions.RemoveWideCounts | posts_display.py:16 | every other character keeps its count, and the wide ones are all gone |
| Captions.RemoveWideAppend | posts_display.py:16 | the removal works piece by piece: removing from a concatenation concatenates the removals |
| Captions.RemoveWideKeeps | posts_display.py:16 | a text without wide characters is unchanged |
| Captions.RemoveWideAllWide | posts_display.py:16 | a run of wide characters is removed entirely |
| Captions.WordRun | posts_display.py:18 | the run of word characters at the start, ended by a non-word character or the end |
| Captions.RemoveHashtags | posts_display.py:18 | no '#' is followed by a word character; a text without '#' is unchanged; a text that does not start with a word character still does not afterwards |
| Captions.RemoveHashtagsChars | posts_display.py:18 | hashtag removal only removes characters |
| Captions.RemoveHashtagsPrefix | posts_display.py:18 | text before the first '#' is kept as it is |
| Captions.RemoveHashtagsLoneHash | posts_display.py:18 | a '#' that no word character follows is kept |
| Captions.RemoveHashtagsTag | posts_display.py:18 | a '#' goes together with the whole run of word characters after it, and nothing after that run |
| Captions.RemoveEmojisAndHashtags | posts_display.py:13-19 | no wide character and no hashtag remain |
| Captions.EmojisAndHashtagsPrefix | posts_display.py:13-19 | text before the first '#' only loses its wide characters |
| Captions.EmojisAndHashtagsKeep | posts_display.py:13-19 | a text with neither wide characters nor '#' is unchanged |
| Captions.KeepAllowed | posts_display.py:27 | only allowed characters remain |
| Captions.KeepAllowedCounts | posts_display.py:27 | each allowed character keeps its count, and the others are all gone |
| Captions.KeepAllowedAppend | posts_display.py:27 | the filter works piece by piece |
| Captions.KeepAllowedKeeps | posts_display.py:27 | a text of allowed characters only is unchanged |
| Captions.CollapseSpaces | posts_display.py:29 | no two spaces in a row; apart from spaces the text is unchanged; empty exactly when the input is; same first character |
| Captions.CollapseFixpoint | posts_display.py:29 | a text without double spaces is left unchanged |
| Captions.CollapseIdempotent | posts_display.py:29 | collapsing twice is collapsing once |
| Captions.CollapseDoubled | posts_display.py:29 | one more space next to a space changes nothing, so each run of spaces gives the same single space |
| Captions.NormalizeAndCleanText | posts_display.py:22-30 | only allowed characters and no double spaces; apart from spaces, exactly the characters the allowed-character filter keeps, in order |
| Captions.NormalizeKeeps | posts_display.py:22-30 | an allowed text without double spaces is unchanged |
| Captions.NormalizeDoubled | posts_display.py:22-30 | one more space next to a space changes nothing |
| Captions.KeptLines | posts_display.py:38-49 | at most one kept line per line; each is non-empty, stripped, passes the drop tests, and is a single character only when that character is alphanumeric |
| Captions.BlankRunFilterKeepsAll | posts_display.py:52 | the blank-line comprehension keeps every line when none is empty |
| Captions.CleanLines | posts_display.py:33-54 | `_clean_lines`, with its blank-line filter and final strip performed, returns exactly the kept lines joined by "\n" |
| Captions.CleanedOneLine | posts_display.py:33-54 | a single line that survives the drop tests comes back stripped |
| Captions.CleanedLinesSplit | posts_display.py:33-54 | splitting the result at newlines gives back exactly the kept lines |
| Captions.CleanCaption | posts_display.py:57-66 | an empty or missing caption gives ""; anything else the three steps in order |
| Captions.CleanedLinesChars | posts_display.py:33-54 | line cleaning adds no character but newlines |
| Captions.CleanedCaptionChars | posts_display.py:57-66 | the three steps leave only allowed characters, none beyond U+FFFF and no '#' |
| Captions.CaptionChars | posts_display.py:57-66 | a cleaned caption holds only allowed characters, none beyond U+FFFF and no '#' |
| Captions.PlainLineKept | posts_display.py:57-66 | plain words separated by single spaces come through cleaning unchanged |
| Captions.SpacesNormalized | posts_display.py:22-30 | any number of spaces between two texts normalises like a single space |
| Captions.ExtraSpacesCleaned | test_posts_display.py:11 | a run of spaces between plain words becomes one space |
| Captions.WideRunRemoved | posts_display.py:13-19 | a run of wide characters between two spaces is taken out, leaving both spaces |
| Captions.EmojiCleaned | test_posts_display.py:19 | a run of wide characters between two spaces goes, and the two spaces become one |
| Captions.TrailingTagRemoved | posts_display.py:13-19 | a hashtag at the end of the text is taken out and nothing else |
| Captions.TrailingSpaceClean | posts_display.py:22-54 | a plain line followed by one space comes out of the last two steps as the line |
| Captions.HashtagCleaned | test_posts_display.py:24 | a hashtag at the end goes, and the space before it is stripped |
| Captions.ExtraSpacesExample | test_posts_display.py:11 | "Hello    world" is cleaned to "Hello world" |
| Captions.EmojiExample | test_posts_display.py:19 | "Hello 👋 world" is cleaned to "Hello world" |
| Captions.HashtagExample | test_posts_display.py:24 | "Hello #world" is cleaned to "Hello" |
| Gui.NonBlankLines | gui_app.py:316-320 | the comprehension yields non-empty stripped lines, at most one per line |
| Gui.ParseAccounts | gui_app.py:316-320 | every account read from the text is non-empty, stripped and on one line |
| Gui.NonBlankLinesOfNames | gui_app.py:316-320 | lines that already are account names come back unchanged |
| Gui.NonBlankLinesEmptyLast | gui_app.py:316-320 | a final empty line adds no account |
| Gui.GetSettings | gui_app.py:322-339 | no settings exactly when an entry does not parse or is not positive; otherwise the three parsed values unchanged |
| Gui.HelperGui.constructor | gui_app.py:265-293 | the account area starts empty |
| Gui.HelperGui.GetAccounts | gui_app.py:295-320 | the accounts read from the area are account names |
| Gui.HelperGui.LoadInitialAccounts | gui_app.py:289-293 | the area holds the accounts joined by "\n" with no final newline; when they are account names, reading them back gives the same list |
| Gui.LoadedAccountsReadBack | gui_app.py:289-320 | writing account names one per line and reading them back loses and adds nothing |
| Config.ClampMaxPosts | config.py:196-198 | `max(1, p)`: at least 1 and at least `p`, and one of the two |
| Config.ClampTimeout | config.py:199-201 | `max(1000, t)`: at least 1000 and at least `t`, and one of the two |
| Config.Updated | config.py:195-201 | after the update the cap is at least 1 and the timeout at least 1000 ms; values already in range are kept, a cap below 1 becomes 1 and a timeout below 1000 ms becomes 1000 ms; the URL and accounts are untouched |
| Config.UpdatedIdempotent | config.py:195-201 | updating twice with the same arguments is updating once |
| Config.UpdatedLastWins | config.py:195-201 | only the last update's arguments matter |
| Config.UpdatedWithOwnValues | config.py:195-201 | writing back a valid state's own values changes nothing |
| Config.Settings.constructor | config.py:136-192 | the defaults: the Instagram URL, a 20000 ms timeout, 3 posts per account and the 45 default accounts, within the update's bounds |
| Config.Settings.UpdateInstagramSettings | config.py:195-201 | overwrites exactly the two fields with the clamped values, leaving the rest as it was |
| Config.FirstExisting | config.py:38-42 | none exactly when no path exists (as a file or a directory); otherwise the first path that exists |
| Config.IsWsl2 | config.py:16-17 | WSL2 exactly when `os.name` is "posix" and "microsoft" occurs in the release in any letter case |
| Config.LowerContains | config.py:17 | a word occurs in the lowered text exactly where a slice lowers to it |
| Config.WindowsUserProfile | config.py:20-22 | `USERPROFILE` when set and non-empty, otherwise `HOMEPATH` when set and non-empty, otherwise none; never an empty path |
| Config.LayoutOf | config.py:81-97 | the Brave layout exactly when the lowered name contains "brave"; Edge exactly when it does not contain "brave" or "chrome" but contains "msedge" (Windows, WSL2) or "edge" (elsewhere); Chrome otherwise |
| Config.DefaultUserDataDir | config.py:75-97 | on Windows and WSL2 none exactly when no user profile is known, else under it; elsewhere always under the home directory; the relative part is that of the name's layout, Chrome's when there is no browser |
| Config.WindowsExecutablesLayouts | config.py:51-88 | brave.exe, chrome.exe and msedge.exe select their own browser's layout |
| Config.LinuxExecutablesLayouts | config.py:64-97 | brave-browser, google-chrome and microsoft-edge select their own browser's layout |
| Config.MacExecutablesLayouts | config.py:68-97 | "Brave Browser", "Google Chrome" and "Microsoft Edge" select their own browser's layout |

## Left out

- browser_manager.py is not part of this model. It covers process killing, launching the browser and connecting over CDP. These are I/O around Playwright and `subprocess`.
- Playwright itself: `goto`, locators, waits, the mouse wheel, consent clicking (instagram_scraper.py:207-221) and the login heuristic (instagram_scraper.py:223-226). Their results are inputs of `Page`.
- `_get_post_date` (instagram_scraper.py:261-281): ISO parsing and time-zone conversion are foreign library calls. Their result is an input (`PostDate`).
- `_get_post_urls` (instagram_scraper.py:102-111) only wraps `_collect_links` in a try/except. An exception there is not modelled.
- Time-zone handling (`pytz`, `ZoneInfo`) and the `strftime` strings (report_generator.py:114-118, posts_display.py:69-72) are left out. Dates are integers.
- Fetcher.ToPostData: the `date` field keeps the instant rather than its `isoformat()` string.
- Jinja template loading, rendering, HTML escaping and the file write are left out (report_generator.py:142-162). Whether they succeed is a parameter of `Report.GenerateHtmlReport`.
- The instaloader session and login (data_fetcher.py:22-98), the sleeps between attempts and accounts, and the logging are left out.
- The constants data_fetcher.py imports from config (`DAYS_TO_LOOK_BACK`, `MAX_RETRIES`, `POSTS_PER_ACCOUNT`, `INSTAGRAM_ACCOUNTS`) do not exist in config.py. They are parameters here.
- The NFKC normalisation (posts_display.py:25) is left out. Unicode normalisation tables are outside the model.
- Captions.KeepAllowed, Captions.RemoveHashtags, Captions.KeptLines: `\w` and `str.isalnum` are character predicates passed in, not Unicode's tables.
- Text.Lower: only ASCII letters are lowered. Python's `lower()` covers all of Unicode.
- Gui.ParseAccounts: `splitlines()` is modelled as a split at each line-break character, so "\r\n" and a final break yield extra empty pieces. The blank-line filter removes them, so the accounts read are the same.
- Gui.GetSettings: `int()` parsing of the entries is an input (`None` when it fails). The error dialog is left out.
- The window's widgets, threading, progress and log display in gui_app.py are left out. They are Tk plumbing.
- Config: the output and log directories, the time zone, the browser connection settings and `__post_init__` are left out. These are file-system and environment lookups.
- Config: `_wsl_windows_home` is left out for the same reason.
- Config: `_discover_browser_path` is not modelled as a function of the file system. `Config.FirstExisting` models its search. The candidate executables' names appear in the layout lemmas.
- Config.DefaultUserDataDir: how the home directory and the relative path are joined depends on the path flavour. It is left to the pair `ProfileDir`.
- The entry points (main.py, cli.py, run.py, run_gui.py, demo_gui.py) and utils.py are left out. They are argument parsing, logging setup and wiring.
