/**
 * The parts of the application settings (config.py) that carry logic: the
 * Instagram settings the window may overwrite in place, the choice of the
 * first existing browser path, the WSL2 test and the browser profile
 * directory. The environment (operating system, kernel release, environment
 * variables, the file system) is passed in as parameters.
 */
module Config {
  import opened Optional
  import opened Text

  // ---- Instagram settings ------------------------------------------------------

  const DefaultInstagramUrl: string := "https://www.instagram.com/"
  const DefaultPostLoadTimeout: int := 20000
  const DefaultMaxPostsPerAccount: int := 3

  /** The accounts checked when none are given. */
  const DefaultAccounts: seq<string> := [
    "agendagijon", "asociacionelviescu", "asturiasacoge", "asturiesculturaenrede",
    "aytocastrillon", "aytoviedo", "ayuntamientocabranes", "bandinalagarrapiella",
    "biodevas", "centroniemeyer", "centros_sociales_oviedo", "chigreculturallatadezinc",
    "cinesfoncalada", "conocerasturias", "conseyu_cmx", "crjasturias",
    "cuentosdemaleta", "cultura.gijon", "cultura.grau", "culturacolunga",
    "culturallanes", "deportesayov", "exprime.gijon", "ferialibroxixon",
    "gijon", "gonggalaxyclub", "juventudgijon", "juventudoviedo",
    "kbunsgijon", "kuivi_almacenes", "laboralciudadcultura", "lacompaniadelalba",
    "lasalvaje.oviedo", "mierescultura", "museosgijonxixon", "museudelpuebludasturies",
    "nortes.me", "oviedo.turismo", "paramo_bar", "patioh_laboral",
    "prestosofest", "prial_asociacion", "traslapuertatiteres", "trivilorioyeimpro",
    "youropia_asociacion"]

  /** The Instagram fields of a `Settings` object, as one value. */
  datatype InstagramSettings = InstagramSettings(
    url: string,
    postLoadTimeout: int,
    maxPostsPerAccount: int,
    accounts: seq<string>)

  /** The bounds `update_instagram_settings` enforces. */
  predicate Valid(s: InstagramSettings) {
    s.maxPostsPerAccount >= 1 && s.postLoadTimeout >= 1000
  }

  /** `max(1, max_posts)`. */
  function ClampMaxPosts(maxPosts: int): (r: int)
    ensures r >= 1 && r >= maxPosts
    ensures r == 1 || r == maxPosts
  {
    if maxPosts < 1 then 1 else maxPosts
  }

  /** `max(1_000, timeout_ms)`. */
  function ClampTimeout(timeoutMs: int): (r: int)
    ensures r >= 1000 && r >= timeoutMs
    ensures r == 1000 || r == timeoutMs
  {
    if timeoutMs < 1000 then 1000 else timeoutMs
  }

  /** The settings after `update_instagram_settings(maxPosts, timeoutMs)`. */
  function Updated(s: InstagramSettings, maxPosts: int, timeoutMs: int): (u: InstagramSettings)
    ensures Valid(u)
    ensures u.url == s.url && u.accounts == s.accounts
    ensures maxPosts >= 1 ==> u.maxPostsPerAccount == maxPosts
    ensures timeoutMs >= 1000 ==> u.postLoadTimeout == timeoutMs
    ensures maxPosts < 1 ==> u.maxPostsPerAccount == 1
    ensures timeoutMs < 1000 ==> u.postLoadTimeout == 1000
  {
    s.(maxPostsPerAccount := ClampMaxPosts(maxPosts), postLoadTimeout := ClampTimeout(timeoutMs))
  }

  /** Calling the update twice with the same arguments is calling it once. */
  lemma UpdatedIdempotent(s: InstagramSettings, maxPosts: int, timeoutMs: int)
    ensures Updated(Updated(s, maxPosts, timeoutMs), maxPosts, timeoutMs) == Updated(s, maxPosts, timeoutMs)
  {
  }

  /** Only the arguments of the last update decide the two values. */
  lemma UpdatedLastWins(s: InstagramSettings, p1: int, t1: int, p2: int, t2: int)
    ensures Updated(Updated(s, p1, t1), p2, t2) == Updated(s, p2, t2)
  {
  }

  /** Writing back the values a valid state already holds changes nothing. */
  lemma UpdatedWithOwnValues(s: InstagramSettings)
    requires Valid(s)
    ensures Updated(s, s.maxPostsPerAccount, s.postLoadTimeout) == s
  {
  }

  /** The frozen `Settings` dataclass, of which the window overwrites two fields. */
  class Settings {
    var instagramUrl: string
    var postLoadTimeout: int
    var maxPostsPerAccount: int
    var accounts: seq<string>

    /** The Instagram fields as a value. */
    function State(): InstagramSettings
      reads this
    {
      InstagramSettings(instagramUrl, postLoadTimeout, maxPostsPerAccount, accounts)
    }

    /** `Settings()` with every default. */
    constructor ()
      ensures State() == InstagramSettings(DefaultInstagramUrl, DefaultPostLoadTimeout,
                                           DefaultMaxPostsPerAccount, DefaultAccounts)
      ensures Valid(State())
    {
      instagramUrl := DefaultInstagramUrl;
      postLoadTimeout := DefaultPostLoadTimeout;
      maxPostsPerAccount := DefaultMaxPostsPerAccount;
      accounts := DefaultAccounts;
    }

    /**
     * `update_instagram_settings`: overwrites the post cap, raised to at
     * least 1, and the page timeout, raised to at least 1000 ms.
     */
    method UpdateInstagramSettings(maxPosts: int, timeoutMs: int)
      modifies this
      ensures State() == Updated(old(State()), maxPosts, timeoutMs)
      ensures Valid(State())
      ensures maxPostsPerAccount == ClampMaxPosts(maxPosts)
      ensures postLoadTimeout == ClampTimeout(timeoutMs)
      ensures instagramUrl == old(instagramUrl) && accounts == old(accounts)
    {
      maxPostsPerAccount := ClampMaxPosts(maxPosts);
      postLoadTimeout := ClampTimeout(timeoutMs);
    }
  }

  // ---- Browser discovery -------------------------------------------------------

  /**
   * `_first_existing`: the first of `paths`, in order, that exists (as a
   * file or a directory, like `Path.exists`), or none. A `Path` is never falsy, so the source's `p and` adds
   * nothing to the test.
   */
  method FirstExisting(paths: seq<string>, pathExists: string -> bool) returns (r: Option<string>)
    ensures r.None? <==> forall i :: 0 <= i < |paths| ==> !pathExists(paths[i])
    ensures r.Some? ==> exists i :: 0 <= i < |paths| && paths[i] == r.value && pathExists(paths[i])
                                 && forall j :: 0 <= j < i ==> !pathExists(paths[j])
  {
    var i := 0;
    while i < |paths|
      invariant 0 <= i <= |paths|
      invariant forall j :: 0 <= j < i ==> !pathExists(paths[j])
    {
      if pathExists(paths[i]) {
        return Some(paths[i]);
      }
      i := i + 1;
    }
    return None;
  }

  /**
   * `_is_wsl2`: `os.name` is "posix" and the kernel release contains
   * "microsoft" in any mix of upper and lower case.
   */
  function IsWsl2(osName: string, release: string): (b: bool)
    ensures b <==> osName == "posix" && exists i :: LowerOccursAt("microsoft", release, i)
  {
    LowerContains(release, "microsoft");
    osName == "posix" && Contains(Lower(release), "microsoft")
  }

  /** `pat` is the lowered slice of `s` at `i`. */
  ghost predicate LowerOccursAt(pat: string, s: string, i: int) {
    0 <= i && i + |pat| <= |s| && Lower(s[i..i + |pat|]) == pat
  }

  /** A pattern occurs in the lowered text exactly where a slice lowers to it. */
  lemma LowerContains(s: string, pat: string)
    ensures Contains(Lower(s), pat) <==> exists i :: LowerOccursAt(pat, s, i)
  {
    forall i ensures OccursAt(pat, Lower(s), i) <==> LowerOccursAt(pat, s, i) {
      if 0 <= i && i + |pat| <= |s| {
        assert Lower(s)[i..i + |pat|] == Lower(s[i..i + |pat|]);
      }
    }
  }

  /** Windows or WSL2, where the browser profiles live under the Windows user profile. */
  function WindowsLike(system: string, osName: string, release: string): bool {
    system == "Windows" || IsWsl2(osName, release)
  }

  /**
   * `_windows_userprofile_from_env`: `USERPROFILE`, or `HOMEPATH` when that
   * is unset or empty; none when both are unset or empty.
   */
  function WindowsUserProfile(env: map<string, string>): (r: Option<string>)
    ensures r.Some? ==> r.value != []
    ensures "USERPROFILE" in env && env["USERPROFILE"] != [] ==> r == Some(env["USERPROFILE"])
    ensures !("USERPROFILE" in env && env["USERPROFILE"] != []) ==>
              r == if "HOMEPATH" in env && env["HOMEPATH"] != [] then Some(env["HOMEPATH"]) else None
  {
    var up := if "USERPROFILE" in env && env["USERPROFILE"] != [] then env["USERPROFILE"]
              else if "HOMEPATH" in env then env["HOMEPATH"] else [];
    if up != [] then Some(up) else None
  }

  // ---- Browser profile directory -------------------------------------------------

  /** The three profile layouts. */
  datatype Layout = Brave | Chrome | Edge

  /**
   * Which layout a browser executable's name selects: "brave" first, then
   * "chrome", then the Edge keyword ("msedge" on Windows and WSL2, "edge"
   * elsewhere), all in the lowered name; Chrome when none matches.
   */
  function LayoutOf(windowsLike: bool, name: string): (l: Layout)
    ensures l == Brave <==> Contains(Lower(name), "brave")
    ensures l == Edge <==> !Contains(Lower(name), "brave") && !Contains(Lower(name), "chrome")
                           && Contains(Lower(name), if windowsLike then "msedge" else "edge")
  {
    var lower := Lower(name);
    if Contains(lower, "brave") then Brave
    else if Contains(lower, "chrome") then Chrome
    else if Contains(lower, if windowsLike then "msedge" else "edge") then Edge
    else Chrome
  }

  /** The profile root of a layout, relative to the home directory. */
  function LayoutDir(windowsLike: bool, l: Layout): string {
    if windowsLike then
      match l
      case Brave => @"AppData\Local\BraveSoftware\Brave-Browser\User Data"
      case Chrome => @"AppData\Local\Google\Chrome\User Data"
      case Edge => @"AppData\Local\Microsoft\Edge\User Data"
    else
      match l
      case Brave => ".config/BraveSoftware/Brave-Browser"
      case Chrome => ".config/google-chrome"
      case Edge => ".config/microsoft-edge"
  }

  /** A directory under a home directory; how the two are joined depends on the path flavour. */
  datatype ProfileDir = ProfileDir(home: string, relative: string)

  /**
   * `_default_user_data_dir`. `userProfile` is what the environment gives on
   * Windows and WSL2, `home` is `Path.home()` elsewhere, and `browserName`
   * is the name of the browser path, if there is one.
   */
  function DefaultUserDataDir(windowsLike: bool, userProfile: Option<string>, home: string,
                              browserName: Option<string>): (r: Option<ProfileDir>)
    ensures windowsLike ==> (r.None? <==> userProfile.None?)
    ensures windowsLike && r.Some? ==> r.value.home == userProfile.value
    ensures !windowsLike ==> r.Some? && r.value.home == home
    ensures r.Some? && browserName.None? ==> r.value.relative == LayoutDir(windowsLike, Chrome)
    ensures r.Some? && browserName.Some? ==>
              r.value.relative == LayoutDir(windowsLike, LayoutOf(windowsLike, browserName.value))
  {
    var base := if windowsLike then userProfile else Some(home);
    if base.None? then None
    else
      var l := if browserName.Some? then LayoutOf(windowsLike, browserName.value) else Chrome;
      Some(ProfileDir(base.value, LayoutDir(windowsLike, l)))
  }

  /** Lowering a name without capitals leaves it as it is. */
  lemma LowerNoCapitals(s: string)
    requires forall i :: 0 <= i < |s| ==> !('A' <= s[i] <= 'Z')
    ensures Lower(s) == s
  {
  }

  // The executables `_discover_browser_path` looks for, each of which
  // selects its own browser's profile layout. One fact per lemma keeps every
  // proof obligation small.

  lemma BraveExeLower() ensures Lower("brave.exe") == "brave.exe" { LowerNoCapitals("brave.exe"); }
  lemma ChromeExeLower() ensures Lower("chrome.exe") == "chrome.exe" { LowerNoCapitals("chrome.exe"); }
  lemma MsedgeExeLower() ensures Lower("msedge.exe") == "msedge.exe" { LowerNoCapitals("msedge.exe"); }

  lemma BraveExeHasBrave() ensures Contains("brave.exe", "brave") { ContainedAt("brave.exe", "brave", 0); }
  lemma ChromeExeNoBrave() ensures !Contains("chrome.exe", "brave") { AbsentCharNotContained("chrome.exe", "brave", 0); }
  lemma ChromeExeHasChrome() ensures Contains("chrome.exe", "chrome") { ContainedAt("chrome.exe", "chrome", 0); }
  lemma MsedgeExeNoBrave() ensures !Contains("msedge.exe", "brave") { AbsentCharNotContained("msedge.exe", "brave", 0); }
  lemma MsedgeExeNoChrome() ensures !Contains("msedge.exe", "chrome") { AbsentCharNotContained("msedge.exe", "chrome", 0); }
  lemma MsedgeExeHasMsedge() ensures Contains("msedge.exe", "msedge") { ContainedAt("msedge.exe", "msedge", 0); }

  /** On Windows and WSL2, brave.exe, chrome.exe and msedge.exe each select their own layout. */
  lemma WindowsExecutablesLayouts()
    ensures LayoutOf(true, "brave.exe") == Brave
    ensures LayoutOf(true, "chrome.exe") == Chrome
    ensures LayoutOf(true, "msedge.exe") == Edge
  {
    BraveExeLower(); BraveExeHasBrave();
    ChromeExeLower(); ChromeExeNoBrave(); ChromeExeHasChrome();
    MsedgeExeLower(); MsedgeExeNoBrave(); MsedgeExeNoChrome(); MsedgeExeHasMsedge();
  }

  lemma BraveBinLower() ensures Lower("brave-browser") == "brave-browser" { LowerNoCapitals("brave-browser"); }
  lemma ChromeBinLower() ensures Lower("google-chrome") == "google-chrome" { LowerNoCapitals("google-chrome"); }
  lemma EdgeBinLower() ensures Lower("microsoft-edge") == "microsoft-edge" { LowerNoCapitals("microsoft-edge"); }

  lemma BraveBinHasBrave() ensures Contains("brave-browser", "brave") { ContainedAt("brave-browser", "brave", 0); }
  lemma ChromeBinNoBrave() ensures !Contains("google-chrome", "brave") { AbsentCharNotContained("google-chrome", "brave", 0); }
  lemma ChromeBinHasChrome() ensures Contains("google-chrome", "chrome") { ContainedAt("google-chrome", "chrome", 7); }
  lemma EdgeBinNoBrave() ensures !Contains("microsoft-edge", "brave") { AbsentCharNotContained("microsoft-edge", "brave", 0); }
  lemma EdgeBinNoChrome() ensures !Contains("microsoft-edge", "chrome") { AbsentCharNotContained("microsoft-edge", "chrome", 1); }
  lemma EdgeBinHasEdge() ensures Contains("microsoft-edge", "edge") { ContainedAt("microsoft-edge", "edge", 10); }

  /** Elsewhere, brave-browser, google-chrome and microsoft-edge each select their own layout. */
  lemma LinuxExecutablesLayouts()
    ensures LayoutOf(false, "brave-browser") == Brave
    ensures LayoutOf(false, "google-chrome") == Chrome
    ensures LayoutOf(false, "microsoft-edge") == Edge
  {
    BraveBinLower(); BraveBinHasBrave();
    ChromeBinLower(); ChromeBinNoBrave(); ChromeBinHasChrome();
    EdgeBinLower(); EdgeBinNoBrave(); EdgeBinNoChrome(); EdgeBinHasEdge();
  }

  lemma BraveAppLower() ensures Lower("Brave Browser") == "brave browser" {
    assert forall i :: 0 <= i < 13 ==> Lower("Brave Browser")[i] == "brave browser"[i];
  }
  lemma ChromeAppLower() ensures Lower("Google Chrome") == "google chrome" {
    assert forall i :: 0 <= i < 13 ==> Lower("Google Chrome")[i] == "google chrome"[i];
  }
  lemma EdgeAppLower() ensures Lower("Microsoft Edge") == "microsoft edge" {
    assert forall i :: 0 <= i < 14 ==> Lower("Microsoft Edge")[i] == "microsoft edge"[i];
  }

  lemma BraveAppHasBrave() ensures Contains("brave browser", "brave") { ContainedAt("brave browser", "brave", 0); }
  lemma ChromeAppNoBrave() ensures !Contains("google chrome", "brave") { AbsentCharNotContained("google chrome", "brave", 0); }
  lemma ChromeAppHasChrome() ensures Contains("google chrome", "chrome") { ContainedAt("google chrome", "chrome", 7); }
  lemma EdgeAppNoBrave() ensures !Contains("microsoft edge", "brave") { AbsentCharNotContained("microsoft edge", "brave", 0); }
  lemma EdgeAppNoChrome() ensures !Contains("microsoft edge", "chrome") { AbsentCharNotContained("microsoft edge", "chrome", 1); }
  lemma EdgeAppHasEdge() ensures Contains("microsoft edge", "edge") { ContainedAt("microsoft edge", "edge", 10); }

  /** On macOS, the capitalised application executables select their own layout too. */
  lemma MacExecutablesLayouts()
    ensures LayoutOf(false, "Brave Browser") == Brave
    ensures LayoutOf(false, "Google Chrome") == Chrome
    ensures LayoutOf(false, "Microsoft Edge") == Edge
  {
    BraveAppLower(); BraveAppHasBrave();
    ChromeAppLower(); ChromeAppNoBrave(); ChromeAppHasChrome();
    EdgeAppLower(); EdgeAppNoBrave(); EdgeAppNoChrome(); EdgeAppHasEdge();
  }
}
