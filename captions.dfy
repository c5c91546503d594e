/**
 * Caption cleaning for the console listing (posts_display.py): emoji and
 * hashtag removal, the character filter and space collapsing, and the
 * line-by-line clean-up that drops punctuation-only lines.
 *
 * Python's `\w` and `str.isalnum` are Unicode character classes; they are
 * parameters here (`isWord`, `isAlnum`). `\s` and `strip()` use the concrete
 * whitespace set of `Text.IsSpace`.
 */
module Captions {
  import opened Optional
  import opened Text

  // ---- Emojis and hashtags -----------------------------------------------------

  /** A character outside the Basic Multilingual Plane (most emojis live there). */
  predicate IsWide(c: char) {
    c as int >= 0x10000
  }

  predicate NotWide(c: char) {
    !IsWide(c)
  }

  /** `re.sub(r'[\U00010000-\U0010ffff]', '', text)`. */
  function RemoveWide(s: string): (r: string)
    ensures AllChars(r, NotWide)
  {
    if s == [] then [] else (if IsWide(s[0]) then [] else [s[0]]) + RemoveWide(s[1..])
  }

  /** Every character other than a wide one keeps its count. */
  lemma {:induction false} RemoveWideCounts(s: string)
    ensures forall c :: !IsWide(c) ==> multiset(RemoveWide(s))[c] == multiset(s)[c]
    ensures forall c :: IsWide(c) ==> multiset(RemoveWide(s))[c] == 0
    decreases |s|
  {
    if s != [] {
      assert s == [s[0]] + s[1..];
      RemoveWideCounts(s[1..]);
    }
  }

  /** Removal works piece by piece. */
  lemma {:induction false} RemoveWideAppend(a: string, b: string)
    ensures RemoveWide(a + b) == RemoveWide(a) + RemoveWide(b)
    decreases |a|
  {
    if a != [] {
      var head := if IsWide(a[0]) then [] else [a[0]];
      assert (a + b)[0] == a[0] && (a + b)[1..] == a[1..] + b;
      assert RemoveWide(a + b) == head + RemoveWide(a[1..] + b);
      assert RemoveWide(a) == head + RemoveWide(a[1..]);
      RemoveWideAppend(a[1..], b);
      assert head + (RemoveWide(a[1..]) + RemoveWide(b)) == (head + RemoveWide(a[1..])) + RemoveWide(b);
    } else {
      assert a + b == b;
    }
  }

  /** A text without wide characters is kept as it is. */
  lemma {:induction false} RemoveWideKeeps(s: string)
    requires AllChars(s, NotWide)
    ensures RemoveWide(s) == s
    decreases |s|
  {
    if s != [] {
      assert AllChars(s[1..], NotWide) by {
        forall i | 0 <= i < |s| - 1 ensures NotWide(s[1..][i]) {
          assert s[1..][i] == s[i + 1];
        }
      }
      RemoveWideKeeps(s[1..]);
    }
  }

  /** The length of the run of word characters `s` starts with. */
  function WordRun(isWord: char -> bool, s: string): (n: nat)
    ensures n <= |s|
    ensures forall i :: 0 <= i < n ==> isWord(s[i])
    ensures n < |s| ==> !isWord(s[n])
  {
    if s != [] && isWord(s[0]) then 1 + WordRun(isWord, s[1..]) else 0
  }

  /** No '#' is directly followed by a word character. */
  predicate NoHashtag(isWord: char -> bool, s: string) {
    forall i :: 0 <= i < |s| - 1 ==> !(s[i] == '#' && isWord(s[i + 1]))
  }

  /**
   * `re.sub(r'#\w+', '', text)`: scanning from the left, a '#' followed by
   * word characters is removed together with the whole run of them; every
   * other character is kept.
   */
  function RemoveHashtags(isWord: char -> bool, s: string): (r: string)
    ensures NoHashtag(isWord, r)
    ensures s == [] || !isWord(s[0]) ==> r == [] || !isWord(r[0])
    ensures '#' !in s ==> r == s
    decreases |s|
  {
    if s == [] then []
    else if s[0] == '#' && |s| >= 2 && isWord(s[1]) then
      RemoveHashtags(isWord, s[1 + WordRun(isWord, s[1..])..])
    else
      assert s == [s[0]] + s[1..];
      var rest := RemoveHashtags(isWord, s[1..]);
      assert s[0] == '#' ==> rest == [] || !isWord(rest[0]);
      [s[0]] + rest
  }

  lemma {:induction false} RemoveHashtagsChars(isWord: char -> bool, s: string, ok: char -> bool)
    requires AllChars(s, ok)
    ensures AllChars(RemoveHashtags(isWord, s), ok)
    decreases |s|
  {
    if s != [] {
      var k := if s[0] == '#' && |s| >= 2 && isWord(s[1]) then 1 + WordRun(isWord, s[1..]) else 1;
      forall i | 0 <= i < |s| - k ensures ok(s[k..][i]) {
        assert s[k..][i] == s[k + i];
      }
      RemoveHashtagsChars(isWord, s[k..], ok);
    }
  }

  /** Text before the first '#' is kept as it is. */
  lemma {:induction false} RemoveHashtagsPrefix(isWord: char -> bool, p: string, s: string)
    requires '#' !in p
    ensures RemoveHashtags(isWord, p + s) == p + RemoveHashtags(isWord, s)
    decreases |p|
  {
    if p != [] {
      var q := p + s;
      assert p[0] in p;
      assert q[0] == p[0] && q[1..] == p[1..] + s;
      assert RemoveHashtags(isWord, q) == [p[0]] + RemoveHashtags(isWord, q[1..]);
      assert '#' !in p[1..] by {
        assert p == [p[0]] + p[1..];
      }
      RemoveHashtagsPrefix(isWord, p[1..], s);
      assert p == [p[0]] + p[1..];
      assert [p[0]] + (p[1..] + RemoveHashtags(isWord, s)) == ([p[0]] + p[1..]) + RemoveHashtags(isWord, s);
    } else {
      assert p + s == s;
    }
  }

  /** A '#' that no word character follows is kept. */
  lemma RemoveHashtagsLoneHash(isWord: char -> bool, s: string)
    requires s == [] || !isWord(s[0])
    ensures RemoveHashtags(isWord, "#" + s) == "#" + RemoveHashtags(isWord, s)
  {
    assert ("#" + s)[1..] == s;
  }

  /** A '#' is removed together with the whole run of word characters after it. */
  lemma RemoveHashtagsTag(isWord: char -> bool, w: string, s: string)
    requires w != [] && AllChars(w, isWord) && (s == [] || !isWord(s[0]))
    ensures RemoveHashtags(isWord, "#" + w + s) == RemoveHashtags(isWord, s)
  {
    var t := "#" + w + s;
    assert t[1..] == w + s;
    var n := WordRun(isWord, w + s);
    assert forall i :: 0 <= i < |w| ==> (w + s)[i] == w[i];
    if |s| > 0 {
      assert (w + s)[|w|] == s[0];
    }
    assert n == |w|;
    assert t[1 + n..] == s;
  }

  /**
   * `_remove_emojis_and_hashtags`: no character beyond U+FFFF is left and no
   * '#' is followed by a word character.
   */
  function RemoveEmojisAndHashtags(isWord: char -> bool, text: string): (r: string)
    ensures AllChars(r, NotWide)
    ensures NoHashtag(isWord, r)
  {
    var noWide := RemoveWide(text);
    RemoveHashtagsChars(isWord, noWide, NotWide);
    RemoveHashtags(isWord, noWide)
  }

  /** Text before the first '#' only loses its wide characters. */
  lemma EmojisAndHashtagsPrefix(isWord: char -> bool, p: string, s: string)
    requires '#' !in p
    ensures RemoveEmojisAndHashtags(isWord, p + s) == RemoveWide(p) + RemoveEmojisAndHashtags(isWord, s)
  {
    RemoveWideAppend(p, s);
    RemoveWideCounts(p);
    assert multiset(RemoveWide(p))['#'] == multiset(p)['#'] == 0;
    RemoveHashtagsPrefix(isWord, RemoveWide(p), RemoveWide(s));
  }

  /** A text with neither wide characters nor '#' is kept as it is. */
  lemma EmojisAndHashtagsKeep(isWord: char -> bool, text: string)
    requires AllChars(text, NotWide) && '#' !in text
    ensures RemoveEmojisAndHashtags(isWord, text) == text
  {
    RemoveWideKeeps(text);
  }

  // ---- Character filter and spaces -----------------------------------------------

  /** What `[\w\s.,!?;:()\-@/\n]` matches. */
  predicate Allowed(isWord: char -> bool, c: char) {
    isWord(c) || IsSpace(c)
    || c == '.' || c == ',' || c == '!' || c == '?' || c == ';' || c == ':'
    || c == '(' || c == ')' || c == '-' || c == '@' || c == '/' || c == '\n'
  }

  /** `re.sub(r'[^\w\s.,!?;:()\-@/\n]', '', text)`. */
  function KeepAllowed(isWord: char -> bool, s: string): (r: string)
    ensures AllChars(r, c => Allowed(isWord, c))
  {
    if s == [] then [] else (if Allowed(isWord, s[0]) then [s[0]] else []) + KeepAllowed(isWord, s[1..])
  }

  /** Every allowed character keeps its count. */
  lemma {:induction false} KeepAllowedCounts(isWord: char -> bool, s: string)
    ensures forall c :: Allowed(isWord, c) ==> multiset(KeepAllowed(isWord, s))[c] == multiset(s)[c]
    ensures forall c :: !Allowed(isWord, c) ==> multiset(KeepAllowed(isWord, s))[c] == 0
    decreases |s|
  {
    if s != [] {
      assert s == [s[0]] + s[1..];
      KeepAllowedCounts(isWord, s[1..]);
    }
  }

  /** No two spaces in a row. */
  predicate NoDoubleSpace(s: string) {
    forall i :: 0 <= i < |s| - 1 ==> !(s[i] == ' ' && s[i + 1] == ' ')
  }

  /** `s` without its ' ' characters. */
  function WithoutSpaces(s: string): string {
    if s == [] then [] else (if s[0] == ' ' then [] else [s[0]]) + WithoutSpaces(s[1..])
  }

  /**
   * `re.sub(r' +', ' ', text)`: every run of spaces becomes one space, and
   * nothing but spaces is removed.
   */
  function CollapseSpaces(s: string): (r: string)
    ensures NoDoubleSpace(r)
    ensures WithoutSpaces(r) == WithoutSpaces(s)
    ensures r == [] <==> s == []
    ensures r != [] ==> r[0] == s[0]
  {
    if s == [] then []
    else if s[0] == ' ' && |s| >= 2 && s[1] == ' ' then CollapseSpaces(s[1..])
    else [s[0]] + CollapseSpaces(s[1..])
  }

  /** Where there are no double spaces, collapsing changes nothing; so it is idempotent. */
  lemma {:induction false} CollapseFixpoint(s: string)
    requires NoDoubleSpace(s)
    ensures CollapseSpaces(s) == s
    decreases |s|
  {
    if s != [] {
      CollapseFixpoint(s[1..]);
    }
  }

  lemma CollapseIdempotent(s: string)
    ensures CollapseSpaces(CollapseSpaces(s)) == CollapseSpaces(s)
  {
    CollapseFixpoint(CollapseSpaces(s));
  }

  lemma {:induction false} CollapseChars(s: string, ok: char -> bool)
    requires AllChars(s, ok)
    ensures AllChars(CollapseSpaces(s), ok)
    decreases |s|
  {
    if s != [] {
      assert forall i :: 0 <= i < |s| - 1 ==> s[1..][i] == s[1 + i];
      CollapseChars(s[1..], ok);
    }
  }

  /**
   * `_normalize_and_clean_text` after the NFKC step: only allowed
   * characters, no two spaces in a row, and only disallowed characters and
   * surplus spaces removed.
   */
  function NormalizeAndCleanText(isWord: char -> bool, text: string): (r: string)
    ensures AllChars(r, c => Allowed(isWord, c))
    ensures NoDoubleSpace(r)
    ensures WithoutSpaces(r) == WithoutSpaces(KeepAllowed(isWord, text))
  {
    var kept := KeepAllowed(isWord, text);
    CollapseChars(kept, c => Allowed(isWord, c));
    CollapseSpaces(kept)
  }

  lemma {:induction false} KeepAllowedAppend(isWord: char -> bool, a: string, b: string)
    ensures KeepAllowed(isWord, a + b) == KeepAllowed(isWord, a) + KeepAllowed(isWord, b)
    decreases |a|
  {
    if a != [] {
      var head := if Allowed(isWord, a[0]) then [a[0]] else [];
      assert (a + b)[0] == a[0] && (a + b)[1..] == a[1..] + b;
      assert KeepAllowed(isWord, a + b) == head + KeepAllowed(isWord, a[1..] + b);
      KeepAllowedAppend(isWord, a[1..], b);
      assert head + (KeepAllowed(isWord, a[1..]) + KeepAllowed(isWord, b))
        == (head + KeepAllowed(isWord, a[1..])) + KeepAllowed(isWord, b);
    } else {
      assert a + b == b;
    }
  }

  /** A text of allowed characters only is kept as it is. */
  lemma {:induction false} KeepAllowedKeeps(isWord: char -> bool, s: string)
    requires AllChars(s, c => Allowed(isWord, c))
    ensures KeepAllowed(isWord, s) == s
    decreases |s|
  {
    if s != [] {
      assert AllChars(s[1..], c => Allowed(isWord, c)) by {
        forall i | 0 <= i < |s| - 1 ensures Allowed(isWord, s[1..][i]) {
          assert s[1..][i] == s[i + 1];
        }
      }
      KeepAllowedKeeps(isWord, s[1..]);
    }
  }

  /**
   * One more space next to a space changes nothing: with `CollapseFixpoint`
   * this pins the result down, each run of spaces giving exactly one.
   */
  lemma {:induction false} CollapseDoubled(s: string, i: nat)
    requires i < |s| && s[i] == ' '
    ensures CollapseSpaces(s[..i] + [' '] + s[i..]) == CollapseSpaces(s)
    decreases i
  {
    var t := s[..i] + [' '] + s[i..];
    if i == 0 {
      assert t == [' '] + s && t[1..] == s;
    } else {
      assert t[0] == s[0] && t[1..] == s[1..][..i - 1] + [' '] + s[1..][i - 1..];
      assert t[1] == s[1];
      CollapseDoubled(s[1..], i - 1);
    }
  }

  /** An allowed text without double spaces is kept as it is. */
  lemma NormalizeKeeps(isWord: char -> bool, text: string)
    requires AllChars(text, c => Allowed(isWord, c)) && NoDoubleSpace(text)
    ensures NormalizeAndCleanText(isWord, text) == text
  {
    KeepAllowedKeeps(isWord, text);
    CollapseFixpoint(text);
  }

  /** One more space next to a space changes nothing after the first two steps either. */
  lemma NormalizeDoubled(isWord: char -> bool, s: string, i: nat)
    requires i < |s| && s[i] == ' '
    ensures NormalizeAndCleanText(isWord, s[..i] + [' '] + s[i..]) == NormalizeAndCleanText(isWord, s)
  {
    var a := KeepAllowed(isWord, s[..i]);
    var b := KeepAllowed(isWord, s[i..]);
    KeepAllowedAppend(isWord, s[..i], [' '] + s[i..]);
    KeepAllowedAppend(isWord, [' '], s[i..]);
    assert KeepAllowed(isWord, [' ']) == [' '] by {
      assert IsSpace(' ');
    }
    assert s[..i] + [' '] + s[i..] == s[..i] + ([' '] + s[i..]);
    KeepAllowedAppend(isWord, s[..i], s[i..]);
    assert s[..i] + s[i..] == s;
    assert b == [' '] + KeepAllowed(isWord, s[i + 1..]) by {
      assert s[i..] == [' '] + s[i + 1..];
      KeepAllowedAppend(isWord, [' '], s[i + 1..]);
    }
    var k := a + b;
    assert k[..|a|] + [' '] + k[|a|..] == a + ([' '] + b);
    CollapseDoubled(k, |a|);
  }

  // ---- Lines ---------------------------------------------------------------------

  predicate IsNewline(c: char) {
    c == '\n'
  }

  /** What `[.,:;\-–—]` matches. */
  predicate IsDash(c: char) {
    c == '.' || c == ',' || c == ':' || c == ';' || c == '-' || c == '–' || c == '—'
  }

  /** `re.fullmatch(r'[.,:;\-–—]*', line)`: nothing but those marks, or nothing at all. */
  predicate OnlyDashes(line: string) {
    forall i :: 0 <= i < |line| ==> IsDash(line[i])
  }

  /** `re.fullmatch(r'[.,:;\-–— ]{1,5}', line)`. */
  predicate ShortDashRun(line: string) {
    1 <= |line| <= 5 && forall i :: 0 <= i < |line| ==> IsDash(line[i]) || line[i] == ' '
  }

  /** `line.isalnum()`. */
  predicate IsAlnumText(isAlnum: char -> bool, line: string) {
    line != [] && forall i :: 0 <= i < |line| ==> isAlnum(line[i])
  }

  /** The three tests that make `_clean_lines` skip a stripped line. */
  predicate Dropped(isAlnum: char -> bool, line: string) {
    OnlyDashes(line) || ShortDashRun(line) || (|line| <= 1 && !IsAlnumText(isAlnum, line))
  }

  /**
   * The stripped lines `_clean_lines` keeps, in order: each is non-empty,
   * stripped, not made of dash marks only, and a single character only when
   * that character is alphanumeric.
   */
  function KeptLines(isAlnum: char -> bool, lines: seq<string>): (kept: seq<string>)
    ensures |kept| <= |lines|
    ensures forall j :: 0 <= j < |kept| ==>
      kept[j] != [] && IsStripped(kept[j]) && !Dropped(isAlnum, kept[j])
      && (|kept[j]| == 1 ==> isAlnum(kept[j][0]))
  {
    if lines == [] then []
    else
      var init := KeptLines(isAlnum, lines[..|lines| - 1]);
      var line := Strip(lines[|lines| - 1]);
      if Dropped(isAlnum, line) then init else init + [line]
  }

  /**
   * The comprehension `[l for i, l in enumerate(lines) if l or (i > 0 and
   * lines[i - 1])]`: an empty line survives only right after a non-empty one.
   */
  function BlankRunFilter(lines: seq<string>): (r: seq<string>)
    ensures |r| <= |lines|
  {
    if lines == [] then []
    else
      var n := |lines| - 1;
      BlankRunFilter(lines[..n]) + if lines[n] != [] || (n > 0 && lines[n - 1] != []) then [lines[n]] else []
  }

  /** With no empty line to drop, the comprehension keeps every line. */
  lemma {:induction false} BlankRunFilterKeepsAll(lines: seq<string>)
    requires forall j :: 0 <= j < |lines| ==> lines[j] != []
    ensures BlankRunFilter(lines) == lines
    decreases |lines|
  {
    if lines != [] {
      var n := |lines| - 1;
      BlankRunFilterKeepsAll(lines[..n]);
      assert lines[..n] + [lines[n]] == lines;
    }
  }

  /** What `_clean_lines` returns: the kept lines joined by newlines. */
  function CleanedLines(isAlnum: char -> bool, text: string): string {
    Join(KeptLines(isAlnum, Split(text, IsNewline)), "\n")
  }

  /**
   * `_clean_lines`. The blank-line comprehension and the final `strip()` of
   * the source are kept; the postcondition shows both change nothing.
   */
  method CleanLines(isAlnum: char -> bool, text: string) returns (cleaned: string)
    ensures cleaned == CleanedLines(isAlnum, text)
  {
    var lines := Split(text, IsNewline);
    var kept: seq<string> := [];
    var i := 0;
    while i < |lines|
      invariant 0 <= i <= |lines|
      invariant kept == KeptLines(isAlnum, lines[..i])
    {
      var line := Strip(lines[i]);
      assert lines[..i + 1][..i] == lines[..i];
      if !Dropped(isAlnum, line) {
        kept := kept + [line];
      }
      i := i + 1;
    }
    assert lines[..|lines|] == lines;
    BlankRunFilterKeepsAll(kept);
    var joined := Join(BlankRunFilter(kept), "\n");
    JoinStripped(kept, "\n");
    StripStripped(joined);
    cleaned := Strip(joined);
  }

  /**
   * The lines of the result are exactly the kept lines: splitting the
   * result at newlines gives them back.
   */
  lemma CleanedLinesSplit(isAlnum: char -> bool, text: string)
    requires KeptLines(isAlnum, Split(text, IsNewline)) != []
    ensures Split(CleanedLines(isAlnum, text), IsNewline) == KeptLines(isAlnum, Split(text, IsNewline))
  {
    var lines := Split(text, IsNewline);
    var kept := KeptLines(isAlnum, lines);
    KeptLinesNoNewline(isAlnum, lines);
    SplitJoin(kept, '\n', IsNewline);
  }

  lemma {:induction false} KeptLinesNoNewline(isAlnum: char -> bool, lines: seq<string>)
    requires SeparatorFree(lines, IsNewline)
    ensures SeparatorFree(KeptLines(isAlnum, lines), IsNewline)
    decreases |lines|
  {
    if lines != [] {
      var n := |lines| - 1;
      assert SeparatorFree(lines[..n], IsNewline) by {
        forall j | 0 <= j < n ensures NoSeparator(lines[..n][j], IsNewline) {
          assert lines[..n][j] == lines[j];
        }
      }
      KeptLinesNoNewline(isAlnum, lines[..n]);
      assert NoSeparator(lines[n], IsNewline);
      StripAllChars(lines[n], c => !IsNewline(c));
    }
  }

  /** A single line that survives comes back stripped. */
  lemma CleanedOneLine(isAlnum: char -> bool, text: string)
    requires NoSeparator(text, IsNewline) && !Dropped(isAlnum, Strip(text))
    ensures CleanedLines(isAlnum, text) == Strip(text)
  {
    SplitJoin([text], '\n', IsNewline);
    var none: seq<string> := [];
    assert [text][..0] == none;
  }

  // ---- The whole caption -------------------------------------------------------

  /** `clean_caption`: an empty or missing caption gives "", anything else the three steps. */
  function CaptionCleaned(isWord: char -> bool, isAlnum: char -> bool, caption: Option<string>): string {
    if caption == None || caption == Some([]) then []
    else CleanedLines(isAlnum, NormalizeAndCleanText(isWord, RemoveEmojisAndHashtags(isWord, caption.value)))
  }

  /** `clean_caption`. */
  method CleanCaption(isWord: char -> bool, isAlnum: char -> bool, caption: Option<string>) returns (r: string)
    ensures r == CaptionCleaned(isWord, isAlnum, caption)
    ensures caption == None || caption == Some([]) ==> r == []
  {
    if caption == None || caption == Some([]) {
      return [];
    }
    var text := RemoveEmojisAndHashtags(isWord, caption.value);
    text := NormalizeAndCleanText(isWord, text);
    r := CleanLines(isAlnum, text);
  }

  /** A character a cleaned caption may hold. */
  predicate CaptionChar(isWord: char -> bool, c: char) {
    Allowed(isWord, c) && !IsWide(c) && c != '#'
  }

  /** The filter keeps only characters a cleaned caption may hold, once the wide ones are gone. */
  lemma {:induction false} KeepAllowedCaptionChars(isWord: char -> bool, s: string)
    requires !isWord('#') && AllChars(s, NotWide)
    ensures AllChars(KeepAllowed(isWord, s), c => CaptionChar(isWord, c))
    decreases |s|
  {
    if s != [] {
      forall i | 0 <= i < |s| - 1 ensures NotWide(s[1..][i]) {
        assert s[1..][i] == s[1 + i];
      }
      KeepAllowedCaptionChars(isWord, s[1..]);
    }
  }

  lemma {:induction false} KeptLinesChars(isAlnum: char -> bool, lines: seq<string>, ok: char -> bool)
    requires forall j :: 0 <= j < |lines| ==> AllChars(lines[j], ok)
    ensures forall j :: 0 <= j < |KeptLines(isAlnum, lines)| ==> AllChars(KeptLines(isAlnum, lines)[j], ok)
    decreases |lines|
  {
    if lines != [] {
      var n := |lines| - 1;
      var init := lines[..n];
      forall j | 0 <= j < n ensures AllChars(init[j], ok) {
        assert init[j] == lines[j];
      }
      KeptLinesChars(isAlnum, init, ok);
      var line := Strip(lines[n]);
      StripAllChars(lines[n], ok);
      var kept := KeptLines(isAlnum, init);
      assert KeptLines(isAlnum, lines) == if Dropped(isAlnum, line) then kept else kept + [line];
      forall j | 0 <= j < |kept| ensures AllChars((kept + [line])[j], ok) {
        assert (kept + [line])[j] == kept[j];
      }
    }
  }

  /** `_clean_lines` only ever adds newlines: any other character comes from its input. */
  lemma CleanedLinesChars(isAlnum: char -> bool, text: string, ok: char -> bool)
    requires AllChars(text, ok) && ok('\n')
    ensures AllChars(CleanedLines(isAlnum, text), ok)
  {
    var lines := Split(text, IsNewline);
    SplitAllChars(text, IsNewline, ok);
    KeptLinesChars(isAlnum, lines, ok);
    JoinAllChars(KeptLines(isAlnum, lines), "\n", ok);
  }

  /** After the first two steps, only characters a cleaned caption may hold are left. */
  lemma NormalizedCaptionChars(isWord: char -> bool, text: string)
    requires !isWord('#')
    ensures AllChars(NormalizeAndCleanText(isWord, RemoveEmojisAndHashtags(isWord, text)), c => CaptionChar(isWord, c))
  {
    var stripped := RemoveEmojisAndHashtags(isWord, text);
    KeepAllowedCaptionChars(isWord, stripped);
    CollapseChars(KeepAllowed(isWord, stripped), c => CaptionChar(isWord, c));
  }

  /** The three steps leave only characters a cleaned caption may hold. */
  lemma CleanedCaptionChars(isWord: char -> bool, isAlnum: char -> bool, text: string)
    requires !isWord('#')
    ensures AllChars(CleanedLines(isAlnum, NormalizeAndCleanText(isWord, RemoveEmojisAndHashtags(isWord, text))),
                     c => CaptionChar(isWord, c))
  {
    NormalizedCaptionChars(isWord, text);
    CleanedLinesChars(isAlnum, NormalizeAndCleanText(isWord, RemoveEmojisAndHashtags(isWord, text)), c => CaptionChar(isWord, c));
  }

  /**
   * What a cleaned caption is made of: characters the filter allows and
   * none beyond U+FFFF; since `\w` does not match '#', no '#' at all.
   */
  lemma CaptionChars(isWord: char -> bool, isAlnum: char -> bool, caption: Option<string>)
    requires !isWord('#')
    ensures var r := CaptionCleaned(isWord, isAlnum, caption);
            forall i :: 0 <= i < |r| ==> CaptionChar(isWord, r[i])
  {
    var r := CaptionCleaned(isWord, isAlnum, caption);
    if caption == None || caption == Some([]) {
      assert r == [];
    } else {
      CleanedCaptionChars(isWord, isAlnum, caption.value);
      assert AllChars(r, c => CaptionChar(isWord, c));
    }
  }

  // ---- The examples of test_posts_display.py -------------------------------------

  /** A wide character run removes to nothing. */
  lemma {:induction false} RemoveWideAllWide(e: string)
    requires AllChars(e, IsWide)
    ensures RemoveWide(e) == []
    decreases |e|
  {
    if e != [] {
      assert AllChars(e[1..], IsWide) by {
        forall k | 0 <= k < |e| - 1 ensures IsWide(e[1..][k]) {
          assert e[1..][k] == e[k + 1];
        }
      }
      RemoveWideAllWide(e[1..]);
    }
  }

  /** A character of a plain word: a word character that none of the steps touches. */
  predicate PlainChar(isWord: char -> bool, c: char) {
    isWord(c) && !IsWide(c) && c != '#' && !IsSpace(c) && !IsDash(c)
  }

  /** Plain words separated by single spaces, at least two characters long. */
  predicate PlainLine(isWord: char -> bool, t: string) {
    |t| >= 2 && PlainChar(isWord, t[0]) && PlainChar(isWord, t[|t| - 1])
    && AllChars(t, c => PlainChar(isWord, c) || c == ' ') && NoDoubleSpace(t)
  }

  /** The first step leaves a plain line alone. */
  lemma PlainLineNoEmojis(isWord: char -> bool, t: string)
    requires PlainLine(isWord, t)
    ensures RemoveEmojisAndHashtags(isWord, t) == t
  {
    assert forall k :: 0 <= k < |t| ==> t[k] != '#';
    EmojisAndHashtagsKeep(isWord, t);
  }

  /** The last two steps leave a plain line alone. */
  lemma PlainLineClean(isWord: char -> bool, isAlnum: char -> bool, t: string)
    requires PlainLine(isWord, t)
    ensures CleanedLines(isAlnum, NormalizeAndCleanText(isWord, t)) == t
  {
    assert AllChars(t, c => Allowed(isWord, c)) by {
      assert forall c :: PlainChar(isWord, c) || c == ' ' ==> Allowed(isWord, c);
    }
    NormalizeKeeps(isWord, t);
    StripStripped(t);
    assert !IsDash(t[0]) && t[0] != ' ';
    assert NoSeparator(t, IsNewline);
    CleanedOneLine(isAlnum, t);
  }

  /** A plain line comes through all three steps unchanged. */
  lemma PlainLineKept(isWord: char -> bool, isAlnum: char -> bool, t: string)
    requires PlainLine(isWord, t)
    ensures CaptionCleaned(isWord, isAlnum, Some(t)) == t
  {
    PlainLineNoEmojis(isWord, t);
    PlainLineClean(isWord, isAlnum, t);
  }

  function Spaces(n: nat): string {
    seq(n, _ => ' ')
  }

  /** However many spaces stand between `u` and `v`, the second step leaves one. */
  lemma {:induction false} SpacesNormalized(isWord: char -> bool, u: string, v: string, n: nat)
    requires n >= 1
    ensures NormalizeAndCleanText(isWord, u + Spaces(n) + v) == NormalizeAndCleanText(isWord, u + " " + v)
    decreases n
  {
    if n > 1 {
      var s := u + Spaces(n - 1) + v;
      assert s[|u|] == ' ';
      assert s[..|u|] + [' '] + s[|u|..] == u + Spaces(n) + v;
      NormalizeDoubled(isWord, s, |u|);
      SpacesNormalized(isWord, u, v, n - 1);
    } else {
      assert Spaces(1) == " ";
    }
  }

  /** A run of spaces between words becomes one space (test_posts_display.py:11). */
  lemma ExtraSpacesCleaned(isWord: char -> bool, isAlnum: char -> bool, u: string, v: string, n: nat)
    requires n >= 1 && PlainLine(isWord, u + " " + v)
    ensures CaptionCleaned(isWord, isAlnum, Some(u + Spaces(n) + v)) == u + " " + v
  {
    var t := u + " " + v;
    var x := u + Spaces(n) + v;
    assert forall k :: 0 <= k < |u| ==> x[k] == t[k];
    assert forall k :: |u| + n <= k < |x| ==> x[k] == t[k - n + 1];
    assert forall k :: 0 <= k < |x| ==> x[k] != '#' && NotWide(x[k]);
    EmojisAndHashtagsKeep(isWord, x);
    SpacesNormalized(isWord, u, v, n);
    PlainLineClean(isWord, isAlnum, t);
  }

  /** The first step takes out a run of wide characters and nothing else. */
  lemma WideRunRemoved(isWord: char -> bool, u: string, e: string, v: string)
    requires AllChars(e, IsWide) && AllChars(u, NotWide) && AllChars(v, NotWide)
    requires '#' !in u && '#' !in v
    ensures RemoveEmojisAndHashtags(isWord, u + " " + e + " " + v) == u + "  " + v
  {
    var p := u + " ";
    var q := " " + v;
    assert AllChars(p, NotWide) && AllChars(q, NotWide) by {
      assert forall k :: 0 <= k < |u| ==> p[k] == u[k];
      assert forall k :: 0 <= k < |v| ==> q[k + 1] == v[k];
    }
    assert u + " " + e + " " + v == p + (e + q);
    RemoveWideAppend(p, e + q);
    RemoveWideAppend(e, q);
    RemoveWideKeeps(p);
    RemoveWideAllWide(e);
    RemoveWideKeeps(q);
    assert RemoveWide(p + (e + q)) == u + "  " + v;
    assert '#' !in u + "  " + v;
  }

  /** The words on either side of a space in a plain line. */
  lemma PlainWords(isWord: char -> bool, u: string, v: string)
    requires PlainLine(isWord, u + " " + v)
    ensures AllChars(u, NotWide) && AllChars(v, NotWide) && '#' !in u && '#' !in v
  {
    var t := u + " " + v;
    assert forall k :: 0 <= k < |u| ==> u[k] == t[k];
    assert forall k :: 0 <= k < |v| ==> v[k] == t[|u| + 1 + k];
  }

  /** A run of wide characters between two spaces goes, and the spaces become one (test_posts_display.py:19). */
  lemma EmojiCleaned(isWord: char -> bool, isAlnum: char -> bool, u: string, e: string, v: string)
    requires AllChars(e, IsWide) && PlainLine(isWord, u + " " + v)
    ensures CaptionCleaned(isWord, isAlnum, Some(u + " " + e + " " + v)) == u + " " + v
  {
    var t := u + " " + v;
    PlainWords(isWord, u, v);
    var x := u + " " + e + " " + v;
    WideRunRemoved(isWord, u, e, v);
    assert u + "  " + v == t[..|u|] + [' '] + t[|u|..];
    NormalizeDoubled(isWord, t, |u|);
    PlainLineClean(isWord, isAlnum, t);
    assert x != [] && x[|u|] == ' ';
    assert CaptionCleaned(isWord, isAlnum, Some(x)) == CleanedLines(isAlnum, NormalizeAndCleanText(isWord, u + "  " + v));
  }

  /** The first step takes out a trailing hashtag and nothing else. */
  lemma TrailingTagRemoved(isWord: char -> bool, p: string, w: string)
    requires '#' !in p && AllChars(p, NotWide)
    requires w != [] && AllChars(w, isWord) && AllChars(w, NotWide)
    ensures RemoveEmojisAndHashtags(isWord, p + "#" + w) == p
  {
    var tag := "#" + w + [];
    assert p + "#" + w == p + tag;
    EmojisAndHashtagsPrefix(isWord, p, tag);
    RemoveWideKeeps(p);
    assert AllChars(tag, NotWide) by {
      assert forall k :: 0 <= k < |w| ==> tag[k + 1] == w[k];
    }
    RemoveWideKeeps(tag);
    RemoveHashtagsTag(isWord, w, []);
  }

  /** A plain line with one space after it comes out of the last two steps as the line. */
  lemma TrailingSpaceClean(isWord: char -> bool, isAlnum: char -> bool, u: string)
    requires PlainLine(isWord, u)
    ensures CleanedLines(isAlnum, NormalizeAndCleanText(isWord, u + " ")) == u
  {
    var p := u + " ";
    assert forall k :: 0 <= k < |u| ==> p[k] == u[k];
    assert AllChars(p, c => Allowed(isWord, c)) by {
      assert forall c :: PlainChar(isWord, c) || c == ' ' ==> Allowed(isWord, c);
    }
    NormalizeKeeps(isWord, p);
    StripTrailing(u, " ");
    assert !IsDash(u[0]);
    assert NoSeparator(p, IsNewline);
    CleanedOneLine(isAlnum, p);
  }

  /** A hashtag at the end goes, and so does the space before it (test_posts_display.py:24). */
  lemma HashtagCleaned(isWord: char -> bool, isAlnum: char -> bool, u: string, w: string)
    requires PlainLine(isWord, u) && w != [] && AllChars(w, isWord) && AllChars(w, NotWide)
    ensures CaptionCleaned(isWord, isAlnum, Some(u + " #" + w)) == u
  {
    var p := u + " ";
    assert forall k :: 0 <= k < |u| ==> p[k] == u[k];
    assert forall k :: 0 <= k < |p| ==> p[k] != '#' && NotWide(p[k]);
    assert u + " #" + w == p + "#" + w;
    TrailingTagRemoved(isWord, p, w);
    TrailingSpaceClean(isWord, isAlnum, u);
  }

  /** What `\w` matches among the characters of the examples. */
  predicate AsciiWords(isWord: char -> bool) {
    (forall c :: 'a' <= c <= 'z' ==> isWord(c)) && (forall c :: 'A' <= c <= 'Z' ==> isWord(c))
  }

  lemma HelloPlain(isWord: char -> bool)
    requires AsciiWords(isWord)
    ensures PlainLine(isWord, "Hello")
  {
  }

  lemma HelloWorldPlain(isWord: char -> bool)
    requires AsciiWords(isWord)
    ensures PlainLine(isWord, "Hello" + " " + "world")
  {
    HelloWorld();
  }

  lemma HelloWorld()
    ensures "Hello" + " " + "world" == "Hello world"
  {
  }

  lemma HelloSpacesWorld()
    ensures "Hello" + Spaces(4) + "world" == "Hello    world"
  {
  }

  lemma HelloEmojiWorld()
    ensures "Hello" + " " + "\U{1F44B}" + " " + "world" == "Hello \U{1F44B} world"
  {
  }

  lemma HelloHashWorld()
    ensures "Hello" + " #" + "world" == "Hello #world"
  {
  }

  /** test_posts_display.py:11: "Hello    world" is cleaned to "Hello world". */
  lemma ExtraSpacesExample(isWord: char -> bool, isAlnum: char -> bool)
    requires AsciiWords(isWord)
    ensures "Hello" + Spaces(4) + "world" == "Hello    world"
    ensures CaptionCleaned(isWord, isAlnum, Some("Hello" + Spaces(4) + "world")) == "Hello world"
  {
    HelloWorldPlain(isWord);
    HelloWorld();
    ExtraSpacesCleaned(isWord, isAlnum, "Hello", "world", 4);
    HelloSpacesWorld();
  }

  /** test_posts_display.py:19: "Hello \U{1F44B} world" is cleaned to "Hello world". */
  lemma EmojiExample(isWord: char -> bool, isAlnum: char -> bool)
    requires AsciiWords(isWord)
    ensures "Hello" + " " + "\U{1F44B}" + " " + "world" == "Hello \U{1F44B} world"
    ensures CaptionCleaned(isWord, isAlnum, Some("Hello" + " " + "\U{1F44B}" + " " + "world")) == "Hello world"
  {
    HelloWorldPlain(isWord);
    HelloWorld();
    EmojiCleaned(isWord, isAlnum, "Hello", "\U{1F44B}", "world");
    HelloEmojiWorld();
  }

  /** test_posts_display.py:24: "Hello #world" is cleaned to "Hello". */
  lemma HashtagExample(isWord: char -> bool, isAlnum: char -> bool)
    requires AsciiWords(isWord)
    ensures "Hello" + " #" + "world" == "Hello #world"
    ensures CaptionCleaned(isWord, isAlnum, Some("Hello" + " #" + "world")) == "Hello"
  {
    HelloPlain(isWord);
    HashtagCleaned(isWord, isAlnum, "Hello", "world");
    HelloHashWorld();
  }
}
