/**
 * The few Python `str` operations the scraper relies on, with the meaning
 * Python gives them: `str.isspace`, `strip`/`rstrip`, `split` on a separator,
 * `join`, the substring test `in`, `startswith` and an ASCII `lower`.
 */
module Text {

  // ---- Characters ----------------------------------------------------------

  /** Python's `str.isspace()` for one character (also what `\s` matches). */
  predicate IsSpace(c: char) {
    c == ' ' || ('\t' <= c <= '\r') || ('\U{1C}' <= c <= '\U{1F}')
    || c == '\U{85}' || c == '\U{A0}' || c == '\U{1680}'
    || ('\U{2000}' <= c <= '\U{200A}') || c == '\U{2028}' || c == '\U{2029}'
    || c == '\U{202F}' || c == '\U{205F}' || c == '\U{3000}'
  }

  /** The characters at which Python's `str.splitlines()` breaks a line. */
  predicate IsLineBreak(c: char) {
    ('\n' <= c <= '\r') || ('\U{1C}' <= c <= '\U{1E}')
    || c == '\U{85}' || c == '\U{2028}' || c == '\U{2029}'
  }

  lemma LineBreakIsSpace(c: char)
    requires IsLineBreak(c)
    ensures IsSpace(c)
  {
  }

  function LowerChar(c: char): char {
    if 'A' <= c <= 'Z' then (c as int + 32) as char else c
  }

  /** `s.lower()`, restricted to the ASCII letters. */
  function Lower(s: string): (r: string)
    ensures |r| == |s|
    ensures forall i :: 0 <= i < |s| ==> r[i] == LowerChar(s[i])
  {
    seq(|s|, i requires 0 <= i < |s| => LowerChar(s[i]))
  }

  // ---- Substrings ----------------------------------------------------------

  /** `pat` occurs in `s` at position `i`. */
  ghost predicate OccursAt(pat: string, s: string, i: int) {
    0 <= i && i + |pat| <= |s| && s[i..i + |pat|] == pat
  }

  /** Python's `pat in s`. */
  function Contains(s: string, pat: string): (b: bool)
    ensures b <==> exists i :: OccursAt(pat, s, i)
    decreases |s|
  {
    if |s| < |pat| then false
    else if s[..|pat|] == pat then (assert OccursAt(pat, s, 0); true)
    else
      var rest := Contains(s[1..], pat);
      assert forall i :: OccursAt(pat, s[1..], i) <==> OccursAt(pat, s, i + 1);
      assert forall i :: OccursAt(pat, s, i) ==> i >= 1;
      assert forall i :: OccursAt(pat, s, i) ==> OccursAt(pat, s[1..], i - 1);
      rest
  }

  /** A pattern with a character that `s` lacks does not occur in `s`. */
  lemma AbsentCharNotContained(s: string, pat: string, k: int)
    requires 0 <= k < |pat| && pat[k] !in s
    ensures !Contains(s, pat)
  {
    assert forall i :: OccursAt(pat, s, i) ==> s[i + k] == pat[k];
  }

  /** A pattern found at a known position is contained. */
  lemma ContainedAt(s: string, pat: string, i: int)
    requires 0 <= i && i + |pat| <= |s| && s[i..i + |pat|] == pat
    ensures Contains(s, pat)
  {
    assert OccursAt(pat, s, i);
  }

  /**
   * When `s` is `front + [pat[k]] + back` and neither side holds `pat[k]`,
   * the only place `pat` could occur is where that character is its `k`-th;
   * if the `j`-th character does not match there, it is absent.
   */
  lemma AnchoredNotContained(s: string, pat: string, k: nat, front: string, back: string, j: nat)
    requires k < |pat| && s == front + [pat[k]] + back
    requires pat[k] !in front && pat[k] !in back
    requires j < |pat| && 0 <= |front| - k + j < |s| && s[|front| - k + j] != pat[j]
    ensures !Contains(s, pat)
  {
    forall i | OccursAt(pat, s, i) ensures i == |front| - k {
      assert s[i + k] == pat[k];
    }
  }

  /** Text put in front keeps every occurrence. */
  lemma ContainsAppend(p: string, s: string, pat: string)
    ensures Contains(s, pat) ==> Contains(p + s, pat)
  {
    if Contains(s, pat) {
      var i :| OccursAt(pat, s, i);
      assert (p + s)[|p| + i..|p| + i + |pat|] == s[i..i + |pat|];
      assert OccursAt(pat, p + s, |p| + i);
    }
  }

  predicate StartsWith(s: string, prefix: string) {
    |prefix| <= |s| && s[..|prefix|] == prefix
  }

  // ---- Trimming ------------------------------------------------------------

  /** `s.rstrip(chars)`: drop the longest suffix of characters `drop` accepts. */
  function TrimRight(s: string, drop: char -> bool): (r: string)
    ensures |r| <= |s| && r == s[..|r|]
    ensures r == [] || !drop(r[|r| - 1])
    ensures forall i :: |r| <= i < |s| ==> drop(s[i])
  {
    if s != [] && drop(s[|s| - 1]) then TrimRight(s[..|s| - 1], drop) else s
  }

  /** Where `TrimRight` stops, given by the position of the last kept character. */
  lemma TrimRightAt(s: string, drop: char -> bool, n: nat)
    requires n <= |s| && (n == 0 || !drop(s[n - 1]))
    requires forall i :: n <= i < |s| ==> drop(s[i])
    ensures TrimRight(s, drop) == s[..n]
  {
  }

  /** `s.lstrip(chars)`: drop the longest prefix of characters `drop` accepts. */
  function TrimLeft(s: string, drop: char -> bool): (r: string)
    ensures |r| <= |s| && r == s[|s| - |r|..]
    ensures r == [] || !drop(r[0])
    ensures forall i :: 0 <= i < |s| - |r| ==> drop(s[i])
  {
    if s != [] && drop(s[0]) then TrimLeft(s[1..], drop) else s
  }

  /** A prefix of a suffix of `s` is an infix of `s`, and what follows it in `s` follows it in the suffix. */
  lemma InfixOfSuffix(s: string, l: string, r: string, drop: char -> bool)
    requires |l| <= |s| && l == s[|s| - |l|..]
    requires |r| <= |l| && r == l[..|r|]
    requires forall k :: |r| <= k < |l| ==> drop(l[k])
    ensures var i := |s| - |l|; r == s[i..i + |r|] && forall k :: i + |r| <= k < |s| ==> drop(s[k])
  {
    var i := |s| - |l|;
    assert s[i..i + |r|] == l[..|r|];
    forall k | i + |r| <= k < |s| ensures drop(s[k]) {
      assert s[k] == l[k - i];
    }
  }

  /** No leading and no trailing whitespace. */
  predicate IsStripped(s: string) {
    s == [] || (!IsSpace(s[0]) && !IsSpace(s[|s| - 1]))
  }

  /** Where the text kept by `Strip(s)` starts in `s`. */
  function StripStart(s: string): (i: nat)
    ensures i <= |s|
  {
    |s| - |TrimLeft(s, IsSpace)|
  }

  /** `s.strip()`: the infix left once the whitespace at both ends is gone. */
  function Strip(s: string): (r: string)
    ensures IsStripped(r)
    ensures StripStart(s) + |r| <= |s|
    ensures r == s[StripStart(s)..StripStart(s) + |r|]
    ensures forall k :: 0 <= k < StripStart(s) ==> IsSpace(s[k])
    ensures forall k :: StripStart(s) + |r| <= k < |s| ==> IsSpace(s[k])
  {
    var l := TrimLeft(s, IsSpace);
    var r := TrimRight(l, IsSpace);
    InfixOfSuffix(s, l, r, IsSpace);
    r
  }

  /** Trailing whitespace after a stripped string is all `strip()` removes. */
  lemma StripTrailing(s: string, t: string)
    requires s != [] && IsStripped(s)
    requires forall k :: 0 <= k < |t| ==> IsSpace(t[k])
    ensures Strip(s + t) == s
  {
    var l := TrimLeft(s + t, IsSpace);
    assert (s + t)[0] == s[0];
    assert l == s + t;
    TrimRightAt(s + t, IsSpace, |s|);
    assert (s + t)[..|s|] == s;
  }

  /** Stripping a string that is already stripped changes nothing. */
  lemma StripStripped(s: string)
    requires IsStripped(s)
    ensures Strip(s) == s
  {
  }

  /** A string of whitespace only strips to the empty string. */
  lemma StripAllSpace(s: string)
    requires forall k :: 0 <= k < |s| ==> IsSpace(s[k])
    ensures Strip(s) == []
  {
  }

  // ---- Splitting and joining -----------------------------------------------

  /** No character of `p` is a separator. */
  predicate NoSeparator(p: string, isSep: char -> bool) {
    forall i :: 0 <= i < |p| ==> !isSep(p[i])
  }

  /** No character of any part is a separator. */
  predicate SeparatorFree(parts: seq<string>, isSep: char -> bool) {
    forall j :: 0 <= j < |parts| ==> NoSeparator(parts[j], isSep)
  }

  /**
   * Python's `s.split(sep)` for a one-character separator, generalised to
   * every character `isSep` accepts: the pieces between separators, so
   * there is always one more piece than separators.
   */
  function Split(s: string, isSep: char -> bool): (parts: seq<string>)
    ensures |parts| >= 1
    ensures SeparatorFree(parts, isSep)
    ensures |parts[0]| <= |s| && parts[0] == s[..|parts[0]|]
    ensures |parts[0]| < |s| ==> isSep(s[|parts[0]|])
    decreases |s|
  {
    if s == [] then [[]]
    else
      var rest := Split(s[1..], isSep);
      if isSep(s[0]) then [[]] + rest
      else
        assert [s[0]] + rest[0] == s[..|rest[0]| + 1];
        [[s[0]] + rest[0]] + rest[1..]
  }

  /** A string without separators is a single piece. */
  lemma SplitNoSeparator(s: string, isSep: char -> bool)
    requires NoSeparator(s, isSep)
    ensures Split(s, isSep)[0] == s
  {
  }

  /** `sep.join(parts)`. */
  function Join(parts: seq<string>, sep: string): (s: string)
    decreases |parts|
  {
    if parts == [] then []
    else if |parts| == 1 then parts[0]
    else parts[0] + sep + Join(parts[1..], sep)
  }

  lemma SplitPrepend(c: char, s: string, isSep: char -> bool)
    requires !isSep(c)
    ensures Split([c] + s, isSep)
         == [[c] + Split(s, isSep)[0]] + Split(s, isSep)[1..]
  {
    assert ([c] + s)[1..] == s;
  }

  lemma {:induction false} SplitAppendFree(p: string, s: string, isSep: char -> bool)
    requires NoSeparator(p, isSep)
    ensures Split(p + s, isSep)
         == [p + Split(s, isSep)[0]] + Split(s, isSep)[1..]
    decreases |p|
  {
    if p == [] {
      assert p + s == s;
      var parts := Split(s, isSep);
      assert p + parts[0] == parts[0];
      assert [parts[0]] + parts[1..] == parts;
    } else {
      SplitAppendFree(p[1..], s, isSep);
      assert p + s == [p[0]] + (p[1..] + s);
      SplitPrepend(p[0], p[1..] + s, isSep);
      assert [p[0]] + (p[1..] + Split(s, isSep)[0]) == p + Split(s, isSep)[0];
    }
  }

  /**
   * Splitting at a separator character undoes joining with it, when no part
   * contains a separator.
   */
  lemma {:induction false} SplitJoin(parts: seq<string>, sep: char, isSep: char -> bool)
    requires parts != [] && isSep(sep) && SeparatorFree(parts, isSep)
    ensures Split(Join(parts, [sep]), isSep) == parts
    decreases |parts|
  {
    assert NoSeparator(parts[0], isSep);
    if |parts| == 1 {
      SplitAppendFree(parts[0], [], isSep);
      assert parts[0] + [] == parts[0];
    } else {
      var tail := Join(parts[1..], [sep]);
      assert SeparatorFree(parts[1..], isSep) by {
        forall j | 0 <= j < |parts| - 1 ensures NoSeparator(parts[1..][j], isSep) {
          assert parts[1..][j] == parts[j + 1];
        }
      }
      SplitJoin(parts[1..], sep, isSep);
      assert Join(parts, [sep]) == parts[0] + ([sep] + tail);
      assert ([sep] + tail)[1..] == tail;
      assert Split([sep] + tail, isSep) == [[]] + parts[1..];
      SplitAppendFree(parts[0], [sep] + tail, isSep);
      assert parts[0] + [] == parts[0];
      assert [parts[0]] + parts[1..] == parts;
    }
  }

  lemma {:induction false} JoinSnoc(parts: seq<string>, last: string, sep: string)
    requires parts != []
    ensures Join(parts + [last], sep) == Join(parts, sep) + sep + last
    decreases |parts|
  {
    if |parts| == 1 {
      assert parts + [last] == [parts[0], last];
    } else {
      JoinSnoc(parts[1..], last, sep);
      assert (parts + [last])[1..] == parts[1..] + [last];
    }
  }

  /** A trailing separator adds one empty piece. */
  lemma SplitJoinTrailing(parts: seq<string>, sep: char, isSep: char -> bool)
    requires parts != [] && isSep(sep) && SeparatorFree(parts, isSep)
    ensures Split(Join(parts, [sep]) + [sep], isSep) == parts + [[]]
  {
    assert SeparatorFree(parts + [[]], isSep) by {
      forall j | 0 <= j < |parts| + 1 ensures NoSeparator((parts + [[]])[j], isSep) {
        if j < |parts| { assert (parts + [[]])[j] == parts[j]; }
      }
    }
    SplitJoin(parts + [[]], sep, isSep);
    JoinSnoc(parts, [], [sep]);
    assert Join(parts, [sep]) + [sep] + [] == Join(parts, [sep]) + [sep];
  }

  /** How many separators `s` holds. */
  function SeparatorCount(s: string, isSep: char -> bool): nat {
    if s == [] then 0 else (if isSep(s[0]) then 1 else 0) + SeparatorCount(s[1..], isSep)
  }

  /** There is one more piece than separators. */
  lemma {:induction false} SplitCount(s: string, isSep: char -> bool)
    ensures |Split(s, isSep)| == SeparatorCount(s, isSep) + 1
    decreases |s|
  {
    if s != [] {
      SplitCount(s[1..], isSep);
    }
  }

  /**
   * Joining the pieces again with the separator gives the text back, when
   * that separator is the only one occurring in it.
   */
  lemma {:induction false} JoinSplit(s: string, sep: char, isSep: char -> bool)
    requires forall i :: 0 <= i < |s| && isSep(s[i]) ==> s[i] == sep
    ensures Join(Split(s, isSep), [sep]) == s
    decreases |s|
  {
    if s != [] {
      var rest := Split(s[1..], isSep);
      assert forall i :: 0 <= i < |s| - 1 && isSep(s[1..][i]) ==> s[1..][i] == sep by {
        forall i | 0 <= i < |s| - 1 && isSep(s[1..][i]) ensures s[1..][i] == sep {
          assert s[1..][i] == s[i + 1];
        }
      }
      JoinSplit(s[1..], sep, isSep);
      if isSep(s[0]) {
        assert Split(s, isSep) == [[]] + rest;
        assert ([[]] + rest)[1..] == rest;
        assert s == [sep] + s[1..];
      } else {
        var parts := Split(s, isSep);
        assert parts == [[s[0]] + rest[0]] + rest[1..];
        if |rest| == 1 {
          assert s == [s[0]] + rest[0];
        } else {
          assert parts[1..] == rest[1..];
          assert Join(rest, [sep]) == rest[0] + [sep] + Join(rest[1..], [sep]);
          assert s == [s[0]] + s[1..];
        }
      }
    }
  }

  // ---- Character classes through split, strip and join -----------------------

  /** Every character of `s` satisfies `ok`. */
  predicate AllChars(s: string, ok: char -> bool) {
    forall i :: 0 <= i < |s| ==> ok(s[i])
  }

  lemma {:induction false} SplitAllChars(s: string, isSep: char -> bool, ok: char -> bool)
    requires AllChars(s, ok)
    ensures forall j :: 0 <= j < |Split(s, isSep)| ==> AllChars(Split(s, isSep)[j], ok)
    decreases |s|
  {
    if s != [] {
      assert AllChars(s[1..], ok) by {
        forall i | 0 <= i < |s| - 1 ensures ok(s[1..][i]) {
          assert s[1..][i] == s[i + 1];
        }
      }
      SplitAllChars(s[1..], isSep, ok);
    }
  }

  lemma StripAllChars(s: string, ok: char -> bool)
    requires AllChars(s, ok)
    ensures AllChars(Strip(s), ok)
  {
    var r := Strip(s);
    forall i | 0 <= i < |r| ensures ok(r[i]) {
      assert r[i] == s[StripStart(s) + i];
    }
  }

  lemma {:induction false} JoinAllChars(parts: seq<string>, sep: string, ok: char -> bool)
    requires AllChars(sep, ok)
    requires forall j :: 0 <= j < |parts| ==> AllChars(parts[j], ok)
    ensures AllChars(Join(parts, sep), ok)
    decreases |parts|
  {
    if |parts| > 1 {
      JoinAllChars(parts[1..], sep, ok);
      var tail := Join(parts[1..], sep);
      var whole := parts[0] + sep + tail;
      forall i | 0 <= i < |whole| ensures ok(whole[i]) {
        if i < |parts[0]| {
          assert whole[i] == parts[0][i];
        } else if i < |parts[0]| + |sep| {
          assert whole[i] == sep[i - |parts[0]|];
        } else {
          assert whole[i] == tail[i - |parts[0]| - |sep|];
        }
      }
    }
  }

  /**
   * Joining non-empty stripped parts gives a stripped string, whatever the
   * separator: it starts with the first part and ends with the last.
   */
  lemma {:induction false} JoinStripped(parts: seq<string>, sep: string)
    requires forall j :: 0 <= j < |parts| ==> parts[j] != [] && IsStripped(parts[j])
    ensures IsStripped(Join(parts, sep))
    ensures parts != [] ==> Join(parts, sep) != [] && Join(parts, sep)[0] == parts[0][0]
    ensures parts != [] ==> var s := Join(parts, sep); var l := parts[|parts| - 1];
      s[|s| - 1] == l[|l| - 1]
    decreases |parts|
  {
    if |parts| > 1 {
      JoinStripped(parts[1..], sep);
      assert parts[1..][|parts| - 2] == parts[|parts| - 1];
    }
  }
}
