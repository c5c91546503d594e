/**
 * The parts of the desktop window (gui_app.py) that carry logic: the
 * account list shown in, and read back from, a multi-line text area, and
 * the check of the three numeric settings. The text area is modelled by its
 * contents as a string.
 */
module Gui {
  import opened Optional
  import opened Text

  /** A well-formed account name: non-empty, stripped, on one line. */
  predicate AccountName(a: string) {
    a != [] && IsStripped(a) && NoSeparator(a, IsLineBreak)
  }

  predicate AccountNames(accounts: seq<string>) {
    forall j :: 0 <= j < |accounts| ==> AccountName(accounts[j])
  }

  /**
   * The comprehension of `get_accounts` over the lines of the text: each
   * line stripped, and the lines that strip to nothing left out.
   */
  function NonBlankLines(lines: seq<string>): (accounts: seq<string>)
    ensures |accounts| <= |lines|
    ensures forall j :: 0 <= j < |accounts| ==> accounts[j] != [] && IsStripped(accounts[j])
  {
    if lines == [] then []
    else
      var init := NonBlankLines(lines[..|lines| - 1]);
      var line := Strip(lines[|lines| - 1]);
      if line == [] then init else init + [line]
  }

  /**
   * `get_accounts` on the widget's text. Python's `splitlines()` is
   * splitting at every line-break character except that "\r\n" counts as
   * one break and a final break opens no empty line; the pieces this adds
   * are empty and the comprehension drops them, so the result is the same.
   */
  function ParseAccounts(text: string): (accounts: seq<string>)
    ensures AccountNames(accounts)
  {
    var lines := Split(text, IsLineBreak);
    NonBlankLinesNames(lines);
    NonBlankLines(lines)
  }

  lemma {:induction false} NonBlankLinesNames(lines: seq<string>)
    requires SeparatorFree(lines, IsLineBreak)
    ensures AccountNames(NonBlankLines(lines))
    decreases |lines|
  {
    if lines != [] {
      var n := |lines| - 1;
      assert SeparatorFree(lines[..n], IsLineBreak) by {
        forall j | 0 <= j < n ensures NoSeparator(lines[..n][j], IsLineBreak) {
          assert lines[..n][j] == lines[j];
        }
      }
      NonBlankLinesNames(lines[..n]);
      var line := Strip(lines[n]);
      if line != [] {
        StripOneLine(lines[n]);
        AccountNamesSnoc(NonBlankLines(lines[..n]), line);
      }
    }
  }

  /** Stripping a line keeps it on one line. */
  lemma StripOneLine(s: string)
    requires NoSeparator(s, IsLineBreak) && Strip(s) != []
    ensures AccountName(Strip(s))
  {
    StripAllChars(s, c => !IsLineBreak(c));
  }

  lemma AccountNamesSnoc(accounts: seq<string>, a: string)
    requires AccountNames(accounts) && AccountName(a)
    ensures AccountNames(accounts + [a])
  {
  }

  /** Lines that are already account names come back unchanged. */
  lemma {:induction false} NonBlankLinesOfNames(accounts: seq<string>)
    requires AccountNames(accounts)
    ensures NonBlankLines(accounts) == accounts
    decreases |accounts|
  {
    if accounts != [] {
      var n := |accounts| - 1;
      assert AccountNames(accounts[..n]) by {
        forall j | 0 <= j < n ensures AccountName(accounts[..n][j]) {
          assert accounts[..n][j] == accounts[j];
        }
      }
      NonBlankLinesOfNames(accounts[..n]);
      assert AccountName(accounts[n]);
      StripStripped(accounts[n]);
      assert accounts[..n] + [accounts[n]] == accounts;
    }
  }

  /** An empty last line adds no account. */
  lemma NonBlankLinesEmptyLast(lines: seq<string>)
    ensures NonBlankLines(lines + [[]]) == NonBlankLines(lines)
  {
    StripStripped([]);
    assert (lines + [[]])[..|lines|] == lines;
  }

  /** The three settings `get_settings` returns. */
  datatype GuiSettings = GuiSettings(maxAgeDays: int, maxPostsPerAccount: int, timeoutMs: int)

  /**
   * `get_settings`: each entry is `None` when `int()` cannot parse it; any
   * unparsable or non-positive entry makes the result `None`.
   */
  function GetSettings(maxAge: Option<int>, maxPosts: Option<int>, timeout: Option<int>): (r: Option<GuiSettings>)
    ensures r.Some? <==> maxAge.Some? && maxPosts.Some? && timeout.Some?
                         && maxAge.value > 0 && maxPosts.value > 0 && timeout.value > 0
    ensures r.Some? ==> r.value == GuiSettings(maxAge.value, maxPosts.value, timeout.value)
  {
    if maxAge.None? || maxPosts.None? || timeout.None? then None
    else if maxAge.value <= 0 || maxPosts.value <= 0 || timeout.value <= 0 then None
    else Some(GuiSettings(maxAge.value, maxPosts.value, timeout.value))
  }

  /** The account text area of `InstagramHelperGUI`. */
  class HelperGui {
    /** The text area's contents, without the newline Tk keeps after them. */
    var accountText: string

    constructor ()
      ensures accountText == []
    {
      accountText := [];
    }

    /**
     * `get_accounts`: Tk's `get(1.0, END)` hands back the contents with a
     * trailing newline.
     */
    function GetAccounts(): (accounts: seq<string>)
      reads this
      ensures AccountNames(accounts)
    {
      ParseAccounts(accountText + "\n")
    }

    /**
     * `load_initial_accounts`: clears the area and writes the accounts one
     * per line, with no newline after the last; reading them back gives the
     * same list.
     */
    method LoadInitialAccounts(accounts: seq<string>)
      modifies this
      ensures accountText == Join(accounts, "\n")
      ensures AccountNames(accounts) ==> GetAccounts() == accounts
    {
      accountText := [];
      var i := 0;
      while i < |accounts|
        invariant 0 <= i <= |accounts|
        invariant accountText == Join(accounts[..i], "\n")
      {
        if i > 0 {
          accountText := accountText + "\n";
        }
        accountText := accountText + accounts[i];
        if i > 0 {
          JoinSnoc(accounts[..i], accounts[i], "\n");
        }
        assert accounts[..i + 1] == accounts[..i] + [accounts[i]];
        i := i + 1;
      }
      assert accounts[..|accounts|] == accounts;
      if AccountNames(accounts) {
        LoadedAccountsReadBack(accounts);
      }
    }
  }

  /** Writing account names one per line and reading them back loses and adds nothing. */
  lemma LoadedAccountsReadBack(accounts: seq<string>)
    requires AccountNames(accounts)
    ensures ParseAccounts(Join(accounts, "\n") + "\n") == accounts
  {
    NonBlankLinesOfNames(accounts);
    NonBlankLinesEmptyLast(accounts);
    if accounts == [] {
      assert Join(accounts, "\n") + "\n" == "\n";
      assert Split("\n", IsLineBreak) == [[], []] by {
        assert "\n"[1..] == [];
      }
      var empty: seq<string> := [];
      NonBlankLinesEmptyLast(empty);
      assert empty + [[]] == [[]];
      var one: seq<string> := [[]];
      NonBlankLinesEmptyLast(one);
      assert one + [[]] == [[], []];
    } else {
      assert SeparatorFree(accounts, IsLineBreak);
      SplitJoinTrailing(accounts, '\n', IsLineBreak);
    }
  }
}
