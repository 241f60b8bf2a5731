/**
 * The application launcher's selection logic and its calculator and conversion history lists
 * (Ax-Shell/modules/launcher.py): the app filter and usage ordering, the selection cursor,
 * usage counting, the deletion of history entries with reselection, and the text shown for and
 * copied from a history entry. Desktop-entry fields are modelled as strings, with an absent
 * optional field as "" (the source reads the generic name, display name, executable and
 * command line through `x or ""`).
 */
module Launcher {
  import opened Wrappers
  import opened Text
  import opened Sorting

  datatype DesktopApp = DesktopApp(
    name: string,
    displayName: string,
    genericName: string,
    commandLine: string,
    executable: string)

  // ---------------------------------------------------------------- command names

  /** The command line of a shell wrapper, whose command name is not extracted. */
  const ShellWrapper: string := "/bin/sh -c"

  /**
   * `extract_command_name`: nothing for an empty or shell-wrapped command line, otherwise the
   * first whitespace-separated word with any directory part removed.
   */
  function ExtractCommandName(commandLine: string): (r: string)
    ensures '/' !in r && NoSpace(r)
    ensures commandLine == [] || StartsWith(commandLine, ShellWrapper) ==> r == []
    ensures !StartsWith(commandLine, ShellWrapper) ==> r == AfterLastSlash(FirstToken(commandLine))
  {
    if commandLine == [] then []
    else if StartsWith(commandLine, ShellWrapper) then []
    else
      AfterLastSlash(FirstToken(commandLine))
  }

  /**
   * The command name of `path args...` is the program's own name: whatever follows the first
   * word after whitespace, and whatever directory the word names, do not matter.
   */
  lemma CommandNameOfPath(dir: string, program: string, args: string)
    requires program != [] && NoSpace(program) && '/' !in program
    requires NoSpace(dir) && (dir == [] || dir[|dir| - 1] == '/')
    requires args == [] || IsSpace(args[0])
    requires !StartsWith(dir + program + args, ShellWrapper)
    ensures ExtractCommandName(dir + program + args) == program
  {
    var w := dir + program;
    assert dir + program + args == w + args;
    FirstTokenOfWord(w, args);
    AfterLastSlashUnique(w, program);
  }

  // ---------------------------------------------------------------- filtering and ordering

  /** The text a query is searched in: every name of the app, separated by spaces. */
  function Haystack(app: DesktopApp): (r: string)
    ensures Contains(r, app.displayName) && Contains(r, app.name) && Contains(r, app.genericName)
    ensures Contains(r, app.commandLine) && Contains(r, app.executable)
    ensures Contains(r, ExtractCommandName(app.commandLine))
  {
    var d, g := app.displayName, app.genericName;
    var n, c := " " + app.name + " ", " " + app.commandLine + " ";
    var e, x := " " + app.executable + " ", " " + ExtractCommandName(app.commandLine) + " ";
    HaystackHolds(d, app.name, g, app.commandLine, app.executable, ExtractCommandName(app.commandLine));
    d + n + g + c + e + x
  }

  /** Each of the six parts of a haystack is found in it. */
  lemma HaystackHolds(d: string, wn: string, g: string, wc: string, we: string, wx: string)
    ensures var h := d + (" " + wn + " ") + g + (" " + wc + " ") + (" " + we + " ") + (" " + wx + " ");
      Contains(h, d) && Contains(h, wn) && Contains(h, g) && Contains(h, wc) && Contains(h, we) && Contains(h, wx)
  {
    var n, c, e, x := " " + wn + " ", " " + wc + " ", " " + we + " ", " " + wx + " ";
    var h := d + n + g + c + e + x;
    assert Contains(h, d) by {
      assert StartsWith(d, d);
      GrowsRight(d, n, g, c, e, x, d);
    }
    assert Contains(h, wn) by {
      Padded(wn);
      ContainsLeft(d, n, wn);
      GrowsRight4(d + n, g, c, e, x, wn);
    }
    assert Contains(h, g) by {
      assert StartsWith(g, g);
      ContainsLeft(d + n, g, g);
      GrowsRight3(d + n + g, c, e, x, g);
    }
    assert Contains(h, wc) by {
      Padded(wc);
      ContainsLeft(d + n + g, c, wc);
      ContainsRight(d + n + g + c, e, wc);
      ContainsRight(d + n + g + c + e, x, wc);
    }
    assert Contains(h, we) by {
      Padded(we);
      ContainsLeft(d + n + g + c, e, we);
      ContainsRight(d + n + g + c + e, x, we);
    }
    assert Contains(h, wx) by {
      Padded(wx);
      ContainsLeft(d + n + g + c + e, x, wx);
    }
  }

  /** A string found in `s` is found in `s` with five strings appended. */
  lemma GrowsRight(s: string, a: string, b: string, c: string, d: string, e: string, sub: string)
    requires Contains(s, sub)
    ensures Contains(s + a + b + c + d + e, sub)
  {
    ContainsRight(s, a, sub);
    GrowsRight4(s + a, b, c, d, e, sub);
  }

  lemma GrowsRight4(s: string, a: string, b: string, c: string, d: string, sub: string)
    requires Contains(s, sub)
    ensures Contains(s + a + b + c + d, sub)
  {
    ContainsRight(s, a, sub);
    GrowsRight3(s + a, b, c, d, sub);
  }

  lemma GrowsRight3(s: string, a: string, b: string, c: string, sub: string)
    requires Contains(s, sub)
    ensures Contains(s + a + b + c, sub)
  {
    ContainsRight(s, a, sub);
    ContainsRight(s + a, b, sub);
    ContainsRight(s + a + b, c, sub);
  }

  lemma ContainsLeft(a: string, s: string, sub: string)
    requires Contains(s, sub)
    ensures Contains(a + s, sub)
  {
    ContainsInMiddle(a, s, [], sub);
    assert a + s + [] == a + s;
  }

  lemma ContainsRight(s: string, c: string, sub: string)
    requires Contains(s, sub)
    ensures Contains(s + c, sub)
  {
    ContainsInMiddle([], s, c, sub);
    assert [] + s + c == s + c;
  }

  /**
   * The query, case-folded, is a substring of the case-folded haystack: the empty query matches
   * every app, and no query longer than the haystack matches.
   */
  predicate Matches(app: DesktopApp, query: string): (r: bool)
    ensures query == [] ==> r
    ensures r ==> |query| <= |Haystack(app)|
  {
    EmptyContained(Lower(Haystack(app)));
    ContainsIff(Lower(Haystack(app)), Lower(query));
    Contains(Lower(Haystack(app)), Lower(query))
  }

  /** The list comprehension of `arrange_viewport`: the matching apps, in their order. */
  function FilterApps(apps: seq<DesktopApp>, query: string): (r: seq<DesktopApp>)
    ensures |r| <= |apps|
    ensures forall a :: a in r <==> a in apps && Matches(a, query)
  {
    if apps == [] then []
    else (if Matches(apps[0], query) then [apps[0]] else []) + FilterApps(apps[1..], query)
  }

  /** An empty query keeps every app, in order. */
  lemma {:induction false} EmptyQueryKeepsAll(apps: seq<DesktopApp>)
    ensures FilterApps(apps, "") == apps
  {
    if apps != [] {
      EmptyContained(Lower(Haystack(apps[0])));
      EmptyQueryKeepsAll(apps[1..]);
    }
  }

  /** Every app is found by its name, by its command line and by its command's name. */
  lemma FoundByItsNames(app: DesktopApp)
    ensures Matches(app, app.name)
    ensures Matches(app, app.commandLine)
    ensures Matches(app, ExtractCommandName(app.commandLine))
  {
    LowerContains(Haystack(app), app.name);
    LowerContains(Haystack(app), app.commandLine);
    LowerContains(Haystack(app), ExtractCommandName(app.commandLine));
  }

  /** A word is in itself padded with spaces. */
  lemma Padded(w: string)
    ensures Contains(" " + w + " ", w)
  {
    assert StartsWith(w, w);
    ContainsInMiddle(" ", w, " ", w);
  }

  /** Case-folding keeps every occurrence. */
  lemma LowerContains(s: string, sub: string)
    requires Contains(s, sub)
    ensures Contains(Lower(s), Lower(sub))
  {
    ContainsIff(s, sub);
    var i :| OccursAt(s, sub, i);
    assert Lower(s)[i..i + |sub|] == Lower(sub) by {
      forall k | 0 <= k < |sub| ensures Lower(s)[i..i + |sub|][k] == Lower(sub)[k] {
        assert s[i..i + |sub|][k] == sub[k];
      }
    }
    assert OccursAt(Lower(s), Lower(sub), i);
    ContainsIff(Lower(s), Lower(sub));
  }

  /** `app_usage.get(key, 0)`. */
  function UsageOf(usage: map<string, nat>, key: string): nat {
    if key in usage then usage[key] else 0
  }

  /** The key usage is counted under when ordering: the display name, or the name without one. */
  function UsageKey(app: DesktopApp): string {
    if app.displayName != [] then app.displayName else app.name
  }

  /** The sort key `(usage, casefolded display name)`. */
  function Rank(usage: map<string, nat>): DesktopApp -> (nat, string) {
    (app: DesktopApp) => (UsageOf(usage, UsageKey(app)), Lower(app.displayName))
  }

  /** `reverse=True` on tuples: more usage first, then the later display name first. */
  predicate RankBefore(x: (nat, string), y: (nat, string)) {
    x.0 > y.0 || (x.0 == y.0 && StrLess(y.1, x.1))
  }

  lemma RankOrderIsStrict()
    ensures StrictOrder(RankBefore)
  {
    forall a: (nat, string) ensures !RankBefore(a, a) {
      StrLessIrreflexive(a.1);
    }
    forall a: (nat, string), b: (nat, string), c: (nat, string) | RankBefore(a, b) && RankBefore(b, c)
      ensures RankBefore(a, c)
    {
      if a.0 == b.0 && b.0 == c.0 {
        StrLessTransitive(c.1, b.1, a.1);
      }
    }
  }

  /** The apps `arrange_viewport` lists for a query, in the order it lists them. */
  function Arranged(apps: seq<DesktopApp>, query: string, usage: map<string, nat>): (r: seq<DesktopApp>)
    ensures |r| <= |apps|
    ensures multiset(r) == multiset(FilterApps(apps, query))
  {
    Sort(FilterApps(apps, query), Rank(usage), RankBefore)
  }

  /**
   * The listed apps are exactly the matching ones, each as often as in the app list, ordered by
   * usage and then by display name, both descending.
   */
  lemma ArrangedApps(apps: seq<DesktopApp>, query: string, usage: map<string, nat>, a: DesktopApp)
    ensures a in Arranged(apps, query, usage) <==> a in apps && Matches(a, query)
    ensures multiset(Arranged(apps, query, usage)) == multiset(FilterApps(apps, query))
    ensures SortedBy(Arranged(apps, query, usage), Rank(usage), RankBefore)
  {
    SortSameElements(FilterApps(apps, query), Rank(usage), RankBefore, a);
    RankOrderIsStrict();
    SortSorted(FilterApps(apps, query), Rank(usage), RankBefore);
  }

  /** In the listing, an app used more often comes before one used less often. */
  lemma MoreUsedFirst(apps: seq<DesktopApp>, query: string, usage: map<string, nat>, i: nat, j: nat)
    requires i < j < |Arranged(apps, query, usage)|
    ensures UsageOf(usage, UsageKey(Arranged(apps, query, usage)[i]))
            >= UsageOf(usage, UsageKey(Arranged(apps, query, usage)[j]))
  {
    var s := Arranged(apps, query, usage);
    ArrangedApps(apps, query, usage, s[i]);
    assert !RankBefore(Rank(usage)(s[j]), Rank(usage)(s[i]));
  }

  // ---------------------------------------------------------------- history entries

  /** The separator between a history entry's expression and its result. */
  const Arrow: string := "=>"

  /** `copy_text_to_clipboard`: what follows the first "=>", stripped; without one, everything. */
  function CopyText(text: string): (r: string)
    ensures !Contains(text, Arrow) ==> r == text
    ensures Contains(text, Arrow) ==> |r| <= |text| - 2
  {
    match FindFirst(text, Arrow)
    case None => text
    case Some(i) => Strip(text[i + 2..])
  }

  /** The first "=>" of `e + "=>" + r` is the one after `e` when `e` has none. */
  lemma FirstArrow(e: string, r: string)
    requires !Contains(e, Arrow)
    ensures FindFirst(e + Arrow + r, Arrow) == Some(|e|)
  {
    var s := e + Arrow + r;
    assert OccursAt(s, Arrow, |e|);
    ContainsIff(s, Arrow);
    var v := FindFirst(s, Arrow).value;
    assert s[|e|..][..2] == Arrow;
    assert s[v..v + 2][1] == s[v + 1];
    if v < |e| {
      if v + 2 <= |e| {
        assert OccursAt(e, Arrow, v);
        ContainsIff(e, Arrow);
      }
    }
  }

  /** Copying an entry yields its result, stripped. */
  lemma CopiesTheResult(expression: string, result: string)
    requires !Contains(expression, Arrow)
    ensures CopyText(expression + Arrow + result) == Strip(result)
  {
    FirstArrow(expression, result);
    assert (expression + Arrow + result)[|expression| + 2..] == result;
  }

  /** The longest result shown in full, and the length a longer one is cut to. */
  const MaxShownResult: nat := 50
  const CutResult: nat := 47

  /** `parts[1]` of `text.split("=>")`: the text between the first "=>" and the next. */
  function SecondPart(text: string, i: nat): string
    requires i + 2 <= |text|
  {
    var rest := text[i + 2..];
    match FindFirst(rest, Arrow)
    case None => rest
    case Some(j) => rest[..j]
  }

  /**
   * The label of a history button: an entry whose result is longer than 50 characters shows
   * the stripped expression, " => ", the first 47 characters of the result and "..."; any other
   * entry is shown as it is.
   */
  function DisplayText(text: string): (r: string)
    ensures !Contains(text, Arrow) ==> r == text
    ensures r == text || EndsWith(r, "...")
  {
    match FindFirst(text, Arrow)
    case None => text
    case Some(i) =>
      var expression := Strip(text[..i]);
      var result := Strip(SecondPart(text, i));
      if |result| > MaxShownResult then
        var shown := expression + " => " + result[..CutResult] + "...";
        assert shown[|shown| - 3..] == "...";
        shown
      else text
  }

  /**
   * An entry `expression => result` whose parts hold no "=>" is shown in full when its
   * stripped result has at most 50 characters, and cut to 47 of them otherwise.
   */
  lemma DisplayOfEntry(expression: string, result: string)
    requires !Contains(expression, Arrow) && !Contains(result, Arrow)
    ensures var text := expression + Arrow + result;
      DisplayText(text) == if |Strip(result)| > MaxShownResult
        then Strip(expression) + " => " + Strip(result)[..CutResult] + "..."
        else text
  {
    var text := expression + Arrow + result;
    FirstArrow(expression, result);
    assert text[..|expression|] == expression;
    assert text[|expression| + 2..] == result;
  }

  // ---------------------------------------------------------------- the launcher

  /** A row of the launcher's list. */
  datatype Slot = AppSlot(app: DesktopApp) | HistorySlot(entry: string)

  /** The two history lists. */
  datatype HistoryKind = Calc | Conversion

  /** What activating the search entry asks of the rest of the shell. */
  datatype Activation =
    | NoAction
    | Evaluate(expression: string)
    | OpenNotch(panel: string)
    | Launch(app: DesktopApp)

  /** The label of an app's row, `app.display_name or "Unknown"`. */
  function SlotLabel(app: DesktopApp): string {
    if app.displayName != [] then app.displayName else "Unknown"
  }

  function AppSlots(apps: seq<DesktopApp>): (r: seq<Slot>)
    ensures |r| == |apps| && forall k :: 0 <= k < |r| ==> r[k] == AppSlot(apps[k])
  {
    seq(|apps|, k requires 0 <= k < |apps| => AppSlot(apps[k]))
  }

  function HistorySlots(entries: seq<string>): (r: seq<Slot>)
    ensures |r| == |entries| && forall k :: 0 <= k < |r| ==> r[k] == HistorySlot(entries[k])
  {
    seq(|entries|, k requires 0 <= k < |entries| => HistorySlot(entries[k]))
  }

  /** `next(app for app in apps if app.display_name == name)`, or nothing. */
  function FirstNamed(apps: seq<DesktopApp>, name: string): (r: Option<DesktopApp>)
    ensures r.Some? ==> r.value in apps && r.value.displayName == name
    ensures r.None? <==> forall a :: a in apps ==> a.displayName != name
    ensures r.Some? ==> exists k :: (0 <= k < |apps| && apps[k] == r.value
              && forall j :: 0 <= j < k ==> apps[j].displayName != name)
  {
    if apps == [] then None
    else if apps[0].displayName == name then Some(apps[0])
    else
      var r := FirstNamed(apps[1..], name);
      if r.Some? then
        var k :| 0 <= k < |apps[1..]| && apps[1..][k] == r.value
                 && forall j :: 0 <= j < k ==> apps[1..][j].displayName != name;
        assert apps[k + 1] == r.value;
        r
      else r
  }

  /** `move_selection`: from no selection, a step down selects the first row; clamped to the rows. */
  function MovedIndex(selected: int, delta: int, rows: nat): (r: int)
    requires rows > 0
    ensures 0 <= r < rows
    ensures selected == -1 && delta == 1 ==> r == 0
    ensures !(selected == -1 && delta == 1) && 0 <= selected + delta < rows ==> r == selected + delta
    ensures !(selected == -1 && delta == 1) && selected + delta < 0 ==> r == 0
    ensures !(selected == -1 && delta == 1) && selected + delta >= rows ==> r == rows - 1
  {
    var target := if selected == -1 && delta == 1 then 0 else selected + delta;
    if target < 0 then 0 else if target > rows - 1 then rows - 1 else target
  }

  /** A step down that moved is undone by a step up, and the other way round. */
  lemma MoveReverses(i: nat, rows: nat)
    requires i < rows
    ensures MovedIndex(i, 1, rows) != i ==> MovedIndex(MovedIndex(i, 1, rows), -1, rows) == i
    ensures MovedIndex(i, -1, rows) != i ==> MovedIndex(MovedIndex(i, -1, rows), 1, rows) == i
  {
  }

  /** The selection after deleting entry `deleted`, with `remaining` entries left. */
  function ReselectAfterDelete(deleted: nat, remaining: nat): (r: int)
    ensures remaining == 0 <==> r == -1
    ensures remaining > 0 ==> 0 <= r < remaining
  {
    if remaining == 0 then -1
    else
      var target := if deleted == 0 then 0 else deleted - 1;
      if target < remaining - 1 then target else remaining - 1
  }

  /** `del entries[k]`. */
  function RemoveAt(entries: seq<string>, k: nat): (r: seq<string>)
    requires k < |entries|
    ensures |r| == |entries| - 1
    ensures forall j :: 0 <= j < k ==> r[j] == entries[j]
    ensures forall j :: k <= j < |r| ==> r[j] == entries[j + 1]
  {
    entries[..k] + entries[k + 1..]
  }

  /**
   * After a deletion the cursor rests on the entry that preceded the deleted one, or on the one
   * that followed it when the first entry was deleted; nothing else leaves the list.
   */
  lemma ReselectsNeighbour(entries: seq<string>, k: nat)
    requires k < |entries|
    ensures var rest := RemoveAt(entries, k);
      var sel := ReselectAfterDelete(k, |rest|);
      (k > 0 ==> sel == k - 1 && rest[sel] == entries[k - 1])
      && (k == 0 && |rest| > 0 ==> sel == 0 && rest[0] == entries[1])
      && multiset(rest) + multiset{entries[k]} == multiset(entries)
  {
    var rest := RemoveAt(entries, k);
    assert entries == entries[..k] + [entries[k]] + entries[k + 1..];
  }

  class AppLauncher {
    var allApps: seq<DesktopApp>
    var appUsage: map<string, nat>
    var calcHistory: seq<string>
    var conversionHistory: seq<string>
    var viewport: seq<Slot>
    var selectedIndex: int

    ghost predicate Valid()
      reads this
    {
      -1 <= selectedIndex < |viewport|
    }

    constructor(apps: seq<DesktopApp>, usage: map<string, nat>, calcEntries: seq<string>, conversionEntries: seq<string>)
      ensures Valid()
      ensures allApps == apps && appUsage == usage && calcHistory == calcEntries && conversionHistory == conversionEntries
      ensures viewport == [] && selectedIndex == -1
    {
      allApps := apps;
      appUsage := usage;
      calcHistory := calcEntries;
      conversionHistory := conversionEntries;
      viewport := [];
      selectedIndex := -1;
    }

    function History(kind: HistoryKind): seq<string>
      reads this
    {
      if kind == Calc then calcHistory else conversionHistory
    }

    /** `close_launcher`: the list is emptied and nothing is selected. */
    method CloseLauncher()
      modifies this
      ensures Valid() && viewport == [] && selectedIndex == -1
      ensures allApps == old(allApps) && appUsage == old(appUsage)
      ensures calcHistory == old(calcHistory) && conversionHistory == old(conversionHistory)
    {
      viewport := [];
      selectedIndex := -1;
    }

    /**
     * `update_selection(index)`: an index of a row becomes the selection; -1 or an index past
     * the rows clears it.
     */
    method UpdateSelection(index: int)
      requires -1 <= index
      modifies this
      ensures Valid()
      ensures selectedIndex == (if index != -1 && index < |viewport| then index else -1)
      ensures viewport == old(viewport) && allApps == old(allApps) && appUsage == old(appUsage)
      ensures calcHistory == old(calcHistory) && conversionHistory == old(conversionHistory)
    {
      if index != -1 && index < |viewport| {
        selectedIndex := index;
      } else {
        selectedIndex := -1;
      }
    }

    /** `move_selection(delta)`: nothing without rows, otherwise the clamped step. */
    method MoveSelection(delta: int)
      requires Valid()
      modifies this
      ensures Valid()
      ensures old(viewport) == [] ==> unchanged(this)
      ensures old(viewport) != [] ==> selectedIndex == MovedIndex(old(selectedIndex), delta, |old(viewport)|)
      ensures viewport == old(viewport) && allApps == old(allApps) && appUsage == old(appUsage)
      ensures calcHistory == old(calcHistory) && conversionHistory == old(conversionHistory)
    {
      if viewport == [] {
        return;
      }
      var newIndex := if selectedIndex == -1 && delta == 1 then 0 else selectedIndex + delta;
      newIndex := if newIndex > |viewport| - 1 then |viewport| - 1 else newIndex;
      newIndex := if newIndex < 0 then 0 else newIndex;
      UpdateSelection(newIndex);
    }

    /**
     * `update_calculator_viewport` and `update_conversion_viewport`: the list shows the history,
     * and a selection past its end is cleared.
     */
    method UpdateHistoryViewport(kind: HistoryKind)
      requires -1 <= selectedIndex
      modifies this
      ensures Valid()
      ensures viewport == HistorySlots(History(kind))
      ensures selectedIndex == (if old(selectedIndex) >= |History(kind)| then -1 else old(selectedIndex))
      ensures allApps == old(allApps) && appUsage == old(appUsage)
      ensures calcHistory == old(calcHistory) && conversionHistory == old(conversionHistory)
    {
      viewport := HistorySlots(History(kind));
      if selectedIndex >= |History(kind)| {
        selectedIndex := -1;
      }
    }

    /**
     * `arrange_viewport(query)`: a query starting with "=" or ";" shows the calculator or the
     * conversion history; any other lists the matching apps by usage and name, and selects the
     * first of them when the query is not blank.
     */
    method ArrangeViewport(query: string)
      requires Valid()
      modifies this
      ensures Valid()
      ensures StartsWith(query, "=") ==>
                viewport == HistorySlots(calcHistory)
                && selectedIndex == (if old(selectedIndex) >= |calcHistory| then -1 else old(selectedIndex))
      ensures !StartsWith(query, "=") && StartsWith(query, ";") ==>
                viewport == HistorySlots(conversionHistory)
                && selectedIndex == (if old(selectedIndex) >= |conversionHistory| then -1 else old(selectedIndex))
      ensures !StartsWith(query, "=") && !StartsWith(query, ";") ==>
                viewport == AppSlots(Arranged(allApps, query, appUsage))
                && selectedIndex == (if Strip(query) != [] && viewport != [] then 0 else -1)
      ensures allApps == old(allApps) && appUsage == old(appUsage)
      ensures calcHistory == old(calcHistory) && conversionHistory == old(conversionHistory)
    {
      if StartsWith(query, "=") {
        UpdateHistoryViewport(Calc);
        return;
      }
      if StartsWith(query, ";") {
        UpdateHistoryViewport(Conversion);
        return;
      }
      viewport := [];
      selectedIndex := -1;
      viewport := AppSlots(Arranged(allApps, query, appUsage));
      if Strip(query) != [] && viewport != [] {
        UpdateSelection(0);
      }
    }

    /** `reset_app_usage`: every count is forgotten and the full list is arranged again. */
    method ResetAppUsage()
      requires Valid()
      modifies this
      ensures Valid()
      ensures appUsage == map[]
      ensures viewport == AppSlots(Arranged(allApps, "", map[])) && selectedIndex == -1
      ensures allApps == old(allApps)
      ensures calcHistory == old(calcHistory) && conversionHistory == old(conversionHistory)
    {
      appUsage := map[];
      ArrangeViewport("");
    }

    /**
     * The app branch of `on_search_entry_activate`: the selected row, or the first one when
     * none is selected and the text is not blank, names the app to launch; the first app with
     * that display name is launched, its count goes up by one and the launcher closes.
     */
    method LaunchSelected(text: string) returns (outcome: Activation)
      requires Valid()
      modifies this
      ensures Valid()
      ensures outcome.NoAction? || outcome.Launch?
      ensures outcome.NoAction? ==> unchanged(this)
      ensures outcome.Launch? ==>
                var row := if old(selectedIndex) != -1 then old(selectedIndex) else 0;
                row < |old(viewport)| && old(viewport)[row].AppSlot?
                && Some(outcome.app) == FirstNamed(allApps, SlotLabel(old(viewport)[row].app))
                && appUsage == old(appUsage)[outcome.app.displayName := UsageOf(old(appUsage), outcome.app.displayName) + 1]
                && viewport == [] && selectedIndex == -1
      ensures outcome.Launch? ==> !(Strip(text) == [] && old(selectedIndex) == -1)
      ensures allApps == old(allApps) && calcHistory == old(calcHistory) && conversionHistory == old(conversionHistory)
    {
      outcome := NoAction;
      if viewport == [] {
        return;
      }
      if Strip(text) == [] && selectedIndex == -1 {
        return;
      }
      var row := if selectedIndex != -1 then selectedIndex else 0;
      if 0 <= row < |viewport| && viewport[row].AppSlot? {
        var name := SlotLabel(viewport[row].app);
        var found := FirstNamed(allApps, name);
        if found.Some? {
          CountAndClose(name);
          outcome := Launch(found.value);
        }
      }
    }

    /** A launch: the app's count goes up by one and the launcher closes. */
    method CountAndClose(name: string)
      modifies this
      ensures Valid() && viewport == [] && selectedIndex == -1
      ensures appUsage == old(appUsage)[name := UsageOf(old(appUsage), name) + 1]
      ensures allApps == old(allApps) && calcHistory == old(calcHistory) && conversionHistory == old(conversionHistory)
    {
      appUsage := appUsage[name := UsageOf(appUsage, name) + 1];
      CloseLauncher();
    }

    /**
     * `on_search_entry_activate(text)`: text starting with "=" or ";" goes to the calculator
     * evaluator (`evaluate_calculator_expression`) when no entry is selected; ":w", ":d" and
     * ":p" open a panel, ":reset_usage" forgets the counts, and any other text launches the
     * selected app.
     */
    method OnSearchEntryActivate(text: string) returns (outcome: Activation)
      requires Valid()
      modifies this
      ensures Valid()
      ensures StartsWith(text, "=") || StartsWith(text, ";") ==>
                unchanged(this) && outcome == (if old(selectedIndex) == -1 then Evaluate(text) else NoAction)
      ensures text == ":w" ==> outcome == OpenNotch("wallpapers") && unchanged(this)
      ensures text == ":d" ==> outcome == OpenNotch("dashboard") && unchanged(this)
      ensures text == ":p" ==> outcome == OpenNotch("power") && unchanged(this)
      ensures text == ":reset_usage" ==>
                appUsage == map[] && outcome == NoAction
                && viewport == AppSlots(Arranged(allApps, "", map[])) && selectedIndex == -1
      ensures outcome.Launch? ==>
                appUsage == old(appUsage)[outcome.app.displayName := UsageOf(old(appUsage), outcome.app.displayName) + 1]
                && outcome.app in allApps && viewport == [] && selectedIndex == -1
      ensures outcome.NoAction? && text != ":reset_usage" ==> unchanged(this)
      ensures !outcome.Launch? && text != ":reset_usage" ==> appUsage == old(appUsage)
      ensures allApps == old(allApps) && calcHistory == old(calcHistory) && conversionHistory == old(conversionHistory)
    {
      if StartsWith(text, "=") || StartsWith(text, ";") {
        assert text[0] != ':';
        outcome := if selectedIndex == -1 then Evaluate(text) else NoAction;
        return;
      }
      if text == ":w" {
        outcome := OpenNotch("wallpapers");
      } else if text == ":d" {
        outcome := OpenNotch("dashboard");
      } else if text == ":p" {
        outcome := OpenNotch("power");
      } else if text == ":reset_usage" {
        ResetAppUsage();
        outcome := NoAction;
      } else {
        outcome := LaunchSelected(text);
      }
    }

    /**
     * `delete_selected_calc_history` and `delete_selected_conversion_history`: without a
     * selected entry nothing happens; otherwise that entry is deleted, the history is shown
     * again, and the cursor moves to the neighbouring entry.
     */
    method DeleteSelected(kind: HistoryKind)
      requires Valid()
      modifies this
      ensures Valid()
      ensures !(old(selectedIndex) != -1 && old(selectedIndex) < |old(History(kind))|) ==> unchanged(this)
      ensures old(selectedIndex) != -1 && old(selectedIndex) < |old(History(kind))| ==>
                History(kind) == RemoveAt(old(History(kind)), old(selectedIndex))
                && viewport == HistorySlots(History(kind))
                && selectedIndex == ReselectAfterDelete(old(selectedIndex), |History(kind)|)
      ensures kind == Calc ==> conversionHistory == old(conversionHistory)
      ensures kind == Conversion ==> calcHistory == old(calcHistory)
      ensures allApps == old(allApps) && appUsage == old(appUsage)
    {
      var entries := History(kind);
      if !(selectedIndex != -1 && selectedIndex < |entries|) {
        return;
      }
      var current := selectedIndex;
      entries := RemoveAt(entries, current);
      if kind == Calc {
        calcHistory := entries;
      } else {
        conversionHistory := entries;
      }
      var newIndex := if current == 0 then 0 else current - 1;
      selectedIndex := -1;
      UpdateHistoryViewport(kind);
      if |entries| > 0 {
        UpdateSelection(if newIndex < |entries| - 1 then newIndex else |entries| - 1);
      }
    }

    /**
     * Return in the calculator or conversion mode: with an entry selected, Shift deletes it and
     * a plain Return yields its text to copy; without one, the text is to be evaluated. The
     * selection is cleared either way.
     */
    method HistoryReturn(kind: HistoryKind, shift: bool) returns (copied: Option<string>, evaluate: bool)
      requires Valid()
      modifies this
      ensures Valid() && selectedIndex == -1
      ensures var sel := old(selectedIndex);
        var valid := sel != -1 && sel < |old(History(kind))|;
        (evaluate <==> !valid)
        && (copied.Some? <==> valid && !shift)
        && (copied.Some? ==> copied.value == CopyText(old(History(kind))[sel]))
        && (valid && shift ==> History(kind) == RemoveAt(old(History(kind)), sel))
        && (valid && shift ==>
              (kind == Calc ==> conversionHistory == old(conversionHistory))
              && (kind == Conversion ==> calcHistory == old(calcHistory))
              && viewport == HistorySlots(History(kind)))
        && (!(valid && shift) ==>
              calcHistory == old(calcHistory) && conversionHistory == old(conversionHistory)
              && viewport == old(viewport))
      ensures allApps == old(allApps) && appUsage == old(appUsage)
    {
      copied := None;
      evaluate := false;
      if selectedIndex != -1 && selectedIndex < |History(kind)| {
        if shift {
          DeleteSelected(kind);
        } else {
          copied := Some(CopyText(History(kind)[selectedIndex]));
        }
        selectedIndex := -1;
      } else {
        selectedIndex := -1;
        evaluate := true;
      }
    }
  }
}
