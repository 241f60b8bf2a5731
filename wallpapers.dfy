/**
 * The wallpaper picker's paging, keyboard navigation, search and thumbnail arithmetic
 * (Ax-Shell/modules/wallpapers.py). Wallpapers are kept as their paths relative to the
 * wallpaper directory: `os.path.relpath` of a full path is that relative path, and the
 * basename of the full path is the basename of the relative one. The grid shows the page's
 * items in order; the number of grid columns is whatever GTK lays out and is a parameter.
 */
module Wallpapers {
  import opened Wrappers
  import opened Text
  import opened Sorting

  /** `page_size` and `search_page_size`. */
  const PageSize: nat := 9

  /** The extensions `_is_image` accepts, compared on the lower-cased basename. */
  const ImageExtensions: seq<string> := [".png", ".jpg", ".jpeg", ".bmp", ".gif", ".webp"]

  /** The keys of `self.schemes`, in the order of the dropdown. */
  const Schemes: seq<string> := ["scheme-tonal-spot", "scheme-content", "scheme-expressive",
    "scheme-fidelity", "scheme-fruit-salad", "scheme-monochrome", "scheme-neutral", "scheme-rainbow"]

  /** The scheme the dropdown starts on. */
  const DefaultScheme: string := "scheme-content"

  // ---------------------------------------------------------------- page arithmetic

  /** `math.ceil(n / 9)`. */
  function CeilPages(n: nat): nat {
    (n + PageSize - 1) / PageSize
  }

  /** `total_pages`: the pages needed for `n` wallpapers, and one page when there are none. */
  function TotalPages(n: nat): (r: nat)
    ensures r >= 1
  {
    if n > 0 then CeilPages(n) else 1
  }

  /** `search_total_pages`: the pages needed for `n` results, and none when there are none. */
  function SearchTotalPages(n: nat): (r: nat)
    ensures r == 0 <==> n == 0
  {
    if n > 0 then CeilPages(n) else 0
  }

  /** Every page but the last is full, and the last holds at least one item. */
  lemma PageCounts(n: nat)
    ensures n == 0 ==> TotalPages(n) == 1
    ensures n > 0 ==> TotalPages(n) == SearchTotalPages(n)
    ensures n > 0 ==> (SearchTotalPages(n) - 1) * PageSize < n <= SearchTotalPages(n) * PageSize
  {
    if n > 0 {
      var r := CeilPages(n);
      assert r * PageSize <= n + PageSize - 1 < r * PageSize + PageSize;
    }
  }

  /**
   * `xs[start:end]` with `start = page * size` and `end = min(start + size, len(xs))`: the
   * page's items, or none when the page starts past the end.
   */
  function PageOf<T>(xs: seq<T>, page: int): (r: seq<T>)
    ensures |r| <= PageSize
    ensures 0 <= page && page * PageSize < |xs| ==>
              var start := page * PageSize;
              |r| == (if start + PageSize <= |xs| then PageSize else |xs| - start)
              && forall k :: 0 <= k < |r| ==> r[k] == xs[start + k]
    ensures page < 0 || page * PageSize >= |xs| ==> r == []
  {
    if page < 0 || page * PageSize >= |xs| then []
    else
      var start := page * PageSize;
      var end := if start + PageSize <= |xs| then start + PageSize else |xs|;
      xs[start..end]
  }

  /** The first `k` pages, one after the other. */
  function PagesUpTo<T>(xs: seq<T>, k: nat): seq<T> {
    if k == 0 then [] else PagesUpTo(xs, k - 1) + PageOf(xs, k - 1)
  }

  /** The number of items in the first `k` pages. */
  function PrefixEnd(k: nat, n: nat): nat {
    if k * PageSize <= n then k * PageSize else n
  }

  /** The first `k` pages hold exactly the first `k * 9` items. */
  lemma {:induction false} PagesUpToPrefix<T>(xs: seq<T>, k: nat)
    ensures PagesUpTo(xs, k) == xs[..PrefixEnd(k, |xs|)]
  {
    if k > 0 {
      PagesUpToPrefix(xs, k - 1);
      PrefixGrows(xs, k - 1);
    }
  }

  /** One more page extends the prefix by that page. */
  lemma PrefixGrows<T>(xs: seq<T>, k: nat)
    ensures xs[..PrefixEnd(k, |xs|)] + PageOf(xs, k) == xs[..PrefixEnd(k + 1, |xs|)]
  {
    var start := k * PageSize;
    assert (k + 1) * PageSize == start + PageSize;
    if start < |xs| {
      var end := if start + PageSize <= |xs| then start + PageSize else |xs|;
      assert PageOf(xs, k) == xs[start..end];
      assert xs[..start] + xs[start..end] == xs[..end];
    }
  }

  /** Paging loses and repeats nothing: the pages, in order, are the whole list. */
  lemma PagesCoverAll<T>(xs: seq<T>)
    ensures PagesUpTo(xs, TotalPages(|xs|)) == xs
    ensures xs != [] ==> PagesUpTo(xs, SearchTotalPages(|xs|)) == xs
  {
    PageCounts(|xs|);
    PagesUpToPrefix(xs, TotalPages(|xs|));
    assert PrefixEnd(TotalPages(|xs|), |xs|) == |xs|;
    assert xs[..|xs|] == xs;
  }

  // ---------------------------------------------------------------- grid navigation

  datatype Key = Up | Down | Left | Right

  /** What `_get_new_index` returns: an index, or a request to turn the page. */
  datatype Nav = Index(i: int) | PrevPage | NextPage

  /**
   * `_get_new_index(keyval, current, columns, total)`; `canPrev` and `canNext` say whether the
   * active pager (the search pages while searching) has a page before and after this one.
   */
  function GetNewIndex(key: Key, current: int, columns: nat, total: nat, canPrev: bool, canNext: bool): (r: Nav)
    requires columns >= 1 && total >= 1 && -1 <= current < total
    ensures current == -1 ==> r == Index(if key.Down? || key.Right? then 0 else total - 1)
    ensures r.Index? ==> 0 <= r.i < total
    ensures r.PrevPage? <==> current == 0 && key.Left? && canPrev
    ensures r.NextPage? <==> current == total - 1 && key.Right? && canNext
    ensures current >= 0 && key.Up? ==> r == Index(if current >= columns then current - columns else current)
    ensures current >= 0 && key.Down? ==> r == Index(if current + columns < total then current + columns else current)
    ensures current > 0 && key.Left? ==> r == Index(current - 1)
    ensures current == 0 && key.Left? && !canPrev ==> r == Index(0)
    ensures 0 <= current < total - 1 && key.Right? ==> r == Index(current + 1)
    ensures current == total - 1 && key.Right? && !canNext ==> r == Index(current)
  {
    if current == -1 then
      (if key.Down? || key.Right? then Index(0) else Index(total - 1))
    else
      match key
      case Up => Index(if current - columns >= 0 then current - columns else current)
      case Down => Index(if current + columns < total then current + columns else current)
      case Left =>
        if current > 0 then Index(current - 1)
        else if canPrev then PrevPage
        else Index(current)
      case Right =>
        if current < total - 1 then Index(current + 1)
        else if canNext then NextPage
        else Index(current)
  }

  /** A move up that happened is undone by a move down, and a move left by a move right. */
  lemma NavigationReverses(current: nat, columns: nat, total: nat, canPrev: bool, canNext: bool)
    requires columns >= 1 && current < total
    ensures var up := GetNewIndex(Up, current, columns, total, canPrev, canNext).i;
      up != current ==> GetNewIndex(Down, up, columns, total, canPrev, canNext) == Index(current)
    ensures var down := GetNewIndex(Down, current, columns, total, canPrev, canNext).i;
      down != current ==> GetNewIndex(Up, down, columns, total, canPrev, canNext) == Index(current)
    ensures current > 0 ==> GetNewIndex(Right, current - 1, columns, total, canPrev, canNext) == Index(current)
  {
  }

  // ---------------------------------------------------------------- file names

  /**
   * `_is_image(path)`: the lower-cased basename ends with one of the image extensions; as no
   * extension holds a "/", that is the lower-cased path ending with one.
   */
  predicate IsImage(path: string): (r: bool)
    ensures r <==> exists e :: e in ImageExtensions && EndsWith(Lower(path), e)
  {
    ExtensionOfBasename(path);
    exists e :: e in ImageExtensions && EndsWith(Lower(AfterLastSlash(path)), e)
  }

  /** A suffix without "/" ends the basename exactly when it ends the whole path. */
  lemma EndsBasename(s: string, e: string)
    requires '/' !in e
    ensures EndsWith(AfterLastSlash(s), e) <==> EndsWith(s, e)
  {
    var t := AfterLastSlash(s);
    if |e| <= |t| {
      assert t[|t| - |e|..] == s[|s| - |e|..];
    } else if EndsWith(s, e) {
      assert false;
    }
  }

  /** Over a list of suffixes without "/", the basename test and the whole-path test agree. */
  lemma AnyEndsBasename(s: string, suffixes: seq<string>)
    requires forall e :: e in suffixes ==> '/' !in e
    ensures (exists e :: e in suffixes && EndsWith(AfterLastSlash(s), e))
        <==> (exists e :: e in suffixes && EndsWith(s, e))
  {
    forall e | e in suffixes
      ensures EndsWith(AfterLastSlash(s), e) <==> EndsWith(s, e)
    {
      EndsBasename(s, e);
    }
  }

  lemma ExtensionOfBasename(path: string)
    ensures (exists e :: e in ImageExtensions && EndsWith(Lower(AfterLastSlash(path)), e))
        <==> (exists e :: e in ImageExtensions && EndsWith(Lower(path), e))
  {
    AfterLastSlashLower(path);
    ExtensionsHaveNoSlash();
    AnyEndsBasename(Lower(path), ImageExtensions);
  }

  lemma ExtensionsHaveNoSlash()
    ensures forall e :: e in ImageExtensions ==> '/' !in e
  {
  }

  /** Lower-casing keeps "/" and makes no other character one. */
  lemma AfterLastSlashLower(s: string)
    ensures AfterLastSlash(Lower(s)) == Lower(AfterLastSlash(s))
  {
    var r := AfterLastSlash(s);
    var t := Lower(r);
    var ls := Lower(s);
    assert t == ls[|ls| - |t|..];
    assert '/' !in t by {
      forall k | 0 <= k < |t| ensures t[k] != '/' {
        assert r[k] != '/';
      }
    }
    AfterLastSlashUnique(ls, t);
  }

  /** The test looks only at the file's own name, and ignores the case of its letters. */
  lemma IsImageOfName(dir: string, name: string)
    requires '/' !in name
    ensures IsImage(dir + "/" + name) == IsImage(name)
    ensures IsImage(Lower(name)) == IsImage(name)
  {
    var p := dir + "/" + name;
    AfterLastSlashUnique(p, name);
    AfterLastSlashUnique(name, name);
    AfterLastSlashLower(name);
    LowerIdempotent(name);
  }

  // ---------------------------------------------------------------- sorted collections

  /** The sort key of both file lists: the lower-cased basename. */
  function BaseKey(path: string): string {
    Lower(AfterLastSlash(path))
  }

  /** `str` order on keys, ascending. */
  predicate KeyBefore(a: string, b: string) {
    StrLess(a, b)
  }

  lemma KeyOrderIsStrict()
    ensures StrictOrder(KeyBefore)
  {
    forall a ensures !KeyBefore(a, a) {
      StrLessIrreflexive(a);
    }
    forall a, b, c | KeyBefore(a, b) && KeyBefore(b, c) ensures KeyBefore(a, c) {
      StrLessTransitive(a, b, c);
    }
  }

  /** The paths that `keep` accepts, in their original order. */
  function Filter(paths: seq<string>, keep: string -> bool): (r: seq<string>)
    ensures |r| <= |paths|
    ensures forall x :: x in r ==> x in paths && keep(x)
    ensures forall x :: x in paths && keep(x) ==> x in r
  {
    if paths == [] then []
    else
      var init := paths[..|paths| - 1];
      var last := paths[|paths| - 1];
      assert paths == init + [last];
      Filter(init, keep) + (if keep(last) then [last] else [])
  }

  /**
   * The accumulate-and-sort loop of `_get_files_recursive` and `_perform_fuzzy_search`: the
   * accepted paths, sorted stably by lower-cased basename.
   */
  method CollectSorted(paths: seq<string>, keep: string -> bool) returns (r: seq<string>)
    ensures r == Sort(Filter(paths, keep), BaseKey, KeyBefore)
  {
    var matching: seq<string> := [];
    var i := 0;
    while i < |paths|
      invariant 0 <= i <= |paths|
      invariant matching == Filter(paths[..i], keep)
    {
      assert paths[..i + 1][..i] == paths[..i];
      if keep(paths[i]) {
        matching := matching + [paths[i]];
      }
      i := i + 1;
    }
    assert paths[..i] == paths;
    r := Sort(matching, BaseKey, KeyBefore);
  }

  /** Sorting by basename keeps exactly the accepted paths and orders them. */
  lemma CollectedPaths(paths: seq<string>, keep: string -> bool, x: string)
    ensures x in Sort(Filter(paths, keep), BaseKey, KeyBefore) <==> x in paths && keep(x)
    ensures SortedBy(Sort(Filter(paths, keep), BaseKey, KeyBefore), BaseKey, KeyBefore)
  {
    SortSameElements(Filter(paths, keep), BaseKey, KeyBefore, x);
    KeyOrderIsStrict();
    SortSorted(Filter(paths, keep), BaseKey, KeyBefore);
  }

  /** `_get_files_recursive` over the walked paths: the images, sorted by basename. */
  method FilesOf(walked: seq<string>) returns (files: seq<string>)
    ensures files == Sort(Filter(walked, IsImage), BaseKey, KeyBefore)
  {
    files := CollectSorted(walked, IsImage);
  }

  /** The query as `_perform_fuzzy_search` compares it: case-folded, then stripped. */
  function SearchQuery(query: string): string {
    Strip(Lower(query))
  }

  function MatchesQuery(q: string): string -> bool {
    (path: string) => Contains(Lower(path), q)
  }

  /** What `_perform_fuzzy_search` returns. */
  function SearchResults(files: seq<string>, query: string): seq<string> {
    var q := SearchQuery(query);
    if q == [] then [] else Sort(Filter(files, MatchesQuery(q)), BaseKey, KeyBefore)
  }

  /** `_perform_fuzzy_search(query)` over `files`. */
  method PerformFuzzySearch(files: seq<string>, query: string) returns (matching: seq<string>)
    ensures matching == SearchResults(files, query)
  {
    var q := Strip(Lower(query));
    if q == [] {
      return [];
    }
    matching := CollectSorted(files, MatchesQuery(q));
  }

  /**
   * A blank query finds nothing; otherwise the results are exactly the wallpapers whose
   * case-folded path contains the case-folded query, sorted by lower-cased basename.
   */
  lemma SearchResultsAre(files: seq<string>, query: string, x: string)
    ensures SearchQuery(query) == [] ==> SearchResults(files, query) == []
    ensures SearchQuery(query) != [] ==>
              (x in SearchResults(files, query) <==> x in files && Contains(Lower(x), SearchQuery(query)))
    ensures SortedBy(SearchResults(files, query), BaseKey, KeyBefore)
  {
    var q := SearchQuery(query);
    if q != [] {
      CollectedPaths(files, MatchesQuery(q), x);
    }
  }

  // ---------------------------------------------------------------- thumbnails and schemes

  /** The crop box `(left, top, right, bottom)` of `_process_file_for_thumb`. */
  datatype Box = Box(left: int, top: int, right: int, bottom: int)

  /** The centred square crop of a `width` x `height` image. */
  function Crop(width: nat, height: nat): (b: Box)
    ensures b.right - b.left == b.bottom - b.top == (if width <= height then width else height)
    ensures 0 <= b.left && b.right <= width && 0 <= b.top && b.bottom <= height
    ensures b.left <= width - b.right <= b.left + 1
    ensures b.top <= height - b.bottom <= b.top + 1
  {
    var side := if width <= height then width else height;
    var left := (width - side) / 2;
    var top := (height - side) / 2;
    Box(left, top, left + side, top + side)
  }

  /** The position of `id` among the schemes, or the first scheme's when it is not one. */
  function SchemeIndex(id: string): (r: nat)
    ensures r < |Schemes|
    ensures id in Schemes ==> Schemes[r] == id
    ensures id !in Schemes ==> r == 0
  {
    if id == Schemes[0] then 0
    else if id == Schemes[1] then 1
    else if id == Schemes[2] then 2
    else if id == Schemes[3] then 3
    else if id == Schemes[4] then 4
    else if id == Schemes[5] then 5
    else if id == Schemes[6] then 6
    else if id == Schemes[7] then 7
    else 0
  }

  /** Shift+Up and Shift+Down: the previous or next scheme, wrapping around. */
  function CycleScheme(id: string, up: bool): (r: nat)
    ensures r < |Schemes|
    ensures up ==> r == (if SchemeIndex(id) == 0 then |Schemes| - 1 else SchemeIndex(id) - 1)
    ensures !up ==> r == (if SchemeIndex(id) == |Schemes| - 1 then 0 else SchemeIndex(id) + 1)
  {
    var i := SchemeIndex(id);
    WrapAround(i);
    if up then (i - 1) % |Schemes| else (i + 1) % |Schemes|
  }

  /** Shift+Up undoes Shift+Down and the other way round. */
  lemma CycleSchemeReverses(id: string)
    requires id in Schemes
    ensures Schemes[CycleScheme(Schemes[CycleScheme(id, false)], true)] == id
    ensures Schemes[CycleScheme(Schemes[CycleScheme(id, true)], false)] == id
  {
    var i := SchemeIndex(id);
    WrapAround(i);
    var down := if i == 7 then 0 else i + 1;
    var up := if i == 0 then 7 else i - 1;
    SchemeIndexOf(down);
    SchemeIndexOf(up);
    WrapAround(down);
    WrapAround(up);
  }

  /** Python's `%` by the eight schemes, one step either way. */
  lemma WrapAround(i: nat)
    requires i < 8
    ensures (i + 1) % 8 == (if i == 7 then 0 else i + 1)
    ensures (i - 1) % 8 == (if i == 0 then 7 else i - 1)
  {
    if i == 0 {
    } else if i == 7 {
    }
  }

  /** The schemes are distinct, so a scheme's position is recovered from its id. */
  lemma SchemeIndexOf(i: nat)
    requires i < |Schemes|
    ensures SchemeIndex(Schemes[i]) == i
  {
  }

  // ---------------------------------------------------------------- the picker

  /** The wallpapers of a batch whose thumbnails were made, in order. */
  function Made(results: seq<Option<string>>): (r: seq<string>)
    ensures |r| <= |results|
    ensures forall x :: x in r <==> Some(x) in results
  {
    if results == [] then []
    else (if results[0].Some? then [results[0].value] else []) + Made(results[1..])
  }

  /**
   * The thumbnails of a batch as the worker pool returns them: None for a wallpaper in
   * `unreadable`, whose thumbnail cannot be made.
   */
  function Attempt(batch: seq<string>, unreadable: set<string>): (r: seq<Option<string>>)
    ensures |r| == |batch|
    ensures forall k :: 0 <= k < |batch| ==> r[k] == if batch[k] in unreadable then None else Some(batch[k])
  {
    if batch == [] then []
    else [if batch[0] in unreadable then None else Some(batch[0])] + Attempt(batch[1..], unreadable)
  }

  /**
   * The grid receives exactly the wallpapers of the batch whose thumbnails were made; when every
   * thumbnail is made, the whole batch in order.
   */
  lemma {:induction false} ThumbnailsShown(batch: seq<string>, unreadable: set<string>)
    ensures forall x :: x in Made(Attempt(batch, unreadable)) <==> x in batch && x !in unreadable
    ensures (forall k :: 0 <= k < |batch| ==> batch[k] !in unreadable) ==> Made(Attempt(batch, unreadable)) == batch
  {
    var r := Attempt(batch, unreadable);
    forall x
      ensures x in Made(r) <==> x in batch && x !in unreadable
    {
      if x in batch && x !in unreadable {
        var k :| 0 <= k < |batch| && batch[k] == x;
        assert r[k] == Some(x);
      }
    }
    if batch != [] {
      assert r[1..] == Attempt(batch[1..], unreadable);
      ThumbnailsShown(batch[1..], unreadable);
    }
  }

  class WallpaperSelector {
    var files: seq<string>
    var totalPages: nat
    var currentPage: int
    var isSearching: bool
    var searchFiles: seq<string>
    var searchTotalPages: nat
    var searchCurrentPage: int
    /** `last_query`, once a query has been arranged. */
    var lastQuery: Option<string>
    /** The query of the debounce timer `search_timeout_id`, while it is pending. */
    var pendingSearch: Option<string>
    /** The wallpapers of the grid, in order. */
    var shown: seq<string>
    var selectedIndex: int
    /** The active id of the scheme dropdown. */
    var scheme: string
    /** The wallpapers whose thumbnails cannot be made (the image library fails on them). */
    const unreadable: set<string>

    /** The wallpapers of `batch` that reach the grid, in order. */
    function Thumbnails(batch: seq<string>): seq<string> {
      Made(Attempt(batch, unreadable))
    }

    ghost predicate Valid()
      reads this
    {
      totalPages == TotalPages(|files|)
      && searchTotalPages == SearchTotalPages(|searchFiles|)
      && -1 <= selectedIndex < |shown|
    }

    /** The construction of the picker over the walked wallpaper directory; the first page is loaded. */
    constructor(walked: seq<string>, unreadable: set<string>)
      ensures Valid()
      ensures this.unreadable == unreadable
      ensures files == Sort(Filter(walked, IsImage), BaseKey, KeyBefore)
      ensures totalPages == TotalPages(|files|) && currentPage == 0
      ensures !isSearching && searchFiles == [] && searchTotalPages == 0 && searchCurrentPage == 0
      ensures lastQuery == None && pendingSearch == None
      ensures shown == Thumbnails(PageOf(files, 0)) && selectedIndex == (if shown == [] then -1 else 0)
      ensures scheme == DefaultScheme
    {
      this.unreadable := unreadable;
      var fs := FilesOf(walked);
      files := fs;
      totalPages := TotalPages(|fs|);
      currentPage := 0;
      isSearching := false;
      searchFiles := [];
      searchTotalPages := 0;
      searchCurrentPage := 0;
      lastQuery := None;
      pendingSearch := None;
      shown := [];
      selectedIndex := -1;
      scheme := DefaultScheme;
      new;
      LoadPage(0);
    }

    /**
     * `_add_batch_thumbnails(results)`: the wallpapers whose thumbnails were made are appended
     * to the grid, and the first item is selected when the grid has items and none is selected.
     */
    method AddBatchThumbnails(results: seq<Option<string>>)
      requires Valid()
      modifies this
      ensures Valid()
      ensures shown == old(shown) + Made(results)
      ensures selectedIndex == (if shown != [] && old(selectedIndex) == -1 then 0 else old(selectedIndex))
      ensures files == old(files) && totalPages == old(totalPages) && currentPage == old(currentPage)
      ensures isSearching == old(isSearching) && searchFiles == old(searchFiles)
      ensures searchTotalPages == old(searchTotalPages) && searchCurrentPage == old(searchCurrentPage)
      ensures lastQuery == old(lastQuery) && scheme == old(scheme) && pendingSearch == old(pendingSearch)
    {
      shown := shown + Made(results);
      if |shown| > 0 && selectedIndex == -1 {
        selectedIndex := 0;
      }
    }

    /** A page load: the grid is emptied and refilled with the thumbnails of `batch` that were made. */
    method ShowBatch(batch: seq<string>)
      requires Valid()
      modifies this
      ensures Valid()
      ensures shown == Thumbnails(batch) && selectedIndex == (if shown == [] then -1 else 0)
      ensures files == old(files) && totalPages == old(totalPages) && currentPage == old(currentPage)
      ensures isSearching == old(isSearching) && searchFiles == old(searchFiles)
      ensures searchTotalPages == old(searchTotalPages) && searchCurrentPage == old(searchCurrentPage)
      ensures lastQuery == old(lastQuery) && scheme == old(scheme) && pendingSearch == old(pendingSearch)
    {
      shown := [];
      selectedIndex := -1;
      AddBatchThumbnails(Attempt(batch, unreadable));
    }

    /**
     * `_load_page(page)`: a page outside the pager is refused unless there are no wallpapers;
     * otherwise the page becomes current and the grid shows its slice.
     */
    method LoadPage(page: int)
      requires Valid()
      modifies this
      ensures Valid()
      ensures !(0 <= page < totalPages) && files != [] ==> unchanged(this)
      ensures (0 <= page < totalPages) || files == [] ==>
                currentPage == page && shown == Thumbnails(PageOf(files, page))
                && selectedIndex == (if shown == [] then -1 else 0)
      ensures files == old(files) && isSearching == old(isSearching) && searchFiles == old(searchFiles)
      ensures searchCurrentPage == old(searchCurrentPage) && lastQuery == old(lastQuery) && scheme == old(scheme)
      ensures pendingSearch == old(pendingSearch)
    {
      if !(0 <= page < totalPages) && files != [] {
        return;
      }
      currentPage := page;
      ShowBatch(PageOf(files, page));
    }

    /** `_load_search_page(page)`: only a page of a non-empty result list is loaded. */
    method LoadSearchPage(page: int)
      requires Valid()
      modifies this
      ensures Valid()
      ensures !(0 <= page < searchTotalPages) || searchFiles == [] ==> unchanged(this)
      ensures 0 <= page < searchTotalPages && searchFiles != [] ==>
                searchCurrentPage == page && shown == Thumbnails(PageOf(searchFiles, page))
                && selectedIndex == (if shown == [] then -1 else 0)
      ensures files == old(files) && currentPage == old(currentPage) && isSearching == old(isSearching)
      ensures searchFiles == old(searchFiles) && lastQuery == old(lastQuery) && scheme == old(scheme)
      ensures pendingSearch == old(pendingSearch)
    {
      if !(0 <= page < searchTotalPages) || searchFiles == [] {
        return;
      }
      searchCurrentPage := page;
      ShowBatch(PageOf(searchFiles, page));
    }

    /** Whether the active pager has a page before the current one. */
    predicate CanPrev()
      reads this
    {
      if isSearching then searchCurrentPage > 0 else currentPage > 0
    }

    /** Whether the active pager has a page after the current one. */
    predicate CanNext()
      reads this
    {
      if isSearching then searchCurrentPage < searchTotalPages - 1 else currentPage < totalPages - 1
    }

    /** The slice of the active pager's current page. */
    function ActivePage(): seq<string>
      reads this
    {
      if isSearching then PageOf(searchFiles, searchCurrentPage) else PageOf(files, currentPage)
    }

    /** Whether the page loader accepts the active pager's current page. */
    predicate CanLoadActivePage()
      reads this
    {
      if isSearching then 0 <= searchCurrentPage < searchTotalPages && searchFiles != []
      else 0 <= currentPage < totalPages || files == []
    }

    /**
     * The grid after the active page was (re)loaded: its thumbnails are shown, the first one
     * selected; a page the loader rejects leaves the grid as it was.
     */
    twostate predicate ReloadedActivePage()
      reads this
    {
      if CanLoadActivePage() then shown == Thumbnails(ActivePage()) && selectedIndex == (if shown == [] then -1 else 0)
      else shown == old(shown) && selectedIndex == old(selectedIndex)
    }

    /** `on_prev_clicked`: the active pager moves back one page if it can. */
    method OnPrevClicked()
      requires Valid()
      modifies this
      ensures Valid()
      ensures !old(CanPrev()) ==> unchanged(this)
      ensures old(CanPrev()) && isSearching ==> searchCurrentPage == old(searchCurrentPage) - 1 && currentPage == old(currentPage)
      ensures old(CanPrev()) && !isSearching ==> currentPage == old(currentPage) - 1 && searchCurrentPage == old(searchCurrentPage)
      ensures old(CanPrev()) ==> ReloadedActivePage()
      ensures isSearching == old(isSearching) && files == old(files) && searchFiles == old(searchFiles)
      ensures scheme == old(scheme) && lastQuery == old(lastQuery) && pendingSearch == old(pendingSearch)
    {
      if isSearching {
        if searchCurrentPage > 0 {
          searchCurrentPage := searchCurrentPage - 1;
          LoadSearchPage(searchCurrentPage);
        }
      } else {
        if currentPage > 0 {
          currentPage := currentPage - 1;
          LoadPage(currentPage);
        }
      }
    }

    /** `on_next_clicked`: the active pager moves on one page if it can. */
    method OnNextClicked()
      requires Valid()
      modifies this
      ensures Valid()
      ensures !old(CanNext()) ==> unchanged(this)
      ensures old(CanNext()) && isSearching ==> searchCurrentPage == old(searchCurrentPage) + 1 && currentPage == old(currentPage)
      ensures old(CanNext()) && !isSearching ==> currentPage == old(currentPage) + 1 && searchCurrentPage == old(searchCurrentPage)
      ensures old(CanNext()) ==> ReloadedActivePage()
      ensures isSearching == old(isSearching) && files == old(files) && searchFiles == old(searchFiles)
      ensures scheme == old(scheme) && lastQuery == old(lastQuery) && pendingSearch == old(pendingSearch)
    {
      if isSearching {
        if searchCurrentPage < searchTotalPages - 1 {
          searchCurrentPage := searchCurrentPage + 1;
          LoadSearchPage(searchCurrentPage);
        }
      } else {
        if currentPage < totalPages - 1 {
          currentPage := currentPage + 1;
          LoadPage(currentPage);
        }
      }
    }

    /** A pager that starts on one of its pages stays on one of its pages. */
    ghost predicate PagesInRange()
      reads this
    {
      0 <= currentPage < totalPages
      && (searchTotalPages == 0 || 0 <= searchCurrentPage < searchTotalPages)
    }

    /**
     * `move_selection_2d(key)` with `columns` grid columns: nothing happens on an empty grid;
     * a page request turns the page; an index in the grid becomes the selection.
     */
    method MoveSelection2d(key: Key, columns: nat)
      requires Valid() && columns >= 1
      modifies this
      ensures Valid()
      ensures old(shown) == [] ==> unchanged(this)
      ensures old(shown) != [] && old(GetNewIndex(key, selectedIndex, columns, |shown|, CanPrev(), CanNext())).Index? ==>
                selectedIndex == old(GetNewIndex(key, selectedIndex, columns, |shown|, CanPrev(), CanNext())).i
                && shown == old(shown) && currentPage == old(currentPage) && searchCurrentPage == old(searchCurrentPage)
      ensures old(shown) != [] && old(GetNewIndex(key, selectedIndex, columns, |shown|, CanPrev(), CanNext())).PrevPage? ==>
                if isSearching then searchCurrentPage == old(searchCurrentPage) - 1 && currentPage == old(currentPage)
                else currentPage == old(currentPage) - 1 && searchCurrentPage == old(searchCurrentPage)
      ensures old(shown) != [] && old(GetNewIndex(key, selectedIndex, columns, |shown|, CanPrev(), CanNext())).NextPage? ==>
                if isSearching then searchCurrentPage == old(searchCurrentPage) + 1 && currentPage == old(currentPage)
                else currentPage == old(currentPage) + 1 && searchCurrentPage == old(searchCurrentPage)
      ensures old(shown) != [] && !old(GetNewIndex(key, selectedIndex, columns, |shown|, CanPrev(), CanNext())).Index? ==>
                ReloadedActivePage()
      ensures old(PagesInRange()) ==> PagesInRange()
      ensures isSearching == old(isSearching) && files == old(files) && searchFiles == old(searchFiles)
      ensures scheme == old(scheme) && lastQuery == old(lastQuery) && pendingSearch == old(pendingSearch)
    {
      var total := |shown|;
      if total == 0 {
        return;
      }
      var newIndex := GetNewIndex(key, selectedIndex, columns, total, CanPrev(), CanNext());
      match newIndex
      case PrevPage =>
        OnPrevClicked();
      case NextPage =>
        OnNextClicked();
      case Index(i) =>
        // The source's second branch (nothing selected, index in the grid) is covered by
        // the first, since an index in the grid differs from -1.
        if 0 <= i < total && i != selectedIndex {
          selectedIndex := i;
        }
    }

    /**
     * `_update_search_results` with the search's result list: the pager is reset to the
     * results, and their first page is loaded unless there are none.
     */
    method UpdateSearchResults(results: seq<string>)
      requires Valid()
      modifies this
      ensures Valid()
      ensures searchFiles == results && searchTotalPages == SearchTotalPages(|results|)
      ensures results == [] ==> shown == [] && selectedIndex == -1 && searchCurrentPage == old(searchCurrentPage)
      ensures results != [] ==> searchCurrentPage == 0 && shown == Thumbnails(PageOf(results, 0))
                                && selectedIndex == (if shown == [] then -1 else 0)
      ensures files == old(files) && currentPage == old(currentPage) && isSearching == old(isSearching)
      ensures lastQuery == old(lastQuery) && pendingSearch == old(pendingSearch) && scheme == old(scheme)
    {
      shown := [];
      selectedIndex := -1;
      searchFiles := results;
      searchTotalPages := SearchTotalPages(|results|);
      if searchTotalPages == 0 {
        selectedIndex := -1;
      } else {
        LoadSearchPage(0);
      }
    }

    /**
     * `arrange_viewport(query)`: a repeated query is ignored; otherwise any pending search is
     * cancelled, and a blank query leaves search and reloads the current page while any other
     * enters search and schedules the search for that query.
     */
    method ArrangeViewport(query: string)
      requires Valid()
      modifies this
      ensures Valid()
      ensures old(lastQuery) == Some(Strip(query)) ==> unchanged(this)
      ensures old(lastQuery) != Some(Strip(query)) ==> lastQuery == Some(Strip(query))
      ensures old(lastQuery) != Some(Strip(query)) && Strip(query) == [] ==>
                !isSearching && pendingSearch == None
                && if 0 <= old(currentPage) < totalPages || files == [] then
                     shown == Thumbnails(PageOf(files, old(currentPage))) && selectedIndex == (if shown == [] then -1 else 0)
                   else shown == old(shown) && selectedIndex == old(selectedIndex)
      ensures old(lastQuery) != Some(Strip(query)) && Strip(query) != [] ==>
                isSearching && pendingSearch == Some(Strip(query)) && shown == old(shown)
                && selectedIndex == old(selectedIndex)
      ensures files == old(files) && searchFiles == old(searchFiles) && currentPage == old(currentPage)
      ensures searchCurrentPage == old(searchCurrentPage) && scheme == old(scheme)
    {
      var q := Strip(query);
      if lastQuery == Some(q) {
        return;
      }
      lastQuery := Some(q);
      pendingSearch := None;
      if q == [] {
        if isSearching {
          isSearching := false;
        }
        LoadPage(currentPage);
        return;
      }
      isSearching := true;
      pendingSearch := Some(q);
    }

    /**
     * `_start_threaded_search`: the debounce timer has fired and hands its query to the
     * search worker, whose results come back through `UpdateSearchResults`.
     */
    method StartThreadedSearch() returns (query: Option<string>)
      modifies this
      ensures query == old(pendingSearch) && pendingSearch == None
      ensures files == old(files) && shown == old(shown) && selectedIndex == old(selectedIndex)
      ensures isSearching == old(isSearching) && searchFiles == old(searchFiles) && lastQuery == old(lastQuery)
      ensures totalPages == old(totalPages) && searchTotalPages == old(searchTotalPages)
      ensures currentPage == old(currentPage) && searchCurrentPage == old(searchCurrentPage) && scheme == old(scheme)
    {
      query := pendingSearch;
      pendingSearch := None;
    }

    /**
     * `refresh_wallpaper_list` after a change in the wallpaper directory: the list is rebuilt
     * from the walked paths, the pager returns to its first page, and the search entry's text
     * is arranged again.
     */
    method RefreshWallpaperList(walked: seq<string>, searchText: string)
      requires Valid()
      modifies this
      ensures Valid()
      ensures files == Sort(Filter(walked, IsImage), BaseKey, KeyBefore)
      ensures totalPages == TotalPages(|files|) && currentPage == 0
      ensures SearchArranged(old(lastQuery), old(isSearching), old(pendingSearch), searchText)
      ensures shown == Thumbnails(PageOf(files, 0)) && selectedIndex == (if shown == [] then -1 else 0)
      ensures searchFiles == old(searchFiles) && searchCurrentPage == old(searchCurrentPage) && scheme == old(scheme)
    {
      var listing := FilesOf(walked);
      ReplaceFiles(listing, searchText);
    }

    /**
     * The search state after `arrange_viewport(text)` from the state `lastQuery0`,
     * `isSearching0`, `pendingSearch0`: a repeated query keeps it; a blank one leaves search
     * with nothing pending; any other enters search with the query pending.
     */
    predicate SearchArranged(lastQuery0: Option<string>, isSearching0: bool, pendingSearch0: Option<string>, text: string)
      reads this
    {
      var q := Strip(text);
      lastQuery == Some(q)
      && if lastQuery0 == Some(q) then isSearching == isSearching0 && pendingSearch == pendingSearch0
         else isSearching == (q != []) && pendingSearch == (if q == [] then None else Some(q))
    }

    /**
     * The body of the refresh, once the new list is known: the first page of the new list is
     * loaded, and the search entry's text arranged; neither arrangement changes the grid, since
     * the first page always loads and a blank text reloads that same page.
     */
    method ReplaceFiles(listing: seq<string>, searchText: string)
      requires Valid()
      modifies this
      ensures Valid()
      ensures files == listing && totalPages == TotalPages(|listing|) && currentPage == 0
      ensures SearchArranged(old(lastQuery), old(isSearching), old(pendingSearch), searchText)
      ensures shown == Thumbnails(PageOf(listing, 0)) && selectedIndex == (if shown == [] then -1 else 0)
      ensures searchFiles == old(searchFiles) && searchCurrentPage == old(searchCurrentPage) && scheme == old(scheme)
    {
      files := listing;
      totalPages := TotalPages(|listing|);
      currentPage := 0;
      LoadPage(0);
      ArrangeViewport(searchText);
    }

    /** Shift+Up / Shift+Down in the search entry: the dropdown moves to the neighbouring scheme. */
    method CycleSchemeKey(up: bool)
      modifies this
      ensures scheme == Schemes[CycleScheme(old(scheme), up)]
      ensures scheme in Schemes
      ensures files == old(files) && shown == old(shown) && selectedIndex == old(selectedIndex)
      ensures currentPage == old(currentPage) && searchCurrentPage == old(searchCurrentPage)
      ensures totalPages == old(totalPages) && searchTotalPages == old(searchTotalPages)
      ensures isSearching == old(isSearching) && searchFiles == old(searchFiles) && lastQuery == old(lastQuery)
      ensures pendingSearch == old(pendingSearch)
    {
      scheme := Schemes[CycleScheme(scheme, up)];
    }
  }
}
