/**
 * Window occlusion checks (Ax-Shell/utils/occlusion.py): a screen edge strip or a rectangle is
 * occluded when a mapped client window on the workspace overlaps it. The hyprctl queries are
 * not run here: what `hyprctl activeworkspace`, `hyprctl -j monitors` and `hyprctl -j clients`
 * print at the moment of the call is a `Snapshot` given to the operations, and `time.time()` is
 * the parameter `now`. The module-level caches of the source are the fields of `QueryCache`.
 */
module Occlusion {
  import opened Wrappers
  import opened Text

  /** `_cache_timeout`: cached answers are reused for five seconds. */
  const CacheTimeout: real := 5.0

  // ---------------------------------------------------------------- rectangles

  /** `(x, y, width, height)`; the rectangle covers x <= px < x + width, y <= py < y + height. */
  datatype Rect = Rect(x: int, y: int, width: int, height: int)

  /** The screen edges an occlusion strip can hug. */
  datatype Side = Top | Bottom | Left | Right

  /** `side.lower()` compared with the four edge names; any other name is no edge. */
  function ParseSide(name: string): (r: Option<Side>)
    ensures r == Some(Bottom) <==> Lower(name) == "bottom"
    ensures r == Some(Top) <==> Lower(name) == "top"
    ensures r == Some(Left) <==> Lower(name) == "left"
    ensures r == Some(Right) <==> Lower(name) == "right"
    ensures r.None? <==> Lower(name) !in ["top", "bottom", "left", "right"]
  {
    var l := Lower(name);
    if l == "bottom" then Some(Bottom)
    else if l == "top" then Some(Top)
    else if l == "left" then Some(Left)
    else if l == "right" then Some(Right)
    else None
  }

  /** The edge names are matched whatever their case. */
  lemma ParseSideIgnoresCase(name: string)
    ensures ParseSide(Lower(name)) == ParseSide(name)
  {
    LowerIdempotent(name);
  }

  /**
   * The strip of thickness `size` along `side` of a `width` x `height` screen: flush with that
   * edge, as long as it and `size` thick across it.
   */
  function SideRect(side: Side, size: int, width: int, height: int): (r: Rect)
    ensures side in {Top, Bottom} ==> r.x == 0 && r.width == width && r.height == size
    ensures side in {Left, Right} ==> r.y == 0 && r.height == height && r.width == size
    ensures side == Top ==> r.y == 0
    ensures side == Bottom ==> r.y + r.height == height
    ensures side == Left ==> r.x == 0
    ensures side == Right ==> r.x + r.width == width
  {
    match side
    case Bottom => Rect(0, height - size, width, size)
    case Top => Rect(0, 0, width, size)
    case Left => Rect(0, 0, size, height)
    case Right => Rect(width - size, 0, size, height)
  }

  /** The screen point `(px, py)` lies in `r`. */
  predicate Covers(r: Rect, px: int, py: int) {
    r.x <= px < r.x + r.width && r.y <= py < r.y + r.height
  }

  /**
   * A strip no thicker than the screen lies on the screen, runs along the whole of its edge and
   * is `size` thick.
   */
  lemma SideRectHugsEdge(side: Side, size: int, width: int, height: int)
    requires 0 <= size && 0 <= width && 0 <= height
    requires side in {Top, Bottom} ==> size <= height
    requires side in {Left, Right} ==> size <= width
    ensures var r := SideRect(side, size, width, height);
      && 0 <= r.x && r.x + r.width <= width && 0 <= r.y && r.y + r.height <= height
      && (side == Top ==> r.y == 0 && r.width == width && r.height == size)
      && (side == Bottom ==> r.y + r.height == height && r.width == width && r.height == size)
      && (side == Left ==> r.x == 0 && r.height == height && r.width == size)
      && (side == Right ==> r.x + r.width == width && r.height == height && r.width == size)
  {
  }

  /**
   * The window test of `check_occlusion`: the rectangles overlap unless one ends at or before
   * the other starts, horizontally or vertically; that is, on both axes each starts before the
   * other ends.
   */
  predicate Overlaps(w: Rect, region: Rect): (r: bool)
    ensures r <==> w.x < region.x + region.width && region.x < w.x + w.width
                   && w.y < region.y + region.height && region.y < w.y + w.height
  {
    !(w.x + w.width <= region.x || w.x >= region.x + region.width
      || w.y + w.height <= region.y || w.y >= region.y + region.height)
  }

  /** Two rectangles of positive area overlap exactly when some point lies in both. */
  lemma OverlapsIffSharedPoint(a: Rect, b: Rect)
    requires a.width > 0 && a.height > 0 && b.width > 0 && b.height > 0
    ensures Overlaps(a, b) <==> exists px, py :: Covers(a, px, py) && Covers(b, px, py)
  {
    if Overlaps(a, b) {
      var px := if a.x < b.x then b.x else a.x;
      var py := if a.y < b.y then b.y else a.y;
      assert Covers(a, px, py) && Covers(b, px, py);
    }
  }

  // ---------------------------------------------------------------- regions

  /**
   * The `occlusion_region` argument: a pair `(side, size)` — `side` is None when it is not a
   * string — a 4-tuple `(x, y, width, height)`, or anything else.
   */
  datatype Region = Pair(side: Option<string>, size: int) | Quad(rect: Rect) | Malformed

  /**
   * The rectangle a region stands for on a `width` x `height` screen; None for a region the
   * source reports as an invalid format (an unknown edge name, a pair whose side is not a
   * string, any other shape).
   */
  function Resolve(region: Region, width: int, height: int): (r: Option<Rect>)
    ensures region.Quad? ==> r == Some(region.rect)
    ensures region.Malformed? || (region.Pair? && region.side.None?) ==> r.None?
    ensures region.Pair? && region.side.Some? ==>
              (r.Some? <==> ParseSide(region.side.value).Some?)
              && (r.Some? ==> r.value == SideRect(ParseSide(region.side.value).value, region.size, width, height))
  {
    match region
    case Quad(rect) => Some(rect)
    case Malformed => None
    case Pair(side, size) =>
      if side.None? then None
      else match ParseSide(side.value)
        case Some(s) => Some(SideRect(s, size, width, height))
        case None => None
  }

  // ---------------------------------------------------------------- clients

  /**
   * An entry of `hyprctl -j clients`: its "mapped" flag (False when absent), its workspace
   * "id" (None when absent), and its "at" and "size" pairs (None when absent or empty).
   */
  datatype Client = Client(mapped: bool, workspace: Option<int>, at: Option<(int, int)>, size: Option<(int, int)>)

  /** The client's window, when it has a position and a size. */
  function WindowOf(c: Client): (r: Option<Rect>)
    ensures r.Some? <==> c.at.Some? && c.size.Some?
  {
    if c.at.Some? && c.size.Some? then Some(Rect(c.at.value.0, c.at.value.1, c.size.value.0, c.size.value.1))
    else None
  }

  /** The client is a mapped window on `workspace` that overlaps `region`. */
  predicate Occludes(c: Client, workspace: int, region: Rect) {
    c.mapped && c.workspace == Some(workspace) && WindowOf(c).Some? && Overlaps(WindowOf(c).value, region)
  }

  /** The loop of `check_occlusion` over the clients: true as soon as one occludes the region. */
  method FindOccluder(clients: seq<Client>, workspace: int, region: Rect) returns (found: bool)
    ensures found <==> exists k :: 0 <= k < |clients| && Occludes(clients[k], workspace, region)
  {
    var k := 0;
    while k < |clients|
      invariant 0 <= k <= |clients|
      invariant forall j :: 0 <= j < k ==> !Occludes(clients[j], workspace, region)
    {
      var c := clients[k];
      if !c.mapped || c.workspace != Some(workspace) || c.at.None? || c.size.None? {
        k := k + 1;
        continue;
      }
      var (x, y) := c.at.value;
      var (w, h) := c.size.value;
      if !(x + w <= region.x || x >= region.x + region.width || y + h <= region.y || y >= region.y + region.height) {
        return true;
      }
      k := k + 1;
    }
    return false;
  }

  /** Unmapped windows and windows on other workspaces never occlude. */
  lemma OnlyMappedOnWorkspace(clients: seq<Client>, workspace: int, region: Rect, c: Client)
    requires !c.mapped || c.workspace != Some(workspace)
    ensures (exists k :: 0 <= k < |clients + [c]| && Occludes((clients + [c])[k], workspace, region))
              <==> (exists k :: 0 <= k < |clients| && Occludes(clients[k], workspace, region))
  {
    var all := clients + [c];
    if exists k :: 0 <= k < |all| && Occludes(all[k], workspace, region) {
      var k :| 0 <= k < |all| && Occludes(all[k], workspace, region);
      assert k < |clients| && all[k] == clients[k];
    }
    if exists k :: 0 <= k < |clients| && Occludes(clients[k], workspace, region) {
      var k :| 0 <= k < |clients| && Occludes(clients[k], workspace, region);
      assert all[k] == clients[k];
    }
  }

  // ---------------------------------------------------------------- hyprctl activeworkspace

  /**
   * `stdout.split()`: the maximal runs of non-whitespace, in order.
   */
  function Words(s: string): (r: seq<string>)
    ensures AllWords(r)
    decreases |s|
  {
    var t := TrimStart(s);
    if t == [] then [] else
    var n := WordLength(t);
    LeadingWord(t);
    ConsWord(t[..n], Words(t[n..]));
    [t[..n]] + Words(t[n..])
  }

  /** Every token is non-empty and holds no whitespace. */
  predicate AllWords(r: seq<string>) {
    forall k :: 0 <= k < |r| ==> r[k] != [] && NoSpace(r[k])
  }

  /** A string that starts with a non-space character starts with a non-empty word. */
  lemma LeadingWord(t: string)
    requires t != [] && !IsSpace(t[0])
    ensures 1 <= WordLength(t) && NoSpace(t[..WordLength(t)])
  {
    var w := t[..WordLength(t)];
    assert forall i :: 0 <= i < |w| ==> w[i] == t[i];
  }

  /** Putting a word in front of words gives words. */
  lemma ConsWord(w: string, rest: seq<string>)
    requires w != [] && NoSpace(w) && AllWords(rest)
    ensures AllWords([w] + rest)
  {
    assert forall k :: 1 <= k < |[w] + rest| ==> ([w] + rest)[k] == rest[k - 1];
  }

  /** A blank output has no tokens. */
  lemma WordsOfBlank(ws: string)
    requires AllSpace(ws)
    ensures Words(ws) == []
  {
    TrimStartSpaces(ws, []);
    assert ws + [] == ws;
  }

  /**
   * Whitespace, a word, then whitespace or nothing: the word is the first token and the
   * tokens of the rest follow.
   */
  lemma WordsCons(a: string, t: string, b: string)
    requires AllSpace(a) && t != [] && NoSpace(t) && (b == [] || IsSpace(b[0]))
    ensures Words(a + (t + b)) == [t] + Words(b)
  {
    TrimStartSpaces(a, t + b);
    assert (t + b)[0] == t[0];
    WordLengthOfWord(t, b);
    assert (t + b)[..|t|] == t && (t + b)[|t|..] == b;
  }

  /** The token after the first "ID" token that has a successor, if any. */
  function TokenAfterId(parts: seq<string>): (r: Option<string>)
    ensures r.Some? ==> exists k :: 0 <= k < |parts| - 1 && parts[k] == "ID" && parts[k + 1] == r.value && "ID" !in parts[..k]
    decreases |parts|
  {
    if |parts| < 2 then None
    else if parts[0] == "ID" then
      assert parts[..0] == [];
      Some(parts[1])
    else
      var r := TokenAfterId(parts[1..]);
      if r.Some? then
        IdFoundLater(parts, r.value);
        r
      else r
  }

  /** An "ID" found after a first token that is not one is an "ID" of the whole list. */
  lemma IdFoundLater(parts: seq<string>, v: string)
    requires parts != [] && parts[0] != "ID"
    requires var t := parts[1..];
      exists k :: 0 <= k < |t| - 1 && t[k] == "ID" && t[k + 1] == v && "ID" !in t[..k]
    ensures exists k :: 0 <= k < |parts| - 1 && parts[k] == "ID" && parts[k + 1] == v && "ID" !in parts[..k]
  {
    var t := parts[1..];
    var k :| 0 <= k < |t| - 1 && t[k] == "ID" && t[k + 1] == v && "ID" !in t[..k];
    assert parts[..k + 1] == [parts[0]] + t[..k];
    assert parts[k + 1] == "ID" && parts[k + 2] == v;
  }

  /** The token after the first "ID" is found, whatever precedes and follows it. */
  lemma {:induction false} TokenAfterFirstId(pre: seq<string>, v: string, post: seq<string>)
    requires "ID" !in pre
    ensures TokenAfterId(pre + ["ID", v] + post) == Some(v)
    decreases |pre|
  {
    if pre != [] {
      assert (pre + ["ID", v] + post)[1..] == pre[1..] + ["ID", v] + post;
      TokenAfterFirstId(pre[1..], v, post);
    }
  }

  /** There is no token after an "ID" exactly when no "ID" is followed by another token. */
  lemma {:induction false} NoTokenAfterId(parts: seq<string>)
    ensures TokenAfterId(parts).None? <==> forall k :: 0 <= k < |parts| - 1 ==> parts[k] != "ID"
    decreases |parts|
  {
    if |parts| >= 2 && parts[0] != "ID" {
      NoTokenAfterId(parts[1..]);
      assert forall k :: 1 <= k < |parts| - 1 ==> parts[k] == parts[1..][k - 1];
    }
  }

  /** The scan of `get_current_workspace` over the tokens of the output. */
  method FindIdToken(parts: seq<string>) returns (r: Option<string>)
    ensures r == TokenAfterId(parts)
  {
    var k := 0;
    while k < |parts|
      invariant 0 <= k <= |parts|
      invariant TokenAfterId(parts) == TokenAfterId(parts[k..])
    {
      if parts[k] == "ID" && k + 1 < |parts| {
        return Some(parts[k + 1]);
      }
      assert parts[k..][1..] == parts[k + 1..];
      k := k + 1;
    }
    return None;
  }

  /**
   * The workspace id `hyprctl activeworkspace` reports: `int()` of the token after "ID"; None
   * when the command failed, no such token exists or it is not a number.
   */
  function ReportedWorkspace(output: Option<string>): (r: Option<int>)
    ensures output.None? ==> r.None?
    ensures r.Some? ==> output.Some? && IdFollowedBy(Words(output.value), r)
  {
    if output.None? then None
    else match TokenAfterId(Words(output.value))
      case None => None
      case Some(token) =>
        ParsedAfterId(Words(output.value), token);
        ParseInt(token)
  }

  /** Some "ID" among `ws` is followed by a token that parses as `v`. */
  predicate IdFollowedBy(ws: seq<string>, v: Option<int>) {
    exists k :: 0 <= k < |ws| - 1 && ws[k] == "ID" && ParseInt(ws[k + 1]) == v
  }

  /** The token found after an "ID" parses as the token at some "ID"'s successor. */
  lemma ParsedAfterId(ws: seq<string>, token: string)
    requires TokenAfterId(ws) == Some(token)
    ensures IdFollowedBy(ws, ParseInt(token))
  {
    var k :| 0 <= k < |ws| - 1 && ws[k] == "ID" && ws[k + 1] == token && "ID" !in ws[..k];
    assert ParseInt(ws[k + 1]) == ParseInt(token);
  }

  /** A printed integer is a single token. */
  lemma PrintedIdIsWord(id: int)
    ensures IntToString(id) != [] && NoSpace(IntToString(id))
  {
    if id < 0 {
      var digits := IntToString(id);
      assert digits == "-" + NatToString(-id);
      assert forall i :: 1 <= i < |digits| ==> digits[i] == NatToString(-id)[i - 1];
    }
  }

  /** A space, a word, a space, a word, then a tail that starts with whitespace. */
  lemma TwoWords(w2: string, w3: string, tail: string)
    requires w2 != [] && NoSpace(w2) && w3 != [] && NoSpace(w3)
    requires tail == [] || IsSpace(tail[0])
    ensures Words(" " + (w2 + (" " + (w3 + tail)))) == [w2] + ([w3] + Words(tail))
  {
    var rest3 := " " + (w3 + tail);
    assert Words(rest3) == [w3] + Words(tail) by {
      WordsCons(" ", w3, tail);
    }
    assert rest3[0] == ' ';
    WordsCons(" ", w2, rest3);
  }

  /** A word in front of a space and the rest: the word, then the rest's tokens. */
  lemma PrependWord(w: string, rest: string, ws: seq<string>)
    requires w != [] && NoSpace(w) && rest != [] && rest[0] == ' '
    requires Words(rest) == ws
    ensures Words(w + rest) == [w] + ws
  {
    assert [] + (w + rest) == w + rest;
    WordsCons([], w, rest);
  }

  /** Three words separated by single spaces, then a tail that starts with whitespace. */
  lemma ThreeWords(w1: string, w2: string, w3: string, tail: string)
    requires w1 != [] && NoSpace(w1) && w2 != [] && NoSpace(w2) && w3 != [] && NoSpace(w3)
    requires tail == [] || IsSpace(tail[0])
    ensures Words(w1 + (" " + (w2 + (" " + (w3 + tail))))) == [w1] + ([w2] + ([w3] + Words(tail)))
  {
    TwoWords(w2, w3, tail);
    PrependWord(w1, " " + (w2 + (" " + (w3 + tail))), [w2] + ([w3] + Words(tail)));
  }

  /** Three elements put in front one at a time, or the first and then a pair. */
  lemma Regroup<T>(x: seq<T>, a: T, b: T, c: T, r: seq<T>)
    requires x == [a] + ([b] + ([c] + r))
    ensures x == [a] + [b, c] + r
  {
  }

  /** `hyprctl activeworkspace` prints "workspace ID <id> (<name>) on monitor ...": its id is read. */
  lemma ReadsActiveWorkspace(id: int, rest: string)
    ensures ReportedWorkspace(Some("workspace ID " + IntToString(id) + " " + rest)) == Some(id)
  {
    var digits := IntToString(id);
    PrintedIdIsWord(id);
    var tail := " " + rest;
    var output := "workspace ID " + digits + " " + rest;
    assert Words(output) == ["workspace"] + ["ID", digits] + Words(tail) by {
      assert output == "workspace" + (" " + ("ID" + (" " + (digits + tail))));
      ThreeWords("workspace", "ID", digits, tail);
      Regroup(Words(output), "workspace", "ID", digits, Words(tail));
    }
    ReportsPrintedId(["workspace"], id, Words(tail), output);
  }

  /** An id printed after "ID" is the id read back. */
  lemma ReportsPrintedId(pre: seq<string>, id: int, post: seq<string>, output: string)
    requires "ID" !in pre
    requires Words(output) == pre + ["ID", IntToString(id)] + post
    ensures ReportedWorkspace(Some(output)) == Some(id)
  {
    TokenAfterFirstId(pre, IntToString(id), post);
    ParseIntToString(id);
  }

  // ---------------------------------------------------------------- hyprctl -j monitors

  /** An entry of `hyprctl -j monitors`: its active workspace's "id" and its "width" and "height". */
  datatype Monitor = Monitor(activeWorkspace: Option<int>, width: Option<int>, height: Option<int>)

  /** The monitor shows `workspace`. */
  predicate Shows(m: Monitor, workspace: int) {
    m.activeWorkspace == Some(workspace)
  }

  /** The first monitor showing `workspace`, or -1. */
  function FirstShowing(monitors: seq<Monitor>, workspace: int): (r: int)
    ensures -1 <= r < |monitors|
    ensures r == -1 <==> forall j :: 0 <= j < |monitors| ==> !Shows(monitors[j], workspace)
    ensures r >= 0 ==> Shows(monitors[r], workspace) && forall j :: 0 <= j < r ==> !Shows(monitors[j], workspace)
    decreases |monitors|
  {
    if monitors == [] then -1
    else if Shows(monitors[0], workspace) then 0
    else
      var r := FirstShowing(monitors[1..], workspace);
      assert forall j :: 1 <= j < |monitors| ==> monitors[j] == monitors[1..][j - 1];
      if r == -1 then -1 else r + 1
  }

  /** The loop of `get_screen_dimensions` over the monitors. */
  method FindMonitor(monitors: seq<Monitor>, workspace: int) returns (k: int)
    ensures k == FirstShowing(monitors, workspace)
  {
    k := 0;
    while k < |monitors|
      invariant 0 <= k <= |monitors|
      invariant forall j :: 0 <= j < k ==> !Shows(monitors[j], workspace)
    {
      if monitors[k].activeWorkspace == Some(workspace) {
        return;
      }
      k := k + 1;
    }
    k := -1;
  }

  /**
   * The monitor whose size is taken: the first showing `workspace`, else the first one; None
   * when there are no monitors.
   */
  function MonitorFor(monitors: seq<Monitor>, workspace: int): (r: Option<nat>)
    ensures r.None? <==> monitors == []
    ensures r.Some? ==> r.value < |monitors|
    ensures (exists j :: 0 <= j < |monitors| && Shows(monitors[j], workspace)) ==>
              r.Some? && Shows(monitors[r.value], workspace)
    ensures r.Some? && r.value > 0 ==> forall j :: 0 <= j < r.value ==> !Shows(monitors[j], workspace)
    ensures monitors != [] && (forall j :: 0 <= j < |monitors| ==> !Shows(monitors[j], workspace)) ==> r == Some(0)
  {
    var k := FirstShowing(monitors, workspace);
    if k >= 0 then Some(k) else if monitors != [] then Some(0) else None
  }

  /** What the three hyprctl queries print at the moment of a call; None where a query fails. */
  datatype Snapshot = Snapshot(activeWorkspace: Option<string>, monitors: Option<seq<Monitor>>, clients: Option<seq<Client>>)

  // ---------------------------------------------------------------- the caches

  /**
   * The module-level caches: the last workspace id fetched and when, the last monitor size
   * fetched and when. `defaultWidth` and `defaultHeight` are `CURRENT_WIDTH` and
   * `CURRENT_HEIGHT` from the configuration.
   */
  class QueryCache {
    var lastWorkspaceCheck: real
    var lastWorkspaceId: int
    var lastMonitorCheck: real
    var monitorCache: Option<(int, int)>
    const defaultWidth: int
    const defaultHeight: int

    constructor(defaultWidth: int, defaultHeight: int)
      ensures lastWorkspaceCheck == 0.0 && lastWorkspaceId == -1
      ensures lastMonitorCheck == 0.0 && monitorCache == None
      ensures this.defaultWidth == defaultWidth && this.defaultHeight == defaultHeight
    {
      lastWorkspaceCheck := 0.0;
      lastWorkspaceId := -1;
      lastMonitorCheck := 0.0;
      monitorCache := None;
      this.defaultWidth := defaultWidth;
      this.defaultHeight := defaultHeight;
    }

    /** The size of monitor `m`, each missing dimension taken from the configuration. */
    function SizeOf(m: Monitor): (int, int)
      reads this
    {
      (m.width.GetOr(defaultWidth), m.height.GetOr(defaultHeight))
    }

    /** The cached workspace id is less than five seconds old at `now`. */
    predicate WorkspaceFresh(now: real)
      reads this
    {
      now - lastWorkspaceCheck < CacheTimeout
    }

    /** The cached monitor size exists and is less than five seconds old at `now`. */
    predicate MonitorFresh(now: real)
      reads this
    {
      now - lastMonitorCheck < CacheTimeout && monitorCache.Some?
    }

    /** The id `get_current_workspace` answers at `now`: the cached one while fresh, else the reported one or -1. */
    function WorkspaceAnswer(now: real, output: Option<string>): int
      reads this
    {
      if WorkspaceFresh(now) then lastWorkspaceId else ReportedWorkspace(output).GetOr(-1)
    }

    /** The size `get_screen_dimensions` answers at `now`: the cached one while fresh, else that of the chosen monitor or the configured one. */
    function DimensionsAnswer(now: real, snap: Snapshot): (int, int)
      reads this
    {
      if MonitorFresh(now) then monitorCache.value
      else if snap.monitors.None? then (defaultWidth, defaultHeight)
      else match MonitorFor(snap.monitors.value, WorkspaceAnswer(now, snap.activeWorkspace))
        case Some(k) => SizeOf(snap.monitors.value[k])
        case None => (defaultWidth, defaultHeight)
    }

    /**
     * `get_current_workspace`: within five seconds of the last fetch the cached id, without
     * asking; otherwise the id the output reports, cached with the time, or -1 with the cache
     * left alone. Asking again at the same moment gives the same answer.
     */
    method CurrentWorkspace(now: real, output: Option<string>) returns (id: int)
      modifies this
      ensures id == old(WorkspaceAnswer(now, output))
      ensures WorkspaceAnswer(now, output) == id
      ensures lastMonitorCheck == old(lastMonitorCheck) && monitorCache == old(monitorCache)
      ensures if old(WorkspaceFresh(now)) || ReportedWorkspace(output).None?
              then lastWorkspaceCheck == old(lastWorkspaceCheck) && lastWorkspaceId == old(lastWorkspaceId)
              else lastWorkspaceCheck == now && lastWorkspaceId == id
    {
      if now - lastWorkspaceCheck < CacheTimeout {
        return lastWorkspaceId;
      }
      if output.None? {
        return -1;
      }
      var token := FindIdToken(Words(output.value));
      if token.None? {
        return -1;
      }
      var parsed := ParseInt(token.value);
      if parsed.None? {
        return -1;
      }
      lastWorkspaceId := parsed.value;
      lastWorkspaceCheck := now;
      return parsed.value;
    }

    /**
     * `get_screen_dimensions`: within five seconds of the last fetch the cached size; otherwise
     * the size of the first monitor showing the current workspace, else of the first monitor,
     * cached with the time, or the configured size, uncached, when the query failed or listed
     * no monitors.
     */
    method ScreenDimensions(now: real, snap: Snapshot) returns (width: int, height: int)
      modifies this
      ensures (width, height) == old(DimensionsAnswer(now, snap))
      ensures old(MonitorFresh(now)) ==> unchanged(this)
      ensures !old(MonitorFresh(now)) ==>
                && WorkspaceAnswer(now, snap.activeWorkspace) == old(WorkspaceAnswer(now, snap.activeWorkspace))
                && (if old(WorkspaceFresh(now)) || ReportedWorkspace(snap.activeWorkspace).None?
                    then lastWorkspaceCheck == old(lastWorkspaceCheck) && lastWorkspaceId == old(lastWorkspaceId)
                    else lastWorkspaceCheck == now && lastWorkspaceId == old(WorkspaceAnswer(now, snap.activeWorkspace)))
                && (if snap.monitors.None? || snap.monitors == Some([])
                    then lastMonitorCheck == old(lastMonitorCheck) && monitorCache == old(monitorCache)
                    else lastMonitorCheck == now && monitorCache == Some((width, height)))
    {
      if now - lastMonitorCheck < CacheTimeout && monitorCache.Some? {
        return monitorCache.value.0, monitorCache.value.1;
      }
      var workspace := CurrentWorkspace(now, snap.activeWorkspace);
      if snap.monitors.None? {
        return defaultWidth, defaultHeight;
      }
      var monitors := snap.monitors.value;
      var k := FindMonitor(monitors, workspace);
      if k >= 0 {
        monitorCache := Some(SizeOf(monitors[k]));
      } else if monitors != [] {
        monitorCache := Some(SizeOf(monitors[0]));
      } else {
        return defaultWidth, defaultHeight;
      }
      lastMonitorCheck := now;
      return monitorCache.value.0, monitorCache.value.1;
    }

    /**
     * `check_occlusion`: the region (an edge strip measured on the current screen, or a
     * rectangle) is occluded when some mapped client on the workspace — the given one, else the
     * current one — overlaps it; an invalid region or a failed client query is not occluded.
     */
    method CheckOcclusion(region: Region, workspace: Option<int>, now: real, snap: Snapshot) returns (occluded: bool)
      modifies this
      ensures var ws := workspace.GetOr(old(WorkspaceAnswer(now, snap.activeWorkspace)));
              var (w, h) := old(DimensionsAnswer(now, snap));
              occluded <==> && snap.clients.Some? && Resolve(region, w, h).Some?
                            && exists k :: 0 <= k < |snap.clients.value| && Occludes(snap.clients.value[k], ws, Resolve(region, w, h).value)
    {
      var ws := WorkspaceOf(workspace, now, snap);
      var rect: Rect;
      match region {
        case Malformed =>
          return false;
        case Quad(r) =>
          rect := r;
        case Pair(side, size) =>
          if side.None? {
            return false;
          }
          var edge := SideRegion(side.value, size, now, snap);
          if edge.None? {
            return false;
          }
          rect := edge.value;
      }
      if snap.clients.None? {
        return false;
      }
      occluded := FindOccluder(snap.clients.value, ws, rect);
    }

    /**
     * The workspace `check_occlusion` looks at: the given one, else `get_current_workspace()`;
     * asking leaves both cached answers as they were.
     */
    method WorkspaceOf(workspace: Option<int>, now: real, snap: Snapshot) returns (ws: int)
      modifies this
      ensures ws == workspace.GetOr(old(WorkspaceAnswer(now, snap.activeWorkspace)))
      ensures WorkspaceAnswer(now, snap.activeWorkspace) == old(WorkspaceAnswer(now, snap.activeWorkspace))
      ensures DimensionsAnswer(now, snap) == old(DimensionsAnswer(now, snap))
    {
      if workspace.Some? {
        ws := workspace.value;
      } else {
        ws := CurrentWorkspace(now, snap.activeWorkspace);
      }
    }

    /** An edge strip measured on the screen `get_screen_dimensions()` reports; None for an unknown edge. */
    method SideRegion(side: string, size: int, now: real, snap: Snapshot) returns (rect: Option<Rect>)
      modifies this
      ensures var (w, h) := old(DimensionsAnswer(now, snap));
              rect == Resolve(Pair(Some(side), size), w, h)
    {
      var w, h := ScreenDimensions(now, snap);
      var edge := ParseSide(side);
      if edge.None? {
        return None;
      }
      return Some(SideRect(edge.value, size, w, h));
    }
  }
}
