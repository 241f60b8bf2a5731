/**
 * One notification popup record, `NotificationBox` (Ax-Shell/modules/notifications.py), with the
 * two pieces of environment it acts on: the directory of cached notification images and the
 * GLib main loop's table of pending timeouts. The pixbuf itself and the widgets are not
 * modelled; whether the image could be saved and the box's uuid4 are parameters.
 */
module NotifBox {
  import opened Wrappers
  import opened Text

  /** The fields of fabric's `Notification` the shell reads. */
  datatype Notification = Notification(
    id: int,
    appName: string,
    appIcon: string,
    summary: string,
    body: string,
    urgency: int,
    timeout: int,     // expire timeout in ms; -1 means "server default"
    hasImage: bool)

  /**
   * A notification with an expire time set is kept out of the history (`timeout > 0`): neither
   * the server default (-1) nor "never expires" (0) keeps one out.
   */
  predicate SkipsHistory(n: Notification): (r: bool)
    ensures r ==> n.timeout != -1 && n.timeout != 0
  {
    n.timeout > 0
  }

  // ---------------------------------------------------------------- cached image names

  const CachePrefix := "notification_"
  const CacheSuffix := ".png"

  /** The name of the cached image of the box with uuid `uuid`: one the orphan sweep selects. */
  function CacheFileName(uuid: string): (r: string)
    ensures IsCacheFileName(r)
    ensures |r| == |CachePrefix| + |uuid| + |CacheSuffix|
  {
    var r := CachePrefix + uuid + CacheSuffix;
    assert r[..|CachePrefix|] == CachePrefix;
    assert r[|r| - |CacheSuffix|..] == CacheSuffix;
    r
  }

  /**
   * The filter of the orphan sweep: `f.startswith("notification_") and f.endswith(".png")`. The
   * prefix and the suffix of a selected name never overlap.
   */
  predicate IsCacheFileName(name: string): (r: bool)
    ensures r ==> |name| >= |CachePrefix| + |CacheSuffix|
  {
    AffixesApart(name);
    StartsWith(name, CachePrefix) && EndsWith(name, CacheSuffix)
  }

  /** "notification_" holds no '.', so ".png" cannot begin inside it. */
  lemma AffixesApart(name: string)
    ensures StartsWith(name, CachePrefix) && EndsWith(name, CacheSuffix) ==> |name| >= |CachePrefix| + |CacheSuffix|
  {
    if StartsWith(name, CachePrefix) && EndsWith(name, CacheSuffix) {
      var k := |name| - |CacheSuffix|;
      assert name[k] == '.' by {
        assert name[k..][0] == name[k];
      }
      assert forall i :: 0 <= i < |CachePrefix| ==> name[i] == CachePrefix[i] by {
        assert name[..|CachePrefix|] == CachePrefix;
      }
      if k < |CachePrefix| {
        assert false;
      }
    }
  }

  /**
   * `name[len("notification_"):-len(".png")]`, Python slicing: what lies between the prefix
   * and the suffix, and empty when the two bounds cross.
   */
  function UuidOfCacheFile(name: string): (r: string)
    ensures |name| >= |CachePrefix| + |CacheSuffix| ==>
              name == name[..|CachePrefix|] + r + name[|name| - |CacheSuffix|..]
    ensures |name| < |CachePrefix| + |CacheSuffix| ==> r == []
  {
    if |name| >= |CachePrefix| + |CacheSuffix| then name[|CachePrefix|..|name| - |CacheSuffix|] else ""
  }

  /** Parsing the uuid back out of a cached image name gives the uuid. */
  lemma UuidOfCacheFileName(uuid: string)
    ensures IsCacheFileName(CacheFileName(uuid))
    ensures UuidOfCacheFile(CacheFileName(uuid)) == uuid
  {
    var name := CacheFileName(uuid);
    assert name[..|CachePrefix|] == CachePrefix;
    assert name[|name| - |CacheSuffix|..] == CacheSuffix;
    assert name[|CachePrefix|..|name| - |CacheSuffix|] == uuid;
  }

  /**
   * Every name the sweep selects is the cached image name of the uuid sliced out of it: the
   * prefix and the suffix cannot overlap.
   */
  lemma CacheFileNameOfUuid(name: string)
    requires IsCacheFileName(name)
    ensures |name| >= |CachePrefix| + |CacheSuffix|
    ensures CacheFileName(UuidOfCacheFile(name)) == name
  {
    var u := UuidOfCacheFile(name);
    assert name[..|CachePrefix|] == CachePrefix;
    assert name[|name| - |CacheSuffix|..] == CacheSuffix;
    assert name == name[..|CachePrefix|] + name[|CachePrefix|..|name| - |CacheSuffix|] + name[|name| - |CacheSuffix|..];
  }

  // ---------------------------------------------------------------- action buttons

  /**
   * The style class of action button `index` of `total` (`ActionButton.__init__`): the first
   * button starts the row, a later last one ends it, all others are in the middle.
   */
  function ActionStyle(index: int, total: int): (r: string)
    ensures r in ["start-action", "middle-action", "end-action"]
    ensures r == "start-action" <==> index == 0
    ensures r == "end-action" <==> index != 0 && index == total - 1
  {
    if index == 0 then "start-action"
    else if index == total - 1 then "end-action"
    else "middle-action"
  }

  /** The style classes of a row of `total` action buttons, left to right. */
  function ActionRow(total: nat): (r: seq<string>)
    ensures |r| == total
  {
    seq(total, i => ActionStyle(i, total))
  }

  /**
   * A row opens with the start style; it closes with the end style exactly when it holds two
   * or more buttons; everything in between is middle.
   */
  lemma ActionRowShape(total: nat)
    requires total >= 1
    ensures ActionRow(total)[0] == "start-action"
    ensures "end-action" in ActionRow(total) <==> total >= 2
    ensures total >= 2 ==> ActionRow(total)[total - 1] == "end-action"
    ensures forall i :: 0 < i < total - 1 ==> ActionRow(total)[i] == "middle-action"
  {
    var r := ActionRow(total);
    if total >= 2 {
      assert r[total - 1] == "end-action";
    } else {
      assert r == ["start-action"];
    }
  }

  // ---------------------------------------------------------------- environment

  /** The names of the files in the notifications directory. */
  class FileSystem {
    var files: set<string>

    constructor(initial: set<string>)
      ensures files == initial
    {
      files := initial;
    }
  }

  /** The handles of pending `GLib.timeout_add` sources and the box each one will close. */
  class MainLoop {
    var sources: map<nat, NotificationBox>
    var next: nat

    constructor()
      ensures sources == map[] && next == 0
      ensures Valid()
    {
      sources := map[];
      next := 0;
    }

    /**
     * Every pending handle was issued before `next` (so `next` is fresh), and it is the handle
     * its target box records in `timeoutId`.
     */
    ghost predicate Valid()
      reads this, sources.Values
    {
      forall h :: h in sources ==> h < next && sources[h].timeoutId == Some(h)
    }
  }

  /** The pending handles that target `b`. */
  function OwnedBy(sources: map<nat, NotificationBox>, b: NotificationBox): set<nat> {
    set h | h in sources && sources[h] == b
  }

  /** `sources` with the handle `h` (if any) removed, as `GLib.source_remove` does. */
  function Without(sources: map<nat, NotificationBox>, h: Option<nat>): map<nat, NotificationBox> {
    if h.Some? then sources - {h.value} else sources
  }

  // ---------------------------------------------------------------- the box

  class NotificationBox {
    const notification: Notification
    const uuid: string
    /** `timeout_ms`: the notification's own timeout unless it is -1. */
    const timeoutMs: int
    const cachedImagePath: Option<string>
    const fs: FileSystem
    const loop: MainLoop

    var timeoutId: Option<nat>
    var destroyed: bool
    var isHistory: bool
    /** Whether the popup stack's "closed" handler is connected to this box's notification. */
    var inPopup: bool

    /**
     * `NotificationBox(notification, timeout_ms)`: picks the timeout, starts the timer when it
     * is positive, and caches the image under the box's uuid when there is one and saving works.
     */
    constructor(n: Notification, defaultTimeoutMs: int, id: string, saveOk: bool, fs: FileSystem, loop: MainLoop)
      requires loop.Valid()
      modifies fs, loop
      ensures notification == n && uuid == id && this.fs == fs && this.loop == loop
      ensures timeoutMs == if n.timeout != -1 then n.timeout else defaultTimeoutMs
      ensures cachedImagePath == if n.hasImage && saveOk then Some(CacheFileName(id)) else None
      ensures fs.files == old(fs.files) + Elements(cachedImagePath)
      ensures !destroyed && !isHistory && !inPopup
      ensures timeoutMs > 0 ==> timeoutId == Some(old(loop.next)) && loop.sources == old(loop.sources)[old(loop.next) := this]
      ensures timeoutMs <= 0 ==> timeoutId == None && loop.sources == old(loop.sources)
      ensures loop.Valid()
    {
      notification := n;
      uuid := id;
      timeoutMs := if n.timeout != -1 then n.timeout else defaultTimeoutMs;
      cachedImagePath := if n.hasImage && saveOk then Some(CacheFileName(id)) else None;
      this.fs := fs;
      this.loop := loop;
      timeoutId := None;
      destroyed := false;
      isHistory := false;
      inPopup := false;
      new;
      StartTimeout();
      if n.hasImage && saveOk {
        fs.files := fs.files + {CacheFileName(id)};
      }
    }

    /** `start_timeout`: cancels the pending timer, then arms a fresh one if the timeout is positive. */
    method StartTimeout()
      requires loop.Valid()
      modifies this, loop
      ensures timeoutMs > 0 ==>
                timeoutId == Some(old(loop.next)) && loop.next == old(loop.next) + 1
                && loop.sources == Without(old(loop.sources), old(timeoutId))[old(loop.next) := this]
      ensures timeoutMs <= 0 ==>
                timeoutId == None && loop.next == old(loop.next)
                && loop.sources == Without(old(loop.sources), old(timeoutId))
      ensures destroyed == old(destroyed) && isHistory == old(isHistory) && inPopup == old(inPopup)
      ensures loop.Valid()
    {
      StopTimeout();
      if timeoutMs > 0 {
        var h := loop.next;
        loop.sources := loop.sources[h := this];
        loop.next := h + 1;
        timeoutId := Some(h);
      }
    }

    /** `stop_timeout`: removes the pending timer, if any. */
    method StopTimeout()
      requires loop.Valid()
      modifies this, loop
      ensures timeoutId == None
      ensures loop.sources == Without(old(loop.sources), old(timeoutId)) && loop.next == old(loop.next)
      ensures destroyed == old(destroyed) && isHistory == old(isHistory) && inPopup == old(inPopup)
      ensures loop.Valid()
    {
      if timeoutId.Some? {
        loop.sources := loop.sources - {timeoutId.value};
        timeoutId := None;
      }
    }

    /** `set_is_history`. */
    method SetIsHistory(value: bool)
      requires loop.Valid()
      modifies this
      ensures isHistory == value && loop.Valid()
      ensures timeoutId == old(timeoutId) && destroyed == old(destroyed) && inPopup == old(inPopup)
    {
      isHistory := value;
    }

    /**
     * `close_notification` for a box whose "closed" signal nobody handles: asks for an "expired"
     * close and drops the timer unless already destroyed; always tells GLib not to repeat.
     */
    method CloseNotification() returns (repeat: bool, closeRequested: bool)
      requires loop.Valid()
      modifies this, loop
      ensures !repeat
      ensures closeRequested == !old(destroyed)
      ensures closeRequested ==> timeoutId == None && loop.sources == Without(old(loop.sources), old(timeoutId))
      ensures !closeRequested ==> timeoutId == old(timeoutId) && loop.sources == old(loop.sources)
      ensures destroyed == old(destroyed) && isHistory == old(isHistory) && inPopup == old(inPopup)
      ensures loop.Valid()
    {
      closeRequested := !destroyed;
      if closeRequested {
        StopTimeout();
      }
      repeat := false;
    }

    /** Whether `destroy(from_history_delete)` removes the cached image file. */
    predicate DeletesFile(fromHistoryDelete: bool)
      reads this, fs
    {
      cachedImagePath.Some? && cachedImagePath.value in fs.files && (!isHistory || fromHistoryDelete)
    }

    /**
     * `destroy(from_history_delete)`: removes the cached image if there is one on disk and the
     * box is not in the history (unless the history itself deletes it); always marks the box
     * destroyed and drops its timer. A second destroy with the same flag deletes nothing more.
     */
    method Destroy(fromHistoryDelete: bool)
      requires loop.Valid()
      modifies this, fs, loop
      ensures fs.files == if old(DeletesFile(fromHistoryDelete)) then old(fs.files) - {cachedImagePath.value} else old(fs.files)
      ensures destroyed && timeoutId == None
      ensures isHistory == old(isHistory) && inPopup == old(inPopup)
      ensures loop.sources == Without(old(loop.sources), old(timeoutId)) && loop.next == old(loop.next)
      ensures loop.Valid()
      ensures !DeletesFile(fromHistoryDelete)
    {
      if DeletesFile(fromHistoryDelete) {
        fs.files := fs.files - {cachedImagePath.value};
      }
      destroyed := true;
      StopTimeout();
    }
  }

  /**
   * The single-timer invariant: a box is the target of at most one pending timeout, the one it
   * records, so `stop_timeout` cancels every timer that could still close it.
   */
  lemma SingleTimer(loop: MainLoop, b: NotificationBox)
    requires loop.Valid()
    ensures OwnedBy(loop.sources, b) <= Elements(b.timeoutId)
    ensures |OwnedBy(loop.sources, b)| <= 1
  {
    if b.timeoutId.Some? {
      assert OwnedBy(loop.sources, b) <= {b.timeoutId.value};
      SubsetOfSingleton(OwnedBy(loop.sources, b), b.timeoutId.value);
    } else {
      assert OwnedBy(loop.sources, b) == {};
    }
  }

  lemma SubsetOfSingleton(s: set<nat>, x: nat)
    requires s <= {x}
    ensures |s| <= 1
  {
    if s != {} {
      assert s == {x};
    }
  }
}
