/**
 * The live popup stack `NotificationContainer` (Ax-Shell/modules/notifications.py): at most five
 * boxes, the index of the box on show, the ids already closed, and the latch that holds while the
 * stack is torn down. The stack widget's visible child is `notifications[currentIndex]`; the
 * close reasons are the ones the handler compares, plus any other.
 */
module NotifStack {
  import opened Wrappers
  import opened NotifConfig
  import opened DateHeaders
  import opened NotifBox
  import opened NotifHistory

  /** The stack shows at most this many boxes. */
  const MaxVisible: nat := 5
  /** The default timeout of a `NotificationBox`. */
  const DefaultTimeoutMs: int := 5000
  /** The urgency that do-not-disturb lets through. */
  const CriticalUrgency: int := 2

  datatype CloseReason = DismissedByUser | Expired | Closed | Undefined | Other

  /** Do-not-disturb diverts a notification away from the stack. */
  predicate Quiet(doNotDisturb: bool, n: Notification) {
    doNotDisturb && n.urgency != CriticalUrgency
  }

  /** A close for which the handler keeps the box in the history instead of destroying it. */
  predicate KeptOnClose(n: Notification, reason: CloseReason) {
    (reason.Expired? || reason.Closed? || reason.Undefined?) && !SkipsHistory(n)
  }

  // ---------------------------------------------------------------- list and index arithmetic

  function RemoveAt<T>(s: seq<T>, i: nat): (r: seq<T>)
    requires i < |s|
    ensures |r| == |s| - 1
    ensures forall k :: 0 <= k < i ==> r[k] == s[k]
    ensures forall k :: i <= k < |r| ==> r[k] == s[k + 1]
  {
    s[..i] + s[i + 1..]
  }

  /** The boxes the eviction loop drops from the front of `s` to make room for one more. */
  function Evicted<T>(s: seq<T>): (r: seq<T>)
    ensures |s| <= MaxVisible ==> |r| <= 1
    ensures |r| <= |s| && r == s[..|r|]
  {
    if |s| >= MaxVisible then s[..|s| - (MaxVisible - 1)] else []
  }

  /** The boxes the eviction loop keeps: the newest four at most. */
  function Kept<T>(s: seq<T>): (r: seq<T>)
    ensures |r| < MaxVisible
    ensures s == Evicted(s) + r
  {
    s[|Evicted(s)|..]
  }

  /** The first position of `s` whose element satisfies `matches`, or -1. */
  function FirstWhere<T>(s: seq<T>, matches: T -> bool): (r: int)
    ensures -1 <= r < |s|
    ensures r == -1 <==> forall k :: 0 <= k < |s| ==> !matches(s[k])
    ensures r >= 0 ==> matches(s[r]) && forall k :: 0 <= k < r ==> !matches(s[k])
  {
    if s == [] then -1
    else if matches(s[0]) then 0
    else
      var r := FirstWhere(s[1..], matches);
      if r == -1 then -1 else r + 1
  }

  /** The `enumerate` loops with `break` that look for a box: the first match, or -1. */
  method FindFirst<T>(s: seq<T>, matches: T -> bool) returns (index: int)
    ensures index == FirstWhere(s, matches)
  {
    index := -1;
    var k := 0;
    while k < |s|
      invariant 0 <= k <= |s|
      invariant forall j :: 0 <= j < k ==> !matches(s[j])
    {
      if matches(s[k]) {
        index := k;
        return;
      }
      k := k + 1;
    }
  }

  /**
   * `current_index` after box `i` of `n >= 2` is closed, as the handler computes it: a closed
   * box behind the shown one leaves the index at `i`, which now designates the box that followed
   * the closed one.
   */
  function IndexAfterRemovalAsWritten(i: nat, current: nat, n: nat): nat
    requires i < n && current < n && n >= 2
  {
    var newIndex := if i == current then (if i > 0 then i - 1 else 0)
                    else if i < current then current - 1
                    else i;
    if newIndex >= n - 1 then n - 2 else newIndex
  }

  /** `current_index` after box `i` of `n >= 2` is closed, keeping the shown box when it stays. */
  function IndexAfterRemoval(i: nat, current: nat, n: nat): (r: nat)
    requires i < n && current < n && n >= 2
    ensures r < n - 1
  {
    if i == current then (if i > 0 then i - 1 else 0)
    else if i < current then current - 1
    else current
  }

  /**
   * Closing a box other than the shown one keeps the shown box on show; closing the shown box
   * shows the one before it, or the one after it when the first is closed.
   */
  lemma RemovalKeepsShownBox<T>(s: seq<T>, i: nat, current: nat)
    requires i < |s| && current < |s| && |s| >= 2
    ensures var r := IndexAfterRemoval(i, current, |s|);
      r < |RemoveAt(s, i)|
      && (i != current ==> RemoveAt(s, i)[r] == s[current])
      && (i == current ==> RemoveAt(s, i)[r] == s[if i > 0 then i - 1 else 1])
  {
  }

  /** The handler's computation switches the shown box: close the second of three while the first is on show. */
  lemma AsWrittenSwitchesShownBox()
    ensures var s := [10, 20, 30];
      IndexAfterRemovalAsWritten(1, 0, 3) == 1 && RemoveAt(s, 1)[IndexAfterRemovalAsWritten(1, 0, 3)] == 30
      && s[0] == 10 && RemoveAt(s, 1)[IndexAfterRemoval(1, 0, 3)] == 10
  {
  }

  /** The two computations agree unless the closed box lies behind the shown one. */
  lemma AsWrittenAgreesUpToShown(i: nat, current: nat, n: nat)
    requires i < n && current < n && n >= 2 && i <= current
    ensures IndexAfterRemovalAsWritten(i, current, n) == IndexAfterRemoval(i, current, n)
  {
  }

  // ---------------------------------------------------------------- the stack

  class NotificationContainer {
    const history: NotificationHistory
    const fs: FileSystem
    const loop: MainLoop

    var notifications: seq<NotificationBox>
    var currentIndex: nat
    /** `_destroyed_notifications`: the notification ids whose close has been handled. */
    var destroyedIds: set<int>
    /** `_is_destroying`. */
    var isDestroying: bool

    ghost predicate Valid()
      reads this
    {
      |notifications| <= MaxVisible
      && Distinct(notifications)
      && (if notifications == [] then currentIndex == 0 else currentIndex < |notifications|)
      && (forall b :: b in notifications ==> b.fs == fs && b.loop == loop)
      && history.fs == fs && history.loop == loop
    }

    function Boxes(): set<NotificationBox>
      reads this
    {
      set b | b in notifications
    }

    constructor(history: NotificationHistory)
      ensures this.history == history && fs == history.fs && loop == history.loop
      ensures notifications == [] && currentIndex == 0 && destroyedIds == {} && !isDestroying
      ensures Valid()
    {
      this.history := history;
      fs := history.fs;
      loop := history.loop;
      notifications := [];
      currentIndex := 0;
      destroyedIds := {};
      isDestroying := false;
    }

    /** `show_previous`. */
    method ShowPrevious()
      requires Valid()
      modifies this
      ensures Valid()
      ensures currentIndex == if old(currentIndex) > 0 then old(currentIndex) - 1 else old(currentIndex)
      ensures notifications == old(notifications) && destroyedIds == old(destroyedIds) && isDestroying == old(isDestroying)
    {
      if currentIndex > 0 {
        currentIndex := currentIndex - 1;
      }
    }

    /** `show_next`. */
    method ShowNext()
      requires Valid()
      modifies this
      ensures Valid()
      ensures currentIndex == if old(currentIndex) + 1 < |notifications| then old(currentIndex) + 1 else old(currentIndex)
      ensures notifications == old(notifications) && destroyedIds == old(destroyedIds) && isDestroying == old(isDestroying)
    {
      if currentIndex + 1 < |notifications| {
        currentIndex := currentIndex + 1;
      }
    }

    /**
     * The eviction loop of `on_new_notification`: while five boxes are shown, the oldest leaves
     * the stack (`EvictOldest`); the index moves back with the boxes that stay.
     */
    method MakeRoom(incomingSkipsHistory: bool, now: DateTime)
      requires Valid() && history.Valid() && loop.Valid()
      modifies this, history, fs, loop, Boxes(), history.BoxSet()
      ensures Valid() && history.Valid() && loop.Valid()
      ensures notifications == Kept(old(notifications))
      ensures currentIndex == if old(currentIndex) >= |Evicted(old(notifications))| then old(currentIndex) - |Evicted(old(notifications))| else 0
      ensures destroyedIds == old(destroyedIds) && isDestroying == old(isDestroying)
      ensures incomingSkipsHistory || Evicted(old(notifications)) == [] ==>
                history.containers == old(history.containers) && history.persistent == old(history.persistent)
                && fs.files == old(fs.files)
      ensures EvictionHandedOver(old(notifications), incomingSkipsHistory)
      ensures Boxes() <= old(Boxes()) && history.BoxSet() <= old(history.BoxSet()) + old(Boxes())
    {
      ghost var s := notifications;
      while |notifications| >= MaxVisible
        invariant Valid() && history.Valid() && loop.Valid()
        invariant |notifications| <= |s| && notifications == s[|s| - |notifications|..]
        invariant |notifications| >= MaxVisible - 1 || notifications == s
        invariant currentIndex == if old(currentIndex) >= |s| - |notifications| then old(currentIndex) - (|s| - |notifications|) else 0
        invariant destroyedIds == old(destroyedIds) && isDestroying == old(isDestroying)
        invariant incomingSkipsHistory || notifications == s ==>
                    history.containers == old(history.containers) && history.persistent == old(history.persistent)
                    && fs.files == old(fs.files)
        invariant var last := |s| - |notifications| - 1;
                  !incomingSkipsHistory && last >= 0 && s[last].notification.appName !in IgnoredApps(history.config.file) ==>
                    |history.containers| >= 1 && history.containers[0].box == s[last]
        invariant Boxes() <= old(Boxes()) && history.BoxSet() <= old(history.BoxSet()) + old(Boxes())
        decreases |notifications|
      {
        EvictOldest(incomingSkipsHistory, now);
      }
    }

    /**
     * One turn of the eviction loop: the oldest box leaves the stack without being destroyed and
     * goes to the history unless the incoming notification skips it.
     */
    method EvictOldest(incomingSkipsHistory: bool, now: DateTime)
      requires Valid() && history.Valid() && loop.Valid() && notifications != []
      modifies this, history, fs, loop, Boxes(), history.BoxSet()
      ensures Valid() && history.Valid() && loop.Valid()
      ensures notifications == old(notifications[1..])
      ensures currentIndex == if old(currentIndex) > 0 then old(currentIndex) - 1 else 0
      ensures destroyedIds == old(destroyedIds) && isDestroying == old(isDestroying)
      ensures incomingSkipsHistory ==>
                history.containers == old(history.containers) && history.persistent == old(history.persistent)
                && fs.files == old(fs.files)
      ensures !incomingSkipsHistory && old(notifications[0]).notification.appName !in IgnoredApps(history.config.file) ==>
                |history.containers| >= 1 && history.containers[0].box == old(notifications[0])
      ensures Boxes() <= old(Boxes()) && history.BoxSet() <= old(history.BoxSet()) + {old(notifications[0])}
    {
      var oldest := notifications[0];
      if !incomingSkipsHistory {
        history.AddNotification(oldest, now);
      }
      notifications := notifications[1..];
      if currentIndex > 0 {
        currentIndex := currentIndex - 1;
      }
      assert forall x :: x in notifications ==> x in old(notifications);
    }

    /**
     * The last box that eviction takes off `s` heads the history, unless the incoming
     * notification skips the history or that box's application is ignored by it.
     */
    ghost predicate EvictionHandedOver(s: seq<NotificationBox>, incomingSkipsHistory: bool)
      reads history, history.config
    {
      var e := Evicted(s);
      !incomingSkipsHistory && e != [] && e[|e| - 1].notification.appName !in IgnoredApps(history.config.file) ==>
        |history.containers| >= 1 && history.containers[0].box == e[|e| - 1]
    }

    /** The limited-app replacement: the box at `k` leaves the stack and is destroyed. */
    method DropBox(k: nat)
      requires Valid() && loop.Valid() && k < |notifications|
      modifies this, fs, loop, notifications[k]
      ensures Valid() && loop.Valid()
      ensures notifications == RemoveAt(old(notifications), k)
      ensures old(notifications[k]).destroyed
      ensures fs.files == if old(notifications[k].DeletesFile(false)) then old(fs.files) - {old(notifications[k]).cachedImagePath.value} else old(fs.files)
      ensures destroyedIds == old(destroyedIds) && isDestroying == old(isDestroying)
      ensures Boxes() <= old(Boxes())
    {
      var b := notifications[k];
      notifications := RemoveAt(notifications, k);
      if currentIndex >= |notifications| && currentIndex > 0 {
        currentIndex := |notifications| - 1;
      }
      if notifications == [] {
        currentIndex := 0;
      }
      assert forall x :: x in notifications ==> x in old(notifications);
      b.Destroy(false);
    }

    /** Appends a box to a stack with room for it and shows it. */
    method Show(box: NotificationBox)
      requires Valid() && |notifications| < MaxVisible && box !in notifications
      requires box.fs == fs && box.loop == loop
      modifies this
      ensures Valid()
      ensures notifications == old(notifications) + [box] && currentIndex == |notifications| - 1
      ensures destroyedIds == old(destroyedIds) && isDestroying == old(isDestroying)
      ensures Boxes() == old(Boxes()) + {box}
    {
      notifications := notifications + [box];
      currentIndex := |notifications| - 1;
    }

    /**
     * `on_new_notification` for notification `n`, whose box gets the uuid `id`; `saveOk` says
     * whether caching its image works and `now` is the arrival time the history records. Under
     * do-not-disturb a non-critical notification only reaches the history; any other is shown
     * on top of the stack with its timer running.
     */
    method OnNewNotification(n: Notification, id: string, saveOk: bool, now: DateTime) returns (box: NotificationBox)
      requires Valid() && history.Valid() && loop.Valid()
      modifies this, history, fs, loop, Boxes(), history.BoxSet()
      ensures Valid() && history.Valid() && loop.Valid()
      ensures fresh(box) && box.notification == n && box.uuid == id
      ensures destroyedIds == old(destroyedIds) && isDestroying == old(isDestroying)
      ensures Quiet(old(history.doNotDisturb), n) ==>
                notifications == old(notifications) && currentIndex == old(currentIndex) && !box.inPopup
      ensures Quiet(old(history.doNotDisturb), n) && SkipsHistory(n) ==>
                history.containers == old(history.containers) && history.persistent == old(history.persistent)
      ensures Quiet(old(history.doNotDisturb), n) && !SkipsHistory(n) && n.appName !in IgnoredApps(history.config.file) ==>
                |history.containers| >= 1 && history.containers[0].box == box
      ensures !Quiet(old(history.doNotDisturb), n) ==>
                box.inPopup && |notifications| >= 1 && notifications[|notifications| - 1] == box
                && currentIndex == |notifications| - 1
      ensures !Quiet(old(history.doNotDisturb), n) ==>
                notifications == Admitted(old(notifications), n.appName, LimitedApps(history.config.file)) + [box]
      ensures !Quiet(old(history.doNotDisturb), n) && !Replaces(old(notifications), n.appName) ==>
                EvictionHandedOver(old(notifications), SkipsHistory(n))
      ensures !Quiet(old(history.doNotDisturb), n) && n.appName in LimitedApps(history.config.file) ==>
                NoneOfApp(history.BoxSet(), n.appName)
      ensures box.timeoutMs == if n.timeout != -1 then n.timeout else DefaultTimeoutMs
      ensures !Quiet(old(history.doNotDisturb), n) ==>
                (box.timeoutId.Some? <==> box.timeoutMs > 0)
                && (box.timeoutId.Some? ==> box.timeoutId.value in loop.sources && loop.sources[box.timeoutId.value] == box)
    {
      box := new NotificationBox(n, DefaultTimeoutMs, id, saveOk, fs, loop);
      if history.doNotDisturb && n.urgency != CriticalUrgency {
        if !SkipsHistory(n) {
          history.AddNotification(box, now);
        }
        return;
      }
      Present(box, now);
    }

    /** The shown branch of `on_new_notification`: the box goes on top and its timer starts. */
    method Present(box: NotificationBox, now: DateTime)
      requires Valid() && history.Valid() && loop.Valid()
      requires box.fs == fs && box.loop == loop && box !in notifications && box !in history.BoxSet()
      modifies this, history, fs, loop, Boxes(), history.BoxSet(), box
      ensures Valid() && history.Valid() && loop.Valid()
      ensures destroyedIds == old(destroyedIds) && isDestroying == old(isDestroying)
      ensures box.inPopup && |notifications| >= 1 && notifications[|notifications| - 1] == box
              && currentIndex == |notifications| - 1
      ensures notifications == Admitted(old(notifications), box.notification.appName, LimitedApps(history.config.file)) + [box]
      ensures !Replaces(old(notifications), box.notification.appName) ==>
                EvictionHandedOver(old(notifications), SkipsHistory(box.notification))
      ensures box.notification.appName in LimitedApps(history.config.file) ==>
                NoneOfApp(history.BoxSet(), box.notification.appName)
      ensures (box.timeoutId.Some? <==> box.timeoutMs > 0)
              && (box.timeoutId.Some? ==> box.timeoutId.value in loop.sources && loop.sources[box.timeoutId.value] == box)
    {
      box.inPopup := true;
      Admit(box, now);
      box.StartTimeout();
    }

    /** Whether a new box of `app` replaces a box of its own on `s` instead of making room. */
    predicate Replaces(s: seq<NotificationBox>, app: string)
      reads history, history.config
    {
      app in LimitedApps(history.config.file) && FirstWhere(s, IsFromApp(app)) >= 0
    }

    /**
     * Puts a new box on top of the stack: a limited application's box is handled by
     * `AdmitLimited`; for any other the oldest boxes make room.
     */
    method Admit(box: NotificationBox, now: DateTime)
      requires Valid() && history.Valid() && loop.Valid()
      requires box.fs == fs && box.loop == loop && box !in notifications && box !in history.BoxSet()
      modifies this, history, fs, loop, Boxes(), history.BoxSet()
      ensures Valid() && history.Valid() && loop.Valid()
      ensures destroyedIds == old(destroyedIds) && isDestroying == old(isDestroying)
      ensures |notifications| >= 1 && notifications[|notifications| - 1] == box && currentIndex == |notifications| - 1
      ensures notifications == Admitted(old(notifications), box.notification.appName, LimitedApps(history.config.file)) + [box]
      ensures box.notification.appName in LimitedApps(history.config.file) ==>
                NoneOfApp(history.BoxSet(), box.notification.appName)
      ensures !Replaces(old(notifications), box.notification.appName) ==>
                EvictionHandedOver(old(notifications), SkipsHistory(box.notification))
    {
      if box.notification.appName in LimitedApps(history.config.file) {
        AdmitLimited(box, now);
      } else {
        MakeRoom(SkipsHistory(box.notification), now);
        Show(box);
      }
    }

    /**
     * A limited application keeps one notification: its history rows are cleared and its box
     * already on the stack, if any, is replaced; otherwise the oldest boxes make room.
     */
    method AdmitLimited(box: NotificationBox, now: DateTime)
      requires Valid() && history.Valid() && loop.Valid()
      requires box.fs == fs && box.loop == loop && box !in notifications && box !in history.BoxSet()
      requires box.notification.appName in LimitedApps(history.config.file)
      modifies this, history, fs, loop, Boxes(), history.BoxSet()
      ensures Valid() && history.Valid() && loop.Valid()
      ensures destroyedIds == old(destroyedIds) && isDestroying == old(isDestroying)
      ensures |notifications| >= 1 && notifications[|notifications| - 1] == box && currentIndex == |notifications| - 1
      ensures notifications == Admitted(old(notifications), box.notification.appName, LimitedApps(history.config.file)) + [box]
      ensures NoneOfApp(history.BoxSet(), box.notification.appName)
      ensures FirstWhere(old(notifications), IsFromApp(box.notification.appName)) == -1 ==>
                EvictionHandedOver(old(notifications), SkipsHistory(box.notification))
    {
      var app := box.notification.appName;
      history.ClearHistoryForApp(app);
      AdmitPurged(box, app, now);
    }

    /** A limited app's box once the history holds none of that app's boxes. */
    method AdmitPurged(box: NotificationBox, app: string, now: DateTime)
      requires Valid() && history.Valid() && loop.Valid()
      requires box.fs == fs && box.loop == loop && box !in notifications && box !in history.BoxSet()
      requires app == box.notification.appName && app in LimitedApps(history.config.file)
      requires NoneOfApp(history.BoxSet(), app)
      modifies this, history, fs, loop, Boxes(), history.BoxSet()
      ensures Valid() && history.Valid() && loop.Valid()
      ensures destroyedIds == old(destroyedIds) && isDestroying == old(isDestroying)
      ensures |notifications| >= 1 && notifications[|notifications| - 1] == box && currentIndex == |notifications| - 1
      ensures notifications == Admitted(old(notifications), app, LimitedApps(history.config.file)) + [box]
      ensures NoneOfApp(history.BoxSet(), app)
      ensures FirstWhere(old(notifications), IsFromApp(app)) == -1 ==>
                EvictionHandedOver(old(notifications), SkipsHistory(box.notification))
    {
      var k := FindFirst(notifications, IsFromApp(app));
      if k != -1 {
        ReplaceOfApp(box, app, k);
      } else {
        ShowFirstOfApp(box, app, now);
      }
    }

    /** The stack holds a box of `app` at `k`, its first: that box is replaced by `box`. */
    method ReplaceOfApp(box: NotificationBox, app: string, k: nat)
      requires Valid() && history.Valid() && loop.Valid()
      requires box.fs == fs && box.loop == loop && box !in notifications && box !in history.BoxSet()
      requires app in LimitedApps(history.config.file)
      requires k < |notifications| && k == FirstWhere(notifications, IsFromApp(app))
      requires NoneOfApp(history.BoxSet(), app)
      modifies this, history, fs, loop, Boxes(), history.BoxSet()
      ensures Valid() && history.Valid() && loop.Valid()
      ensures destroyedIds == old(destroyedIds) && isDestroying == old(isDestroying)
      ensures |notifications| >= 1 && notifications[|notifications| - 1] == box && currentIndex == |notifications| - 1
      ensures notifications == Admitted(old(notifications), app, LimitedApps(history.config.file)) + [box]
      ensures NoneOfApp(history.BoxSet(), app)
    {
      Replace(k, box);
    }

    /** The stack holds no box of `app`: the oldest boxes make room for `box`. */
    method ShowFirstOfApp(box: NotificationBox, app: string, now: DateTime)
      requires Valid() && history.Valid() && loop.Valid()
      requires box.fs == fs && box.loop == loop && box !in notifications && box !in history.BoxSet()
      requires app in LimitedApps(history.config.file)
      requires FirstWhere(notifications, IsFromApp(app)) == -1
      requires NoneOfApp(history.BoxSet(), app)
      modifies this, history, fs, loop, Boxes(), history.BoxSet()
      ensures Valid() && history.Valid() && loop.Valid()
      ensures destroyedIds == old(destroyedIds) && isDestroying == old(isDestroying)
      ensures |notifications| >= 1 && notifications[|notifications| - 1] == box && currentIndex == |notifications| - 1
      ensures notifications == Admitted(old(notifications), app, LimitedApps(history.config.file)) + [box]
      ensures NoneOfApp(history.BoxSet(), app)
      ensures EvictionHandedOver(old(notifications), SkipsHistory(box.notification))
    {
      forall b | b in Boxes() ensures b.notification.appName != app {
        var j :| 0 <= j < |notifications| && notifications[j] == b;
        assert !IsFromApp(app)(notifications[j]);
      }
      ShowFreeOf(box, app, now);
    }

    /** The box at `k` is destroyed and leaves the stack; `box` goes on top and is shown. */
    method Replace(k: nat, box: NotificationBox)
      requires Valid() && loop.Valid() && k < |notifications|
      requires box.fs == fs && box.loop == loop && box !in notifications
      modifies this, fs, loop, notifications[k]
      ensures Valid() && loop.Valid()
      ensures notifications == RemoveAt(old(notifications), k) + [box] && currentIndex == |notifications| - 1
      ensures old(notifications[k]).destroyed
      ensures destroyedIds == old(destroyedIds) && isDestroying == old(isDestroying)
    {
      DropBox(k);
      Show(box);
    }

    /** `MakeRoom` and `Show` when neither the stack nor the history holds a box of `app`. */
    method ShowFreeOf(box: NotificationBox, app: string, now: DateTime)
      requires Valid() && history.Valid() && loop.Valid()
      requires box.fs == fs && box.loop == loop && box !in notifications && box !in history.BoxSet()
      requires NoneOfApp(Boxes(), app) && NoneOfApp(history.BoxSet(), app)
      modifies this, history, fs, loop, Boxes(), history.BoxSet()
      ensures Valid() && history.Valid() && loop.Valid()
      ensures notifications == Kept(old(notifications)) + [box] && currentIndex == |notifications| - 1
      ensures destroyedIds == old(destroyedIds) && isDestroying == old(isDestroying)
      ensures NoneOfApp(history.BoxSet(), app)
      ensures EvictionHandedOver(old(notifications), SkipsHistory(box.notification))
    {
      MakeRoom(SkipsHistory(box.notification), now);
      Show(box);
    }

    /**
     * The close-reason dispatch of `on_notification_closed` for box `b`: a dismissal, an unknown
     * reason or a notification that skips the history destroys the box; any other close marks it
     * as history, hands it to the history and stops its timer.
     */
    method HandleClose(b: NotificationBox, reason: CloseReason, now: DateTime)
      requires history.Valid() && loop.Valid() && history.fs == fs && history.loop == loop
      requires b.fs == fs && b.loop == loop
      modifies history, fs, loop, b, history.BoxSet()
      ensures history.Valid() && loop.Valid()
      ensures b.timeoutId == None
      ensures !KeptOnClose(b.notification, reason) ==>
                b.destroyed && history.containers == old(history.containers) && history.persistent == old(history.persistent)
                && fs.files == old(fs.files) - (if old(b.DeletesFile(false)) then {b.cachedImagePath.value} else {})
      ensures KeptOnClose(b.notification, reason) ==> b.isHistory
      ensures KeptOnClose(b.notification, reason) && b.notification.appName !in IgnoredApps(history.config.file) ==>
                |history.containers| >= 1 && history.containers[0].box == b
      ensures history.BoxSet() <= old(history.BoxSet()) + {b}
    {
      match reason
      case DismissedByUser =>
        b.Destroy(false);
      case Expired | Closed | Undefined =>
        if !SkipsHistory(b.notification) {
          b.SetIsHistory(true);
          history.AddNotification(b, now);
          b.StopTimeout();
        } else {
          b.Destroy(false);
        }
      case Other =>
        b.Destroy(false);
    }

    /**
     * `on_notification_closed(notification, reason)` for the notification with id `id`: ignored
     * while the stack is torn down or when the id was handled before; otherwise the id is
     * recorded and the first box with that id, if any, is closed (`CloseAt`).
     */
    method OnNotificationClosed(id: int, reason: CloseReason, now: DateTime)
      requires Valid() && history.Valid() && loop.Valid()
      modifies this, history, fs, loop, Boxes(), history.BoxSet()
      ensures Valid() && history.Valid() && loop.Valid()
      ensures Boxes() <= old(Boxes()) && history.BoxSet() <= old(history.BoxSet()) + old(Boxes())
      ensures old(isDestroying) || id in old(destroyedIds) ==> unchanged(this, history, fs, loop)
      ensures !old(isDestroying) ==> destroyedIds == old(destroyedIds) + {id}
      ensures old(isDestroying) ==> isDestroying
      ensures !old(isDestroying) && id !in old(destroyedIds) && FirstWhere(old(notifications), HasId(id)) == -1 ==>
                notifications == old(notifications) && currentIndex == old(currentIndex) && !isDestroying
                && history.containers == old(history.containers) && fs.files == old(fs.files)
      ensures !old(isDestroying) && id !in old(destroyedIds) && FirstWhere(old(notifications), HasId(id)) >= 0 ==>
                Closing(old(notifications), FirstWhere(old(notifications), HasId(id)), old(currentIndex), reason,
                        notifications, currentIndex, isDestroying)
      ensures !old(isDestroying) && id !in old(destroyedIds) && FirstWhere(old(notifications), HasId(id)) >= 0 ==>
                HandedOff(old(notifications[FirstWhere(notifications, HasId(id))]), reason)
    {
      if isDestroying || id in destroyedIds {
        return;
      }
      destroyedIds := destroyedIds + {id};
      var i := FindFirst(notifications, HasId(id));
      if i != -1 {
        CloseAt(i, reason, now);
      }
    }

    /**
     * Closes box `i`: dispatches on the reason, then takes the box off the stack and moves the
     * index, except that the last box stays and sets the latch instead.
     */
    method CloseAt(i: nat, reason: CloseReason, now: DateTime)
      requires Valid() && history.Valid() && loop.Valid() && i < |notifications| && !isDestroying
      modifies this, history, fs, loop, Boxes(), history.BoxSet()
      ensures Valid() && history.Valid() && loop.Valid()
      ensures Boxes() <= old(Boxes()) && history.BoxSet() <= old(history.BoxSet()) + old(Boxes())
      ensures destroyedIds == old(destroyedIds)
      ensures Closing(old(notifications), i, old(currentIndex), reason, notifications, currentIndex, isDestroying)
      ensures HandedOff(old(notifications[i]), reason)
    {
      var b := notifications[i];
      HandleClose(b, reason, now);
      if |notifications| == 1 {
        isDestroying := true;
        return;
      }
      var newIndex := IndexAfterRemoval(i, currentIndex, |notifications|);
      notifications := RemoveAt(notifications, i);
      currentIndex := newIndex;
      assert forall x :: x in notifications ==> x in old(notifications);
    }

    /**
     * What closing box `b` for `reason` did to the history and the image directory: a box that
     * is not kept leaves the history as it was and only loses its own cached image, if it had
     * one to delete; a kept box of an app that is not ignored heads the history.
     */
    twostate predicate HandedOff(b: NotificationBox, reason: CloseReason)
      reads history, history.config, fs
    {
      && (!KeptOnClose(b.notification, reason) ==>
            history.containers == old(history.containers) && history.persistent == old(history.persistent)
            && fs.files == old(fs.files) - (if old(b.DeletesFile(false)) then {b.cachedImagePath.value} else {}))
      && (KeptOnClose(b.notification, reason) && b.notification.appName !in IgnoredApps(history.config.file) ==>
            |history.containers| >= 1 && history.containers[0].box == b)
    }

    /** Whether destroying box `b` as the stack does deletes its cached image. */
    predicate ReleasesImage(b: NotificationBox)
      reads b
    {
      b.cachedImagePath.Some? && !b.isHistory
    }

    /** The cached images of the first `n` boxes of `bs` that are not in the history. */
    function ReleasedUpTo(bs: seq<NotificationBox>, n: nat): set<string>
      requires n <= |bs|
      reads set b | b in bs
    {
      if n == 0 then {}
      else ReleasedUpTo(bs, n - 1) + (if ReleasesImage(bs[n - 1]) then {bs[n - 1].cachedImagePath.value} else {})
    }

    /**
     * `_destroy_container`: empties the stack and the handled ids, destroys every box that was
     * on it (deleting the cached images of those not in the history), resets the index and
     * releases the latch.
     */
    method DestroyContainer()
      requires Valid() && loop.Valid()
      modifies this, fs, loop, Boxes()
      ensures Valid() && loop.Valid()
      ensures notifications == [] && currentIndex == 0 && destroyedIds == {} && !isDestroying
      ensures forall b :: b in old(notifications) ==> b.destroyed
      ensures fs.files == old(fs.files) - old(ReleasedUpTo(notifications, |notifications|))
    {
      var children := notifications;
      notifications := [];
      destroyedIds := {};
      var i := 0;
      while i < |children|
        invariant 0 <= i <= |children|
        invariant forall k :: 0 <= k < |children| ==> children[k].isHistory == old(children[k].isHistory)
        invariant forall k :: 0 <= k < i ==> children[k].destroyed
        invariant fs.files == old(fs.files) - old(ReleasedUpTo(children, i))
        invariant loop.Valid() && notifications == [] && destroyedIds == {}
      {
        children[i].Destroy(false);
        i := i + 1;
      }
      currentIndex := 0;
      isDestroying := false;
    }

    /** The box on show, if any. */
    function Visible(): Option<NotificationBox>
      reads this
      requires Valid()
    {
      if notifications == [] then None else Some(notifications[currentIndex])
    }

    /**
     * `pause_and_reset_all_timeouts`: unless the stack is torn down, stops the timer of the box
     * on show if it is not destroyed; no other box's timer changes.
     */
    method PauseAndResetAllTimeouts()
      requires Valid() && loop.Valid()
      modifies loop, Boxes()
      ensures loop.Valid()
      ensures forall b :: b in notifications && Some(b) != Visible() ==> b.timeoutId == old(b.timeoutId)
      ensures forall b :: b in notifications ==> b.destroyed == old(b.destroyed)
      ensures !isDestroying && Visible().Some? && !old(Visible().value.destroyed) ==>
                Visible().value.timeoutId == None
                && loop.sources == Without(old(loop.sources), old(Visible().value.timeoutId))
      ensures isDestroying || Visible().None? || old(Visible().value.destroyed) ==>
                unchanged(loop) && forall b :: b in notifications ==> b.timeoutId == old(b.timeoutId)
    {
      if isDestroying || notifications == [] {
        return;
      }
      var shown := notifications[currentIndex];
      var i := 0;
      while i < |notifications|
        invariant 0 <= i <= |notifications|
        invariant loop.Valid()
        invariant forall b :: b in notifications ==> b.destroyed == old(b.destroyed)
        invariant forall b :: b in notifications && b != shown ==> b.timeoutId == old(b.timeoutId)
        invariant i <= currentIndex || old(shown.destroyed) ==> shown.timeoutId == old(shown.timeoutId) && unchanged(loop)
        invariant i > currentIndex && !old(shown.destroyed) ==>
                    shown.timeoutId == None && loop.sources == Without(old(loop.sources), old(shown.timeoutId))
      {
        var b := notifications[i];
        if !b.destroyed && i == currentIndex {
          b.StopTimeout();
        }
        i := i + 1;
      }
    }

    /**
     * `resume_all_timeouts`: unless the stack is torn down, restarts the timer of the box on show
     * if it is not destroyed; no other box's timer changes.
     */
    method ResumeAllTimeouts()
      requires Valid() && loop.Valid()
      modifies loop, Boxes()
      ensures loop.Valid()
      ensures forall b :: b in notifications && Some(b) != Visible() ==> b.timeoutId == old(b.timeoutId)
      ensures forall b :: b in notifications ==> b.destroyed == old(b.destroyed)
      ensures !isDestroying && Visible().Some? && !old(Visible().value.destroyed) && Visible().value.timeoutMs > 0 ==>
                Visible().value.timeoutId == Some(old(loop.next))
                && loop.sources == Without(old(loop.sources), old(Visible().value.timeoutId))[old(loop.next) := Visible().value]
      ensures isDestroying || Visible().None? || old(Visible().value.destroyed) ==>
                unchanged(loop) && forall b :: b in notifications ==> b.timeoutId == old(b.timeoutId)
    {
      if isDestroying || notifications == [] {
        return;
      }
      var shown := notifications[currentIndex];
      var i := 0;
      while i < |notifications|
        invariant 0 <= i <= |notifications|
        invariant loop.Valid()
        invariant forall b :: b in notifications ==> b.destroyed == old(b.destroyed)
        invariant forall b :: b in notifications && b != shown ==> b.timeoutId == old(b.timeoutId)
        invariant i <= currentIndex || old(shown.destroyed) ==> shown.timeoutId == old(shown.timeoutId) && unchanged(loop)
        invariant i > currentIndex && !old(shown.destroyed) && shown.timeoutMs > 0 ==>
                    shown.timeoutId == Some(old(loop.next))
                    && loop.sources == Without(old(loop.sources), old(shown.timeoutId))[old(loop.next) := shown]
      {
        var b := notifications[i];
        if !b.destroyed && i == currentIndex {
          b.StartTimeout();
        }
        i := i + 1;
      }
    }

    /**
     * `close_all_notifications`: a dismissal by the user for each box on the stack, in order;
     * every box's id is handled unless the stack ends up torn down.
     */
    method CloseAllNotifications(now: DateTime)
      requires Valid() && history.Valid() && loop.Valid()
      modifies this, history, fs, loop, Boxes(), history.BoxSet()
      ensures Valid() && history.Valid() && loop.Valid()
      ensures old(isDestroying) ==> unchanged(this, history, fs, loop)
      ensures old(destroyedIds) <= destroyedIds <= old(destroyedIds) + IdsOf(old(notifications))
      ensures forall k :: 0 <= k < |old(notifications)| ==> old(notifications)[k].notification.id in destroyedIds || isDestroying
    {
      var toClose := notifications;
      var i := 0;
      while i < |toClose|
        invariant 0 <= i <= |toClose|
        invariant Valid() && history.Valid() && loop.Valid()
        invariant Boxes() <= old(Boxes()) && history.BoxSet() <= old(history.BoxSet()) + old(Boxes())
        invariant old(isDestroying) ==> unchanged(this, history, fs, loop)
        invariant old(destroyedIds) <= destroyedIds <= old(destroyedIds) + IdsOf(toClose)
        invariant forall k :: 0 <= k < i ==> toClose[k].notification.id in destroyedIds || isDestroying
      {
        OnNotificationClosed(toClose[i].notification.id, DismissedByUser, now);
        i := i + 1;
      }
    }

    /**
     * A pending timer `h` fires: its box's `close_notification` asks for an "expired" close,
     * which reaches `on_notification_closed` when the box is on the stack, then stops the box's
     * timer; the main loop drops the source because the callback returns False.
     */
    method OnTimerFired(h: nat, now: DateTime)
      requires Valid() && history.Valid() && loop.Valid()
      requires h in loop.sources && loop.sources[h].fs == fs && loop.sources[h].loop == loop
      modifies this, history, fs, loop, loop.sources[h], Boxes(), history.BoxSet()
      ensures Valid() && history.Valid() && loop.Valid()
      ensures h !in loop.sources
      ensures !old(loop.sources[h].destroyed) ==> old(loop.sources[h]).timeoutId == None
      ensures old(loop.sources[h].destroyed) || !old(loop.sources[h].inPopup) ==> unchanged(this, history, fs)
    {
      var b := loop.sources[h];
      if !b.destroyed {
        if b.inPopup {
          OnNotificationClosed(b.notification.id, Expired, now);
        }
        b.StopTimeout();
      }
      loop.sources := loop.sources - {h};
    }
  }

  /** Matches the boxes of application `app`. */
  function IsFromApp(app: string): NotificationBox -> bool {
    (b: NotificationBox) => b.notification.appName == app
  }

  /** Matches the boxes of the notification with id `id`. */
  function HasId(id: int): NotificationBox -> bool {
    (b: NotificationBox) => b.notification.id == id
  }

  /** The notification ids of the boxes. */
  function IdsOf(bs: seq<NotificationBox>): set<int> {
    set b | b in bs :: b.notification.id
  }

  /**
   * The stack the new box of application `app` lands on: a limited application's own box (the
   * first one) is taken off; otherwise the boxes that make room are.
   */
  function Admitted(s: seq<NotificationBox>, app: string, limited: seq<string>): (r: seq<NotificationBox>)
    ensures |r| < MaxVisible || (|s| > MaxVisible && |r| == |s| - 1)
  {
    if app in limited && FirstWhere(s, IsFromApp(app)) >= 0 then RemoveAt(s, FirstWhere(s, IsFromApp(app)))
    else Kept(s)
  }

  /**
   * The stack after box `i` of `s` (with box `current` on show) was closed for `reason`: the
   * box's timer is stopped, it is in the history or destroyed as the reason says, and it left
   * the stack (the index moving per `IndexAfterRemoval`), unless it was the last box, which
   * stays and sets the latch.
   */
  ghost predicate Closing(s: seq<NotificationBox>, i: nat, current: nat, reason: CloseReason,
                          after: seq<NotificationBox>, index: nat, latch: bool)
    reads s
  {
    i < |s| && current < |s|
    && s[i].timeoutId == None
    && (KeptOnClose(s[i].notification, reason) ==> s[i].isHistory)
    && (!KeptOnClose(s[i].notification, reason) ==> s[i].destroyed)
    && (|s| == 1 ==> latch && after == s && index == current)
    && (|s| >= 2 ==> !latch && after == RemoveAt(s, i) && index == IndexAfterRemoval(i, current, |s|))
  }
}
