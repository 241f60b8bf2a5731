/**
 * The notification history panel, `NotificationHistory` (Ax-Shell/modules/notifications.py):
 * the list of history rows (newest first, at most 20), the in-memory list of persisted notes,
 * the do-not-disturb switch, the orphan sweep of cached images and the date-grouped display
 * order. Widgets are not modelled; a row is a `HistoryContainer` holding its box and arrival
 * time.
 */
module NotifHistory {
  import opened Wrappers
  import opened Text
  import opened Sorting
  import opened NotifConfig
  import opened DateHeaders
  import opened NotifBox

  /** The cap on history rows and on persisted notes. */
  const HistoryLimit: nat := 20

  /** The dictionary `_append_persistent_notification` records. */
  datatype PersistedNote = PersistedNote(
    id: string,
    appIcon: string,
    summary: string,
    body: string,
    appName: string,
    timestamp: DateTime,
    cachedImagePath: Option<string>)

  function NoteOf(b: NotificationBox, arrival: DateTime): PersistedNote {
    PersistedNote(b.uuid, b.notification.appIcon, b.notification.summary, b.notification.body,
                  b.notification.appName, arrival, b.cachedImagePath)
  }

  /** One history row: the box it shows and when it arrived. */
  class HistoryContainer {
    const box: NotificationBox
    const arrival: DateTime

    constructor(b: NotificationBox, t: DateTime)
      ensures box == b && arrival == t
    {
      box := b;
      arrival := t;
    }
  }

  function AppOf(c: HistoryContainer): string {
    c.box.notification.appName
  }

  // ---------------------------------------------------------------- list functions

  predicate Distinct<T(==)>(s: seq<T>) {
    forall i, j :: 0 <= i < j < |s| ==> s[i] != s[j]
  }

  /** `s` without the elements of `rm`, in order. */
  function RemoveAll<T>(s: seq<T>, rm: set<T>): (r: seq<T>)
    ensures forall x :: x in r ==> x in s && x !in rm
    ensures forall x :: x in s && x !in rm ==> x in r
    ensures |r| <= |s|
  {
    if s == [] then []
    else (if s[0] in rm then [] else [s[0]]) + RemoveAll(s[1..], rm)
  }

  /** Removing elements from a list without repetitions leaves a list without repetitions. */
  lemma {:induction false} RemoveAllDistinct<T>(s: seq<T>, rm: set<T>)
    requires Distinct(s)
    ensures Distinct(RemoveAll(s, rm))
    decreases |s|
  {
    if s != [] {
      RemoveAllDistinct(s[1..], rm);
      assert s[0] !in s[1..];
    }
  }

  /** Removing elements the list does not hold changes nothing. */
  lemma {:induction false} RemoveNothing<T>(s: seq<T>, rm: set<T>)
    requires forall x :: x in s ==> x !in rm
    ensures RemoveAll(s, rm) == s
    decreases |s|
  {
    if s != [] {
      RemoveNothing(s[1..], rm);
      assert s == [s[0]] + s[1..];
    }
  }

  /** The rows of other applications (the survivors of `clear_history_for_app`). */
  function WithoutApp(cs: seq<HistoryContainer>, app: string): (r: seq<HistoryContainer>)
    ensures forall c :: c in r ==> c in cs && AppOf(c) != app
    ensures forall c :: c in cs && AppOf(c) != app ==> c in r
    ensures |r| <= |cs|
    ensures Distinct(cs) ==> Distinct(r)
  {
    if cs == [] then []
    else
      assert Distinct(cs) ==> cs[0] !in cs[1..];
      (if AppOf(cs[0]) != app then [cs[0]] else []) + WithoutApp(cs[1..], app)
  }

  /** The rows of application `app`, in order. */
  function OfApp(cs: seq<HistoryContainer>, app: string): (r: seq<HistoryContainer>)
    ensures forall c :: c in r ==> c in cs && AppOf(c) == app
    ensures forall c :: c in cs && AppOf(c) == app ==> c in r
  {
    if cs == [] then []
    else (if AppOf(cs[0]) == app then [cs[0]] else []) + OfApp(cs[1..], app)
  }

  function UuidsOf(cs: seq<HistoryContainer>): set<string> {
    set c | c in cs :: c.box.uuid
  }

  /** The cached image path of a row's box, if it has one. */
  function ImageOf(c: HistoryContainer): set<string> {
    Elements(c.box.cachedImagePath)
  }

  /** The cached image paths of the rows' boxes. */
  function PathsOf(cs: seq<HistoryContainer>): set<string> {
    PathsUpTo(cs, |cs|)
  }

  /** The cached image paths of the first `n` rows' boxes. */
  function PathsUpTo(cs: seq<HistoryContainer>, n: nat): set<string>
    requires n <= |cs|
  {
    if n == 0 then {} else PathsUpTo(cs, n - 1) + ImageOf(cs[n - 1])
  }

  /** The notes whose id is not in `ids`. */
  function NotesWithoutIds(ps: seq<PersistedNote>, ids: set<string>): (r: seq<PersistedNote>)
    ensures forall n :: n in r <==> n in ps && n.id !in ids
    ensures |r| <= |ps|
    ensures (forall n :: n in ps ==> n.id !in ids) ==> r == ps
  {
    if ps == [] then []
    else (if ps[0].id in ids then [] else [ps[0]]) + NotesWithoutIds(ps[1..], ids)
  }

  /** `xs[:n]`. */
  function Take<T>(xs: seq<T>, n: nat): (r: seq<T>)
    ensures |r| <= n && |r| <= |xs| && r == xs[..|r|]
    ensures |xs| <= n ==> r == xs
  {
    if |xs| <= n then xs else xs[..n]
  }

  /** The non-empty ids of the persisted notes (`history_uuids`). */
  function NoteIds(ps: seq<PersistedNote>): set<string> {
    set n | n in ps && n.id != "" :: n.id
  }

  /**
   * The cached images the orphan sweep deletes from `files`: only cached image names, and never
   * the image of a persisted note.
   */
  function Orphans(files: set<string>, ps: seq<PersistedNote>): (r: set<string>)
    ensures r <= files
    ensures forall f :: f in r ==> IsCacheFileName(f)
    ensures forall id :: id in NoteIds(ps) ==> CacheFileName(id) !in r
  {
    NoteImagesKept(NoteIds(ps));
    set f | f in files && IsCacheFileName(f) && UuidOfCacheFile(f) !in NoteIds(ps)
  }

  /** The image name of a kept id slices back to that id, so the sweep passes it over. */
  lemma NoteImagesKept(ids: set<string>)
    ensures forall id :: id in ids ==> UuidOfCacheFile(CacheFileName(id)) in ids
  {
    forall id | id in ids
      ensures UuidOfCacheFile(CacheFileName(id)) in ids
    {
      UuidOfCacheFileName(id);
    }
  }

  // ---------------------------------------------------------------- what one add does

  /**
   * The rows kept before inserting a notification of `app`: a limited app's rows go, every
   * other row stays.
   */
  function KeptRows(cs: seq<HistoryContainer>, app: string, limited: seq<string>): (r: seq<HistoryContainer>)
    ensures forall c :: c in r ==> c in cs
    ensures app in limited ==> forall c :: c in r ==> AppOf(c) != app
    ensures forall c :: c in cs && (app !in limited || AppOf(c) != app) ==> c in r
    ensures Distinct(cs) ==> Distinct(r)
  {
    if app in limited then WithoutApp(cs, app) else cs
  }

  /** Dropping the oldest row when the list is full (`containers.pop()`). */
  function DropOldest(cs: seq<HistoryContainer>): (r: seq<HistoryContainer>)
    ensures |cs| <= HistoryLimit ==> |r| < HistoryLimit
    ensures |r| <= |cs| && r == cs[..|r|]
  {
    if |cs| >= HistoryLimit then cs[..|cs| - 1] else cs
  }

  /** The rows `clear_history_for_app` removes before a notification of `app` is kept. */
  function Cleared(cs: seq<HistoryContainer>, app: string, limited: seq<string>): (r: seq<HistoryContainer>)
    ensures app !in limited ==> UuidsOf(r) == {} && PathsOf(r) == {}
  {
    if app in limited then OfApp(cs, app) else []
  }

  /** The row whose cached image the cap deletes, if the list is full. */
  function Oldest(cs: seq<HistoryContainer>): seq<HistoryContainer> {
    if |cs| >= HistoryLimit then [cs[|cs| - 1]] else []
  }

  /**
   * Adding keeps the cap: with at most 20 rows before, the new row plus the kept rows are at most
   * 20, the new row is first, and the kept rows keep their order.
   */
  lemma AddedRowsCapped(cs: seq<HistoryContainer>, c: HistoryContainer, app: string, limited: seq<string>)
    requires |cs| <= HistoryLimit
    ensures var r := [c] + DropOldest(KeptRows(cs, app, limited));
      |r| <= HistoryLimit && r[0] == c && |r| >= 1
  {
  }

  /**
   * After adding a notification of a limited application, the new row is the only row of that
   * application.
   */
  lemma AddedLimitedAppIsAlone(cs: seq<HistoryContainer>, c: HistoryContainer, app: string, limited: seq<string>)
    requires app in limited
    ensures var r := [c] + DropOldest(KeptRows(cs, app, limited));
      forall i :: 1 <= i < |r| ==> AppOf(r[i]) != app
  {
    var kept := KeptRows(cs, app, limited);
    var r := [c] + DropOldest(kept);
    forall i | 1 <= i < |r|
      ensures AppOf(r[i]) != app
    {
      assert r[i] == DropOldest(kept)[i - 1];
      assert r[i] in kept;
    }
  }

  /** The persisted list also stays within the cap, newest note first. */
  lemma AddedNotesCapped(ps: seq<PersistedNote>, n: PersistedNote, ids: set<string>)
    ensures var r := Take([n] + NotesWithoutIds(ps, ids), HistoryLimit);
      |r| <= HistoryLimit && |r| >= 1 && r[0] == n
      && forall i :: 1 <= i < |r| ==> r[i] in ps && r[i].id !in ids
  {
    var r := Take([n] + NotesWithoutIds(ps, ids), HistoryLimit);
    forall i | 1 <= i < |r|
      ensures r[i] in ps && r[i].id !in ids
    {
      assert r[i] == NotesWithoutIds(ps, ids)[i - 1];
    }
  }

  /** With nothing persisted, the sweep deletes every cached notification image. */
  lemma SweepWithoutNotesDeletesAllImages(files: set<string>)
    ensures Orphans(files, []) == set f | f in files && IsCacheFileName(f)
    ensures forall f :: f in files - Orphans(files, []) ==> !IsCacheFileName(f)
  {
  }

  /** No box of `bs` belongs to application `app`. */
  predicate NoneOfApp(bs: set<NotificationBox>, app: string) {
    forall b :: b in bs ==> b.notification.appName != app
  }

  // ---------------------------------------------------------------- the panel

  class NotificationHistory {
    const config: ConfigStore
    const fs: FileSystem
    const loop: MainLoop

    var doNotDisturb: bool
    /** The history rows, newest first. */
    var containers: seq<HistoryContainer>
    /** `persistent_notifications`, newest first. */
    var persistent: seq<PersistedNote>

    ghost predicate Valid()
      reads this
    {
      |containers| <= HistoryLimit && |persistent| <= HistoryLimit
      && Distinct(containers)
      && (forall c :: c in containers ==> c.box.fs == fs && c.box.loop == loop)
    }

    /** The boxes shown by the rows. */
    function BoxSet(): set<NotificationBox>
      reads this
    {
      set c | c in containers :: c.box
    }

    /**
     * `NotificationHistory()`: reads the do-not-disturb setting, starts with no rows and no
     * persisted notes (nothing is loaded from disk), and sweeps the cached images, which with no
     * notes deletes every one. `listing` is what `os.listdir` returns.
     */
    constructor(config: ConfigStore, fs: FileSystem, loop: MainLoop, listing: seq<string>)
      requires (set f | f in listing) == fs.files
      modifies fs
      ensures this.config == config && this.fs == fs && this.loop == loop
      ensures doNotDisturb == DoNotDisturb(config.file)
      ensures containers == [] && persistent == []
      ensures fs.files == old(fs.files) - Orphans(old(fs.files), [])
      ensures Valid()
    {
      this.config := config;
      this.fs := fs;
      this.loop := loop;
      doNotDisturb := DoNotDisturb(config.file);
      containers := [];
      persistent := [];
      new;
      SweepOrphans(listing);
    }

    /** `on_do_not_disturb_changed`: remembers the switch and writes it to the settings file. */
    method SetDoNotDisturb(enabled: bool)
      modifies this, config
      ensures doNotDisturb == enabled
      ensures config.file == WithDoNotDisturb(old(config.file), enabled)
      ensures containers == old(containers) && persistent == old(persistent)
    {
      doNotDisturb := enabled;
      config.SaveDoNotDisturb(enabled);
    }

    /** `_cleanup_orphan_cached_images`: deletes every cached image no persisted note refers to. */
    method SweepOrphans(listing: seq<string>)
      requires (set f | f in listing) == fs.files
      modifies fs
      ensures fs.files == old(fs.files) - Orphans(old(fs.files), persistent)
    {
      var ids := NoteIds(persistent);
      var i := 0;
      while i < |listing|
        invariant 0 <= i <= |listing|
        invariant fs.files == old(fs.files) - set f | f in listing[..i] && IsCacheFileName(f) && UuidOfCacheFile(f) !in ids
      {
        var name := listing[i];
        if IsCacheFileName(name) && UuidOfCacheFile(name) !in ids {
          fs.files := fs.files - {name};
        }
        assert listing[..i + 1] == listing[..i] + [name];
        i := i + 1;
      }
      assert listing[..i] == listing;
    }

    /**
     * `clear_history_for_app(app)`: deletes the cached image of every row of `app`, destroys
     * their boxes, removes the rows, and drops the persisted notes with those rows' uuids.
     */
    method ClearHistoryForApp(app: string)
      requires Valid() && loop.Valid()
      modifies this, fs, loop, BoxSet()
      ensures Valid() && loop.Valid()
      ensures containers == WithoutApp(old(containers), app)
      ensures persistent == NotesWithoutIds(old(persistent), UuidsOf(OfApp(old(containers), app)))
      ensures fs.files == old(fs.files) - PathsOf(OfApp(old(containers), app))
      ensures forall c :: c in old(containers) && AppOf(c) == app ==> c.box.destroyed
      ensures doNotDisturb == old(doNotDisturb)
      ensures BoxSet() <= old(BoxSet())
      ensures forall c :: c in old(containers) ==> c.box.isHistory == old(c.box.isHistory) && c.box.inPopup == old(c.box.inPopup)
      ensures NoneOfApp(BoxSet(), app)
    {
      var toRemove := OfApp(containers, app);
      var ids := UuidsOf(toRemove);
      DestroyRows(toRemove);
      containers := WithoutApp(containers, app);
      persistent := NotesWithoutIds(persistent, ids);
      forall b | b in BoxSet() ensures b.notification.appName != app {
        var c :| c in containers && c.box == b;
      }
    }

    /**
     * Deletes the cached image of each of `rows` and destroys its box as a history deletion; the
     * row lists are left to the caller. (The box's own deletion then finds no file.)
     */
    method DestroyRows(rows: seq<HistoryContainer>)
      requires loop.Valid()
      requires forall x :: x in rows ==> x.box.fs == fs && x.box.loop == loop
      modifies fs, loop, set x | x in rows :: x.box
      ensures loop.Valid()
      ensures fs.files == old(fs.files) - PathsOf(rows)
      ensures forall k :: 0 <= k < |rows| ==> rows[k].box.destroyed
      ensures forall k :: 0 <= k < |rows| ==> rows[k].box.isHistory == old(rows[k].box.isHistory) && rows[k].box.inPopup == old(rows[k].box.inPopup)
    {
      var i := 0;
      while i < |rows|
        invariant 0 <= i <= |rows|
        invariant fs.files == old(fs.files) - PathsUpTo(rows, i)
        invariant forall k :: 0 <= k < i ==> rows[k].box.destroyed
        invariant forall k :: 0 <= k < |rows| ==> rows[k].box.isHistory == old(rows[k].box.isHistory) && rows[k].box.inPopup == old(rows[k].box.inPopup)
        invariant loop.Valid()
      {
        DestroyRow(rows[i]);
        i := i + 1;
      }
    }

    /** One step of `DestroyRows`: the row's cached image is deleted and its box destroyed. */
    method DestroyRow(c: HistoryContainer)
      requires loop.Valid() && c.box.fs == fs && c.box.loop == loop
      modifies fs, loop, c.box
      ensures loop.Valid()
      ensures fs.files == old(fs.files) - ImageOf(c)
      ensures c.box.destroyed
      ensures c.box.isHistory == old(c.box.isHistory) && c.box.inPopup == old(c.box.inPopup)
    {
      if c.box.cachedImagePath.Some? && c.box.cachedImagePath.value in fs.files {
        fs.files := fs.files - {c.box.cachedImagePath.value};
      }
      c.box.Destroy(true);
    }

    /** The cap step of `add_notification`: a full list drops its oldest row and that row's image. */
    method DropOldestRow()
      requires Valid()
      modifies this, fs
      ensures Valid()
      ensures containers == DropOldest(old(containers)) && |containers| < HistoryLimit
      ensures fs.files == old(fs.files) - PathsOf(Oldest(old(containers)))
      ensures persistent == old(persistent) && doNotDisturb == old(doNotDisturb)
    {
      if |containers| >= HistoryLimit {
        var oldest := containers[|containers| - 1];
        containers := containers[..|containers| - 1];
        if oldest.box.cachedImagePath.Some? && oldest.box.cachedImagePath.value in fs.files {
          fs.files := fs.files - {oldest.box.cachedImagePath.value};
        }
        assert PathsUpTo([oldest], 0) == {};
        assert PathsOf(Oldest(old(containers))) == ImageOf(oldest);
      } else {
        assert PathsOf(Oldest(old(containers))) == {};
      }
    }

    /**
     * `add_notification(box)` at time `now`: a box of an ignored application is destroyed and
     * not kept; otherwise the box gets a row of its own (`KeepRow`).
     */
    method AddNotification(box: NotificationBox, now: DateTime)
      requires Valid() && loop.Valid()
      requires box.fs == fs && box.loop == loop
      modifies this, fs, loop, box, BoxSet()
      ensures Valid() && loop.Valid()
      ensures doNotDisturb == old(doNotDisturb)
      ensures BoxSet() <= old(BoxSet()) + {box}
      ensures box.isHistory == old(box.isHistory) && box.inPopup == old(box.inPopup)
      ensures box.notification.appName in IgnoredApps(config.file) ==>
                containers == old(containers) && persistent == old(persistent) && box.destroyed
                && fs.files == (if old(box.DeletesFile(true)) then old(fs.files) - {box.cachedImagePath.value} else old(fs.files))
      ensures box.notification.appName !in IgnoredApps(config.file) ==>
                |containers| >= 1 && fresh(containers[0])
                && containers[0].box == box && containers[0].arrival == now
      ensures box.notification.appName !in IgnoredApps(config.file) ==>
                containers[1..] == DropOldest(KeptRows(old(containers), box.notification.appName, LimitedApps(config.file)))
      ensures box.notification.appName !in IgnoredApps(config.file) ==>
                persistent == Take([NoteOf(box, now)] + NotesWithoutIds(old(persistent), UuidsOf(Cleared(old(containers), box.notification.appName, LimitedApps(config.file)))), HistoryLimit)
      ensures box.notification.appName !in IgnoredApps(config.file) ==>
                fs.files == old(fs.files) - PathsOf(Cleared(old(containers), box.notification.appName, LimitedApps(config.file)))
                            - PathsOf(Oldest(KeptRows(old(containers), box.notification.appName, LimitedApps(config.file))))
    {
      if box.notification.appName in IgnoredApps(config.file) {
        box.Destroy(true);
      } else {
        KeepRow(box, now);
      }
    }

    /**
     * The keeping part of `add_notification`: the rows of a limited application are cleared
     * first, the oldest row is dropped (and its cached image deleted) when 20 are kept, and the
     * new row and its note go in front.
     */
    method KeepRow(box: NotificationBox, now: DateTime)
      requires Valid() && loop.Valid()
      requires box.fs == fs && box.loop == loop
      modifies this, fs, loop, BoxSet()
      ensures Valid() && loop.Valid()
      ensures doNotDisturb == old(doNotDisturb)
      ensures BoxSet() <= old(BoxSet()) + {box}
      ensures box.isHistory == old(box.isHistory) && box.inPopup == old(box.inPopup)
      ensures |containers| >= 1 && fresh(containers[0]) && containers[0].box == box && containers[0].arrival == now
      ensures containers[1..] == DropOldest(KeptRows(old(containers), box.notification.appName, LimitedApps(config.file)))
      ensures persistent == Take([NoteOf(box, now)] + NotesWithoutIds(old(persistent), UuidsOf(Cleared(old(containers), box.notification.appName, LimitedApps(config.file)))), HistoryLimit)
      ensures fs.files == old(fs.files) - PathsOf(Cleared(old(containers), box.notification.appName, LimitedApps(config.file)))
                          - PathsOf(Oldest(KeptRows(old(containers), box.notification.appName, LimitedApps(config.file))))
    {
      var app := box.notification.appName;
      if app in LimitedApps(config.file) {
        ClearHistoryForApp(app);
      } else {
        assert NotesWithoutIds(persistent, {}) == persistent;
      }
      PushRow(box, now);
    }

    /** The new row and its note go in front, after the oldest row is dropped from a full list. */
    method PushRow(box: NotificationBox, now: DateTime)
      requires Valid() && box.fs == fs && box.loop == loop
      modifies this, fs
      ensures Valid() && doNotDisturb == old(doNotDisturb)
      ensures BoxSet() <= old(BoxSet()) + {box}
      ensures |containers| >= 1 && fresh(containers[0]) && containers[0].box == box && containers[0].arrival == now
      ensures containers[1..] == DropOldest(old(containers))
      ensures persistent == Take([NoteOf(box, now)] + old(persistent), HistoryLimit)
      ensures fs.files == old(fs.files) - PathsOf(Oldest(old(containers)))
    {
      DropOldestRow();
      var c := new HistoryContainer(box, now);
      containers := [c] + containers;
      persistent := Take([NoteOf(box, now)] + persistent, HistoryLimit);
    }

    /**
     * The close button of a live history row: the row leaves the list (the second connected
     * handler finds it gone and does nothing); its box, cached image and note stay.
     */
    method OnContainerDestroy(c: HistoryContainer)
      requires Valid()
      modifies this
      ensures Valid()
      ensures containers == RemoveAll(old(containers), {c})
      ensures persistent == old(persistent) && doNotDisturb == old(doNotDisturb)
    {
      if c in containers {
        RemoveAllDistinct(containers, {c});
        containers := RemoveAll(containers, {c});
      } else {
        RemoveNothing(containers, {c});
      }
    }

    /**
     * `delete_historical_notification(note_id, container)`: destroys the row's box as a history
     * deletion, drops every note with that id and removes the row.
     */
    method DeleteHistoricalNotification(noteId: string, c: HistoryContainer)
      requires Valid() && loop.Valid()
      requires c.box.fs == fs && c.box.loop == loop
      modifies this, fs, loop, c.box
      ensures Valid() && loop.Valid()
      ensures c.box.destroyed
      ensures fs.files == if old(c.box.DeletesFile(true)) then old(fs.files) - {c.box.cachedImagePath.value} else old(fs.files)
      ensures persistent == NotesWithoutIds(old(persistent), {noteId})
      ensures containers == RemoveAll(old(containers), {c})
    {
      c.box.Destroy(true);
      persistent := NotesWithoutIds(persistent, {noteId});
      RemoveAllDistinct(containers, {c});
      containers := RemoveAll(containers, {c});
    }

    /**
     * `clear_history`: destroys every row's box as a history deletion (deleting its cached image)
     * and empties both lists.
     */
    method ClearHistory()
      requires Valid() && loop.Valid()
      modifies this, fs, loop, BoxSet()
      ensures Valid() && loop.Valid()
      ensures containers == [] && persistent == []
      ensures fs.files == old(fs.files) - PathsOf(old(containers))
      ensures forall c :: c in old(containers) ==> c.box.destroyed
    {
      DestroyRows(containers);
      persistent := [];
      containers := [];
    }

    /** The display order of `_do_rebuild_with_separators`, with `datetime.now()` as `now`. */
    function Rows(now: DateTime): seq<Row<HistoryContainer>>
      reads this
    {
      HistoryRows(containers, now)
    }
  }

  /** The rows, newest arrival first. */
  function NewestFirst(cs: seq<HistoryContainer>): seq<HistoryContainer> {
    Sort(cs, (c: HistoryContainer) => c.arrival, Later)
  }

  /** The rows sorted newest first and grouped under date separators. */
  function HistoryRows(cs: seq<HistoryContainer>, now: DateTime): seq<Row<HistoryContainer>> {
    Group(NewestFirst(cs), (c: HistoryContainer) => DateHeader(c.arrival, now), None)
  }

  lemma LaterIsStrictOrder()
    ensures StrictOrder(Later)
  {
  }

  /**
   * The history shows every row exactly once, newest first, each under the separator of its own
   * date header, with a separator exactly where the header changes.
   */
  lemma HistoryRowsShape(cs: seq<HistoryContainer>, now: DateTime)
    ensures multiset(Entries(HistoryRows(cs, now))) == multiset(cs)
    ensures SortedBy(Entries(HistoryRows(cs, now)), (c: HistoryContainer) => c.arrival, Later)
    ensures WellGrouped(HistoryRows(cs, now), (c: HistoryContainer) => DateHeader(c.arrival, now), None)
  {
    var headerOf := (c: HistoryContainer) => DateHeader(c.arrival, now);
    GroupEntries(NewestFirst(cs), headerOf, None);
    LaterIsStrictOrder();
    SortSorted(cs, (c: HistoryContainer) => c.arrival, Later);
    GroupHeaders(NewestFirst(cs), headerOf, None);
  }

  /** An empty history shows no rows, so the separator cleanup after the loop never runs. */
  lemma EmptyHistoryHasNoRows(now: DateTime)
    ensures HistoryRows([], now) == []
  {
  }
}
