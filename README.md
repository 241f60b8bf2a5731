# Ax-Shell core, modelled in Dafny

Ax-Shell is a Hyprland desktop shell. This project models its notification centre, its
wallpaper selector, its application launcher and its occlusion helper, and proves what
each of them promises about its state and its answers.

- **Notifications** (`notif_config.dfy`, `notif_dates.dfy`, `notif_box.dfy`,
  `notif_history.dfy`, `notif_stack.dfy`):
  - The configuration loader and the do-not-disturb switch.
  - The date headers of the history ("Today", "Yesterday", "March 3rd, 2023").
  - `NotificationBox`, with its single timeout timer and its destroy latch. Its cached image
    is deleted when the box is destroyed outside the history, or deleted from the history.
  - `NotificationHistory`, with add, delete, clear and clear-for-app, the cap of 20 rows and
    20 persisted notes, the rebuild with date separators, and the sweep of orphaned cached
    images.
  - `NotificationContainer`, the popup stack:
    - admission with its eviction at five boxes;
    - the replacement rule for limited applications;
    - paging between boxes;
    - the close handler with its index bookkeeping and its "last box" latch;
    - pause and resume of timeouts.
- **Wallpapers** (`wallpapers.dfy`):
  - the recursive image listing, sorted by lowered basename;
  - the page count and page slices;
  - previous/next page, and the arrow-key navigation of the thumbnail grid;
  - the substring search and its pages;
  - the centred square crop of thumbnails;
  - cycling of the colour scheme.
- **Launcher** (`launcher.dfy`):
  - the command-name extraction and the application filter;
  - the ranking by usage count, then name;
  - the selection moves and the usage counter;
  - the calculator and conversion histories: deleting an entry with its reselection, the
    text copied from an entry, and the display truncation.
- **Occlusion** (`occlusion.dfy`):
  - the conversion of a screen edge into a rectangle, and the half-open overlap test;
  - the client filter and the parsing of `hyprctl activeworkspace`;
  - the five-second caches of the workspace id and of the screen size. These are a
    `QueryCache` object whose methods take the current time as a parameter.
- Shared modules:
  - `wrappers.dfy`: `Option`;
  - `text.dfy`: string helpers standing for Python's `lower`, `in`, `split`, `strip` and
    `int`;
  - `sorting.dfy`: a stable insertion sort standing for `sorted`.

Objects that the program updates in place are classes whose methods state their new state;
the few that leave part of it to the methods they call are listed under "Left out". Pure
computations are functions with lemmas. The program's loops are methods proved
against those functions.

External effects are parameters of the model:
- the clock is a `now` argument;
- the outputs of `hyprctl` are a `Snapshot`;
- the directory walk is a list of paths;
- the files of the notification image cache are a `FileSystem` object;
- GLib's timers are handles in a `MainLoop` object.

## Model

| member | source | states |
|---|---|---|
| Text.Lower | Ax-Shell/modules/launcher.py:205-213 | `casefold()`/`lower()`: the result has the input's length and each character is the lowered input character |
| Text.ContainsIff | Ax-Shell/modules/launcher.py:205-213 | Python's `in` on strings: `sub` is contained exactly when it occurs at some position |
| Text.FindFirst | Ax-Shell/modules/launcher.py:646 | the position of the first occurrence of the separator: the separator is there and at no earlier position; None exactly when it does not occur |
| Text.Strip | Ax-Shell/modules/wallpapers.py:423 | `strip()`: no longer than the input, and neither starts nor ends with whitespace |
| Text.StripPadded | Ax-Shell/modules/wallpapers.py:423 | `strip()` removes exactly the surrounding whitespace: a string that neither starts nor ends with whitespace, padded on both sides, strips back to itself |
| Text.FirstToken | Ax-Shell/modules/launcher.py:196 | `split()[0]` or "": a whitespace-free string no longer than the input |
| Text.FirstTokenOfWord | Ax-Shell/modules/launcher.py:196 | a leading word followed by whitespace (or nothing) is the first token |
| Text.FirstTokenAfterSpace | Ax-Shell/modules/launcher.py:196 | any leading run of whitespace leaves the first token unchanged |
| Text.FirstTokenEmpty | Ax-Shell/modules/launcher.py:196 | the first token is empty exactly when the stripped string is empty |
| Text.AfterLastSlash | Ax-Shell/modules/launcher.py:198-199 | `split("/")[-1]` / `basename`: the longest suffix without "/", which is the whole string or follows a "/" |
| Text.ParseIntToString | Ax-Shell/utils/occlusion.py:33 | `int()` reads back every printed integer |
| Text.ParseInt | Ax-Shell/utils/occlusion.py:33 | `int()` of a token: a number only for an optional sign then digits, negative only behind "-", and every digit string is one |
| Text.StrLessTransitive | Ax-Shell/modules/wallpapers.py:252 | the string order used by the basename sort key is transitive |
| Text.StrLessTotal | Ax-Shell/modules/wallpapers.py:252 | any two distinct strings are ordered one way or the other |
| Sorting.Sort | Ax-Shell/modules/launcher.py:217-221 | `sorted`: a permutation of the input |
| Sorting.SortSorted | Ax-Shell/modules/launcher.py:217-221 | `sorted` under a strict order yields a sequence ordered by the key |
| Sorting.SortSameElements | Ax-Shell/modules/wallpapers.py:252 | sorting keeps exactly the input's elements |
| Sorting.SortStable | Ax-Shell/modules/launcher.py:217-221 | `sorted` is stable: for every key, the elements of that key keep their input order |
| NotifConfig.LoadConfig | Ax-Shell/modules/notifications.py:30-51 | both app-list keys are always present; stored keys keep their values; every other key comes from the defaults |
| NotifConfig.LimitedApps | Ax-Shell/modules/notifications.py:64-66 | the stored limited list, or no app when the file stores none |
| NotifConfig.IgnoredApps | Ax-Shell/modules/notifications.py:69-71 | the stored ignored list, or only the empty name when the file stores none |
| NotifConfig.DoNotDisturb | Ax-Shell/modules/notifications.py:522-524 | the switch is on only when the file stores a truthy value under `do_not_disturb_enabled` |
| NotifConfig.AppListsNeverFallBack | Ax-Shell/modules/notifications.py:64-71 | the getters' fallbacks are unreachable: "Spotify" is limited or "Hyprshot" ignored only when the file itself stores it |
| NotifConfig.WithDoNotDisturb | Ax-Shell/modules/notifications.py:600-607 | the saved file records the switch and keeps both app lists and every other loaded key |
| NotifConfig.ConfigStore.SaveDoNotDisturb | Ax-Shell/modules/notifications.py:600-607 | the stored file becomes the loaded config with the switch set |
| DateHeaders.DaysInMonth | Ax-Shell/modules/notifications.py:621 | every month has 28 to 31 days |
| DateHeaders.NextDay | Ax-Shell/modules/notifications.py:621 | the following calendar day differs from the day |
| DateHeaders.PrevOfNext | Ax-Shell/modules/notifications.py:621 | `timedelta(days=1)` forwards and back returns the same date |
| DateHeaders.NextOfPrev | Ax-Shell/modules/notifications.py:621 | back one day and forwards again returns the same date |
| DateHeaders.Ordinal | Ax-Shell/modules/notifications.py:609-613 | a two-letter suffix; anything but "th" only for a last digit 1-3 outside 11-13 |
| DateHeaders.YesterdayIsPrevDay | Ax-Shell/modules/notifications.py:621 | a date is "today minus one day" exactly when the day after it is today |
| DateHeaders.OrdinalOfDays | Ax-Shell/modules/notifications.py:609-613 | for days 1..31 the suffix is "st" for 1, 21, 31, "nd" for 2, 22, "rd" for 3, 23 and "th" otherwise (11-13 included) |
| DateHeaders.MonthName | Ax-Shell/modules/notifications.py:632 | an English month name: a capital initial, no comma |
| DateHeaders.DayLabel | Ax-Shell/modules/notifications.py:630-634 | "Month Day+ordinal": starts with a month initial and holds no comma |
| DateHeaders.DayLabelReadsBack | Ax-Shell/modules/notifications.py:630-634 | the label is the month name and a space, then digits that read back as the day, then the day's two-letter suffix |
| DateHeaders.DateHeader | Ax-Shell/modules/notifications.py:615-639 | "Today" exactly for today's date and "Yesterday" exactly for the day before |
| DateHeaders.HeaderShowsOtherYear | Ax-Shell/modules/notifications.py:630-636 | any older date gives exactly the day label in the current year and the day label, ", " and the year otherwise; the header holds a comma exactly when the year differs |
| DateHeaders.GroupEntries | Ax-Shell/modules/notifications.py:677-694 | the rows between the separators are exactly the containers, in order |
| DateHeaders.GroupHeaders | Ax-Shell/modules/notifications.py:684-694 | a separator precedes an entry exactly when its header differs from the previous entry's |
| NotifBox.UuidOfCacheFileName | Ax-Shell/modules/notifications.py:80-82 | a cached image name `notification_<uuid>.png` passes the sweep's filter and its slice gives back the uuid |
| NotifBox.CacheFileNameOfUuid | Ax-Shell/modules/notifications.py:1095-1110 | every name the sweep selects is the cached image name of the uuid sliced out of it |
| NotifBox.SkipsHistory | Ax-Shell/modules/notifications.py:1277 | a notification with an expire time set skips the history; the server default -1 and "never" 0 do not |
| NotifBox.CacheFileName | Ax-Shell/modules/notifications.py:80-82 | `notification_<uuid>.png`: a name the sweep selects, the uuid plus 17 characters long |
| NotifBox.IsCacheFileName | Ax-Shell/modules/notifications.py:1095-1099 | the sweep's filter; a selected name is long enough that prefix and suffix do not overlap |
| NotifBox.UuidOfCacheFile | Ax-Shell/modules/notifications.py:1110 | `name[13:-4]`: what lies between prefix and suffix, empty when the bounds cross |
| NotifBox.ActionStyle | Ax-Shell/modules/notifications.py:201-207 | the first button starts the row, a later last one ends it, every other is in the middle |
| NotifBox.ActionRow | Ax-Shell/modules/notifications.py:398-399 | one style class per action |
| NotifBox.ActionRowShape | Ax-Shell/modules/notifications.py:201-207 | the first button is "start-action", the last is "end-action" only when there are two or more, the rest are "middle-action" |
| NotifBox.NotificationBox.constructor | Ax-Shell/modules/notifications.py:225-264 | the notification's own timeout unless it is -1, else the default; a timer only for a positive timeout; the cached image path only when an image was saved; not destroyed, not history |
| NotifBox.NotificationBox.StartTimeout | Ax-Shell/modules/notifications.py:431-439 | the previous timer is removed and a new one registered exactly when the timeout is positive |
| NotifBox.NotificationBox.StopTimeout | Ax-Shell/modules/notifications.py:441-447 | the timer, if any, is removed and the handle cleared |
| NotifBox.NotificationBox.SetIsHistory | Ax-Shell/modules/notifications.py:266-270 | sets the history flag and nothing else |
| NotifBox.NotificationBox.CloseNotification | Ax-Shell/modules/notifications.py:449-461 | never repeats; requests an "expired" close and stops the timer exactly when not yet destroyed, else changes nothing |
| NotifBox.NotificationBox.Destroy | Ax-Shell/modules/notifications.py:463-484 | deletes the cached file exactly when a path is set, the file exists and the box is not history or the deletion comes from the history; always destroyed with no timer; afterwards a destroy with the same flag deletes nothing more |
| NotifBox.SingleTimer | Ax-Shell/modules/notifications.py:431-444 | a box owns at most one pending timer, the one its handle names |
| NotifHistory.RemoveAll | Ax-Shell/modules/notifications.py:759 | `[c for c in containers if c != container]`: exactly the elements not removed |
| NotifHistory.WithoutApp | Ax-Shell/modules/notifications.py:1145-1172 | exactly the rows of other applications remain, duplicate-free when the rows were |
| NotifHistory.OfApp | Ax-Shell/modules/notifications.py:1145-1151 | exactly the rows of the application |
| NotifHistory.NotesWithoutIds | Ax-Shell/modules/notifications.py:1174-1178 | exactly the notes whose id is not removed; unchanged when none is |
| NotifHistory.Take | Ax-Shell/modules/notifications.py:1078-1080 | `[:20]`: a prefix of at most `n` elements, the whole list when it is short enough |
| NotifHistory.KeptRows | Ax-Shell/modules/notifications.py:912-913 | a limited app's rows go before the add, every other row stays, and no row is repeated |
| NotifHistory.DropOldest | Ax-Shell/modules/notifications.py:915-932 | a prefix, below the limit of 20 when the list was within it |
| NotifHistory.Cleared | Ax-Shell/modules/notifications.py:912-913 | a non-limited application clears no rows, uuids or image paths |
| NotifHistory.AddedRowsCapped | Ax-Shell/modules/notifications.py:915-932 | after an add the rows number at most 20, the new row first |
| NotifHistory.AddedLimitedAppIsAlone | Ax-Shell/modules/notifications.py:912-913 | after adding a limited application's notification no older row of that application remains |
| NotifHistory.AddedNotesCapped | Ax-Shell/modules/notifications.py:1067-1080 | the persisted notes number at most 20, the new note first, the rest older notes whose ids were not cleared |
| NotifHistory.SweepWithoutNotesDeletesAllImages | Ax-Shell/modules/notifications.py:1085-1117 | with no persisted notes the sweep deletes every `notification_*.png` and nothing else |
| NotifHistory.Orphans | Ax-Shell/modules/notifications.py:1095-1117 | the sweep deletes only cached image names from the directory, never the image of a persisted note |
| NotifHistory.NotificationHistory.constructor | Ax-Shell/modules/notifications.py:518-598 | no rows or notes, the switch read from the config, and every cached image deleted by the sweep |
| NotifHistory.NotificationHistory.SetDoNotDisturb | Ax-Shell/modules/notifications.py:600-607 | the switch is set and saved in the config; rows and notes untouched |
| NotifHistory.NotificationHistory.SweepOrphans | Ax-Shell/modules/notifications.py:1085-1117 | deletes exactly the cached images whose uuid no note has |
| NotifHistory.NotificationHistory.ClearHistoryForApp | Ax-Shell/modules/notifications.py:1139-1180 | removes exactly the application's rows, their notes and their images, destroys their boxes and leaves no box of the application |
| NotifHistory.NotificationHistory.DestroyRows | Ax-Shell/modules/notifications.py:1153-1172 | deletes every row's image and destroys every row's box |
| NotifHistory.NotificationHistory.DestroyRow | Ax-Shell/modules/notifications.py:1154-1171 | deletes the row's image and destroys its box |
| NotifHistory.NotificationHistory.DropOldestRow | Ax-Shell/modules/notifications.py:915-932 | drops the oldest row of a full list and deletes its image |
| NotifHistory.NotificationHistory.AddNotification | Ax-Shell/modules/notifications.py:903-1065 | an ignored application's box is destroyed and nothing recorded; otherwise the new row is first, the application's rows are cleared when limited, the oldest row goes at 20, and the note is put first in the notes truncated to 20 |
| NotifHistory.NotificationHistory.KeepRow | Ax-Shell/modules/notifications.py:912-1064 | the recording branch of `add_notification`, with the same new rows, notes and files |
| NotifHistory.NotificationHistory.PushRow | Ax-Shell/modules/notifications.py:915-1080 | the row goes first after dropping the oldest; the note goes first in the notes truncated to 20 |
| NotifHistory.NotificationHistory.OnContainerDestroy | Ax-Shell/modules/notifications.py:934-944 | the row leaves the list; notes untouched |
| NotifHistory.NotificationHistory.DeleteHistoricalNotification | Ax-Shell/modules/notifications.py:730-760 | destroys the row's box as a history deletion, drops the note with that id and the row |
| NotifHistory.NotificationHistory.ClearHistory | Ax-Shell/modules/notifications.py:704-720 | no rows and no notes remain; every row's image is deleted and box destroyed |
| NotifHistory.LaterIsStrictOrder | Ax-Shell/modules/notifications.py:684-686 | the newest-first order on arrival times is a strict order |
| NotifHistory.HistoryRowsShape | Ax-Shell/modules/notifications.py:677-694 | the display holds every row once, newest first, with a date separator exactly where the header changes |
| NotifHistory.EmptyHistoryHasNoRows | Ax-Shell/modules/notifications.py:696-699 | an empty history shows no separator |
| NotifStack.Evicted | Ax-Shell/modules/notifications.py:1342-1353 | the evicted boxes are a prefix, at most one when the stack was within its limit |
| NotifStack.Kept | Ax-Shell/modules/notifications.py:1342-1353 | the kept boxes are the rest, fewer than five |
| NotifStack.FirstWhere | Ax-Shell/modules/notifications.py:1305-1309 | the first matching position, or -1 exactly when none matches |
| NotifStack.FindFirst | Ax-Shell/modules/notifications.py:1305-1309 | the search loop finds that first position |
| NotifStack.IndexAfterRemoval | Ax-Shell/modules/notifications.py:1453-1466 | the corrected index after a removal stays in range |
| NotifStack.RemovalKeepsShownBox | Ax-Shell/modules/notifications.py:1453-1469 | after closing another box the same box stays on show; after closing the shown box its left neighbour (or the next one) is shown |
| NotifStack.AsWrittenSwitchesShownBox | Ax-Shell/modules/notifications.py:1453-1466 | the code as written shows a different box after closing one to the right of the shown one |
| NotifStack.AsWrittenAgreesUpToShown | Ax-Shell/modules/notifications.py:1453-1466 | the code as written and the corrected rule agree when the closed box is at or left of the shown one |
| NotifStack.Admitted | Ax-Shell/modules/notifications.py:1301-1357 | the boxes kept before a new one is appended number fewer than five, or one less than before for a replacement |
| NotifStack.NotificationContainer.constructor | Ax-Shell/modules/notifications.py:1184-1267 | an empty stack, index 0, no closed ids, latch clear |
| NotifStack.NotificationContainer.ShowPrevious | Ax-Shell/modules/notifications.py:1366-1371 | the index moves left by one when it can, else stays |
| NotifStack.NotificationContainer.ShowNext | Ax-Shell/modules/notifications.py:1373-1378 | the index moves right by one when it can, else stays |
| NotifStack.NotificationContainer.MakeRoom | Ax-Shell/modules/notifications.py:1342-1353 | evicts the oldest boxes until fewer than five remain; the last box evicted heads the history unless the incoming notification skips the history or that box's app is ignored (`EvictionHandedOver`) |
| NotifStack.NotificationContainer.EvictOldest | Ax-Shell/modules/notifications.py:1343-1353 | the first box leaves, the index moves left, and the box reaches the history unless the incoming notification skips it |
| NotifStack.NotificationContainer.DropBox | Ax-Shell/modules/notifications.py:1312-1316 | the box at `k` leaves the stack destroyed |
| NotifStack.NotificationContainer.Show | Ax-Shell/modules/notifications.py:1354-1357 | the box is appended and shown |
| NotifStack.NotificationContainer.OnNewNotification | Ax-Shell/modules/notifications.py:1269-1364 | the box takes the notification's own timeout unless it is -1; under do-not-disturb (urgency not critical) the stack is untouched and the box reaches the history unless it skips it; otherwise the box is appended last and shown with its timer registered exactly when the timeout is positive, the evicted box heads the history when room was made, and a limited app keeps none of its boxes in the history |
| NotifStack.NotificationContainer.Present | Ax-Shell/modules/notifications.py:1301-1364 | the shown branch: the box goes last on the stack and is shown, its timer registered exactly when its timeout is positive, with the eviction and limited-app effects of `Admit` |
| NotifStack.NotificationContainer.Admit | Ax-Shell/modules/notifications.py:1301-1357 | the stack becomes the admitted boxes plus the new one, shown; a limited application leaves none of its boxes in the history; unless a box of its own is replaced, the evicted box heads the history |
| NotifStack.NotificationContainer.AdmitLimited | Ax-Shell/modules/notifications.py:1302-1340 | the application's history is cleared, then its box on the stack is replaced or room is made, the evicted box heading the history |
| NotifStack.NotificationContainer.AdmitPurged | Ax-Shell/modules/notifications.py:1305-1340 | with the history purged: replacement of the application's first box, or eviction with the evicted box heading the history, then the new box on top |
| NotifStack.NotificationContainer.ReplaceOfApp | Ax-Shell/modules/notifications.py:1311-1321 | the application's first box is replaced by the new one on top |
| NotifStack.NotificationContainer.ShowFirstOfApp | Ax-Shell/modules/notifications.py:1322-1340 | with no box of the application on the stack, room is made (the evicted box heading the history) and the box shown |
| NotifStack.NotificationContainer.Replace | Ax-Shell/modules/notifications.py:1311-1321 | the box at `k` is destroyed and removed; the new box is appended and shown |
| NotifStack.NotificationContainer.ShowFreeOf | Ax-Shell/modules/notifications.py:1322-1340 | room is made, the evicted box heading the history, and the box appended and shown |
| NotifStack.NotificationContainer.HandleClose | Ax-Shell/modules/notifications.py:1407-1440 | a dismissal, an unknown reason or a notification that skips the history destroys the box, leaves the history as it was and deletes only its own cached image; expired/closed/undefined keeps it as history at the head of the history |
| NotifStack.NotificationContainer.OnNotificationClosed | Ax-Shell/modules/notifications.py:1389-1478 | ignored while the latch holds or for an id already closed; otherwise the id is recorded and the first box with it closed with the index bookkeeping, or the latch set for the last box; a destroyed box leaves the history unchanged and only its image is deleted, a kept one heads the history (`HandedOff`) |
| NotifStack.NotificationContainer.CloseAt | Ax-Shell/modules/notifications.py:1399-1478 | the box at `i` is handled for the reason and leaves the stack with the corrected index, unless it was the last box, which stays and sets the latch; a destroyed box leaves the history unchanged and only its image is deleted, a kept one heads the history |
| NotifStack.NotificationContainer.DestroyContainer | Ax-Shell/modules/notifications.py:1490-1508 | empties the stack, the closed ids and the index, clears the latch and destroys every box |
| NotifStack.NotificationContainer.PauseAndResetAllTimeouts | Ax-Shell/modules/notifications.py:1510-1527 | only the shown, undestroyed box loses its timer; nothing changes while the latch holds |
| NotifStack.NotificationContainer.ResumeAllTimeouts | Ax-Shell/modules/notifications.py:1529-1546 | only the shown, undestroyed box restarts its timer; nothing changes while the latch holds |
| NotifStack.NotificationContainer.CloseAllNotifications | Ax-Shell/modules/notifications.py:1548-1552 | every box on the stack is closed as dismissed: its id is recorded, or the latch is set |
| NotifStack.NotificationContainer.OnTimerFired | Ax-Shell/modules/notifications.py:449-461 | an expired timer is gone afterwards; a live box's timer is cleared; a destroyed or quiet box changes nothing else |
| Wallpapers.TotalPages | Ax-Shell/modules/wallpapers.py:42-44 | at least one page |
| Wallpapers.SearchTotalPages | Ax-Shell/modules/wallpapers.py:471 | no pages exactly when there are no results |
| Wallpapers.PageCounts | Ax-Shell/modules/wallpapers.py:42-49 | `ceil(n / 9)`: every page but the last is full and the last is not empty; one page for no wallpapers |
| Wallpapers.PageOf | Ax-Shell/modules/wallpapers.py:267-270 | at most 9 items, which are the slice starting at `page * 9`; empty for a page out of range |
| Wallpapers.PagesUpToPrefix | Ax-Shell/modules/wallpapers.py:267-270 | the first `k` pages, concatenated, are a prefix of the list |
| Wallpapers.PagesCoverAll | Ax-Shell/modules/wallpapers.py:267-292 | the pages, concatenated, are the whole list, for both page counts |
| Wallpapers.GetNewIndex | Ax-Shell/modules/wallpapers.py:569-603 | from -1, Down/Right give 0 and Up/Left the last; Up/Down move by a row only within range; Left/Right move by one; the page signals exactly at the row ends with a page to go to |
| Wallpapers.NavigationReverses | Ax-Shell/modules/wallpapers.py:577-583 | an Up that moved is undone by Down, and conversely; Right undoes Left |
| Wallpapers.AfterLastSlashLower | Ax-Shell/modules/wallpapers.py:643 | the basename of the lowered path is the lowered basename |
| Wallpapers.IsImageOfName | Ax-Shell/modules/wallpapers.py:641-643 | `_is_image` depends only on the basename, whatever its case |
| Wallpapers.IsImage | Ax-Shell/modules/wallpapers.py:641-643 | a path is an image exactly when, lower-cased, it ends with one of the six extensions |
| Wallpapers.KeyOrderIsStrict | Ax-Shell/modules/wallpapers.py:252 | the lowered-basename order is a strict order |
| Wallpapers.Filter | Ax-Shell/modules/wallpapers.py:247-251 | exactly the paths that pass the test |
| Wallpapers.CollectSorted | Ax-Shell/modules/wallpapers.py:244-255 | the collecting loop yields the passing paths sorted by lowered basename |
| Wallpapers.CollectedPaths | Ax-Shell/modules/wallpapers.py:244-255 | the collected list holds exactly the passing paths, sorted |
| Wallpapers.FilesOf | Ax-Shell/modules/wallpapers.py:244-255 | the images of the walk, sorted by lowered basename |
| Wallpapers.PerformFuzzySearch | Ax-Shell/modules/wallpapers.py:449-461 | the search loop yields the specified results |
| Wallpapers.SearchResultsAre | Ax-Shell/modules/wallpapers.py:449-461 | a blank query finds nothing; otherwise exactly the files whose lowered path contains the lowered, stripped query, sorted by lowered basename |
| Wallpapers.Crop | Ax-Shell/modules/wallpapers.py:626-633 | a square of side `min(w, h)` inside the image, centred up to one pixel |
| Wallpapers.SchemeIndex | Ax-Shell/modules/wallpapers.py:503-505 | the dropdown index of a known scheme, and 0 for any other name |
| Wallpapers.CycleScheme | Ax-Shell/modules/wallpapers.py:503-507 | Shift+Up moves one scheme back, from the first to the last; Shift+Down one scheme on, from the last to the first |
| Wallpapers.CycleSchemeReverses | Ax-Shell/modules/wallpapers.py:503-507 | Shift+Up then Shift+Down (or the reverse) returns to the same scheme |
| Wallpapers.Made | Ax-Shell/modules/wallpapers.py:301-306 | the thumbnails that were made, skipping the failed ones |
| Wallpapers.Attempt | Ax-Shell/modules/wallpapers.py:272-273 | one result per file of the batch, in order: none for a file whose thumbnail cannot be made, else the file |
| Wallpapers.ThumbnailsShown | Ax-Shell/modules/wallpapers.py:272-275 | the grid receives exactly the batch's files whose thumbnails were made; the whole batch in order when all were |
| Wallpapers.WallpaperSelector.constructor | Ax-Shell/modules/wallpapers.py:41-197 | the sorted images, their page count, not searching, the default scheme; page 0 is loaded, so the grid shows its thumbnails with the first selected |
| Wallpapers.WallpaperSelector.AddBatchThumbnails | Ax-Shell/modules/wallpapers.py:301-317 | the made thumbnails are appended, and the first is selected when none was |
| Wallpapers.WallpaperSelector.ShowBatch | Ax-Shell/modules/wallpapers.py:262-275 | the grid shows the batch's thumbnails that were made, the first selected, or nothing selected when none was made |
| Wallpapers.WallpaperSelector.LoadPage | Ax-Shell/modules/wallpapers.py:257-277 | an out-of-range page with files changes nothing; otherwise the page becomes current and the thumbnails of its slice are shown |
| Wallpapers.WallpaperSelector.LoadSearchPage | Ax-Shell/modules/wallpapers.py:279-299 | an out-of-range page or no results changes nothing; otherwise the result page becomes current and the thumbnails of its slice are shown |
| Wallpapers.WallpaperSelector.OnPrevClicked | Ax-Shell/modules/wallpapers.py:224-232 | the active page (search or normal) moves back by one when it can and its thumbnails are shown with the first selected, the other pager's page, the listings, the search mode, the last query, the pending search and the scheme kept; else nothing changes |
| Wallpapers.WallpaperSelector.OnNextClicked | Ax-Shell/modules/wallpapers.py:234-242 | the active page (search or normal) moves on by one when it can and its thumbnails are shown with the first selected, the other pager's page, the listings, the search mode, the last query, the pending search and the scheme kept; else nothing changes |
| Wallpapers.WallpaperSelector.MoveSelection2d | Ax-Shell/modules/wallpapers.py:527-547 | an empty grid changes nothing; otherwise the selection becomes the navigated index, or the active pager turns its page (the other pager's page kept) and the new page's thumbnails are shown with the first selected; pages stay in range; the listings, the search mode, the last query, the pending search and the scheme are kept |
| Wallpapers.WallpaperSelector.UpdateSearchResults | Ax-Shell/modules/wallpapers.py:463-488 | the results and their page count are stored; none clears the grid and the selection and keeps the search page, else the thumbnails of the first result page are shown with the first selected; the listing, the normal page, the search mode, the query state and the scheme are kept |
| Wallpapers.WallpaperSelector.ArrangeViewport | Ax-Shell/modules/wallpapers.py:422-441 | a repeated stripped query changes nothing; a blank one ends searching and, when the page loader accepts the current page, shows its thumbnails with the first selected, else keeps the grid and the selection; another schedules a search for it and keeps the grid and the selection; the listings, both pages and the scheme are kept |
| Wallpapers.WallpaperSelector.StartThreadedSearch | Ax-Shell/modules/wallpapers.py:443-447 | hands out the scheduled query and clears the schedule |
| Wallpapers.WallpaperSelector.RefreshWallpaperList | Ax-Shell/modules/wallpapers.py:410-420 | the files are re-read and sorted, with their page count, back on page 0, whose thumbnails are shown with the first selected; the search text is arranged again (`SearchArranged`); the results, the search page and the scheme are kept |
| Wallpapers.WallpaperSelector.ReplaceFiles | Ax-Shell/modules/wallpapers.py:411-418 | the new listing, its page count and page 0, whose thumbnails are shown with the first selected; a repeated query keeps the search mode and pending search, a blank one leaves search, another enters it with the query pending (`SearchArranged`); the results, the search page and the scheme are kept |
| Wallpapers.WallpaperSelector.CycleSchemeKey | Ax-Shell/modules/wallpapers.py:500-508 | the dropdown moves to the cycled scheme and nothing else changes, the pending search included |
| Launcher.ExtractCommandName | Ax-Shell/modules/launcher.py:187-200 | no "/" and no whitespace; "" for an empty or shell-wrapped command; else the part after the last "/" of the first token |
| Launcher.CommandNameOfPath | Ax-Shell/modules/launcher.py:187-200 | a command `dir/program args` yields `program` |
| Launcher.FilterApps | Ax-Shell/modules/launcher.py:202-214 | exactly the apps whose lowered haystack contains the lowered query |
| Launcher.EmptyQueryKeepsAll | Ax-Shell/modules/launcher.py:202-214 | an empty query keeps every app, in order |
| Launcher.FoundByItsNames | Ax-Shell/modules/launcher.py:202-214 | an app is found by its name, by its command line and by its command name |
| Launcher.Haystack | Ax-Shell/modules/launcher.py:206-213 | the haystack holds every name of the app: display, generic, name, command line, executable and command name |
| Launcher.Matches | Ax-Shell/modules/launcher.py:202-214 | the empty query matches every app; no query longer than the haystack matches |
| Launcher.Arranged | Ax-Shell/modules/launcher.py:217-221 | the listed apps are a permutation of the matching ones |
| Launcher.RankOrderIsStrict | Ax-Shell/modules/launcher.py:217-221 | the descending (usage, lowered display name) order is a strict order |
| Launcher.ArrangedApps | Ax-Shell/modules/launcher.py:202-221 | the shown apps are a permutation of the matching apps, sorted by descending rank |
| Launcher.MoreUsedFirst | Ax-Shell/modules/launcher.py:217-221 | an app shown earlier has at least the usage of any app shown later |
| Launcher.CopyText | Ax-Shell/modules/launcher.py:645-647 | the whole text when it has no "=>"; otherwise shorter than it |
| Launcher.CopiesTheResult | Ax-Shell/modules/launcher.py:645-647 | for an entry `expression => result` the stripped result is copied |
| Launcher.DisplayText | Ax-Shell/modules/launcher.py:547-554 | the text itself when it has no "=>"; otherwise the text or a shortened form ending in "..." |
| Launcher.DisplayOfEntry | Ax-Shell/modules/launcher.py:547-554 | a result longer than 50 characters is shown as "expression => " and its first 47 characters plus "..."; otherwise the entry as is |
| Launcher.AppSlots | Ax-Shell/modules/launcher.py:242-246 | one slot per app, in order |
| Launcher.HistorySlots | Ax-Shell/modules/launcher.py:531-545 | one slot per history entry, in order |
| Launcher.FirstNamed | Ax-Shell/modules/launcher.py:348 | the first app with the display name, None exactly when there is none |
| Launcher.MovedIndex | Ax-Shell/modules/launcher.py:442-451 | a row index; from -1 with +1 the first; else the moved index when it is in range, the first row below it and the last row above it |
| Launcher.MoveReverses | Ax-Shell/modules/launcher.py:442-451 | a move down that moved is undone by a move up, and conversely |
| Launcher.ReselectAfterDelete | Ax-Shell/modules/launcher.py:658-662 | -1 exactly when nothing remains; otherwise a valid row |
| Launcher.RemoveAt | Ax-Shell/modules/launcher.py:656 | `del history[k]`: the entries before `k` stay, the later ones move up by one |
| Launcher.ReselectsNeighbour | Ax-Shell/modules/launcher.py:653-673 | after deleting entry `k` the previous entry is selected (the new first when `k` was 0), and exactly that entry left the list |
| Launcher.AppLauncher.constructor | Ax-Shell/modules/launcher.py:30-124 | the apps, the usage counts and both histories as given; an empty viewport with no selection |
| Launcher.AppLauncher.CloseLauncher | Ax-Shell/modules/launcher.py:149-152 | an empty viewport and no selection |
| Launcher.AppLauncher.UpdateSelection | Ax-Shell/modules/launcher.py:282-293 | the index is selected when it is a row, else nothing is |
| Launcher.AppLauncher.MoveSelection | Ax-Shell/modules/launcher.py:442-451 | no rows changes nothing; otherwise the selection becomes the clamped moved index |
| Launcher.AppLauncher.UpdateHistoryViewport | Ax-Shell/modules/launcher.py:531-545 | the viewport lists the history; a selection past its end is dropped |
| Launcher.AppLauncher.ArrangeViewport | Ax-Shell/modules/launcher.py:176-238 | "=" shows the calculator history, ";" the conversions, each keeping the selection only while it is still a row; otherwise the matching apps by rank, the first selected when the query is not blank |
| Launcher.AppLauncher.ResetAppUsage | Ax-Shell/modules/launcher.py:141-145 | no usage counts remain and all apps are listed |
| Launcher.AppLauncher.LaunchSelected | Ax-Shell/modules/launcher.py:335-357 | the selected (or first) row's app, found by display name, is launched: its count goes up by one and the launcher closes; otherwise nothing changes |
| Launcher.AppLauncher.CountAndClose | Ax-Shell/modules/launcher.py:352-357 | the named app's usage goes up by one and the launcher closes |
| Launcher.AppLauncher.OnSearchEntryActivate | Ax-Shell/modules/launcher.py:315-357 | "="/";" evaluate only without a selection and change nothing; ":w", ":d", ":p" open their panels and change nothing; ":reset_usage" clears the counts and lists every app unselected; a launch counts the app once and closes the launcher; any other activation changes nothing |
| Launcher.AppLauncher.DeleteSelected | Ax-Shell/modules/launcher.py:653-673 | a valid selection's entry is removed from that history only and the neighbour reselected; otherwise nothing changes |
| Launcher.AppLauncher.HistoryReturn | Ax-Shell/modules/launcher.py:371-409 | with a valid selection, Shift deletes the entry from its own history only and shows that history again, and Return copies its result; without one the expression is evaluated; the selection is dropped, and the list shown is kept unless an entry was deleted |
| Occlusion.ParseSide | Ax-Shell/utils/occlusion.py:99-106 | each of the four edges exactly for its name in any case; no edge exactly for every other name |
| Occlusion.ParseSideIgnoresCase | Ax-Shell/utils/occlusion.py:99-106 | the edge name is matched whatever its case |
| Occlusion.SideRectHugsEdge | Ax-Shell/utils/occlusion.py:99-106 | the strip lies on the screen, runs along its whole edge and is `size` thick |
| Occlusion.SideRect | Ax-Shell/utils/occlusion.py:99-106 | the strip is flush with its edge, as long as that edge and `size` thick |
| Occlusion.Overlaps | Ax-Shell/utils/occlusion.py:123-141 | a window meets the region exactly when, on both axes, each starts before the other ends |
| Occlusion.OverlapsIffSharedPoint | Ax-Shell/utils/occlusion.py:123-141 | two rectangles of positive area overlap exactly when they share a point of their half-open areas, so touching edges do not overlap |
| Occlusion.Resolve | Ax-Shell/utils/occlusion.py:95-110 | a 4-tuple is itself; a known edge gives its strip; any other shape is invalid |
| Occlusion.WindowOf | Ax-Shell/utils/occlusion.py:133-140 | a window exactly when both position and size are present |
| Occlusion.FindOccluder | Ax-Shell/utils/occlusion.py:127-144 | true exactly when some mapped client on the workspace with a position and a size overlaps the region |
| Occlusion.OnlyMappedOnWorkspace | Ax-Shell/utils/occlusion.py:127-132 | an unmapped client or one on another workspace never changes the answer |
| Occlusion.Words | Ax-Shell/utils/occlusion.py:30 | `split()`: non-empty tokens without whitespace |
| Occlusion.WordsOfBlank | Ax-Shell/utils/occlusion.py:30 | an output of whitespace only has no tokens |
| Occlusion.WordsCons | Ax-Shell/utils/occlusion.py:30 | whitespace, a word and then whitespace or nothing: the word is the first token and the rest's tokens follow |
| Occlusion.TokenAfterFirstId | Ax-Shell/utils/occlusion.py:30-36 | the token after the first "ID" is read, whatever surrounds it |
| Occlusion.NoTokenAfterId | Ax-Shell/utils/occlusion.py:30-39 | no token is read exactly when no "ID" is followed by another token |
| Occlusion.TokenAfterId | Ax-Shell/utils/occlusion.py:30-36 | a token read is the successor of an "ID" with no "ID" before it |
| Occlusion.ReportedWorkspace | Ax-Shell/utils/occlusion.py:24-39 | no output gives no id; an id read is what `int()` makes of the token after some "ID" |
| Occlusion.FindIdToken | Ax-Shell/utils/occlusion.py:31-36 | the scanning loop finds that token |
| Occlusion.ReportsPrintedId | Ax-Shell/utils/occlusion.py:30-36 | an id printed after the first "ID" is the id read back |
| Occlusion.ReadsActiveWorkspace | Ax-Shell/utils/occlusion.py:24-36 | for the output "workspace ID <id> ..." of `hyprctl activeworkspace` the id is read back |
| Occlusion.FirstShowing | Ax-Shell/utils/occlusion.py:62-67 | the first monitor showing the workspace, -1 exactly when none does |
| Occlusion.FindMonitor | Ax-Shell/utils/occlusion.py:62-67 | the monitor loop finds that monitor |
| Occlusion.MonitorFor | Ax-Shell/utils/occlusion.py:62-72 | the first monitor showing the workspace when one does; the first monitor when none does; none exactly when there are no monitors |
| Occlusion.QueryCache.constructor | Ax-Shell/utils/occlusion.py:7-12 | both caches start empty and stale, with the workspace id -1 |
| Occlusion.QueryCache.CurrentWorkspace | Ax-Shell/utils/occlusion.py:14-39 | within 5 s of the last fetch the cached id; else the reported id, cached with the time, or -1 with the cache left alone |
| Occlusion.QueryCache.ScreenDimensions | Ax-Shell/utils/occlusion.py:41-75 | a fresh non-empty cache is returned unchanged; else the chosen monitor's size, cached with the time, or the configured size, uncached; the workspace cache changes only as the workspace lookup does |
| Occlusion.QueryCache.WorkspaceOf | Ax-Shell/utils/occlusion.py:92-93 | the given workspace, or else the current one, with the cached answers unchanged |
| Occlusion.QueryCache.SideRegion | Ax-Shell/utils/occlusion.py:95-110 | the strip along the named edge of the screen size, which is fetched first; none for an unknown name |
| Occlusion.QueryCache.CheckOcclusion | Ax-Shell/utils/occlusion.py:77-145 | occluded exactly when the clients were listed, the region is valid and some client occludes it on the given or current workspace |

## Left out

- Widgets and drawing (GTK, Fabric, `NotificationPopup`, CSS, scrolling, icons, animations) are not modelled. Only the state behind them is.
- The timers are registered and removed as handles, but the model never runs them on a clock.
- Deferred `GLib.idle_add` callbacks run at once.
- The refresh of the history headers at midnight is not modelled; the current date is a parameter.
- Image I/O is not modelled:
  - pixbuf scaling and saving, and PIL thumbnailing: the picker holds a fixed set `unreadable` of wallpapers whose thumbnails cannot be made, and every other thumbnail is made; a failure that comes and goes over time is not modelled;
  - `_is_grayscale` and the md5 thumbnail cache path.
- Subprocesses are not modelled:
  - `hyprctl`: its outputs are inputs, and a failed call is the absent value;
  - `wl-copy`, `matugen` and `swww`: the text to copy and the chosen wallpaper are results, and nothing is sent.
- The `Gio` directory monitor, and JSON reading and writing, are not modelled. The stores are objects holding the decoded values.
- Evaluating calculator expressions (`eval`) and unit conversion are not modelled: the launcher only records that an evaluation was requested.
- The colour picker and its colour arithmetic are not modelled.
- The search thread pool is not modelled. A search is scheduled, handed out by `StartThreadedSearch` and completed by `UpdateSearchResults`, so results of a stale query are not modelled.
- `_get_columns` depends on GTK's layout; the number of columns is a parameter of the navigation.
- Locale-dependent month names are not modelled: the model uses the English month table.
- `Text.Lower`: folds ASCII letters only, not Unicode `casefold`/`lower`.
- `Text.ParseInt`: reads an optional sign and the ASCII digits 0-9. Python's `int()` also accepts underscores between digits and the decimal digits of other scripts (Arabic-Indic, Devanagari, full-width and the rest of Unicode category Nd); the tokens it reads here never hold spaces.
- Malformed `at`/`size` entries of a client (lists of the wrong length) are not modelled. A client has a position and a size, or lacks them.
- `Launcher.AppLauncher.UpdateSelection`: requires an index of at least -1. Python's negative indexing of the rows for other negative values is not modelled; every caller passes such an index.
- `Occlusion.QueryCache.CheckOcclusion`: states the answer; the cache updates are stated by `CurrentWorkspace` and `ScreenDimensions`, which it calls. One `now` and one `Snapshot` serve the whole call, while `check_occlusion` reads `time.time()` and runs `hyprctl` anew in `get_current_workspace`, in `get_screen_dimensions` and for the client list, so a clock tick or a change of the compositor's state between those reads is not modelled.
- `NotifStack.NotificationContainer.CloseAt`: moves the shown index by the corrected rule of the finding below (the shown box stays on show), not by the rule as written at Ax-Shell/modules/notifications.py:1453-1466, which `NotifStack.AsWrittenSwitchesShownBox` models.
- `NotifStack.NotificationContainer.OnNotificationClosed`: closes through `CloseAt`, so it uses the same corrected index rule.
- `NotifStack.NotificationContainer.OnTimerFired`: does not restate the stack after the close; `OnNotificationClosed`, which it calls, states it.
- `NotifStack.NotificationContainer.CloseAllNotifications`: states which ids are recorded, not the stack that results from the successive closes.

## Findings

| source | as written | input that shows it | evidently intended | confidence | as-written member | corrected member |
|---|---|---|---|---|---|---|
| Ax-Shell/modules/notifications.py:1453-1466 | when a box right of the shown one closes, the new index is the closed box's index | stack [10, 20, 30] showing 10 (index 0); box 20 (index 1) closes; index 1 now shows 30 | the shown box stays on show, so the index stays 0 | not executed | `NotifStack.AsWrittenSwitchesShownBox` | `NotifStack.RemovalKeepsShownBox` |
