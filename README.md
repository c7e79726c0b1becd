# Sunshine watch face engine, modelled in Dafny

This project models the `Engine` of the Sunshine Android Wear watch face
(`SunshineWatchFace.Engine`). The engine is a callback-at-a-time state machine. Its parts are:

- **The interactive redraw timer.** A handler message is armed exactly while the face is
  visible and interactive. Each tick re-arms it, aligned to the next whole second.
- **Ambient mode.** On low-bit displays, switching mode turns the anti-aliasing of the four text
  paints off in ambient mode and back on in interactive mode.
- **Time-zone receiver bookkeeping.** The receiver is registered at most once. The data
  listener is added or removed on every call.
- **Forecast payloads** arriving over the Wearable data layer, either as change events
  (`onDataChanged`) or by enumerating the stored items after connecting (`onConnected`).
  Each payload replaces both displayed temperatures with `int + "°"` and then loads its icon
  asset. A missing asset throws `IllegalArgumentException` after the temperatures are already
  set, and the exception ends the batch.
- **Frame content in `onDraw`,** as an ordered list of abstract draw commands without pixel
  coordinates.

Host effects are recorded as fields of the `Engine` class:

- handler messages, as a queue of delays;
- receiver registrations, as a count;
- listener calls, as a log;
- redraw requests and time-zone resets, as counts;
- asset loads, as a log of requested assets.

Inputs the code reads from the platform are parameters:

- the clock (`now`);
- the calendar fields and the locale's weekday and month names;
- the property bundle;
- the connection result;
- the event and item lists;
- the decoded bitmap.

Modules:

| file | module | contents |
|---|---|---|
| `wrappers.dfy` | `Wrappers` | `Option` (Java's null) |
| `text.dfy` | `Text` | the part of a string after the last occurrence of a character |
| `decimal.dfy` | `Decimal` | `Integer.toString` for Java ints and a parser that undoes it |
| `formatting.dfy` | `Formatting` | the degree-sign temperature, the `"%d:%02d"` time and the date line |
| `timer.dfy` | `UpdateTimer` | Java's truncating `%` and the delay to the next whole second |
| `paths.dfy` | `DataPaths` | `Uri.getPathSegments`/`getLastPathSegment` and the two path tests |
| `sync.dfy` | `Sync` | payloads, the event/item selections, and what one pass over them leaves displayed |
| `engine.dfy` | `WatchFace` | the `Paint` and `Engine` classes and the draw-command model |

Each callback is a method of `WatchFace.Engine` that changes only the fields its `modifies`
clause names. Two batch callbacks, `OnDataChanged` and `LoadStoredItems`, loop over their input
as the source does. Each is proved against the specification function `Sync.Pass`, and the
lemmas in `Sync` then characterise `Pass`:

- the last processed payload's temperatures are the ones left displayed;
- every processed icon is requested, in order;
- the pass stops at the first payload without an icon, and throws exactly when one exists.

## Model

| member | source | states |
|---|---|---|
| Decimal.IntToStringRoundTrip | wear/src/main/java/com/example/android/sunshine/app/SunshineWatchFace.java:492-498 | the decimal rendering of an int (as string concatenation produces it) parses back to exactly that int, sign included |
| Decimal.IntToString | wear/src/main/java/com/example/android/sunshine/app/SunshineWatchFace.java:492-498 | `int + ""` renders a '-' exactly for a negative value, followed by at least one ASCII digit and nothing else |
| Decimal.IntToStringInjective | wear/src/main/java/com/example/android/sunshine/app/SunshineWatchFace.java:492-498 | two different ints never render as the same text |
| Decimal.ParseNatToString | wear/src/main/java/com/example/android/sunshine/app/SunshineWatchFace.java:492-498 | the digits of a non-negative value read back as that value |
| Formatting.Temperature | wear/src/main/java/com/example/android/sunshine/app/SunshineWatchFace.java:492-498 | a displayed temperature is at least two characters, ends in U+00B0 and starts with '-' exactly for a negative reading |
| Formatting.TemperatureRoundTrip | wear/src/main/java/com/example/android/sunshine/app/SunshineWatchFace.java:492-498 | the text before the degree sign is the received int, with no rounding or conversion |
| Formatting.TemperatureDigits | wear/src/main/java/com/example/android/sunshine/app/SunshineWatchFace.java:492-498 | the characters before the degree sign are all digits, after a leading '-' for a negative reading |
| Formatting.TwoDigits | wear/src/main/java/com/example/android/sunshine/app/SunshineWatchFace.java:302-306 | `%02d` of a minute is exactly two digits |
| Formatting.ParseTwoDigits | wear/src/main/java/com/example/android/sunshine/app/SunshineWatchFace.java:302-306 | the zero-padded minute reads back as the minute |
| Formatting.TimeString | wear/src/main/java/com/example/android/sunshine/app/SunshineWatchFace.java:302-306 | the time text is 4 characters for hours 0-9 and 5 for 10-11, with the colon third from the end |
| Formatting.TimeRoundTrip | wear/src/main/java/com/example/android/sunshine/app/SunshineWatchFace.java:302-306 | the unpadded hour before the colon and the two-digit minute after it read back as the calendar's hour and minute |
| Formatting.DateStringEndsWithYear | wear/src/main/java/com/example/android/sunshine/app/SunshineWatchFace.java:309-323 | whatever the locale's weekday and month names, the last space-separated word of the date line is the year |
| Formatting.DateString | wear/src/main/java/com/example/android/sunshine/app/SunshineWatchFace.java:309-323 | the date line: weekday, ", ", month, a space, the day of the month, a space and the year |
| Formatting.DateStringFields | wear/src/main/java/com/example/android/sunshine/app/SunshineWatchFace.java:309-323 | with a one-word month name, the date line splits back into exactly its weekday, month, day of the month and year |
| UpdateTimer.JavaRem | wear/src/main/java/com/example/android/sunshine/app/SunshineWatchFace.java:397-399 | Java's remainder lies in [0, b) for a non-negative dividend and in (-b, 0] for a negative one, and completes Java's truncating quotient: a == b * JavaQuot(a, b) + r |
| UpdateTimer.UpdateDelay | wear/src/main/java/com/example/android/sunshine/app/SunshineWatchFace.java:394-402 | the delay is in [1, 1000] ms for a clock at or after the epoch (in [1000, 2000) before it) and always lands the next tick on a whole second |
| DataPaths.SegmentsAreWords | wear/src/main/java/com/example/android/sunshine/app/SunshineWatchFace.java:468 | every path segment is a non-empty run without '/' |
| DataPaths.Segments | wear/src/main/java/com/example/android/sunshine/app/SunshineWatchFace.java:468 | `Uri.getPathSegments`: the slash-separated runs of the path, empty runs skipped |
| DataPaths.LastPathSegment | wear/src/main/java/com/example/android/sunshine/app/SunshineWatchFace.java:468 | `Uri.getLastPathSegment`: the last segment, or null when there is none |
| DataPaths.InitialPathKey | wear/src/main/java/com/example/android/sunshine/app/SunshineWatchFace.java:468 | the key `"/" + getLastPathSegment()` the enumeration compares, where null concatenates as "null" |
| DataPaths.InitialPathKeyIsOneSegment | wear/src/main/java/com/example/android/sunshine/app/SunshineWatchFace.java:468 | `"/" + getLastPathSegment()` is a slash and one slash-free word: "/" + the last segment when there is one, and "/null" when the path has no segment |
| DataPaths.LastSegmentOfJoin | wear/src/main/java/com/example/android/sunshine/app/SunshineWatchFace.java:468 | a path ending in "/word" has "word" as its last segment, whatever precedes it |
| DataPaths.ChangedPathMatches | wear/src/main/java/com/example/android/sunshine/app/SunshineWatchFace.java:446-447 | a change event is selected on its whole path being "/update-forecast" |
| DataPaths.StoredPathMatches | wear/src/main/java/com/example/android/sunshine/app/SunshineWatchFace.java:470-471 | a stored item is selected on its key being "/update-forecast" |
| DataPaths.StoredMatchIsLastSegment | wear/src/main/java/com/example/android/sunshine/app/SunshineWatchFace.java:468-471 | a stored item is selected exactly when its last path segment is "update-forecast" |
| DataPaths.ChangedMatchImpliesStoredMatch | wear/src/main/java/com/example/android/sunshine/app/SunshineWatchFace.java:468-471 | every path a change event is selected on is also selected by the enumeration |
| DataPaths.NestedPathMatchesOnlyStored | wear/src/main/java/com/example/android/sunshine/app/SunshineWatchFace.java:446-447 | a nested path such as "/x/update-forecast" is selected on enumeration but not as a change event |
| Sync.ThrowsIffMissingIcon | wear/src/main/java/com/example/android/sunshine/app/SunshineWatchFace.java:406-408 | processing a run of payloads throws exactly when one of them has no icon asset |
| Sync.ApplyPayload | wear/src/main/java/com/example/android/sunshine/app/SunshineWatchFace.java:486-503 | one processed payload: both temperatures replaced by its `int + "°"` texts, and its icon requested when present |
| Sync.Pass | wear/src/main/java/com/example/android/sunshine/app/SunshineWatchFace.java:445-450 | a pass over the selected payloads: each is applied in order, and the first one without an icon is applied and ends the pass |
| Sync.PayloadShownExactly | wear/src/main/java/com/example/android/sunshine/app/SunshineWatchFace.java:492-502 | one payload replaces both temperatures, whatever was shown, with texts that read back as its ints, and appends exactly its icon asset to the requests (nothing when it has none) |
| Sync.PassShowsLastProcessed | wear/src/main/java/com/example/android/sunshine/app/SunshineWatchFace.java:445-450 | after a pass the displayed temperatures are those of the last payload processed (or the previous ones if none was), and the icon of every processed payload was requested in order |
| Sync.ProcessedIsPrefix | wear/src/main/java/com/example/android/sunshine/app/SunshineWatchFace.java:445-450 | the payloads a pass processes are a prefix of the selection |
| Sync.ProcessedAll | wear/src/main/java/com/example/android/sunshine/app/SunshineWatchFace.java:445-450 | without a missing icon, every selected payload is processed |
| Sync.ProcessedEndsAtMissingIcon | wear/src/main/java/com/example/android/sunshine/app/SunshineWatchFace.java:406-408 | with a missing icon, the processed payloads are a prefix of the run that ends at the first payload lacking an icon, and all before it had icons |
| Sync.LastUpdateWins | wear/src/main/java/com/example/android/sunshine/app/SunshineWatchFace.java:445-450 | when every selected payload has an icon, the last one's temperatures remain displayed and the requests grow by exactly the payloads' icons, the i-th new request being payload i's icon |
| Sync.IconRequestsOfIcons | wear/src/main/java/com/example/android/sunshine/app/SunshineWatchFace.java:500-502 | payloads that all have icons request one asset each, the i-th request being payload i's icon |
| Sync.UnrelatedEventsSelectNothing | wear/src/main/java/com/example/android/sunshine/app/SunshineWatchFace.java:445-450 | deletions and changes on other paths select nothing to process |
| Sync.ForecastUpdates | wear/src/main/java/com/example/android/sunshine/app/SunshineWatchFace.java:445-450 | the payloads of the change events on "/update-forecast", in event order; never more than the events |
| Sync.ForecastUpdatesSplit | wear/src/main/java/com/example/android/sunshine/app/SunshineWatchFace.java:445-450 | the selection of a concatenation of event lists is the concatenation of their selections |
| Sync.ForecastUpdatesMembers | wear/src/main/java/com/example/android/sunshine/app/SunshineWatchFace.java:445-450 | a payload is selected exactly when some event is a change on "/update-forecast" carrying it |
| Sync.LastForecastUpdate | wear/src/main/java/com/example/android/sunshine/app/SunshineWatchFace.java:445-450 | the last selected payload is the one of the last change event on "/update-forecast" |
| Sync.LastForecastEventWins | wear/src/main/java/com/example/android/sunshine/app/SunshineWatchFace.java:445-450 | when no selected payload lacks an icon, the temperatures of the last change event on "/update-forecast" remain displayed |
| Sync.StoredForecasts | wear/src/main/java/com/example/android/sunshine/app/SunshineWatchFace.java:467-478 | the payloads of the stored items whose "/" + last segment is "/update-forecast", in item order; never more than the items |
| Sync.UnrelatedItemsSelectNothing | wear/src/main/java/com/example/android/sunshine/app/SunshineWatchFace.java:467-478 | items on other paths select nothing to process |
| Sync.StoredForecastsSplit | wear/src/main/java/com/example/android/sunshine/app/SunshineWatchFace.java:467-478 | the selection of a concatenation of item lists is the concatenation of their selections |
| Sync.StoredForecastsMembers | wear/src/main/java/com/example/android/sunshine/app/SunshineWatchFace.java:467-478 | a payload is selected exactly when some stored item matching "/update-forecast" carries it |
| Sync.LastStoredForecast | wear/src/main/java/com/example/android/sunshine/app/SunshineWatchFace.java:467-478 | the last selected payload is the one of the last matching stored item |
| Sync.LastStoredItemWins | wear/src/main/java/com/example/android/sunshine/app/SunshineWatchFace.java:467-478 | when no selected payload lacks an icon, the temperatures of the last matching stored item remain displayed |
| WatchFace.Paint.constructor | wear/src/main/java/com/example/android/sunshine/app/SunshineWatchFace.java:196-202 | a text paint is created with the given colour and anti-aliased |
| WatchFace.GetBoolean | wear/src/main/java/com/example/android/sunshine/app/SunshineWatchFace.java:262 | `Bundle.getBoolean`: the stored boolean when the key holds one, the default otherwise |
| WatchFace.Engine.constructor | wear/src/main/java/com/example/android/sunshine/app/SunshineWatchFace.java:157-188 | white time and max-temperature paints and grey date and min-temperature paints, all anti-aliased; nothing registered, queued or displayed |
| WatchFace.Engine.UpdateTimer | wear/src/main/java/com/example/android/sunshine/app/SunshineWatchFace.java:376-389 | afterwards a message is pending exactly when the face is visible and not ambient, it is the only one, and it is due immediately |
| WatchFace.Engine.ShouldTimerBeRunning | wear/src/main/java/com/example/android/sunshine/app/SunshineWatchFace.java:387-389 | the timer should run exactly when the face is visible and not in ambient mode |
| WatchFace.Engine.HandleUpdateTimeMessage | wear/src/main/java/com/example/android/sunshine/app/SunshineWatchFace.java:394-402 | a tick always requests a redraw and queues the next tick, at the delay to the next whole second, exactly when the timer should run |
| WatchFace.Engine.DeliverUpdateMessage | wear/src/main/java/com/example/android/sunshine/app/SunshineWatchFace.java:98-105 | delivering the pending message keeps the timer invariant: exactly one message, re-armed to the next whole second |
| WatchFace.Engine.RegisterReceivers | wear/src/main/java/com/example/android/sunshine/app/SunshineWatchFace.java:223-231 | the listener is added on every call; the time-zone receiver ends up registered once, however often this is called |
| WatchFace.Engine.UnregisterReceivers | wear/src/main/java/com/example/android/sunshine/app/SunshineWatchFace.java:233-240 | the listener is removed on every call; the receiver is dropped only if it was registered, so the host is never asked to drop one it does not hold |
| WatchFace.Engine.OnVisibilityChanged | wear/src/main/java/com/example/android/sunshine/app/SunshineWatchFace.java:205-221 | becoming visible registers, resets the time zone and redraws; becoming invisible unregisters; either way the timer then runs exactly when visible and interactive |
| WatchFace.Engine.OnPropertiesChanged | wear/src/main/java/com/example/android/sunshine/app/SunshineWatchFace.java:260-263 | low-bit ambient is on exactly when the property is present and true; absent or not a boolean means off |
| WatchFace.Engine.OnTimeTick | wear/src/main/java/com/example/android/sunshine/app/SunshineWatchFace.java:266-269 | a minute tick requests one redraw |
| WatchFace.Engine.OnTimeZoneChanged | wear/src/main/java/com/example/android/sunshine/app/SunshineWatchFace.java:129-135 | a time-zone broadcast resets the calendar's zone and requests one redraw |
| WatchFace.Engine.OnAmbientModeChanged | wear/src/main/java/com/example/android/sunshine/app/SunshineWatchFace.java:272-288 | the mode is recorded; the four paints' anti-aliasing becomes !mode only on a real change on a low-bit display and is otherwise untouched; a redraw only on a real change; the timer is then updated |
| WatchFace.Engine.OnDestroy | wear/src/main/java/com/example/android/sunshine/app/SunshineWatchFace.java:191-194 | no update message remains pending |
| WatchFace.Engine.OnDraw | wear/src/main/java/com/example/android/sunshine/app/SunshineWatchFace.java:291-370 | ambient: a black fill and the time only; interactive: background, time, date, divider, then the icon exactly when there is one and both temperatures exactly when both are known, beside the icon or centred without it |
| WatchFace.Engine.DrawWeather | wear/src/main/java/com/example/android/sunshine/app/SunshineWatchFace.java:341-367 | the icon is drawn exactly when present and first; the two temperatures exactly when both are known, max then min, anchored to the icon if it was drawn |
| WatchFace.Engine.LoadBitmapFromAsset | wear/src/main/java/com/example/android/sunshine/app/SunshineWatchFace.java:405-420 | a null asset throws IllegalArgumentException and requests nothing; otherwise the asset is requested |
| WatchFace.Engine.OnAssetLoaded | wear/src/main/java/com/example/android/sunshine/app/SunshineWatchFace.java:422-429 | the decoded bitmap, or null when decoding failed, replaces the icon and a redraw is requested |
| WatchFace.Engine.ProcessDataItem | wear/src/main/java/com/example/android/sunshine/app/SunshineWatchFace.java:486-503 | both temperatures are replaced by the payload's (as `Sync.ApplyPayload`), then the icon is loaded; a missing icon throws after the temperatures are set |
| WatchFace.Engine.OnDataChanged | wear/src/main/java/com/example/android/sunshine/app/SunshineWatchFace.java:434-453 | without a connection nothing changes; otherwise the display is the result of a pass over the changed "/update-forecast" events in order, which throws exactly when one of them lacks an icon |
| WatchFace.Engine.OnConnected | wear/src/main/java/com/example/android/sunshine/app/SunshineWatchFace.java:456-458 | connecting adds the data listener |
| WatchFace.Engine.OnConnectionFailed | wear/src/main/java/com/example/android/sunshine/app/SunshineWatchFace.java:510-515 | a failed connection removes the data listener |
| WatchFace.Engine.LoadStoredItems | wear/src/main/java/com/example/android/sunshine/app/SunshineWatchFace.java:460-484 | the display is the result of a pass over the stored items whose "/" + last segment is "/update-forecast", in order, which throws exactly when one of them lacks an icon |

## Left out

- Connection handling: `GoogleApiClient` `connect`, the `blockingConnect` timeout and the
  reconnect (`googleApiClient.connect()`) after `onConnectionFailed` removes the listener are
  library calls. Whether `onDataChanged` ends up
  connected is the `connected` parameter of `OnDataChanged`.
- The failed reconnect in `loadBitmapFromAsset` (lines 410-415) only logs and goes on, so it is
  not modelled.
- `onConnectionSuspended` only logs.
- The `AsyncTask` of `onConnected` runs on another thread. `LoadStoredItems` models its loop as
  if it ran alone. The unsynchronised writes to `maxTemp`, `minTemp` and `icon` are not modelled.
- The asset's result callback runs later, on another thread. It is a separate method,
  `OnAssetLoaded`, called with the bitmap `BitmapFactory.decodeStream` returned. File
  descriptors and streams are left out.
- Pixel geometry in `onDraw` is left out. That covers text measurement, the float offsets, the
  scaling of the icon to 64 px and the 28/40/8/32 px offsets. The float test
  `xIconOffset == xOffset` is modelled as "an icon was drawn". The scaled icon is 64 px wide,
  so the two always differ when an icon was drawn.
- `SimpleDateFormat`, `Calendar` and time zones are library-defined. The weekday and month
  names and the calendar fields are inputs to `OnDraw`. Time-zone resets are only counted.
- `System.currentTimeMillis` is the `now` parameter of `HandleUpdateTimeMessage`.
- The 64-bit range of `long` is not modelled, because `now % 1000` cannot overflow.
- `WatchFaceStyle`, `Resources`, `onApplyWindowInsets` (text sizes), the background paint and
  typefaces are framework setup with no logic.
- The `WeakReference` check in `EngineHandler` is a garbage-collection idiom. A collected
  engine simply gets no tick, and that case is not modelled.
- `dataEvents.release()` and `dataItems.release()` release library buffers.
- Logging and `System.out.println` are left out.
- Missing payload keys are left out. A `DataMap` without "max_temp" or "min_temp" gets whatever
  the library's `getInt` default is, which is defined outside this code.
- `ForecastListenerService.java` is not part of this model. Its event handling is commented
  out, and its asset loading is a wrapper around library calls.
- Locale-specific digits are left out. `Integer.toString` and `%d` are modelled with ASCII digits.
- URI percent-decoding in `getPath` and `getPathSegments` is left out. Paths are taken as already decoded.
- WatchFace.Engine.OnDestroy: only the pending update message is modelled. The host's own
  teardown in `super.onDestroy()` is left out.
- Formatting.DateStringFields: the split is proved for month names without a space, as the
  abbreviated "MMM" names are. A month name containing a space would shift the fields.
