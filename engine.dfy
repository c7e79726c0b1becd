/**
 * The watch-face engine: the callbacks the host invokes one at a time, the fields they
 * update, and the effects they have on the host (handler messages, receiver and listener
 * registrations, redraw requests, asset loads) recorded as fields of the engine.
 */
module WatchFace {

  import opened Wrappers
  import opened Decimal
  import opened Formatting
  import opened UpdateTimer
  import opened DataPaths
  import opened Sync

  /** The key under which the host reports whether ambient mode has fewer bits per colour. */
  const PROPERTY_LOW_BIT_AMBIENT: string := "low_bit_ambient"

  datatype Color = White | Grey

  /** A value stored in a Bundle, as far as getBoolean can tell. */
  datatype BundleValue = BoolValue(b: bool) | OtherValue

  /** Bundle.getBoolean: the stored boolean, or the default when the key is absent or holds another type. */
  function GetBoolean(bundle: map<string, BundleValue>, key: string, default: bool): bool {
    if key in bundle && bundle[key].BoolValue? then bundle[key].b else default
  }

  /** A decoded image, kept opaque. */
  datatype Bitmap = Bitmap(id: nat)

  datatype TextRole = TimeText | DateText | MaxTempText | MinTempText

  /** Where a piece of text is placed, without the pixel arithmetic. */
  datatype Anchor =
    | Centred        // centred on the face
    | PairCentred    // the two temperatures together centred on the face (no icon)
    | RightOfIcon    // just right of the icon
    | AfterMaxTemp   // just right of the maximum temperature

  datatype DrawCommand =
    | FillBlack
    | FillBackground
    | DrawText(text: string, role: TextRole, antiAlias: bool, anchor: Anchor)
    | DrawDivider(antiAlias: bool)
    | DrawIcon(bitmap: Bitmap)

  datatype ListenerCall = AddListener | RemoveListener

  /** The calendar fields onDraw reads, and the locale's names for the weekday and month. */
  datatype CalendarFields = CalendarFields(hour: nat, minute: nat, weekDay: string, month: string, dayOfMonth: Int32, year: Int32)

  /** Some command of the frame draws the weather icon. */
  predicate DrawsIcon(frame: seq<DrawCommand>)
    decreases |frame|
  {
    frame != [] && (frame[0].DrawIcon? || DrawsIcon(frame[1..]))
  }

  /** Some command of the frame draws text in the given role. */
  predicate DrawsText(frame: seq<DrawCommand>, role: TextRole)
    decreases |frame|
  {
    frame != [] && ((frame[0].DrawText? && frame[0].role == role) || DrawsText(frame[1..], role))
  }

  /** A frame drawn in two parts draws the icon, or a text, exactly when one of the parts does. */
  lemma {:induction false} DrawsAppend(a: seq<DrawCommand>, b: seq<DrawCommand>)
    ensures DrawsIcon(a + b) <==> DrawsIcon(a) || DrawsIcon(b)
    ensures forall role :: DrawsText(a + b, role) <==> DrawsText(a, role) || DrawsText(b, role)
    decreases |a|
  {
    if a != [] {
      assert (a + b)[1..] == a[1..] + b;
      DrawsAppend(a[1..], b);
    } else {
      assert a + b == b;
    }
  }

  lemma DrawsSingle(c: DrawCommand)
    ensures DrawsIcon([c]) <==> c.DrawIcon?
    ensures forall role :: DrawsText([c], role) <==> c.DrawText? && c.role == role
  {
    assert [c][1..] == [];
  }

  lemma DrawsPair(c: DrawCommand, d: DrawCommand)
    ensures DrawsIcon([c, d]) <==> c.DrawIcon? || d.DrawIcon?
    ensures forall role :: DrawsText([c, d], role) <==> (c.DrawText? && c.role == role) || (d.DrawText? && d.role == role)
  {
    DrawsSingle(c);
    DrawsSingle(d);
    DrawsAppend([c], [d]);
    assert [c] + [d] == [c, d];
  }

  /** A text paint; only its anti-alias flag changes after creation. */
  class Paint {
    const color: Color
    var antiAlias: bool

    /** createTextPaint: the given colour, anti-aliased. */
    constructor (color: Color)
      ensures this.color == color && antiAlias
    {
      this.color := color;
      antiAlias := true;
    }
  }

  class Engine {
    // What the engine observes of the host and the effects it has had on it.

    /** isVisible() */
    var visible: bool
    /** isInAmbientMode() */
    var hostAmbient: bool
    /** The MSG_UPDATE_TIME messages waiting in the handler, each as its delay in milliseconds. */
    var updateQueue: seq<int>
    /** How many registrations of the time-zone receiver the host holds. */
    var receiverRegistrations: nat
    /** Every addListener and removeListener call on the data API, in order. */
    var listenerCalls: seq<ListenerCall>
    /** How many redraws have been requested with invalidate(). */
    var invalidations: nat
    /** How many times the calendar's time zone was reset to the default. */
    var timeZoneResets: nat
    /** Every asset handed to getFdForAsset, in order. */
    var assetRequests: seq<Asset>

    // The engine's own fields.

    var registeredTimeZoneReceiver: bool
    var ambient: bool
    var lowBitAmbient: bool
    var maxTemp: Option<string>
    var minTemp: Option<string>
    var icon: Option<Bitmap>
    const timePaint: Paint
    const datePaint: Paint
    const maxTempPaint: Paint
    const minTempPaint: Paint

    predicate ShouldTimerBeRunning()
      reads this
    {
      visible && !hostAmbient
    }

    /** At most one update message is pending, and only while the timer should run. */
    ghost predicate TimerValid()
      reads this
    {
      |updateQueue| <= 1 && (updateQueue != [] ==> ShouldTimerBeRunning())
    }

    /** The flag says exactly whether the host holds the time-zone receiver, which it holds at most once. */
    ghost predicate ReceiverValid()
      reads this
    {
      receiverRegistrations == if registeredTimeZoneReceiver then 1 else 0
    }

    ghost predicate Valid()
      reads this
    {
      TimerValid() && ReceiverValid()
    }

    /** The field initialisers and onCreate: four anti-aliased text paints and no forecast yet. */
    constructor ()
      ensures Valid()
      ensures !visible && !hostAmbient && !ambient && !lowBitAmbient && !registeredTimeZoneReceiver
      ensures updateQueue == [] && receiverRegistrations == 0 && listenerCalls == []
      ensures invalidations == 0 && timeZoneResets == 0 && assetRequests == []
      ensures maxTemp == None && minTemp == None && icon == None
      ensures fresh(timePaint) && fresh(datePaint) && fresh(maxTempPaint) && fresh(minTempPaint)
      ensures timePaint.color == White && datePaint.color == Grey
      ensures maxTempPaint.color == White && minTempPaint.color == Grey
      ensures timePaint.antiAlias && datePaint.antiAlias && maxTempPaint.antiAlias && minTempPaint.antiAlias
    {
      timePaint := new Paint(White);
      datePaint := new Paint(Grey);
      maxTempPaint := new Paint(White);
      minTempPaint := new Paint(Grey);
      visible, hostAmbient, ambient, lowBitAmbient := false, false, false, false;
      registeredTimeZoneReceiver := false;
      updateQueue, receiverRegistrations, listenerCalls := [], 0, [];
      invalidations, timeZoneResets, assetRequests := 0, 0, [];
      maxTemp, minTemp, icon := None, None, None;
    }

    /** Removes every pending update message, then queues one for immediate delivery if the timer should run. */
    method UpdateTimer()
      modifies this`updateQueue
      ensures TimerValid()
      ensures updateQueue != [] <==> visible && !hostAmbient
      ensures updateQueue != [] ==> updateQueue == [0]
    {
      updateQueue := [];
      if ShouldTimerBeRunning() {
        updateQueue := updateQueue + [0];
      }
    }

    /**
     * A tick: always requests a redraw, and re-arms the timer, aligned to the next whole
     * second, only while it should run.
     */
    method HandleUpdateTimeMessage(now: int)
      modifies this`invalidations, this`updateQueue
      ensures invalidations == old(invalidations) + 1
      ensures updateQueue == old(updateQueue) + if visible && !hostAmbient then [UpdateDelay(now)] else []
    {
      invalidations := invalidations + 1;
      if ShouldTimerBeRunning() {
        updateQueue := updateQueue + [UpdateDelay(now)];
      }
    }

    /**
     * The handler takes the pending message off the queue and runs the tick. Under the
     * invariant a message is pending only while the timer should run, so the tick re-arms it
     * and exactly one message is pending again.
     */
    method DeliverUpdateMessage(now: int)
      requires Valid() && updateQueue != []
      modifies this`invalidations, this`updateQueue
      ensures Valid()
      ensures invalidations == old(invalidations) + 1
      ensures updateQueue == [UpdateDelay(now)]
    {
      updateQueue := updateQueue[1..];
      HandleUpdateTimeMessage(now);
    }

    /** Adds the data listener on every call; registers the time-zone receiver only if it is not registered. */
    method RegisterReceivers()
      requires ReceiverValid()
      modifies this`listenerCalls, this`registeredTimeZoneReceiver, this`receiverRegistrations
      ensures ReceiverValid() && registeredTimeZoneReceiver && receiverRegistrations == 1
      ensures listenerCalls == old(listenerCalls) + [AddListener]
    {
      listenerCalls := listenerCalls + [AddListener];
      if registeredTimeZoneReceiver {
        return;
      }
      registeredTimeZoneReceiver := true;
      receiverRegistrations := receiverRegistrations + 1;
    }

    /**
     * Removes the data listener on every call; unregisters the time-zone receiver only if it is
     * registered, so the host is never asked to drop a receiver it does not hold.
     */
    method UnregisterReceivers()
      requires ReceiverValid()
      modifies this`listenerCalls, this`registeredTimeZoneReceiver, this`receiverRegistrations
      ensures ReceiverValid() && !registeredTimeZoneReceiver && receiverRegistrations == 0
      ensures !old(registeredTimeZoneReceiver) ==> receiverRegistrations == old(receiverRegistrations)
      ensures listenerCalls == old(listenerCalls) + [RemoveListener]
    {
      listenerCalls := listenerCalls + [RemoveListener];
      if !registeredTimeZoneReceiver {
        return;
      }
      registeredTimeZoneReceiver := false;
      receiverRegistrations := receiverRegistrations - 1;
    }

    method OnVisibilityChanged(v: bool)
      requires Valid()
      modifies this`visible, this`listenerCalls, this`registeredTimeZoneReceiver, this`receiverRegistrations
      modifies this`timeZoneResets, this`invalidations, this`updateQueue
      ensures Valid() && visible == v
      ensures registeredTimeZoneReceiver == v && receiverRegistrations == if v then 1 else 0
      ensures listenerCalls == old(listenerCalls) + [if v then AddListener else RemoveListener]
      ensures timeZoneResets == old(timeZoneResets) + (if v then 1 else 0)
      ensures invalidations == old(invalidations) + (if v then 1 else 0)
      ensures updateQueue == if v && !hostAmbient then [0] else []
    {
      visible := v;
      if v {
        RegisterReceivers();
        timeZoneResets := timeZoneResets + 1;
        invalidations := invalidations + 1;
      } else {
        UnregisterReceivers();
      }
      UpdateTimer();
    }

    /** Low-bit ambient is on exactly when the host reports it as true; absent means off. */
    method OnPropertiesChanged(properties: map<string, BundleValue>)
      modifies this`lowBitAmbient
      ensures lowBitAmbient <==> PROPERTY_LOW_BIT_AMBIENT in properties && properties[PROPERTY_LOW_BIT_AMBIENT] == BoolValue(true)
    {
      lowBitAmbient := GetBoolean(properties, PROPERTY_LOW_BIT_AMBIENT, false);
    }

    method OnTimeTick()
      modifies this`invalidations
      ensures invalidations == old(invalidations) + 1
    {
      invalidations := invalidations + 1;
    }

    /** The time-zone receiver's onReceive: reset the calendar's zone and redraw. */
    method OnTimeZoneChanged()
      modifies this`timeZoneResets, this`invalidations
      ensures timeZoneResets == old(timeZoneResets) + 1
      ensures invalidations == old(invalidations) + 1
    {
      timeZoneResets := timeZoneResets + 1;
      invalidations := invalidations + 1;
    }

    /**
     * Records the new mode; only a real change on a low-bit display switches anti-aliasing
     * of the four text paints (off in ambient, on in interactive mode); then the timer is updated.
     */
    method OnAmbientModeChanged(inAmbientMode: bool)
      requires Valid()
      modifies this`hostAmbient, this`ambient, this`invalidations, this`updateQueue
      modifies timePaint`antiAlias, datePaint`antiAlias, maxTempPaint`antiAlias, minTempPaint`antiAlias
      ensures Valid() && ambient == inAmbientMode && hostAmbient == inAmbientMode
      ensures updateQueue == if visible && !inAmbientMode then [0] else []
      ensures invalidations == old(invalidations) + (if old(ambient) != inAmbientMode then 1 else 0)
      ensures old(ambient) != inAmbientMode && lowBitAmbient ==>
        timePaint.antiAlias == datePaint.antiAlias == maxTempPaint.antiAlias == minTempPaint.antiAlias == !inAmbientMode
      ensures !(old(ambient) != inAmbientMode && lowBitAmbient) ==>
        timePaint.antiAlias == old(timePaint.antiAlias) && datePaint.antiAlias == old(datePaint.antiAlias) &&
        maxTempPaint.antiAlias == old(maxTempPaint.antiAlias) && minTempPaint.antiAlias == old(minTempPaint.antiAlias)
    {
      hostAmbient := inAmbientMode;
      if ambient != inAmbientMode {
        ambient := inAmbientMode;
        if lowBitAmbient {
          timePaint.antiAlias := !inAmbientMode;
          datePaint.antiAlias := !inAmbientMode;
          maxTempPaint.antiAlias := !inAmbientMode;
          minTempPaint.antiAlias := !inAmbientMode;
        }
        invalidations := invalidations + 1;
      }
      UpdateTimer();
    }

    method OnDestroy()
      requires Valid()
      modifies this`updateQueue
      ensures Valid() && updateQueue == []
    {
      updateQueue := [];
    }

    /**
     * The draw calls of one frame. Ambient mode: a black fill and the time only. Interactive
     * mode, in order: the background, the time, the date, the divider, then the weather.
     */
    method OnDraw(clock: CalendarFields) returns (frame: seq<DrawCommand>)
      requires clock.hour < 12 && clock.minute < 60
      ensures 2 <= |frame| && frame[0] == (if hostAmbient then FillBlack else FillBackground)
      ensures frame[1] == DrawText(TimeString(clock.hour, clock.minute), TimeText, timePaint.antiAlias, Centred)
      ensures hostAmbient ==> |frame| == 2
      ensures !hostAmbient ==> (4 <= |frame| &&
        frame[2] == DrawText(DateString(clock.weekDay, clock.month, clock.dayOfMonth, clock.year), DateText, datePaint.antiAlias, Centred) &&
        frame[3] == DrawDivider(datePaint.antiAlias))
      ensures !hostAmbient ==> |frame| == 4 + (if icon.Some? then 1 else 0) + (if maxTemp.Some? && minTemp.Some? then 2 else 0)
      ensures DrawsIcon(frame) <==> !hostAmbient && icon.Some?
      ensures !hostAmbient && icon.Some? ==> frame[4] == DrawIcon(icon.value)
      ensures DrawsText(frame, MaxTempText) <==> !hostAmbient && maxTemp.Some? && minTemp.Some?
      ensures DrawsText(frame, MinTempText) <==> !hostAmbient && maxTemp.Some? && minTemp.Some?
      ensures !hostAmbient && maxTemp.Some? && minTemp.Some? ==> (
        frame[|frame| - 2] == DrawText(maxTemp.value, MaxTempText, maxTempPaint.antiAlias, if icon.Some? then RightOfIcon else PairCentred) &&
        frame[|frame| - 1] == DrawText(minTemp.value, MinTempText, minTempPaint.antiAlias, AfterMaxTemp))
    {
      var time := TimeString(clock.hour, clock.minute);
      frame := [if hostAmbient then FillBlack else FillBackground, DrawText(time, TimeText, timePaint.antiAlias, Centred)];
      DrawsPair(frame[0], frame[1]);
      if !hostAmbient {
        var date := DateString(clock.weekDay, clock.month, clock.dayOfMonth, clock.year);
        var lines := [DrawText(date, DateText, datePaint.antiAlias, Centred), DrawDivider(datePaint.antiAlias)];
        DrawsPair(lines[0], lines[1]);
        DrawsAppend(frame, lines);
        frame := frame + lines;
        var weather := DrawWeather();
        DrawsAppend(frame, weather);
        frame := frame + weather;
      }
    }

    /**
     * The weather part of an interactive frame: the icon if there is one, then the two
     * temperatures if both are known, just right of the icon or centred together without it.
     */
    method DrawWeather() returns (cmds: seq<DrawCommand>)
      ensures |cmds| == (if icon.Some? then 1 else 0) + (if maxTemp.Some? && minTemp.Some? then 2 else 0)
      ensures DrawsIcon(cmds) <==> icon.Some?
      ensures icon.Some? ==> cmds[0] == DrawIcon(icon.value)
      ensures DrawsText(cmds, MaxTempText) <==> maxTemp.Some? && minTemp.Some?
      ensures DrawsText(cmds, MinTempText) <==> maxTemp.Some? && minTemp.Some?
      ensures !DrawsText(cmds, TimeText) && !DrawsText(cmds, DateText)
      ensures maxTemp.Some? && minTemp.Some? ==> (
        cmds[|cmds| - 2] == DrawText(maxTemp.value, MaxTempText, maxTempPaint.antiAlias, if icon.Some? then RightOfIcon else PairCentred) &&
        cmds[|cmds| - 1] == DrawText(minTemp.value, MinTempText, minTempPaint.antiAlias, AfterMaxTemp))
    {
      cmds := [];
      var besideIcon := false;
      if icon.Some? {
        cmds := [DrawIcon(icon.value)];
        DrawsSingle(cmds[0]);
        besideIcon := true;
      }
      if minTemp.Some? && maxTemp.Some? {
        var anchor := if besideIcon then RightOfIcon else PairCentred;
        var temps := [DrawText(maxTemp.value, MaxTempText, maxTempPaint.antiAlias, anchor),
                      DrawText(minTemp.value, MinTempText, minTempPaint.antiAlias, AfterMaxTemp)];
        DrawsPair(temps[0], temps[1]);
        DrawsAppend(cmds, temps);
        cmds := cmds + temps;
      }
    }

    /** Throws on a missing asset; otherwise asks the data API for the asset's contents. */
    method LoadBitmapFromAsset(asset: Option<Asset>) returns (outcome: Outcome)
      modifies this`assetRequests
      ensures asset.None? ==> outcome == IllegalArgument && assetRequests == old(assetRequests)
      ensures asset.Some? ==> outcome == Completed && assetRequests == old(assetRequests) + [asset.value]
    {
      if asset.None? {
        return IllegalArgument;
      }
      assetRequests := assetRequests + [asset.value];
      outcome := Completed;
    }

    /** The asset's result callback: the decoded bitmap, or None when decoding failed, replaces the icon. */
    method OnAssetLoaded(decoded: Option<Bitmap>)
      modifies this`icon, this`invalidations
      ensures icon == decoded && invalidations == old(invalidations) + 1
    {
      icon := decoded;
      invalidations := invalidations + 1;
    }

    /** The displayed temperatures and the assets requested so far, as one value. */
    ghost function Shown(): Snapshot
      reads this
    {
      Snapshot(maxTemp, minTemp, assetRequests)
    }

    /**
     * Replaces both displayed temperatures with the payload's, rendered with a degree sign,
     * then loads the icon; a missing icon throws after the temperatures are already set.
     */
    method ProcessDataItem(data: DataMap) returns (outcome: Outcome)
      modifies this`maxTemp, this`minTemp, this`assetRequests
      ensures Shown() == ApplyPayload(old(Shown()), data)
      ensures outcome == if HasIcon(data) then Completed else IllegalArgument
    {
      maxTemp := Some(Temperature(data.maxTemp));
      minTemp := Some(Temperature(data.minTemp));
      outcome := LoadBitmapFromAsset(data.icon);
    }

    /**
     * A batch of sync events. Without a connection nothing is processed. Otherwise the
     * changed events on the forecast path are processed in order until one throws.
     */
    method OnDataChanged(connected: bool, events: seq<DataEvent>) returns (outcome: Outcome)
      modifies this`maxTemp, this`minTemp, this`assetRequests
      ensures !connected ==> outcome == NotConnected && unchanged(this)
      ensures connected ==> Shown() == Pass(old(Shown()), ForecastUpdates(events))
      ensures connected ==> outcome == if Throws(ForecastUpdates(events)) then IllegalArgument else Completed
    {
      if !connected {
        return NotConnected;
      }
      var i := 0;
      assert events[i..] == events;
      while i < |events|
        invariant 0 <= i <= |events|
        invariant Pass(Shown(), ForecastUpdates(events[i..])) == Pass(old(Shown()), ForecastUpdates(events))
        invariant Throws(ForecastUpdates(events[i..])) <==> Throws(ForecastUpdates(events))
      {
        var event := events[i];
        ghost var before := Shown();
        ForecastUpdatesFrom(events, i);
        if event.kind == Changed && event.item.path == UPDATE_FORECAST_PATH {
          var result := ProcessDataItem(event.item.data);
          PassPrepend(before, event.item.data, ForecastUpdates(events[i + 1..]));
          ThrowsCons(event.item.data, ForecastUpdates(events[i + 1..]));
          if result == IllegalArgument {
            // The exception leaves the callback: the remaining events are not processed.
            return IllegalArgument;
          }
        }
        i := i + 1;
      }
      outcome := Completed;
    }

    /** onConnected: the engine listens for data changes. */
    method OnConnected()
      modifies this`listenerCalls
      ensures listenerCalls == old(listenerCalls) + [AddListener]
    {
      listenerCalls := listenerCalls + [AddListener];
    }

    /** A failed connection removes the data listener before connecting again. */
    method OnConnectionFailed()
      modifies this`listenerCalls
      ensures listenerCalls == old(listenerCalls) + [RemoveListener]
    {
      listenerCalls := listenerCalls + [RemoveListener];
    }

    /**
     * The enumeration of stored items that onConnected starts: items whose "/" + last path
     * segment is the forecast path are processed in order until one throws.
     */
    method LoadStoredItems(items: seq<DataItem>) returns (outcome: Outcome)
      modifies this`maxTemp, this`minTemp, this`assetRequests
      ensures Shown() == Pass(old(Shown()), StoredForecasts(items))
      ensures outcome == if Throws(StoredForecasts(items)) then IllegalArgument else Completed
    {
      var i := 0;
      assert items[i..] == items;
      while i < |items|
        invariant 0 <= i <= |items|
        invariant Pass(Shown(), StoredForecasts(items[i..])) == Pass(old(Shown()), StoredForecasts(items))
        invariant Throws(StoredForecasts(items[i..])) <==> Throws(StoredForecasts(items))
      {
        var item := items[i];
        ghost var before := Shown();
        var path := InitialPathKey(item.path);
        StoredForecastsFrom(items, i);
        if path == UPDATE_FORECAST_PATH {
          var result := ProcessDataItem(item.data);
          PassPrepend(before, item.data, StoredForecasts(items[i + 1..]));
          ThrowsCons(item.data, StoredForecasts(items[i + 1..]));
          if result == IllegalArgument {
            // The exception ends the background task: the remaining items are not processed.
            return IllegalArgument;
          }
        }
        i := i + 1;
      }
      outcome := Completed;
    }
  }

}
