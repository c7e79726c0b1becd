/**
 * Forecast payloads delivered over the data-sync channel, and what processing them does to
 * the displayed forecast. Processing one payload sets both temperatures and then hands its
 * icon asset to the bitmap loader, which throws on a missing asset; the exception ends the
 * pass, so the payloads processed are those selected, up to and including the first without
 * an icon.
 */
module Sync {

  import opened Wrappers
  import opened Decimal
  import opened DataPaths
  import Formatting

  /** An opaque reference to a binary blob sent with a data item. */
  datatype Asset = Asset(digest: string)

  /** The payload of a forecast item: the "max_temp" and "min_temp" ints and the "icon" asset. */
  datatype DataMap = DataMap(maxTemp: Int32, minTemp: Int32, icon: Option<Asset>)

  datatype DataItem = DataItem(path: string, data: DataMap)

  datatype EventType = Changed | Deleted

  datatype DataEvent = DataEvent(kind: EventType, item: DataItem)

  /** How a callback ended: normally, by giving up without a connection, or by IllegalArgumentException. */
  datatype Outcome = Completed | NotConnected | IllegalArgument

  /** The displayed temperatures and the assets handed to the loader so far. */
  datatype Snapshot = Snapshot(maxTemp: Option<string>, minTemp: Option<string>, assetRequests: seq<Asset>)

  /** The test onDataChanged applies to each event. */
  predicate IsForecastUpdate(e: DataEvent) {
    e.kind == Changed && ChangedPathMatches(e.item.path)
  }

  /** The payloads of the forecast updates in a batch of events, in the order they arrived. */
  function ForecastUpdates(events: seq<DataEvent>): (ps: seq<DataMap>)
    ensures |ps| <= |events|
    decreases |events|
  {
    if events == [] then []
    else (if IsForecastUpdate(events[0]) then [events[0].item.data] else []) + ForecastUpdates(events[1..])
  }

  /** The payloads of the stored items the initial enumeration selects, in order. */
  function StoredForecasts(items: seq<DataItem>): (ps: seq<DataMap>)
    ensures |ps| <= |items|
    decreases |items|
  {
    if items == [] then []
    else (if StoredPathMatches(items[0].path) then [items[0].data] else []) + StoredForecasts(items[1..])
  }

  predicate HasIcon(p: DataMap) {
    p.icon.Some?
  }

  predicate AllHaveIcons(ps: seq<DataMap>) {
    forall i :: 0 <= i < |ps| ==> HasIcon(ps[i])
  }

  /** Processing these payloads in order ends in the loader's IllegalArgumentException. */
  predicate Throws(ps: seq<DataMap>)
    decreases |ps|
  {
    ps != [] && (!HasIcon(ps[0]) || Throws(ps[1..]))
  }

  /** A pass throws exactly when some payload lacks an icon. */
  lemma {:induction false} ThrowsIffMissingIcon(ps: seq<DataMap>)
    ensures Throws(ps) <==> !AllHaveIcons(ps)
    decreases |ps|
  {
    if ps != [] {
      ThrowsIffMissingIcon(ps[1..]);
      assert forall i :: 0 < i < |ps| ==> ps[i] == ps[1..][i - 1];
      if !AllHaveIcons(ps[1..]) {
        var j :| 0 <= j < |ps| - 1 && !HasIcon(ps[1..][j]);
        assert ps[j + 1] == ps[1..][j];
      }
    }
  }

  /** The payloads one pass processes: all of them, or up to and including the first without an icon. */
  function Processed(ps: seq<DataMap>): (done: seq<DataMap>)
    decreases |ps|
  {
    if ps == [] then []
    else if !HasIcon(ps[0]) then [ps[0]]
    else [ps[0]] + Processed(ps[1..])
  }

  /** The icon assets of the payloads that have one, in order. */
  function IconRequests(ps: seq<DataMap>): (assets: seq<Asset>)
    ensures |assets| <= |ps|
    decreases |ps|
  {
    if ps == [] then []
    else (if HasIcon(ps[0]) then [ps[0].icon.value] else []) + IconRequests(ps[1..])
  }

  /** A displayed temperature after processing `done`: the last payload's, or the previous one. */
  function LatestTemperature(previous: Option<string>, done: seq<DataMap>, max: bool): Option<string> {
    if done == [] then previous
    else
      var p := done[|done| - 1];
      Some(Formatting.Temperature(if max then p.maxTemp else p.minTemp))
  }

  /** processDataItem: both temperatures replaced by the payload's, its icon (if any) requested. */
  function ApplyPayload(s: Snapshot, p: DataMap): Snapshot {
    Snapshot(Some(Formatting.Temperature(p.maxTemp)), Some(Formatting.Temperature(p.minTemp)),
             s.assetRequests + (if HasIcon(p) then [p.icon.value] else []))
  }

  /**
   * Each payload replaces both displayed temperatures whatever was shown before, and what is
   * shown reads back as exactly the payload's values; its icon, if any, is the one new request.
   */
  lemma PayloadShownExactly(s: Snapshot, p: DataMap)
    ensures ApplyPayload(s, p).maxTemp.Some? && ApplyPayload(s, p).minTemp.Some?
    ensures Formatting.ParseTemperature(ApplyPayload(s, p).maxTemp.value) == Some(p.maxTemp as int)
    ensures Formatting.ParseTemperature(ApplyPayload(s, p).minTemp.value) == Some(p.minTemp as int)
    ensures ApplyPayload(s, p).assetRequests == s.assetRequests + (if HasIcon(p) then [p.icon.value] else [])
  {
    Formatting.TemperatureRoundTrip(p.maxTemp);
    Formatting.TemperatureRoundTrip(p.minTemp);
  }

  /** Processes payloads one after the other; one without an icon is processed and ends the pass. */
  function Pass(s: Snapshot, ps: seq<DataMap>): Snapshot
    decreases |ps|
  {
    if ps == [] then s
    else if !HasIcon(ps[0]) then ApplyPayload(s, ps[0])
    else Pass(ApplyPayload(s, ps[0]), ps[1..])
  }

  /**
   * What a pass leaves behind: the temperatures of the last payload processed (the previous
   * ones if none was), and a request for the icon of every payload processed, in order.
   */
  predicate ShowsLastProcessed(s: Snapshot, ps: seq<DataMap>) {
    && Pass(s, ps).maxTemp == LatestTemperature(s.maxTemp, Processed(ps), true)
    && Pass(s, ps).minTemp == LatestTemperature(s.minTemp, Processed(ps), false)
    && Pass(s, ps).assetRequests == s.assetRequests + IconRequests(Processed(ps))
  }

  lemma {:induction false} PassShowsLastProcessed(s: Snapshot, ps: seq<DataMap>)
    ensures ShowsLastProcessed(s, ps)
    decreases |ps|
  {
    if ps == [] {
    } else if !HasIcon(ps[0]) {
      ShowsLastProcessedAtMissingIcon(s, ps);
    } else {
      PassShowsLastProcessed(ApplyPayload(s, ps[0]), ps[1..]);
      ShowsLastProcessedStep(s, ps);
    }
  }

  lemma ShowsLastProcessedAtMissingIcon(s: Snapshot, ps: seq<DataMap>)
    requires ps != [] && !HasIcon(ps[0])
    ensures ShowsLastProcessed(s, ps)
  {
    assert Processed(ps) == [ps[0]];
    IconRequestsCons(ps[0], []);
    assert [ps[0]] + [] == [ps[0]];
  }

  lemma ShowsLastProcessedStep(s: Snapshot, ps: seq<DataMap>)
    requires ps != [] && HasIcon(ps[0])
    requires ShowsLastProcessed(ApplyPayload(s, ps[0]), ps[1..])
    ensures ShowsLastProcessed(s, ps)
  {
    var p := ps[0];
    var rest := Processed(ps[1..]);
    assert ps == [p] + ps[1..];
    PassPrepend(s, p, ps[1..]);
    ProcessedCons(ps);
    LatestTemperatureCons(s.maxTemp, p, rest, true);
    LatestTemperatureCons(s.minTemp, p, rest, false);
    IconRequestsCons(p, rest);
    AppendAssoc(s.assetRequests, [p.icon.value], IconRequests(rest));
  }

  lemma AppendAssoc<T>(a: seq<T>, b: seq<T>, c: seq<T>)
    ensures a + (b + c) == (a + b) + c
  {
  }

  lemma ProcessedCons(ps: seq<DataMap>)
    requires ps != [] && HasIcon(ps[0])
    ensures Processed(ps) == [ps[0]] + Processed(ps[1..])
  {
  }

  lemma LatestTemperatureCons(previous: Option<string>, p: DataMap, done: seq<DataMap>, max: bool)
    ensures LatestTemperature(previous, [p] + done, max) ==
            LatestTemperature(Some(Formatting.Temperature(if max then p.maxTemp else p.minTemp)), done, max)
  {
    if done != [] {
      assert ([p] + done)[|[p] + done| - 1] == done[|done| - 1];
    }
  }

  lemma IconRequestsCons(p: DataMap, ps: seq<DataMap>)
    ensures IconRequests([p] + ps) == (if HasIcon(p) then [p.icon.value] else []) + IconRequests(ps)
  {
    assert ([p] + ps)[1..] == ps;
  }

  lemma ThrowsCons(p: DataMap, ps: seq<DataMap>)
    ensures Throws([p] + ps) <==> !HasIcon(p) || Throws(ps)
  {
    assert ([p] + ps)[1..] == ps;
  }

  /** Pass unrolled by one payload: one without an icon ends it, one with an icon carries on. */
  lemma PassPrepend(s: Snapshot, p: DataMap, rest: seq<DataMap>)
    ensures Pass(s, [p] + rest) == if HasIcon(p) then Pass(ApplyPayload(s, p), rest) else ApplyPayload(s, p)
  {
    assert ([p] + rest)[1..] == rest;
  }

  /** The selection from events[i..]: event i's payload, if it is a forecast update, then the rest. */
  lemma ForecastUpdatesFrom(events: seq<DataEvent>, i: nat)
    requires i < |events|
    ensures IsForecastUpdate(events[i]) ==> ForecastUpdates(events[i..]) == [events[i].item.data] + ForecastUpdates(events[i + 1..])
    ensures !IsForecastUpdate(events[i]) ==> ForecastUpdates(events[i..]) == ForecastUpdates(events[i + 1..])
  {
    assert events[i..][1..] == events[i + 1..];
    assert [] + ForecastUpdates(events[i + 1..]) == ForecastUpdates(events[i + 1..]);
  }

  lemma StoredForecastsFrom(items: seq<DataItem>, i: nat)
    requires i < |items|
    ensures StoredPathMatches(items[i].path) ==> StoredForecasts(items[i..]) == [items[i].data] + StoredForecasts(items[i + 1..])
    ensures !StoredPathMatches(items[i].path) ==> StoredForecasts(items[i..]) == StoredForecasts(items[i + 1..])
  {
    assert items[i..][1..] == items[i + 1..];
    assert [] + StoredForecasts(items[i + 1..]) == StoredForecasts(items[i + 1..]);
  }

  /** Events that are deletions or for other paths leave nothing to process. */
  lemma {:induction false} UnrelatedEventsSelectNothing(events: seq<DataEvent>)
    requires forall i :: 0 <= i < |events| ==> !IsForecastUpdate(events[i])
    ensures ForecastUpdates(events) == []
    decreases |events|
  {
    if events != [] {
      assert forall i :: 0 <= i < |events| - 1 ==> events[1..][i] == events[i + 1];
      UnrelatedEventsSelectNothing(events[1..]);
    }
  }

  /** Without a missing icon the pass processes every selected payload. */
  lemma {:induction false} ProcessedAll(ps: seq<DataMap>)
    requires AllHaveIcons(ps)
    ensures Processed(ps) == ps
    decreases |ps|
  {
    if ps != [] {
      assert AllHaveIcons(ps[1..]) by {
        forall i | 0 <= i < |ps| - 1 ensures HasIcon(ps[1..][i]) {
          assert ps[1..][i] == ps[i + 1];
        }
      }
      ProcessedAll(ps[1..]);
    }
  }

  /** A pass processes the payloads from the start, in order, and none it did not receive. */
  lemma {:induction false} ProcessedIsPrefix(ps: seq<DataMap>)
    ensures |Processed(ps)| <= |ps| && Processed(ps) == ps[..|Processed(ps)|]
    decreases |ps|
  {
    if ps != [] && HasIcon(ps[0]) {
      ProcessedIsPrefix(ps[1..]);
      assert ps[..|Processed(ps)|] == [ps[0]] + ps[1..][..|Processed(ps[1..])|];
    }
  }

  /** With a missing icon the pass ends exactly at the first payload that lacks one. */
  lemma {:induction false} ProcessedEndsAtMissingIcon(ps: seq<DataMap>)
    requires Throws(ps)
    ensures |Processed(ps)| <= |ps| && Processed(ps) == ps[..|Processed(ps)|]
    ensures Processed(ps) != [] && !HasIcon(Processed(ps)[|Processed(ps)| - 1])
    ensures AllHaveIcons(Processed(ps)[..|Processed(ps)| - 1])
    decreases |ps|
  {
    ProcessedIsPrefix(ps);
    if HasIcon(ps[0]) {
      ProcessedEndsAtMissingIcon(ps[1..]);
      var rest := Processed(ps[1..]);
      assert Processed(ps) == [ps[0]] + rest;
      assert Processed(ps)[..|Processed(ps)| - 1] == [ps[0]] + rest[..|rest| - 1];
    }
  }

  /**
   * When every selected payload has an icon, each is processed in order, so the last one's
   * temperatures are the ones left displayed and the payloads' icons are requested, in order,
   * after the earlier requests.
   */
  lemma LastUpdateWins(s: Snapshot, ps: seq<DataMap>)
    requires ps != [] && AllHaveIcons(ps)
    ensures Pass(s, ps).maxTemp == Some(Formatting.Temperature(ps[|ps| - 1].maxTemp))
    ensures Pass(s, ps).minTemp == Some(Formatting.Temperature(ps[|ps| - 1].minTemp))
    ensures Pass(s, ps).assetRequests == s.assetRequests + IconRequests(ps)
    ensures |Pass(s, ps).assetRequests| == |s.assetRequests| + |ps|
    ensures forall i :: 0 <= i < |ps| ==> Pass(s, ps).assetRequests[|s.assetRequests| + i] == ps[i].icon.value
  {
    PassShowsLastProcessed(s, ps);
    ProcessedAll(ps);
    IconRequestsOfIcons(ps);
    var r := Pass(s, ps).assetRequests;
    assert LatestTemperature(s.maxTemp, ps, true) == Some(Formatting.Temperature(ps[|ps| - 1].maxTemp));
    assert LatestTemperature(s.minTemp, ps, false) == Some(Formatting.Temperature(ps[|ps| - 1].minTemp));
    assert r == s.assetRequests + IconRequests(ps);
    forall i | 0 <= i < |ps|
      ensures r[|s.assetRequests| + i] == ps[i].icon.value
    {
      assert r[|s.assetRequests| + i] == IconRequests(ps)[i];
    }
  }

  /** Payloads that all have an icon request exactly their icons, one each, in order. */
  lemma {:induction false} IconRequestsOfIcons(ps: seq<DataMap>)
    requires AllHaveIcons(ps)
    ensures |IconRequests(ps)| == |ps|
    ensures forall i :: 0 <= i < |ps| ==> IconRequests(ps)[i] == ps[i].icon.value
    decreases |ps|
  {
    if ps != [] {
      assert AllHaveIcons(ps[1..]) by {
        forall i | 0 <= i < |ps| - 1 ensures HasIcon(ps[1..][i]) {
          assert ps[1..][i] == ps[i + 1];
        }
      }
      IconRequestsOfIcons(ps[1..]);
      var rest := IconRequests(ps[1..]);
      assert IconRequests(ps) == [ps[0].icon.value] + rest;
      forall i | 0 < i < |ps|
        ensures IconRequests(ps)[i] == ps[i].icon.value
      {
        assert IconRequests(ps)[i] == rest[i - 1];
        assert ps[1..][i - 1] == ps[i];
      }
    }
  }

  /** The selection of a list of events made in two parts is the two selections, in order. */
  lemma {:induction false} ForecastUpdatesSplit(a: seq<DataEvent>, b: seq<DataEvent>)
    ensures ForecastUpdates(a + b) == ForecastUpdates(a) + ForecastUpdates(b)
    decreases |a|
  {
    if a == [] {
      assert a + b == b;
    } else {
      assert (a + b)[1..] == a[1..] + b;
      ForecastUpdatesSplit(a[1..], b);
      AppendAssoc(if IsForecastUpdate(a[0]) then [a[0].item.data] else [], ForecastUpdates(a[1..]), ForecastUpdates(b));
    }
  }

  /** A payload is selected from a batch exactly when some forecast update in it carries it. */
  lemma {:induction false} ForecastUpdatesMembers(events: seq<DataEvent>, p: DataMap)
    ensures p in ForecastUpdates(events) <==>
            exists i :: 0 <= i < |events| && IsForecastUpdate(events[i]) && events[i].item.data == p
    decreases |events|
  {
    if events != [] {
      ForecastUpdatesMembers(events[1..], p);
      if exists i :: 0 <= i < |events| && IsForecastUpdate(events[i]) && events[i].item.data == p {
        var i :| 0 <= i < |events| && IsForecastUpdate(events[i]) && events[i].item.data == p;
        if i > 0 {
          assert events[1..][i - 1] == events[i];
        }
      }
      if exists i :: 0 <= i < |events| - 1 && IsForecastUpdate(events[1..][i]) && events[1..][i].item.data == p {
        var i :| 0 <= i < |events| - 1 && IsForecastUpdate(events[1..][i]) && events[1..][i].item.data == p;
        assert events[i + 1] == events[1..][i];
      }
    }
  }

  /** The last payload selected from a batch is that of the last forecast update in it. */
  lemma LastForecastUpdate(events: seq<DataEvent>, j: nat)
    requires j < |events| && IsForecastUpdate(events[j])
    requires forall k :: j < k < |events| ==> !IsForecastUpdate(events[k])
    ensures ForecastUpdates(events) != []
    ensures ForecastUpdates(events)[|ForecastUpdates(events)| - 1] == events[j].item.data
  {
    assert events == events[..j] + events[j..];
    ForecastUpdatesSplit(events[..j], events[j..]);
    ForecastUpdatesFrom(events, j);
    var later := events[j + 1..];
    forall k | 0 <= k < |later| ensures !IsForecastUpdate(later[k]) {
      assert later[k] == events[j + 1 + k];
    }
    UnrelatedEventsSelectNothing(later);
    assert ForecastUpdates(events[j..]) == [events[j].item.data];
  }

  /**
   * When no selected payload lacks an icon, the temperatures left displayed after a batch of
   * events are those of its last forecast update.
   */
  lemma LastForecastEventWins(s: Snapshot, events: seq<DataEvent>, j: nat)
    requires j < |events| && IsForecastUpdate(events[j])
    requires forall k :: j < k < |events| ==> !IsForecastUpdate(events[k])
    requires !Throws(ForecastUpdates(events))
    ensures Pass(s, ForecastUpdates(events)).maxTemp == Some(Formatting.Temperature(events[j].item.data.maxTemp))
    ensures Pass(s, ForecastUpdates(events)).minTemp == Some(Formatting.Temperature(events[j].item.data.minTemp))
  {
    ThrowsIffMissingIcon(ForecastUpdates(events));
    LastForecastUpdate(events, j);
    LastUpdateWins(s, ForecastUpdates(events));
  }

  /** Stored items that fail the enumeration's path test leave nothing to process. */
  lemma {:induction false} UnrelatedItemsSelectNothing(items: seq<DataItem>)
    requires forall i :: 0 <= i < |items| ==> !StoredPathMatches(items[i].path)
    ensures StoredForecasts(items) == []
    decreases |items|
  {
    if items != [] {
      assert forall i :: 0 <= i < |items| - 1 ==> items[1..][i] == items[i + 1];
      UnrelatedItemsSelectNothing(items[1..]);
    }
  }

  lemma {:induction false} StoredForecastsSplit(a: seq<DataItem>, b: seq<DataItem>)
    ensures StoredForecasts(a + b) == StoredForecasts(a) + StoredForecasts(b)
    decreases |a|
  {
    if a == [] {
      assert a + b == b;
    } else {
      assert (a + b)[1..] == a[1..] + b;
      StoredForecastsSplit(a[1..], b);
      AppendAssoc(if StoredPathMatches(a[0].path) then [a[0].data] else [], StoredForecasts(a[1..]), StoredForecasts(b));
    }
  }

  /** A payload is selected from the stored items exactly when some item passing the path test carries it. */
  lemma {:induction false} StoredForecastsMembers(items: seq<DataItem>, p: DataMap)
    ensures p in StoredForecasts(items) <==>
            exists i :: 0 <= i < |items| && StoredPathMatches(items[i].path) && items[i].data == p
    decreases |items|
  {
    if items != [] {
      StoredForecastsMembers(items[1..], p);
      if exists i :: 0 <= i < |items| && StoredPathMatches(items[i].path) && items[i].data == p {
        var i :| 0 <= i < |items| && StoredPathMatches(items[i].path) && items[i].data == p;
        if i > 0 {
          assert items[1..][i - 1] == items[i];
        }
      }
      if exists i :: 0 <= i < |items| - 1 && StoredPathMatches(items[1..][i].path) && items[1..][i].data == p {
        var i :| 0 <= i < |items| - 1 && StoredPathMatches(items[1..][i].path) && items[1..][i].data == p;
        assert items[i + 1] == items[1..][i];
      }
    }
  }

  /** The last payload selected from the stored items is that of the last item passing the path test. */
  lemma LastStoredForecast(items: seq<DataItem>, j: nat)
    requires j < |items| && StoredPathMatches(items[j].path)
    requires forall k :: j < k < |items| ==> !StoredPathMatches(items[k].path)
    ensures StoredForecasts(items) != []
    ensures StoredForecasts(items)[|StoredForecasts(items)| - 1] == items[j].data
  {
    assert items == items[..j] + items[j..];
    StoredForecastsSplit(items[..j], items[j..]);
    StoredForecastsFrom(items, j);
    var later := items[j + 1..];
    forall k | 0 <= k < |later| ensures !StoredPathMatches(later[k].path) {
      assert later[k] == items[j + 1 + k];
    }
    UnrelatedItemsSelectNothing(later);
    assert StoredForecasts(items[j..]) == [items[j].data];
  }

  /**
   * When no selected payload lacks an icon, the temperatures left displayed after the
   * enumeration are those of the last stored item passing the path test.
   */
  lemma LastStoredItemWins(s: Snapshot, items: seq<DataItem>, j: nat)
    requires j < |items| && StoredPathMatches(items[j].path)
    requires forall k :: j < k < |items| ==> !StoredPathMatches(items[k].path)
    requires !Throws(StoredForecasts(items))
    ensures Pass(s, StoredForecasts(items)).maxTemp == Some(Formatting.Temperature(items[j].data.maxTemp))
    ensures Pass(s, StoredForecasts(items)).minTemp == Some(Formatting.Temperature(items[j].data.minTemp))
  {
    ThrowsIffMissingIcon(StoredForecasts(items));
    LastStoredForecast(items, j);
    LastUpdateWins(s, StoredForecasts(items));
  }

}
