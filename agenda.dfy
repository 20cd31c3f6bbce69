/**
 * The sidebar agenda (`sortedEventMap`): for each date of the event map,
 * in the map's order, the events that have not ended yet, sorted by
 * start; dates with none are dropped.
 */
module Agenda {
  import opened Wrappers
  import opened Types
  import opened OrderedMap
  import opened Sorting

  function StartKey(e: CalendarEvent): int {
    e.start
  }

  /** `events.filter(e => e.end > now)`. */
  function NotEnded(events: seq<CalendarEvent>, now: int): (r: seq<CalendarEvent>)
    ensures forall e :: e in r ==> e.end > now
    ensures forall e :: e in events && e.end > now ==> e in r
    ensures multiset(r) <= multiset(events)
    ensures forall e :: multiset(r)[e] == if e.end > now then multiset(events)[e] else 0
  {
    if events == [] then []
    else
      var init := events[..|events| - 1];
      var e := events[|events| - 1];
      assert events == init + [e];
      NotEnded(init, now) + (if e.end > now then [e] else [])
  }

  /** A date's agenda entry: the filtered list sorted by start. */
  function Upcoming(events: seq<CalendarEvent>, now: int): seq<CalendarEvent> {
    SortBy(NotEnded(events, now), StartKey)
  }

  /**
   * Every upcoming event ends after `now`, the list is in start order,
   * it is drawn from the date's events, holds every one of them that has
   * not ended, and is empty iff all of them have ended.
   */
  lemma UpcomingProps(events: seq<CalendarEvent>, now: int, up: seq<CalendarEvent>)
    requires up == Upcoming(events, now)
    ensures forall e :: e in up ==> e.end > now
    ensures SortedBy(up, StartKey)
    ensures multiset(up) <= multiset(events)
    ensures forall e :: e in events && e.end > now ==> e in up
    ensures up == [] <==> forall e :: e in events ==> e.end <= now
  {
    var f := NotEnded(events, now);
    assert up == SortBy(f, StartKey);
    assert multiset(up) == multiset(f);
    forall e ensures e in up <==> e in f {
      assert e in up <==> e in multiset(up);
      assert e in f <==> e in multiset(f);
    }
    if f != [] {
      assert f[0] in multiset(up);
    }
  }

  /** The agenda of the dates `keys` of the event map `m`, filled in key order. */
  function AgendaOf(keys: seq<string>, m: map<string, seq<CalendarEvent>>, now: int): (r: OMap<string, seq<CalendarEvent>>)
    requires forall k :: k in keys ==> k in m
    ensures r.Valid()
    ensures forall k :: k in r.keys ==> k in keys
  {
    if keys == [] then Empty()
    else
      var date := keys[|keys| - 1];
      var rest := AgendaOf(keys[..|keys| - 1], m, now);
      var up := Upcoming(m[date], now);
      if up != [] then rest.Set(date, up) else rest
  }

  /** A date is in the agenda iff it is in the map with an upcoming event, and then holds exactly those events sorted. */
  lemma {:induction false} AgendaGet(keys: seq<string>, m: map<string, seq<CalendarEvent>>, now: int, date: string)
    requires forall k :: k in keys ==> k in m
    requires forall i, j :: 0 <= i < j < |keys| ==> keys[i] != keys[j]
    ensures AgendaOf(keys, m, now).Get(date) ==
      if date in keys && Upcoming(m[date], now) != [] then Some(Upcoming(m[date], now)) else None
  {
    if keys != [] {
      var init := keys[..|keys| - 1];
      AgendaGet(init, m, now, date);
      assert date in keys <==> date in init || date == keys[|keys| - 1];
    }
  }

  /** The dates that keep an entry, in the map's order. */
  function KeptDates(keys: seq<string>, m: map<string, seq<CalendarEvent>>, now: int): seq<string>
    requires forall k :: k in keys ==> k in m
  {
    if keys == [] then []
    else
      var date := keys[|keys| - 1];
      KeptDates(keys[..|keys| - 1], m, now) + (if Upcoming(m[date], now) != [] then [date] else [])
  }

  /** The agenda's dates are the map's dates with an upcoming event, in the map's order. */
  lemma {:induction false} AgendaKeys(keys: seq<string>, m: map<string, seq<CalendarEvent>>, now: int)
    requires forall k :: k in keys ==> k in m
    requires forall i, j :: 0 <= i < j < |keys| ==> keys[i] != keys[j]
    ensures AgendaOf(keys, m, now).keys == KeptDates(keys, m, now)
  {
    if keys != [] {
      var init := keys[..|keys| - 1];
      var date := keys[|keys| - 1];
      AgendaKeys(init, m, now);
      var rest := AgendaOf(init, m, now);
      assert date !in init;
      assert date !in rest.m;
    }
  }

  lemma AgendaStep(keys: seq<string>, m: map<string, seq<CalendarEvent>>, now: int, i: nat)
    requires forall k :: k in keys ==> k in m
    requires i < |keys|
    ensures var rest := AgendaOf(keys[..i], m, now);
      var up := Upcoming(m[keys[i]], now);
      AgendaOf(keys[..i + 1], m, now) == if |up| > 0 then rest.Set(keys[i], up) else rest
  {
    assert keys[..i + 1][..i] == keys[..i];
  }

  /** The `sortedEventMap` loop over the event map's entries. */
  method SortedEventMap(eventMap: OMap<string, seq<CalendarEvent>>, now: int) returns (result: OMap<string, seq<CalendarEvent>>)
    requires eventMap.Valid()
    ensures result == AgendaOf(eventMap.keys, eventMap.m, now)
  {
    result := Empty();
    var i := 0;
    while i < |eventMap.keys|
      invariant 0 <= i <= |eventMap.keys|
      invariant result == AgendaOf(eventMap.keys[..i], eventMap.m, now)
    {
      var date := eventMap.keys[i];
      var events := eventMap.m[date];
      var upcoming := Upcoming(events, now);
      AgendaStep(eventMap.keys, eventMap.m, now, i);
      if |upcoming| > 0 {
        result := result.Set(date, upcoming);
      }
      i := i + 1;
    }
    assert eventMap.keys[..i] == eventMap.keys;
  }
}
