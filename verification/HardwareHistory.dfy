/** The history of hardware locations: each scan adds a detection for a location only if the
    last event there is not the same detection. */
module HardwareHistory {
  import opened Wrappers

  datatype EventType = Added | Removed | Scanned | Detected

  datatype Event = Event(id: string, fru: string, kind: EventType)

  /** A scanned location, with the FRU found in it if any. */
  datatype HwLoc = HwLoc(id: string, fru: Option<string>)

  // ---- Histories by location ----

  /** The events of one location, in the order they were stored. */
  function At(log: seq<Event>, id: string): seq<Event> {
    if log == [] then []
    else
      var n := |log| - 1;
      At(log[..n], id) + (if log[n].id == id then [log[n]] else [])
  }

  function Last(log: seq<Event>, id: string): Option<Event> {
    var at := At(log, id);
    if at == [] then None else Some(at[|at| - 1])
  }

  /** Every detection of a scan, as a naive log would record it. */
  function Detections(scan: seq<HwLoc>): seq<Event> {
    if scan == [] then []
    else
      var n := |scan| - 1;
      Detections(scan[..n]) + (if scan[n].fru.Some? then [Event(scan[n].id, scan[n].fru.value, Detected)] else [])
  }

  /** The events that are left after `last` when repeats of the one before are dropped. */
  function Fresh(last: Option<Event>, events: seq<Event>): seq<Event>
    decreases |events|
  {
    if events == [] then []
    else if last == Some(events[0]) then Fresh(last, events[1..])
    else [events[0]] + Fresh(Some(events[0]), events[1..])
  }

  function LastOf(last: Option<Event>, events: seq<Event>): Option<Event> {
    if events == [] then last else Some(events[|events| - 1])
  }

  /** What one scan adds: the detections that differ from the last stored event. */
  function NewEvents(log: seq<Event>, detections: seq<Event>): seq<Event> {
    if detections == [] then []
    else
      var n := |detections| - 1;
      NewEvents(log, detections[..n]) + (if Last(log, detections[n].id) == Some(detections[n]) then [] else [detections[n]])
  }

  lemma AtSnoc(log: seq<Event>, e: Event, id: string)
    ensures At(log + [e], id) == if e.id == id then At(log, id) + [e] else At(log, id)
  {
    assert (log + [e])[..|log|] == log;
  }

  lemma DetectionsSnoc(scan: seq<HwLoc>, loc: HwLoc)
    ensures Detections(scan + [loc]) ==
            if loc.fru.Some? then Detections(scan) + [Event(loc.id, loc.fru.value, Detected)] else Detections(scan)
  {
    assert (scan + [loc])[..|scan|] == scan;
  }

  lemma NewSnoc(log: seq<Event>, detections: seq<Event>, e: Event)
    ensures NewEvents(log, detections + [e]) ==
            if Last(log, e.id) == Some(e) then NewEvents(log, detections) else NewEvents(log, detections) + [e]
  {
    assert (detections + [e])[..|detections|] == detections;
  }

  // ---- The code ----

  class History {
    var log: seq<Event>   // in the order of the timestamps

    constructor ()
      ensures log == []
    {
      log := [];
    }

    /** The last event of each location; of all locations if none is named. */
    method LastEvents(ids: seq<string>) returns (lhs: map<string, Event>)
      ensures forall id :: id in ids ==> (id in lhs <==> Last(log, id).Some?)
      ensures forall id :: id in lhs ==> Last(log, id) == Some(lhs[id])
    {
      var all := set e | e in log :: e.id;
      var wanted := if |ids| > 0 then set id | id in ids && id in all else all;
      forall id | id in wanted ensures Last(log, id).Some? {
        EventsOfSome(log, id);
      }
      lhs := map id | id in wanted :: Last(log, id).value;
      forall id | id in ids && Last(log, id).Some? ensures id in all {
        EventsOfSome(log, id);
      }
    }

    /** `GenerateHWInvHist` */
    method Generate(hwlocs: seq<HwLoc>)
      modifies this
      ensures log == old(log) + NewEvents(old(log), Detections(hwlocs))
    {
      var locIDs := [];
      for i := 0 to |hwlocs|
        invariant forall j :: 0 <= j < i && hwlocs[j].fru.Some? ==> hwlocs[j].id in locIDs
      {
        if hwlocs[i].fru.Some? {
          locIDs := locIDs + [hwlocs[i].id];
        }
      }
      var lhsMap := LastEvents(locIDs);
      hide Last, Detections, NewEvents;
      NothingDetected(log);
      assert hwlocs[..0] == [];
      var hwhists := [];
      for i := 0 to |hwlocs|
        invariant log == old(log) && hwhists == NewEvents(log, Detections(hwlocs[..i]))
      {
        assert hwlocs[..i + 1] == hwlocs[..i] + [hwlocs[i]];
        DetectionsSnoc(hwlocs[..i], hwlocs[i]);
        if hwlocs[i].fru.Some? {
          var hist := Event(hwlocs[i].id, hwlocs[i].fru.value, Detected);
          NewSnoc(log, Detections(hwlocs[..i]), hist);
          LastIsHere(log, hist.id);
          if hwlocs[i].id !in lhsMap || lhsMap[hwlocs[i].id].fru != hist.fru || lhsMap[hwlocs[i].id].kind != Detected {
            hwhists := hwhists + [hist];
          }
        }
      }
      assert hwlocs[..|hwlocs|] == hwlocs;
      log := log + hwhists;
    }
  }

  lemma NothingDetected(log: seq<Event>)
    ensures Detections([]) == [] && NewEvents(log, []) == []
  {
  }

  lemma {:induction false} EventsOfSome(log: seq<Event>, id: string)
    ensures (exists e :: e in log && e.id == id) <==> At(log, id) != []
    ensures forall e :: e in At(log, id) ==> e.id == id
  {
    if log != [] {
      var n := |log| - 1;
      assert log == log[..n] + [log[n]];
      EventsOfSome(log[..n], id);
    }
  }

  lemma LastIsHere(log: seq<Event>, id: string)
    ensures Last(log, id).Some? ==> Last(log, id).value.id == id
  {
    EventsOfSome(log, id);
  }

  // ---- One scan ----

  lemma {:induction false} AtAppend(a: seq<Event>, b: seq<Event>, id: string)
    ensures At(a + b, id) == At(a, id) + At(b, id)
  {
    if b == [] {
      assert a + b == a;
    } else {
      var n := |b| - 1;
      assert (a + b)[..|a + b| - 1] == a + b[..n];
      AtAppend(a, b[..n], id);
    }
  }

  /** The detections of a location that differ from one event. */
  function Other(last: Option<Event>, events: seq<Event>): seq<Event> {
    if events == [] then []
    else
      var n := |events| - 1;
      Other(last, events[..n]) + (if last == Some(events[n]) then [] else [events[n]])
  }

  lemma OtherSnoc(last: Option<Event>, events: seq<Event>, e: Event)
    ensures Other(last, events + [e]) == if last == Some(e) then Other(last, events) else Other(last, events) + [e]
  {
    assert (events + [e])[..|events|] == events;
  }

  lemma {:induction false} NewEventsAt(log: seq<Event>, detections: seq<Event>, id: string)
    ensures At(NewEvents(log, detections), id) == Other(Last(log, id), At(detections, id))
  {
    hide At, Last, NewEvents, Other;
    if detections == [] {
      NothingDetected(log);
      NothingAt(id);
      NoOther(Last(log, id));
    } else {
      var n := |detections| - 1;
      var e := detections[n];
      assert detections == detections[..n] + [e];
      NewEventsAt(log, detections[..n], id);
      NewSnoc(log, detections[..n], e);
      AtSnoc(NewEvents(log, detections[..n]), e, id);
      AtSnoc(detections[..n], e, id);
      OtherSnoc(Last(log, id), At(detections[..n], id), e);
    }
  }

  lemma NoOther(last: Option<Event>)
    ensures Other(last, []) == []
  {
  }

  lemma NothingAt(id: string)
    ensures At([], id) == []
  {
  }

  /** At most one FRU per location. */
  predicate DistinctLocations(scan: seq<HwLoc>) {
    forall i, j :: 0 <= i < j < |scan| ==> scan[i].id != scan[j].id
  }

  lemma {:induction false} OneDetection(scan: seq<HwLoc>, id: string)
    requires DistinctLocations(scan)
    ensures |At(Detections(scan), id)| <= 1
    ensures At(Detections(scan), id) != [] ==> exists i :: 0 <= i < |scan| && scan[i].id == id
  {
    hide At, Detections;
    if scan == [] {
      NothingDetected([]);
      NothingAt(id);
    } else {
      var n := |scan| - 1;
      assert scan == scan[..n] + [scan[n]];
      OneDetection(scan[..n], id);
      DetectionsSnoc(scan[..n], scan[n]);
      if scan[n].fru.Some? {
        AtSnoc(Detections(scan[..n]), Event(scan[n].id, scan[n].fru.value, Detected), id);
      }
      if i :| 0 <= i < n && scan[..n][i].id == id {
        assert scan[i].id == id;
      }
    }
  }

  /** A scan with distinct locations adds to each location what a naive log would, less the
      repeats. */
  lemma ScanIsFresh(log: seq<Event>, scan: seq<HwLoc>, id: string)
    requires DistinctLocations(scan)
    ensures At(log + NewEvents(log, Detections(scan)), id) == At(log, id) + Fresh(Last(log, id), At(Detections(scan), id))
  {
    hide At, Detections, NewEvents, Last;
    AtAppend(log, NewEvents(log, Detections(scan)), id);
    NewEventsAt(log, Detections(scan), id);
    OneDetection(scan, id);
    AtMostOne(Last(log, id), At(Detections(scan), id));
  }

  lemma AtMostOne(last: Option<Event>, events: seq<Event>)
    requires |events| <= 1
    ensures Other(last, events) == Fresh(last, events)
    ensures Fresh(LastOf(last, events), events) == []
  {
    if events != [] {
      assert events == [events[0]] && events[1..] == [] && events[..0] == [];
    }
  }

  // ---- Runs of scans ----

  function Stored(log: seq<Event>, scans: seq<seq<HwLoc>>): seq<Event> {
    if scans == [] then log
    else
      var before := Stored(log, scans[..|scans| - 1]);
      before + NewEvents(before, Detections(scans[|scans| - 1]))
  }

  function Naive(scans: seq<seq<HwLoc>>): seq<Event> {
    if scans == [] then [] else Naive(scans[..|scans| - 1]) + Detections(scans[|scans| - 1])
  }

  lemma {:induction false} FreshLast(last: Option<Event>, events: seq<Event>)
    ensures LastOf(last, Fresh(last, events)) == LastOf(last, events)
    decreases |events|
  {
    if events != [] {
      if last == Some(events[0]) {
        FreshLast(last, events[1..]);
      } else {
        FreshLast(Some(events[0]), events[1..]);
      }
    }
  }

  lemma LastOfCons(last: Option<Event>, events: seq<Event>)
    requires events != []
    ensures LastOf(Some(events[0]), events[1..]) == LastOf(last, events)
  {
  }

  lemma FreshCons(last: Option<Event>, events: seq<Event>)
    requires events != []
    ensures Fresh(last, events) == (if last == Some(events[0]) then [] else [events[0]]) + Fresh(Some(events[0]), events[1..])
  {
    assert [] + Fresh(Some(events[0]), events[1..]) == Fresh(Some(events[0]), events[1..]);
  }

  lemma {:induction false} FreshAppend(last: Option<Event>, a: seq<Event>, b: seq<Event>)
    ensures Fresh(last, a + b) == Fresh(last, a) + Fresh(LastOf(last, a), b)
    decreases |a|
  {
    hide Fresh, LastOf;
    if a == [] {
      assert a + b == b;
      NothingFresh(last);
      assert [] + Fresh(last, b) == Fresh(last, b);
    } else {
      assert (a + b)[1..] == a[1..] + b;
      FreshCons(last, a + b);
      FreshCons(last, a);
      FreshAppend(Some(a[0]), a[1..], b);
      LastOfCons(last, a);
    }
  }

  /** Over any run of scans with distinct locations, from any earlier history: what is stored for
      a location is the naive log of its detections with adjacent repeats collapsed, and the
      last stored event is the last detection. */
  lemma {:induction false} StoredIsCollapsed(log: seq<Event>, scans: seq<seq<HwLoc>>, id: string)
    requires forall scan :: scan in scans ==> DistinctLocations(scan)
    ensures At(Stored(log, scans), id) == At(log, id) + Fresh(Last(log, id), At(Naive(scans), id))
    ensures Last(Stored(log, scans), id) == LastOf(Last(log, id), At(Naive(scans), id))
  {
    hide At, Detections, NewEvents, Fresh, Last, LastOf;
    if scans == [] {
      NothingAt(id);
      NothingFresh(Last(log, id));
    } else {
      var n := |scans| - 1;
      assert scans == scans[..n] + [scans[n]];
      var before, scan := Stored(log, scans[..n]), scans[n];
      StoredIsCollapsed(log, scans[..n], id);
      ScanIsFresh(before, scan, id);
      AtAppend(Naive(scans[..n]), Detections(scan), id);
      FreshAppend(Last(log, id), At(Naive(scans[..n]), id), At(Detections(scan), id));
      LastAfter(log, Stored(log, scans), id, At(Naive(scans), id));
    }
  }

  lemma NothingFresh(last: Option<Event>)
    ensures Fresh(last, []) == [] && LastOf(last, []) == last
  {
  }

  lemma LastAfter(log: seq<Event>, log': seq<Event>, id: string, events: seq<Event>)
    requires At(log', id) == At(log, id) + Fresh(Last(log, id), events)
    ensures Last(log', id) == LastOf(Last(log, id), events)
  {
    FreshLast(Last(log, id), events);
  }

  /** Scanning the same again adds nothing. */
  lemma RescanAddsNothing(log: seq<Event>, scan: seq<HwLoc>, id: string)
    requires DistinctLocations(scan)
    ensures At(Stored(log, [scan, scan]), id) == At(Stored(log, [scan]), id)
  {
    hide At, Detections, NewEvents, Fresh, Last, LastOf;
    var one := Stored(log, [scan]);
    assert [scan, scan][..1] == [scan] && [scan][..0] == [];
    assert Stored(log, [scan][..0]) == log;
    assert one == log + NewEvents(log, Detections(scan));
    ScanIsFresh(log, scan, id);
    LastAfter(log, one, id, At(Detections(scan), id));
    ScanIsFresh(one, scan, id);
    OneDetection(scan, id);
    AtMostOne(Last(log, id), At(Detections(scan), id));
  }

  // ---- Why the locations must be distinct ----

  lemma {:induction false} FreshShorter(last: Option<Event>, events: seq<Event>)
    ensures |Fresh(last, events)| <= |events|
    decreases |events|
  {
    if events != [] {
      FreshShorter(if last == Some(events[0]) then last else Some(events[0]), events[1..]);
    }
  }

  lemma {:induction false} FreshDropsRepeat(last: Option<Event>, events: seq<Event>, i: nat)
    requires i + 1 < |events| && events[i] == events[i + 1]
    ensures |Fresh(last, events)| < |events|
    decreases |events|
  {
    var next := if last == Some(events[0]) then last else Some(events[0]);
    if i == 0 {
      FreshShorter(next, events[1..][1..]);
    } else {
      FreshDropsRepeat(next, events[1..], i - 1);
    }
  }

  lemma {:induction false} FreshKeepsAll(last: Option<Event>, events: seq<Event>)
    requires events != [] ==> last != Some(events[0])
    requires forall i, j :: 0 <= i && j == i + 1 < |events| ==> events[i] != events[j]
    ensures Fresh(last, events) == events
    decreases |events|
  {
    if events != [] {
      FreshKeepsAll(Some(events[0]), events[1..]);
      assert events == [events[0]] + events[1..];
    }
  }

  lemma {:induction false} OtherLength(last: Option<Event>, events: seq<Event>)
    ensures |Other(last, events)| <= |events|
    ensures |Other(last, events)| == |events| <==> forall e :: e in events ==> last != Some(e)
  {
    if events != [] {
      var n := |events| - 1;
      assert events == events[..n] + [events[n]];
      OtherLength(last, events[..n]);
    }
  }

  /** The first or the second of two detections of a location is told apart from the history in
      the wrong way by some earlier history. */
  lemma RepeatedGoesWrong(id: string, events: seq<Event>) returns (log: seq<Event>)
    requires |events| >= 2 && forall e :: e in events ==> e.id == id
    ensures Other(Last(log, id), events) != Fresh(Last(log, id), events)
  {
    if i, j :| 0 <= i && j == i + 1 < |events| && events[i] == events[j] {
      log := [];
      OtherLength(None, events);
      FreshDropsRepeat(None, events, i);
    } else {
      log := [events[1]];
      assert log[..0] == [] && events[1] in events;
      assert At(log, id) == [events[1]];
      FreshKeepsAll(Some(events[1]), events);
      OtherLength(Some(events[1]), events);
    }
  }

  lemma Cancel(a: seq<Event>, b: seq<Event>, c: seq<Event>)
    ensures a + b == a + c <==> b == c
  {
    assert (a + b)[|a|..] == b && (a + c)[|a|..] == c;
  }

  /** A scan is stored right after every history exactly when no location is detected twice. */
  lemma SafeScans(scan: seq<HwLoc>, id: string)
    ensures (forall log :: At(log + NewEvents(log, Detections(scan)), id) ==
                           At(log, id) + Fresh(Last(log, id), At(Detections(scan), id)))
            <==> |At(Detections(scan), id)| <= 1
  {
    hide At, Detections, NewEvents, Fresh, Last, Other;
    var events := At(Detections(scan), id);
    forall log: seq<Event>
      ensures At(log + NewEvents(log, Detections(scan)), id) == At(log, id) + Fresh(Last(log, id), events)
              <==> Other(Last(log, id), events) == Fresh(Last(log, id), events)
    {
      AtAppend(log, NewEvents(log, Detections(scan)), id);
      NewEventsAt(log, Detections(scan), id);
      Cancel(At(log, id), Other(Last(log, id), events), Fresh(Last(log, id), events));
    }
    if |events| <= 1 {
      forall log: seq<Event> ensures Other(Last(log, id), events) == Fresh(Last(log, id), events) {
        AtMostOne(Last(log, id), events);
      }
    } else {
      EventsOfSome(Detections(scan), id);
      var log := RepeatedGoesWrong(id, events);
      assert Other(Last(log, id), events) != Fresh(Last(log, id), events);
    }
  }

  // ---- What the history says of a location ----

  /** A scan detects the FRUs of its locations that have one, and nothing else. */
  lemma {:induction false} DetectionsMean(scan: seq<HwLoc>, e: Event)
    ensures e in Detections(scan) <==> e.kind == Detected && HwLoc(e.id, Some(e.fru)) in scan
  {
    if scan != [] {
      var n := |scan| - 1;
      assert scan == scan[..n] + [scan[n]];
      DetectionsMean(scan[..n], e);
      var loc := HwLoc(e.id, Some(e.fru));
      assert loc in scan <==> loc in scan[..n] || loc == scan[n];
      assert Detections(scan[..n] + [scan[n]]) == Detections(scan) by { assert scan[..n] + [scan[n]] == scan; }
      DetectionsSnoc(scan[..n], scan[n]);
    }
  }

  lemma {:induction false} AtMeans(log: seq<Event>, id: string, e: Event)
    ensures e in At(log, id) <==> e in log && e.id == id
  {
    if log != [] {
      var n := |log| - 1;
      assert log == log[..n] + [log[n]];
      AtMeans(log[..n], id, e);
    }
  }

  /** After any run of scans with distinct locations, the last event of a location with a FRU in the
      last scan is the detection of that FRU. */
  lemma LastSeen(log: seq<Event>, scans: seq<seq<HwLoc>>, id: string, fru: string)
    requires scans != [] && forall scan :: scan in scans ==> DistinctLocations(scan)
    requires HwLoc(id, Some(fru)) in scans[|scans| - 1]
    ensures Last(Stored(log, scans), id) == Some(Event(id, fru, Detected))
  {
    hide At, Detections, Last, LastOf, Stored;
    var scan, naive := scans[|scans| - 1], Naive(scans[..|scans| - 1]);
    var seen := At(Detections(scan), id);
    StoredIsCollapsed(log, scans, id);
    AtAppend(naive, Detections(scan), id);
    DetectionsMean(scan, Event(id, fru, Detected));
    AtMeans(Detections(scan), id, Event(id, fru, Detected));
    var last := seen[|seen| - 1];
    AtMeans(Detections(scan), id, last);
    DetectionsMean(scan, last);
    OneFru(scan, id, fru, last.fru);
    LastOfEnd(Last(log, id), At(naive, id), seen);
  }

  lemma OneFru(scan: seq<HwLoc>, id: string, fru: string, fru': string)
    requires DistinctLocations(scan) && HwLoc(id, Some(fru)) in scan && HwLoc(id, Some(fru')) in scan
    ensures fru == fru'
  {
    var i :| 0 <= i < |scan| && scan[i] == HwLoc(id, Some(fru));
    var j :| 0 <= j < |scan| && scan[j] == HwLoc(id, Some(fru'));
    assert i == j;
  }

  lemma LastOfEnd(last: Option<Event>, a: seq<Event>, b: seq<Event>)
    requires b != []
    ensures LastOf(last, a + b) == Some(b[|b| - 1])
  {
  }

  lemma SomeEvent(events: seq<Event>)
    ensures events != [] ==> exists e :: e in events
  {
    if events != [] {
      assert events[0] in events;
    }
  }

  /** A scan that finds no FRU at a location adds nothing to its history. */
  lemma UnseenStays(log: seq<Event>, scan: seq<HwLoc>, id: string)
    requires forall loc :: loc in scan && loc.id == id ==> loc.fru.None?
    ensures At(log + NewEvents(log, Detections(scan)), id) == At(log, id)
  {
    hide At, Detections, NewEvents, Last, Other;
    var seen := At(Detections(scan), id);
    forall e ensures e !in seen {
      AtMeans(Detections(scan), id, e);
      DetectionsMean(scan, e);
    }
    SomeEvent(seen);
    AtAppend(log, NewEvents(log, Detections(scan)), id);
    NewEventsAt(log, Detections(scan), id);
    NoOther(Last(log, id));
  }
}
