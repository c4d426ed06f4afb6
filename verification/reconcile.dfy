/** The reconciliation of `CalendarSyncManager.sync`: merging the two
    fetched maps, the per-side missing sets, each side's append step, and
    the state each side is left in after one pass. */
module Reconcile {
  import opened Clock
  import opened Events

  /** What one provider's fetch returned: events by identity key. */
  type EventMap = map<Key, Event>

  // ---------------------------------------------------------------------
  // Merge and missing sets
  // ---------------------------------------------------------------------

  /** `{**yandex, **google}`: every key of either side, and on a key both
      sides hold, the Google record wins. */
  function Merge(yandex: EventMap, google: EventMap): (all: EventMap)
    ensures all.Keys == yandex.Keys + google.Keys
    ensures forall k :: k in google ==> all[k] == google[k]
    ensures forall k :: k in yandex && k !in google ==> all[k] == yandex[k]
  {
    yandex + google
  }

  /** The merged view of two well-keyed maps is well-keyed. */
  lemma MergeWellKeyed(yandex: EventMap, google: EventMap)
    requires WellKeyed(yandex) && WellKeyed(google)
    ensures WellKeyed(Merge(yandex, google))
  {
  }

  /** Keys of the merged view absent from Yandex: exactly the keys only
      Google holds. */
  function YandexMissing(yandex: EventMap, google: EventMap): (r: set<Key>)
    ensures r == google.Keys - yandex.Keys
    ensures r !! yandex.Keys
  {
    Merge(yandex, google).Keys - yandex.Keys
  }

  /** Keys of the merged view absent from Google: exactly the keys only
      Yandex holds. */
  function GoogleMissing(yandex: EventMap, google: EventMap): (r: set<Key>)
    ensures r == yandex.Keys - google.Keys
    ensures r !! google.Keys
  {
    Merge(yandex, google).Keys - google.Keys
  }

  /** No key is missing on both sides, and each side's keys together with
      its missing set cover the merged view. */
  lemma MissingSetsPartition(yandex: EventMap, google: EventMap)
    ensures YandexMissing(yandex, google) !! GoogleMissing(yandex, google)
    ensures yandex.Keys + YandexMissing(yandex, google) == Merge(yandex, google).Keys
    ensures google.Keys + GoogleMissing(yandex, google) == Merge(yandex, google).Keys
  {
  }

  /** A key missing on one side is served from the other side's record. */
  lemma MissingRecordsComeFromTheOtherSide(yandex: EventMap, google: EventMap)
    ensures forall k :: k in YandexMissing(yandex, google) ==> Merge(yandex, google)[k] == google[k]
    ensures forall k :: k in GoogleMissing(yandex, google) ==> Merge(yandex, google)[k] == yandex[k]
  {
  }

  /** The counts printed before the write pass, with the two missing sets. */
  datatype Report = Report(total: nat, yandexCount: nat, googleCount: nat,
                           yandexMissing: set<Key>, googleMissing: set<Key>)

  /** The report of one sync: the merged total counts every shared key once,
      and each side's count plus its missing count is the merged total. */
  function MakeReport(yandex: EventMap, google: EventMap): (r: Report)
    ensures r.yandexCount == |yandex| && r.googleCount == |google|
    ensures r.yandexMissing == google.Keys - yandex.Keys
    ensures r.googleMissing == yandex.Keys - google.Keys
    ensures r.total == |yandex| + |google| - |yandex.Keys * google.Keys|
    ensures r.total == r.yandexCount + |r.yandexMissing| == r.googleCount + |r.googleMissing|
  {
    var all := Merge(yandex, google);
    CardinalityOfMerge(yandex, google);
    Report(|all|, |yandex|, |google|, YandexMissing(yandex, google), GoogleMissing(yandex, google))
  }

  /** Inclusion-exclusion on the key sets of the two sides. */
  lemma CardinalityOfMerge(yandex: EventMap, google: EventMap)
    ensures |Merge(yandex, google)| == |yandex| + |google| - |yandex.Keys * google.Keys|
    ensures |Merge(yandex, google)| == |yandex| + |google.Keys - yandex.Keys|
    ensures |Merge(yandex, google)| == |google| + |yandex.Keys - google.Keys|
  {
    var a, b := yandex.Keys, google.Keys;
    var all := Merge(yandex, google);
    assert |all| == |all.Keys| == |a + b|;
    assert |yandex| == |a| && |google| == |b|;
    DisjointSplit(a, b);
    DisjointSplit(b, a);
    assert a * b == b * a;
    assert b + a == a + b;
  }

  /** `a + b` splits into `a` and the part of `b` outside it, and `b` into
      that part and the shared part. */
  lemma DisjointSplit<T>(a: set<T>, b: set<T>)
    ensures |a + b| == |a| + |b - a|
    ensures |b| == |b - a| + |a * b|
  {
    assert a + b == a + (b - a);
    assert a !! (b - a);
    assert b == (b - a) + (a * b);
    assert (b - a) !! (a * b);
  }

  // ---------------------------------------------------------------------
  // The two append steps
  // ---------------------------------------------------------------------

  /** What the next fetch of a backend sees after an event is created there:
      the event under its own key, every other entry as it was. This is all
      of `YandexCalendarClient.add_event`, which checks nothing. */
  function Append(state: EventMap, e: Event): (r: EventMap)
    ensures r.Keys == state.Keys + {KeyOf(e)}
    ensures r[KeyOf(e)] == e
    ensures forall k :: k in state && k != KeyOf(e) ==> r[k] == state[k]
    ensures WellKeyed(state) ==> WellKeyed(r)
  {
    state[KeyOf(e) := e]
  }

  /** `GoogleCalendarClient.add_event`: the event is created only when its
      start lies inside the window, bounds included; otherwise it is skipped
      and the backend is left as it was. The second component says whether
      the event was created. */
  function GoogleAdd(state: EventMap, e: Event, w: Window): (r: (EventMap, bool))
    ensures r.1 <==> InWindow(w, e.start)
    ensures r.1 ==> r.0 == Append(state, e)
    ensures !r.1 ==> r.0 == state
  {
    if e.start < w.floor || e.start > w.ceiling then (state, false)
    else (Append(state, e), true)
  }

  /** The Google listing is asked for starts only up to the last whole
      second of the window, while the guard admits starts up to its last
      microsecond: an event created at the ceiling lies beyond the next
      listing's upper bound, so the next run does not see it. */
  lemma LastSecondNotListed(state: EventMap, e: Event, today: Day, pastDays: int, futureDays: int)
    requires ValidDay(today)
    requires ComputeWindow(today, pastDays, futureDays).Success?
    requires pastDays + futureDays >= 0
    requires e.start == ComputeWindow(today, pastDays, futureDays).value.ceiling
    ensures ComputeWindow(today, pastDays, futureDays).value.ceiling >= 0
    ensures GoogleAdd(state, e, ComputeWindow(today, pastDays, futureDays).value).1
    ensures e.start > TruncateToSecond(ComputeWindow(today, pastDays, futureDays).value.ceiling)
  {
    WindowNonEmpty(today, pastDays, futureDays);
    GoogleQueryBounds(today, pastDays, futureDays);
  }

  /** The guard is inclusive at both ends: an event starting exactly at the
      floor or exactly at the ceiling is created. */
  lemma GoogleAddBoundsInclusive(state: EventMap, e: Event, w: Window)
    requires e.start == w.floor || e.start == w.ceiling
    requires w.floor <= w.ceiling
    ensures GoogleAdd(state, e, w).1
    ensures KeyOf(e) in GoogleAdd(state, e, w).0
  {
  }

  // ---------------------------------------------------------------------
  // The state after one write pass
  // ---------------------------------------------------------------------

  /** Yandex after the pass: every missing key receives the merged record. */
  function YandexAfter(yandex: EventMap, google: EventMap): (r: EventMap)
    ensures r == Merge(google, yandex)
  {
    var all := Merge(yandex, google);
    yandex + map k | k in YandexMissing(yandex, google) :: all[k]
  }

  /** The keys the Google pass skips: missing on Google, but the merged
      record starts outside the window. */
  function Skipped(yandex: EventMap, google: EventMap, w: Window): (r: set<Key>)
    ensures r <= yandex.Keys - google.Keys
    ensures forall k :: k in yandex.Keys - google.Keys ==> (k in r <==> !InWindow(w, yandex[k].start))
  {
    var all := Merge(yandex, google);
    set k | k in GoogleMissing(yandex, google) && !InWindow(w, all[k].start)
  }

  /** Google after the pass: every missing key whose record starts inside
      the window receives it; skipped keys stay absent. */
  function GoogleAfter(yandex: EventMap, google: EventMap, w: Window): (r: EventMap)
    ensures r.Keys == google.Keys + (yandex.Keys - google.Keys - Skipped(yandex, google, w))
    ensures forall k :: k in google ==> r[k] == google[k]
    ensures forall k :: k in r && k !in google ==> r[k] == yandex[k] && InWindow(w, r[k].start)
  {
    var all := Merge(yandex, google);
    google + map k | k in GoogleMissing(yandex, google) && InWindow(w, all[k].start) :: all[k]
  }

  /** The pass keeps both sides well-keyed. */
  lemma AfterWellKeyed(yandex: EventMap, google: EventMap, w: Window)
    requires WellKeyed(yandex) && WellKeyed(google)
    ensures WellKeyed(YandexAfter(yandex, google))
    ensures WellKeyed(GoogleAfter(yandex, google, w))
  {
  }

  /** Idempotence up to skips: recomputing the missing sets after one pass
      finds nothing missing on Yandex and, on Google, exactly the skipped
      keys; a second pass then writes nothing and skips the same keys. */
  lemma SyncIdempotent(yandex: EventMap, google: EventMap, w: Window)
    ensures var y1, g1 := YandexAfter(yandex, google), GoogleAfter(yandex, google, w);
      && YandexMissing(y1, g1) == {}
      && GoogleMissing(y1, g1) == Skipped(yandex, google, w)
      && Skipped(y1, g1, w) == Skipped(yandex, google, w)
      && YandexAfter(y1, g1) == y1
      && GoogleAfter(y1, g1, w) == g1
  {
    SkippedStable(yandex, google, w);
    GoogleAfterStable(yandex, google, w);
  }

  /** The records behind the skipped keys are the same after the pass, so
      the second pass skips the same keys. */
  lemma SkippedStable(yandex: EventMap, google: EventMap, w: Window)
    ensures Skipped(YandexAfter(yandex, google), GoogleAfter(yandex, google, w), w)
         == Skipped(yandex, google, w)
  {
    var y1, g1 := YandexAfter(yandex, google), GoogleAfter(yandex, google, w);
    var s := Skipped(yandex, google, w);
    assert y1.Keys - g1.Keys == s;
    forall k | k in s ensures y1[k] == yandex[k] {
    }
  }

  /** A second pass adds nothing to Google. */
  lemma GoogleAfterStable(yandex: EventMap, google: EventMap, w: Window)
    ensures var y1, g1 := YandexAfter(yandex, google), GoogleAfter(yandex, google, w);
      GoogleAfter(y1, g1, w) == g1
  {
    var y1, g1 := YandexAfter(yandex, google), GoogleAfter(yandex, google, w);
    SkippedStable(yandex, google, w);
    var g2 := GoogleAfter(y1, g1, w);
    assert g2.Keys == g1.Keys;
  }

  /** When every record Yandex returned starts inside the window (in
      particular when the fetch returns nothing outside it), one pass makes
      both sides hold the same keys. */
  lemma ConvergesWhenAllInWindow(yandex: EventMap, google: EventMap, w: Window)
    requires forall k :: k in yandex ==> InWindow(w, yandex[k].start)
    ensures Skipped(yandex, google, w) == {}
    ensures YandexAfter(yandex, google).Keys == GoogleAfter(yandex, google, w).Keys
  {
    assert Skipped(yandex, google, w) == {};
  }

  /** The asymmetry of the two appends: a record outside the window that only
      Google holds is still copied to Yandex, while one that only Yandex
      holds is never copied to Google. */
  lemma OnlyGoogleWritesAreFiltered(yandex: EventMap, google: EventMap, w: Window, k: Key)
    ensures k in google && k !in yandex ==> k in YandexAfter(yandex, google)
    ensures k in yandex && k !in google && !InWindow(w, yandex[k].start)
            ==> k !in GoogleAfter(yandex, google, w)
  {
  }

  /** A meeting only Yandex holds, starting inside the window, reaches Google
      in one pass, and a second pass finds nothing missing anywhere. */
  lemma OneSidedEventScenario(e: Event, w: Window)
    requires InWindow(w, e.start)
    ensures var y, g := map[KeyOf(e) := e], map[];
      && GoogleMissing(y, g) == {KeyOf(e)} && YandexMissing(y, g) == {}
      && GoogleAfter(y, g, w) == y
      && GoogleMissing(YandexAfter(y, g), GoogleAfter(y, g, w)) == {}
  {
    var y, g: EventMap := map[KeyOf(e) := e], map[];
    SyncIdempotent(y, g, w);
    assert Skipped(y, g, w) == {};
  }
}
