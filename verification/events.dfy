/** The canonical event record, its identity key, and how each provider's
    fetch turns raw records into a key-to-event map. */
module Events {
  import opened Wrappers
  import opened Clock

  /** A start or end time as a provider delivers it: a naive wall-clock
      time without zone, or an aware one with its UTC offset (both in
      microseconds). */
  datatype RawTime = Naive(wall: int) | Aware(wall: int, offset: int)

  /** The absolute instant a raw time denotes; a naive time is read as UTC,
      never as local time. */
  function InstantOf(t: RawTime): Instant {
    match t
    case Naive(w) => w
    case Aware(w, o) => w - o
  }

  /** Conversion to an aware UTC time: `replace(tzinfo=utc)` for a naive
      time, `astimezone(utc)` for an aware one. */
  function ToUtc(t: RawTime): (r: RawTime)
    ensures r.Aware? && r.offset == 0
    ensures InstantOf(r) == InstantOf(t)
  {
    match t
    case Naive(w) => Aware(w, 0)
    case Aware(w, o) => Aware(w - o, 0)
  }

  /** Converting twice changes nothing: a UTC time is its own conversion. */
  lemma ToUtcIdempotent(t: RawTime)
    ensures ToUtc(ToUtc(t)) == ToUtc(t)
  {
  }

  /** Conversion merges exactly the raw times that denote one instant,
      whether each was written naive or with an offset. */
  lemma ToUtcSameInstant(a: RawTime, b: RawTime)
    ensures ToUtc(a) == ToUtc(b) <==> InstantOf(a) == InstantOf(b)
  {
  }

  /** One event as fetched: an iCalendar VEVENT or a Google event item. */
  datatype RawEvent = RawEvent(summary: string, description: Option<string>, start: RawTime, end: RawTime)

  /** The provider-independent record; `start` and `end` are UTC instants. */
  datatype Event = Event(name: string, description: string, start: Instant, end: Instant)

  /** The identity of an event: its name and its UTC start. */
  datatype Key = Key(name: string, start: Instant)

  /** The key an event is stored under: its name and UTC start, and no
      other field of the record. */
  function KeyOf(e: Event): (k: Key)
    ensures k.name == e.name && k.start == e.start
  {
    Key(e.name, e.start)
  }

  /** Identity ignores `end` and `description`: two events are the same
      event exactly when their names and UTC starts agree. */
  lemma IdentityIgnoresEndAndDescription(e1: Event, e2: Event)
    ensures KeyOf(e1) == KeyOf(e2) <==> e1.name == e2.name && e1.start == e2.start
  {
  }

  /** Normalisation of one fetched record: both times to UTC, a missing
      description to the empty text. */
  function Normalize(raw: RawEvent): (e: Event)
    ensures e.name == raw.summary
    ensures e.start == InstantOf(raw.start) && e.end == InstantOf(raw.end)
    ensures raw.description.None? ==> e.description == ""
    ensures raw.description.Some? ==> e.description == raw.description.value
  {
    Event(raw.summary, raw.description.GetOr(""),
          InstantOf(ToUtc(raw.start)), InstantOf(ToUtc(raw.end)))
  }

  /** Two raw records whose start times denote the same instant get the same
      key, whatever zone each was written in. */
  lemma SameInstantSameKey(a: RawEvent, b: RawEvent)
    requires a.summary == b.summary
    ensures KeyOf(Normalize(a)) == KeyOf(Normalize(b)) <==> InstantOf(a.start) == InstantOf(b.start)
  {
  }

  /** The textual key of the source, `name + "/" + start`: the name, then
      the separator, then the stamp, each recoverable by position. */
  function KeyText(name: string, stamp: string): (t: string)
    ensures |t| == |name| + 1 + |stamp|
    ensures t[..|name|] == name && t[|name|] == '/' && t[|name| + 1..] == stamp
  {
    name + "/" + stamp
  }

  /** The textual key is as discriminating as the pair it is built from as
      long as the start stamp has no `/` (an ISO-8601 stamp has none); the
      name itself may contain `/`. */
  lemma KeyTextInjective(n1: string, s1: string, n2: string, s2: string)
    requires '/' !in s1 && '/' !in s2
    ensures KeyText(n1, s1) == KeyText(n2, s2) <==> n1 == n2 && s1 == s2
  {
    if KeyText(n1, s1) == KeyText(n2, s2) {
      var t := KeyText(n1, s1);
      // the separator sits at |n1| and at |n2|, and neither stamp holds one
      assert t[|n1|] == '/' && t[|n2|] == '/';
      assert forall j :: |n1| < j < |t| ==> t[j] == s1[j - |n1| - 1];
      assert forall j :: |n2| < j < |t| ==> t[j] == s2[j - |n2| - 1];
      assert |n1| == |n2|;
      assert s1 == t[|t| - |s1|..] == s2;
      assert n1 == t[..|n1|] == n2;
    }
  }

  /** Without the restriction the textual key collides: `a/b` at `c` and
      `a` at `b/c` share the key `a/b/c`. */
  lemma KeyTextCollision()
    ensures KeyText("a/b", "c") == KeyText("a", "b/c")
  {
  }

  /** Every entry of `m` is stored under its own key. */
  ghost predicate WellKeyed(m: map<Key, Event>) {
    forall k :: k in m ==> KeyOf(m[k]) == k
  }

  /** Whether no record after position `i` shares the key of record `i`. */
  ghost predicate LastWithItsKey(evs: seq<Event>, i: int)
    requires 0 <= i < |evs|
  {
    forall j :: i < j < |evs| ==> KeyOf(evs[j]) != KeyOf(evs[i])
  }

  /** The map a fetch loop builds by assigning `events_data[key] = record`
      for each record in turn: a later record with the same key replaces an
      earlier one. */
  function Collect(evs: seq<Event>): (m: map<Key, Event>)
    ensures WellKeyed(m)
    ensures m.Keys == set e | e in evs :: KeyOf(e)
    ensures forall k :: k in m ==> m[k] in evs
    ensures forall i :: 0 <= i < |evs| && LastWithItsKey(evs, i) ==> m[KeyOf(evs[i])] == evs[i]
  {
    if |evs| == 0 then map[]
    else
      var pre, last := evs[..|evs| - 1], evs[|evs| - 1];
      assert evs == pre + [last];
      CollectStep(pre, last, Collect(pre));
      Collect(pre)[KeyOf(last) := last]
  }

  /** One step of the fetch loop keeps the properties `Collect` promises. */
  lemma CollectStep(pre: seq<Event>, last: Event, m: map<Key, Event>)
    requires WellKeyed(m)
    requires m.Keys == set e | e in pre :: KeyOf(e)
    requires forall k :: k in m ==> m[k] in pre
    requires forall i :: 0 <= i < |pre| && LastWithItsKey(pre, i) ==> m[KeyOf(pre[i])] == pre[i]
    ensures var evs, m' := pre + [last], m[KeyOf(last) := last];
      && WellKeyed(m')
      && m'.Keys == (set e | e in evs :: KeyOf(e))
      && (forall k :: k in m' ==> m'[k] in evs)
      && (forall i :: 0 <= i < |evs| && LastWithItsKey(evs, i) ==> m'[KeyOf(evs[i])] == evs[i])
  {
    var evs, m' := pre + [last], m[KeyOf(last) := last];
    assert forall e :: e in evs <==> e in pre || e == last;
    forall i | 0 <= i < |evs| && LastWithItsKey(evs, i)
      ensures m'[KeyOf(evs[i])] == evs[i]
    {
      if i < |pre| {
        assert evs[i] == pre[i];
        assert KeyOf(evs[|pre|]) != KeyOf(evs[i]);
        assert LastWithItsKey(pre, i) by {
          forall j | i < j < |pre| ensures KeyOf(pre[j]) != KeyOf(pre[i]) {
            assert pre[j] == evs[j];
          }
        }
      }
    }
  }

  /** `get_events` of either provider: normalise every fetched record, then
      key it. */
  function Fetch(raws: seq<RawEvent>): (m: map<Key, Event>)
    ensures WellKeyed(m)
    ensures forall r :: r in raws ==> KeyOf(Normalize(r)) in m
    ensures forall k :: k in m ==> exists r :: r in raws && Normalize(r) == m[k]
  {
    var evs := seq(|raws|, i requires 0 <= i < |raws| => Normalize(raws[i]));
    assert forall i :: 0 <= i < |raws| ==> evs[i] == Normalize(raws[i]);
    assert forall r :: r in raws ==> Normalize(r) in evs;
    Collect(evs)
  }

  /** Two records with the same name and UTC start but different end or
      description collapse into one entry; the later one is kept. */
  lemma IdentityCollapse(e1: Event, e2: Event)
    requires e1.name == e2.name && e1.start == e2.start
    ensures Collect([e1, e2]) == map[KeyOf(e2) := e2]
    ensures |Collect([e1, e2])| == 1
  {
  }
}
