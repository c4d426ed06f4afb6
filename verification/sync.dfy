/** The imperative write pass of `CalendarSyncManager.sync`, over the two
    backends' states as maps, with a log of every append attempted. */
module Sync {
  import opened Clock
  import opened Events
  import opened Reconcile

  datatype Side = Yandex | Google

  /** One append attempt: the target side, the missing key, the merged
      record sent, and whether the backend created it. */
  datatype Write = Write(side: Side, key: Key, event: Event, inserted: bool)

  /** The keys the log attempted on one side. */
  function KeysWritten(log: seq<Write>, side: Side): set<Key> {
    set i | 0 <= i < |log| && log[i].side == side :: log[i].key
  }

  lemma KeysWrittenSnoc(log: seq<Write>, x: Write, side: Side)
    ensures KeysWritten(log + [x], side)
         == KeysWritten(log, side) + (if x.side == side then {x.key} else {})
  {
    var l := log + [x];
    forall k | k in KeysWritten(l, side) ensures k in KeysWritten(log, side) || (x.side == side && k == x.key) {
      var i :| 0 <= i < |l| && l[i].side == side && l[i].key == k;
      if i < |log| {
        assert log[i] == l[i];
      }
    }
    forall k | k in KeysWritten(log, side) ensures k in KeysWritten(l, side) {
      var i :| 0 <= i < |log| && log[i].side == side && log[i].key == k;
      assert l[i] == log[i];
    }
    if x.side == side {
      assert l[|log|] == x;
    }
  }

  /** No key is attempted twice on the same side. */
  ghost predicate NoRepeats(log: seq<Write>) {
    forall i, j :: 0 <= i < j < |log| && log[i].side == log[j].side ==> log[i].key != log[j].key
  }

  /** Every Yandex attempt comes before every Google attempt. */
  ghost predicate YandexFirst(log: seq<Write>) {
    forall i, j :: 0 <= i < j < |log| && log[j].side == Yandex ==> log[i].side == Yandex
  }

  /** Attempt `x` sends the merged record of its key; a Yandex attempt
      always creates the event, a Google attempt only inside the window. */
  ghost predicate FaithfulWrite(x: Write, all: EventMap, w: Window) {
    && x.key in all
    && x.event == all[x.key]
    && (x.inserted <==> x.side == Yandex || InWindow(w, x.event.start))
  }

  ghost predicate Faithful(log: seq<Write>, all: EventMap, w: Window) {
    forall i :: 0 <= i < |log| ==> FaithfulWrite(log[i], all, w)
  }

  /** Logging one more faithful attempt on a key not yet attempted on its
      side keeps the log free of repeats and faithful. */
  lemma LogSnoc(log: seq<Write>, x: Write, all: EventMap, w: Window)
    requires NoRepeats(log) && Faithful(log, all, w)
    requires x.key !in KeysWritten(log, x.side)
    requires FaithfulWrite(x, all, w)
    ensures NoRepeats(log + [x]) && Faithful(log + [x], all, w)
  {
    var l := log + [x];
    forall i, j | 0 <= i < j < |l| && l[i].side == l[j].side ensures l[i].key != l[j].key {
      if j == |log| {
        assert l[i] == log[i];
      } else {
        assert l[i] == log[i] && l[j] == log[j];
      }
    }
    forall i | 0 <= i < |l| ensures FaithfulWrite(l[i], all, w) {
      if i < |log| {
        assert l[i] == log[i];
      }
    }
  }

  /** A log that attempts each key once, all on one side, is as long as
      the set of keys it attempted. */
  lemma {:induction false} LogLength(log: seq<Write>, side: Side)
    requires forall i :: 0 <= i < |log| ==> log[i].side == side
    requires NoRepeats(log)
    ensures |KeysWritten(log, side)| == |log|
  {
    if log != [] {
      var pre, x := log[..|log| - 1], log[|log| - 1];
      assert log == pre + [x];
      assert NoRepeats(pre) by {
        forall i, j | 0 <= i < j < |pre| && pre[i].side == pre[j].side ensures pre[i].key != pre[j].key {
          assert pre[i] == log[i] && pre[j] == log[j];
        }
      }
      LogLength(pre, side);
      KeysWrittenSnoc(pre, x, side);
      assert forall i :: 0 <= i < |pre| ==> pre[i] == log[i] && pre[i].key != x.key;
    }
  }

  /** The entries of `all` under the keys of `s`. */
  function Pick(all: EventMap, s: set<Key>): (r: EventMap)
    ensures r.Keys == s * all.Keys
    ensures forall k :: k in r ==> r[k] == all[k]
  {
    map k | k in s && k in all :: all[k]
  }

  /** The keys of `s` whose record in `all` starts inside the window. */
  function InWindowKeys(all: EventMap, s: set<Key>, w: Window): (r: set<Key>)
    ensures r <= s
    ensures forall k :: k in s && k in all ==> (k in r <==> InWindow(w, all[k].start))
  {
    set k | k in s && k in all && InWindow(w, all[k].start)
  }

  /** Storing one more picked entry extends the pick by that key. */
  lemma PickInsert(state: EventMap, all: EventMap, s: set<Key>, k: Key)
    requires k in all
    ensures state + Pick(all, s + {k}) == (state + Pick(all, s))[k := all[k]]
  {
  }

  /** Offering one more key to the window guard extends the in-window keys
      by it exactly when its record starts inside the window. */
  lemma InWindowKeysInsert(all: EventMap, s: set<Key>, k: Key, w: Window)
    requires k in all
    ensures InWindowKeys(all, s + {k}, w)
         == InWindowKeys(all, s, w) + (if InWindow(w, all[k].start) then {k} else {})
  {
  }

  /** One guarded Google add extends the stored in-window picks by the
      offered key. */
  lemma GoogleStep(state: EventMap, current: EventMap, all: EventMap, done: set<Key>, k: Key, w: Window)
    requires WellKeyed(all) && k in all
    requires current == state + Pick(all, InWindowKeys(all, done, w))
    ensures GoogleAdd(current, all[k], w).0 == state + Pick(all, InWindowKeys(all, done + {k}, w))
  {
    InWindowKeysInsert(all, done, k, w);
    PickInsert(state, all, InWindowKeys(all, done, w), k);
  }

  /** `log` attempted exactly the keys `done`, all on `side`, each once,
      each faithfully. */
  ghost predicate LogOf(log: seq<Write>, side: Side, done: set<Key>, all: EventMap, w: Window) {
    && KeysWritten(log, side) == done
    && (forall i :: 0 <= i < |log| ==> log[i].side == side)
    && NoRepeats(log)
    && Faithful(log, all, w)
  }

  /** One more faithful attempt on a fresh key extends the log's keys. */
  lemma LogStep(log: seq<Write>, x: Write, done: set<Key>, all: EventMap, w: Window)
    requires LogOf(log, x.side, done, all, w)
    requires x.key !in done && FaithfulWrite(x, all, w)
    ensures LogOf(log + [x], x.side, done + {x.key}, all, w)
  {
    KeysWrittenSnoc(log, x, x.side);
    LogSnoc(log, x, all, w);
  }

  /** A log on one side attempted nothing on the other. */
  lemma OtherSideEmpty(log: seq<Write>, side: Side, other: Side)
    requires forall i :: 0 <= i < |log| ==> log[i].side == side
    requires other != side
    ensures KeysWritten(log, other) == {}
  {
  }

  /** The first loop: every key of `keys` is appended to Yandex with its
      merged record, unconditionally. */
  method YandexPass(state: EventMap, keys: set<Key>, all: EventMap, w: Window)
      returns (state': EventMap, log: seq<Write>)
    requires keys <= all.Keys && WellKeyed(all)
    ensures state' == state + Pick(all, keys)
    ensures LogOf(log, Yandex, keys, all, w) && |log| == |keys|
  {
    state', log := state, [];
    var todo, done := keys, {};
    while todo != {}
      invariant todo + done == keys && todo !! done
      invariant state' == state + Pick(all, done)
      invariant LogOf(log, Yandex, done, all, w)
      decreases todo
    {
      var k :| k in todo;
      var x := Write(Yandex, k, all[k], true);
      PickInsert(state, all, done, k);
      LogStep(log, x, done, all, w);
      state' := Append(state', all[k]);
      log := log + [x];
      todo, done := todo - {k}, done + {k};
    }
    LogLength(log, Yandex);
  }

  /** The second loop: every key of `keys` is offered to Google, which
      creates it only when its merged record starts inside the window. */
  method GooglePass(state: EventMap, keys: set<Key>, all: EventMap, w: Window)
      returns (state': EventMap, log: seq<Write>)
    requires keys <= all.Keys && WellKeyed(all)
    ensures state' == state + Pick(all, InWindowKeys(all, keys, w))
    ensures LogOf(log, Google, keys, all, w) && |log| == |keys|
  {
    state', log := state, [];
    var todo, done := keys, {};
    while todo != {}
      invariant todo + done == keys && todo !! done
      invariant state' == state + Pick(all, InWindowKeys(all, done, w))
      invariant LogOf(log, Google, done, all, w)
      decreases todo
    {
      var k :| k in todo;
      var outcome := GoogleAdd(state', all[k], w);
      var x := Write(Google, k, all[k], outcome.1);
      GoogleStep(state, state', all, done, k, w);
      LogStep(log, x, done, all, w);
      state' := outcome.0;
      log := log + [x];
      todo, done := todo - {k}, done + {k};
    }
    LogLength(log, Google);
  }

  /** Appending the Google attempts after the Yandex ones keeps each side's
      keys, the order of sides and the absence of repeats. */
  lemma ConcatLogs(ylog: seq<Write>, glog: seq<Write>, all: EventMap, w: Window)
    requires forall i :: 0 <= i < |ylog| ==> ylog[i].side == Yandex
    requires forall i :: 0 <= i < |glog| ==> glog[i].side == Google
    requires NoRepeats(ylog) && NoRepeats(glog)
    requires Faithful(ylog, all, w) && Faithful(glog, all, w)
    ensures KeysWritten(ylog + glog, Yandex) == KeysWritten(ylog, Yandex)
    ensures KeysWritten(ylog + glog, Google) == KeysWritten(glog, Google)
    ensures NoRepeats(ylog + glog) && YandexFirst(ylog + glog) && Faithful(ylog + glog, all, w)
  {
    var l := ylog + glog;
    forall i | 0 <= i < |l| ensures l[i] == (if i < |ylog| then ylog[i] else glog[i - |ylog|]) {
    }
    forall k | k in KeysWritten(l, Yandex) ensures k in KeysWritten(ylog, Yandex) {
      var i :| 0 <= i < |l| && l[i].side == Yandex && l[i].key == k;
    }
    forall k | k in KeysWritten(ylog, Yandex) ensures k in KeysWritten(l, Yandex) {
      var i :| 0 <= i < |ylog| && ylog[i].side == Yandex && ylog[i].key == k;
      assert l[i] == ylog[i];
    }
    forall k | k in KeysWritten(l, Google) ensures k in KeysWritten(glog, Google) {
      var i :| 0 <= i < |l| && l[i].side == Google && l[i].key == k;
      assert glog[i - |ylog|] == l[i];
    }
    forall k | k in KeysWritten(glog, Google) ensures k in KeysWritten(l, Google) {
      var i :| 0 <= i < |glog| && glog[i].side == Google && glog[i].key == k;
      assert l[i + |ylog|] == glog[i];
    }
  }

  /** The two loops leave each side in the state the reference
      definitions describe. */
  lemma PassesMatchReference(yandex: EventMap, google: EventMap, w: Window)
    ensures yandex + Pick(Merge(yandex, google), YandexMissing(yandex, google)) == YandexAfter(yandex, google)
    ensures google + Pick(Merge(yandex, google), InWindowKeys(Merge(yandex, google), GoogleMissing(yandex, google), w))
         == GoogleAfter(yandex, google, w)
  {
  }

  /** The log of one write pass: each key missing on Yandex attempted on
      Yandex exactly once, each key missing on Google attempted on Google
      exactly once, nothing else, all Yandex attempts first, every attempt
      sending the merged record, and the only attempts that created nothing
      being on skipped keys. */
  ghost predicate WriteLog(log: seq<Write>, yandex: EventMap, google: EventMap, w: Window) {
    && KeysWritten(log, Yandex) == YandexMissing(yandex, google)
    && KeysWritten(log, Google) == GoogleMissing(yandex, google)
    && NoRepeats(log) && YandexFirst(log)
    && |log| == |YandexMissing(yandex, google)| + |GoogleMissing(yandex, google)|
    && Faithful(log, Merge(yandex, google), w)
    && (forall i :: 0 <= i < |log| && !log[i].inserted ==> log[i].key in Skipped(yandex, google, w))
  }

  /** The Yandex loop's log followed by the Google loop's log is the log of
      the whole pass. */
  lemma ConcatIsWriteLog(ylog: seq<Write>, glog: seq<Write>, yandex: EventMap, google: EventMap, w: Window)
    requires LogOf(ylog, Yandex, YandexMissing(yandex, google), Merge(yandex, google), w)
    requires LogOf(glog, Google, GoogleMissing(yandex, google), Merge(yandex, google), w)
    requires |ylog| == |YandexMissing(yandex, google)| && |glog| == |GoogleMissing(yandex, google)|
    ensures WriteLog(ylog + glog, yandex, google, w)
  {
    var all, log := Merge(yandex, google), ylog + glog;
    OtherSideEmpty(ylog, Yandex, Google);
    OtherSideEmpty(glog, Google, Yandex);
    ConcatLogs(ylog, glog, all, w);
    forall i | 0 <= i < |log| && !log[i].inserted ensures log[i].key in Skipped(yandex, google, w) {
      assert FaithfulWrite(log[i], all, w);
      assert log[i].key in KeysWritten(log, Google);
    }
  }

  /** Appends every key missing on Yandex to Yandex, then attempts every
      key missing on Google on Google through the window guard, each key
      taken in an arbitrary order as Python iterates a set. */
  method WritePass(yandex: EventMap, google: EventMap, w: Window)
      returns (yandex': EventMap, google': EventMap, log: seq<Write>)
    requires WellKeyed(yandex) && WellKeyed(google)
    ensures yandex' == YandexAfter(yandex, google)
    ensures google' == GoogleAfter(yandex, google, w)
    ensures WriteLog(log, yandex, google, w)
  {
    var all := Merge(yandex, google);
    MergeWellKeyed(yandex, google);
    var ylog, glog;
    yandex', ylog := YandexPass(yandex, YandexMissing(yandex, google), all, w);
    google', glog := GooglePass(google, GoogleMissing(yandex, google), all, w);
    PassesMatchReference(yandex, google, w);
    ConcatIsWriteLog(ylog, glog, yandex, google, w);
    log := ylog + glog;
  }

  /** `{**yandex, **google}` as Python evaluates it: start empty, store
      every Yandex entry, then every Google entry, a later store replacing
      an earlier one. */
  method MergeByInsertion(yandex: EventMap, google: EventMap) returns (all: EventMap)
    ensures all == Merge(yandex, google)
  {
    all := map[];
    var todo := yandex.Keys;
    while todo != {}
      invariant todo <= yandex.Keys
      invariant all == map k | k in yandex.Keys - todo :: yandex[k]
      decreases todo
    {
      var k :| k in todo;
      all := all[k := yandex[k]];
      todo := todo - {k};
    }
    todo := google.Keys;
    while todo != {}
      invariant todo <= google.Keys
      invariant all == map k | k in yandex.Keys + (google.Keys - todo) ::
                         if k in google.Keys - todo then google[k] else yandex[k]
      decreases todo
    {
      var k :| k in todo;
      all := all[k := google[k]];
      todo := todo - {k};
    }
  }

  /** What the two sides hold after a run, in terms of the fetched records:
      Yandex every fetched event of either side, Google every event it
      fetched and every in-window Yandex event, and nothing else on Google
      outside the window. */
  ghost predicate RunCovers(yandexRaw: seq<RawEvent>, googleRaw: seq<RawEvent>, w: Window,
                            yandex': EventMap, google': EventMap) {
    && (forall r :: r in yandexRaw || r in googleRaw ==> KeyOf(Normalize(r)) in yandex')
    && (forall r :: r in googleRaw ==> KeyOf(Normalize(r)) in google')
    && (forall r :: r in yandexRaw && InWindow(w, Normalize(r).start) ==> KeyOf(Normalize(r)) in google')
    && (forall k :: k in google' ==>
          (exists r :: r in googleRaw && KeyOf(Normalize(r)) == k) || InWindow(w, k.start))
    && WellKeyed(yandex') && WellKeyed(google')
  }

  /** The after-states of the reference definitions, applied to the fetched
      maps, cover the fetched records as a run promises. */
  lemma RunOutcome(yandexRaw: seq<RawEvent>, googleRaw: seq<RawEvent>, w: Window)
    ensures var y, g := Fetch(yandexRaw), Fetch(googleRaw);
      RunCovers(yandexRaw, googleRaw, w, YandexAfter(y, g), GoogleAfter(y, g, w))
  {
    var y, g := Fetch(yandexRaw), Fetch(googleRaw);
    AfterWellKeyed(y, g, w);
    forall r | r in yandexRaw && InWindow(w, Normalize(r).start)
      ensures KeyOf(Normalize(r)) in GoogleAfter(y, g, w)
    {
      var k := KeyOf(Normalize(r));
      assert k in y && y[k].start == k.start;
    }
    forall k | k in GoogleAfter(y, g, w) && k !in g
      ensures InWindow(w, k.start)
    {
      assert KeyOf(y[k]) == k;
    }
  }

  /** One run: fetch both sides, report, then write. Afterwards Yandex holds
      every fetched event of either side; Google keeps every event it
      fetched and gains every Yandex-only event starting inside the window. */
  method Sync(yandexRaw: seq<RawEvent>, googleRaw: seq<RawEvent>, w: Window)
      returns (report: Report, yandex': EventMap, google': EventMap, log: seq<Write>)
    ensures report == MakeReport(Fetch(yandexRaw), Fetch(googleRaw))
    ensures yandex' == YandexAfter(Fetch(yandexRaw), Fetch(googleRaw))
    ensures google' == GoogleAfter(Fetch(yandexRaw), Fetch(googleRaw), w)
    ensures WriteLog(log, Fetch(yandexRaw), Fetch(googleRaw), w)
    ensures RunCovers(yandexRaw, googleRaw, w, yandex', google')
  {
    var yandex := Fetch(yandexRaw);
    var google := Fetch(googleRaw);
    report := MakeReport(yandex, google);
    yandex', google', log := WritePass(yandex, google, w);
    RunOutcome(yandexRaw, googleRaw, w);
  }
}
