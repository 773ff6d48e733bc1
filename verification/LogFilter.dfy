/** The log filter that shortens repeated messages: a window of recent records against the whole history. */
module LogFilter {
  import opened Common
  import opened Text

  const MAX_LENGTH: nat := 1024 * 1024 * 100
  const WINDOW: nat := 5

  /** What a record says: what its caller wrote, or the notice that the filter put in its place. */
  datatype Body = Written(text: string) | Notice(time: string, duplicates: nat, text: string)

  function GetMessage(body: Body): string {
    match body
    case Written(text) => text
    case Notice(time, duplicates, text) =>
      "Message from " + time + " has been duplicated " + IntText(duplicates) + " times. Truncating to:\n" + text + "."
  }

  /** Whether the flag is on, and what the two clean-up patterns make of a message. */
  datatype Rules = Rules(truncateDuplicates: bool, withoutTimings: string -> string, withoutSsh: string -> string)

  /** A record as it reaches the filter, and as the window remembers it. */
  datatype Arrival = Arrival(text: string, message: string, threadLabel: string, time: string)
  datatype Entry = Entry(arrival: Arrival, duplicates: nat)

  predicate Contains(s: string, sub: string) {
    exists i :: 0 <= i <= |s| && sub <= s[i..]
  }

  /** The message that records are compared by. */
  function Message(rules: Rules, text: string): string {
    if Contains(text, "WallTime") then rules.withoutTimings(text) else text
  }

  function Arrive(rules: Rules, text: string, threadLabel: string, time: string): Arrival {
    Arrival(text, Message(rules, text), threadLabel, time)
  }

  predicate ShouldTruncate(x: Arrival) {
    '\n' in x.message && |x.text| > 220 && !Contains(x.message, "DO NOT DEDUPLICATE")
  }

  function TruncatedMessage(rules: Rules, x: Arrival): string {
    var cleaned :=
      if Contains(x.message, "ssh -A -p ") && Contains(x.message, "-o ControlPersist=") then rules.withoutSsh(x.message)
      else x.message;
    if |cleaned| > 150 then cleaned[..150] + "..." else cleaned
  }

  predicate IsTooLong(x: Arrival) { |x.text| > MAX_LENGTH }

  /** Equal records: the same cleaned message under the same label. */
  predicate Same(x: Arrival, y: Arrival) {
    x.message == y.message && x.threadLabel == y.threadLabel
  }

  // ----- One record -----

  /** The first entry equal to the record, or the window's length. */
  function Find(window: seq<Entry>, x: Arrival): (k: nat)
    ensures k <= |window| && (k < |window| ==> Same(x, window[k].arrival))
    ensures forall j :: 0 <= j < k ==> !Same(x, window[j].arrival)
  {
    if window == [] || Same(x, window[0].arrival) then 0 else 1 + Find(window[1..], x)
  }

  lemma {:induction false} FindIs(window: seq<Entry>, x: Arrival, k: nat)
    requires k <= |window| && (k < |window| ==> Same(x, window[k].arrival))
    requires forall j :: 0 <= j < k ==> !Same(x, window[j].arrival)
    ensures Find(window, x) == k
  {
  }

  /** Appending to the bounded deque drops the oldest entry. */
  function Push<T>(window: seq<T>, x: T): seq<T> {
    Last(window + [x])
  }

  function Last<T>(xs: seq<T>): seq<T> {
    if |xs| <= WINDOW then xs else xs[|xs| - WINDOW..]
  }

  function Remember(rules: Rules, window: seq<Entry>, x: Arrival): seq<Entry> {
    if !rules.truncateDuplicates || IsTooLong(x) then window
    else
      var k := Find(window, x);
      if k == |window| then Push(window, Entry(x, 0))
      else window[k := window[k].(duplicates := window[k].duplicates + 1)]
  }

  /** The notice that replaces the record's text, if any. */
  function Shorten(rules: Rules, window: seq<Entry>, x: Arrival): Option<Body> {
    if !rules.truncateDuplicates || IsTooLong(x) then None
    else
      var k := Find(window, x);
      if k < |window| && ShouldTruncate(window[k].arrival)
      then Some(Notice(window[k].arrival.time, window[k].duplicates + 1, TruncatedMessage(rules, window[k].arrival)))
      else None
  }

  function Shown(body: Body, notice: Option<Body>): Body { if notice.Some? then notice.value else body }

  // ----- The filter object -----

  class LogRecord {
    const created: string
    var msg: Body
    var pkbLabel: string

    constructor (created: string, msg: Body)
      ensures this.created == created && this.msg == msg
    {
      this.created, this.msg, pkbLabel := created, msg, "";
    }
  }

  class PkbLogRecord {
    const record: LogRecord
    const text: string
    const message: string
    var duplicates: nat

    constructor (rules: Rules, record: LogRecord)
      ensures this.record == record && text == GetMessage(record.msg) && message == Message(rules, text) && duplicates == 0
    {
      this.record, text, message, duplicates :=
        record, GetMessage(record.msg), Message(rules, GetMessage(record.msg)), 0;
    }

    function Arrived(): Arrival
      reads record
    {
      Arrival(text, message, record.pkbLabel, record.created)
    }

    ghost function View(): Entry
      reads this, record
    {
      Entry(Arrived(), duplicates)
    }
  }

  ghost function Views(records: seq<PkbLogRecord>): (window: seq<Entry>)
    reads records, set r | r in records :: r.record
    ensures |window| == |records|
  {
    seq(|records|, i requires 0 <= i < |records| reads records, set r | r in records :: r.record =>
      assert records[i] in records; records[i].View())
  }

  class PkbLogFilter {
    const rules: Rules
    var lastRecords: seq<PkbLogRecord>
    /** The records that have passed, as they arrived. */
    ghost var history: seq<Arrival>

    ghost predicate Bounded()
      reads `lastRecords
    {
      Distinct(lastRecords) && |lastRecords| <= WINDOW
    }

    ghost function Records(): set<LogRecord>
      reads `lastRecords
    {
      set e | e in lastRecords :: e.record
    }

    ghost function View(): (window: seq<Entry>)
      reads `lastRecords, lastRecords, Records()
    {
      Views(lastRecords)
    }

    /** The window is what the history of the filter makes it. */
    ghost predicate Valid()
      reads this, lastRecords, Records()
    {
      Bounded() && View() == Window(rules, history)
    }

    constructor (rules: Rules)
      ensures Valid() && history == [] && lastRecords == [] && this.rules == rules
    {
      this.rules, lastRecords, history := rules, [], [];
    }

    /** The scan for an equal record. */
    method FindDuplicate(x: Arrival) returns (k: nat)
      requires Bounded()
      ensures k == Find(View(), x)
    {
      k := 0;
      while k < |lastRecords| && !Same(x, lastRecords[k].Arrived())
        invariant k <= |lastRecords|
        invariant forall j :: 0 <= j < k ==> !Same(x, View()[j].arrival)
      {
        k := k + 1;
      }
      FindIs(View(), x, k);
    }

    method Store(pkbRecord: PkbLogRecord)
      requires Bounded() && pkbRecord !in lastRecords
      modifies `lastRecords
      ensures Bounded() && lastRecords == Push(old(lastRecords), pkbRecord) && View() == Push(old(View()), pkbRecord.View())
    {
      lastRecords := Push(lastRecords, pkbRecord);
    }

    method CountDuplicate(k: nat)
      requires Bounded() && k < |lastRecords|
      modifies lastRecords[k]
      ensures Bounded() && View() == old(View())[k := old(View())[k].(duplicates := old(View())[k].duplicates + 1)]
      ensures lastRecords[k].View() == Entry(old(View())[k].arrival, old(View())[k].duplicates + 1)
    {
      lastRecords[k].duplicates := lastRecords[k].duplicates + 1;
    }

    /** The window after a record that is short enough to keep, and the notice that replaces its text. */
    method Recall(pkbRecord: PkbLogRecord) returns (notice: Option<Body>)
      requires Bounded() && pkbRecord !in lastRecords && pkbRecord.duplicates == 0
      requires rules.truncateDuplicates && !IsTooLong(pkbRecord.Arrived())
      modifies `lastRecords, lastRecords
      ensures Bounded()
      ensures View() == Remember(rules, old(View()), pkbRecord.Arrived())
      ensures notice == Shorten(rules, old(View()), pkbRecord.Arrived())
      ensures forall e :: e in lastRecords ==> e in old(lastRecords) || e == pkbRecord
    {
      var x := pkbRecord.Arrived();
      ghost var before := View();
      var k := FindDuplicate(x);
      assert View() == before && pkbRecord.View() == Entry(x, 0);
      if k == |lastRecords| {
        Store(pkbRecord);
        assert View() == Remember(rules, before, x);
        return None;
      }
      CountDuplicate(k);
      assert View() == Remember(rules, before, x);
      var first, duplicates := lastRecords[k].Arrived(), lastRecords[k].duplicates;
      notice := if ShouldTruncate(first) then Some(Notice(first.time, duplicates, TruncatedMessage(rules, first))) else None;
    }

    method Examine(record: LogRecord, threadLabel: string)
      requires Bounded() && record !in Records()
      modifies `lastRecords, lastRecords, record
      ensures Bounded() && record.pkbLabel == threadLabel
      ensures var x := Arrive(rules, GetMessage(old(record.msg)), threadLabel, record.created);
              View() == Remember(rules, old(View()), x) && record.msg == Shown(old(record.msg), Shorten(rules, old(View()), x))
      ensures forall e :: e in lastRecords ==> e in old(lastRecords) || (fresh(e) && e.record == record)
    {
      record.pkbLabel := threadLabel;
      var pkbRecord := new PkbLogRecord(rules, record);
      assert View() == old(View());
      if !rules.truncateDuplicates || IsTooLong(pkbRecord.Arrived()) {
        return;
      }
      var notice := Recall(pkbRecord);
      if notice.Some? {
        ghost var after := View();
        record.msg := notice.value;
        assert View() == after;
      }
    }

    /** A record passes a filter once; the label is that of the thread that logs it. */
    method Filter(record: LogRecord, threadLabel: string) returns (keep: bool)
      requires Valid() && record !in Records()
      modifies `lastRecords, `history, lastRecords, record
      ensures Valid() && keep && record.pkbLabel == threadLabel
      ensures history == old(history) + [Arrive(rules, GetMessage(old(record.msg)), threadLabel, record.created)]
      ensures record.msg == Shown(old(record.msg), Emitted(rules, history, |old(history)|))
      ensures forall e :: e in lastRecords ==> e in old(lastRecords) || (fresh(e) && e.record == record)
    {
      ghost var x := Arrive(rules, GetMessage(record.msg), threadLabel, record.created);
      Examine(record, threadLabel);
      history := history + [x];
      assert history[..|history| - 1] == old(history);
      keep := true;
    }
  }

  // ----- The history -----

  /** The window after these records have passed a new filter. */
  function Window(rules: Rules, h: seq<Arrival>): seq<Entry> {
    if h == [] then [] else Remember(rules, Window(rules, h[..|h| - 1]), h[|h| - 1])
  }

  /** What became of record n. */
  function Emitted(rules: Rules, h: seq<Arrival>, n: nat): Option<Body>
    requires n < |h|
  {
    Shorten(rules, Window(rules, h[..n]), h[n])
  }

  /** The fresh records: those short enough to keep that equal none of the five fresh ones before them. */
  function Fresh(rules: Rules, h: seq<Arrival>): (r: seq<nat>)
    ensures forall k :: 0 <= k < |r| ==> r[k] < |h|
    ensures !rules.truncateDuplicates ==> r == []
  {
    if h == [] then []
    else
      var n := |h| - 1;
      var before := Fresh(rules, h[..n]);
      if rules.truncateDuplicates && !IsTooLong(h[n]) && forall i :: i in Last(before) ==> !Same(h[n], h[i])
      then before + [n] else before
  }

  /** How many of the records after the first i + 1 equal record i. */
  function Repeats(h: seq<Arrival>, i: nat): nat
    requires i < |h|
  {
    if |h| == i + 1 then 0
    else
      Repeats(h[..|h| - 1], i) + if !IsTooLong(h[|h| - 1]) && Same(h[|h| - 1], h[i]) then 1 else 0
  }

  ghost predicate Spaced(h: seq<Arrival>, shown: seq<nat>)
    requires forall k :: 0 <= k < |shown| ==> shown[k] < |h|
  {
    forall a, b :: 0 <= a < b < |shown| && b - a <= WINDOW ==> !Same(h[shown[b]], h[shown[a]])
  }

  function Entries(h: seq<Arrival>, recent: seq<nat>): (r: seq<Entry>)
    requires forall k :: 0 <= k < |recent| ==> recent[k] < |h|
    ensures |r| == |recent|
  {
    seq(|recent|, k requires 0 <= k < |recent| => Entry(h[recent[k]], Repeats(h, recent[k])))
  }

  /**
   * A message is shown in full as new again only after five different ones: equal fresh records
   * have at least five fresh records between them.
   */
  lemma {:induction false} FreshAreSpaced(rules: Rules, h: seq<Arrival>)
    ensures Spaced(h, Fresh(rules, h))
    ensures forall a, b :: 0 <= a < b < |Fresh(rules, h)| ==> Fresh(rules, h)[a] < Fresh(rules, h)[b]
  {
    if h != [] {
      var n := |h| - 1;
      var before, all := Fresh(rules, h[..n]), Fresh(rules, h);
      FreshAreSpaced(rules, h[..n]);
      if all != before {
        var m := |before|;
        forall a | 0 <= a < m && m - a <= WINDOW ensures !Same(h[n], h[before[a]]) {
          assert before[a] == Last(before)[if m <= WINDOW then a else a - (m - WINDOW)];
        }
      }
    }
  }

  /** The remembered entries with one more record of history. */
  lemma EntriesAfter(h: seq<Arrival>, recent: seq<nat>)
    requires h != [] && forall k :: 0 <= k < |recent| ==> recent[k] < |h| - 1
    ensures forall k :: 0 <= k < |recent| ==>
              Entries(h, recent)[k] == Entry(h[recent[k]], Entries(h[..|h| - 1], recent)[k].duplicates
                + if !IsTooLong(h[|h| - 1]) && Same(h[|h| - 1], h[recent[k]]) then 1 else 0)
  {
  }

  /** A fresh record: the recent ones move up by one, and none of their counts changes. */
  lemma FreshArrives(h: seq<Arrival>, recent: seq<nat>)
    requires h != [] && |recent| <= WINDOW && forall k :: 0 <= k < |recent| ==> recent[k] < |h| - 1
    requires forall k :: 0 <= k < |recent| ==> !Same(h[|h| - 1], h[recent[k]])
    ensures Entries(h, Push(recent, |h| - 1)) == Push(Entries(h[..|h| - 1], recent), Entry(h[|h| - 1], 0))
  {
    EntriesAfter(h, recent);
    var now := Entries(h, recent);
    assert now == Entries(h[..|h| - 1], recent);
    assert Entries(h, Push(recent, |h| - 1)) == Push(now, Entry(h[|h| - 1], 0));
  }

  /** A repeated record: only the count of the entry it equals changes. */
  lemma RepeatArrives(h: seq<Arrival>, recent: seq<nat>, k: nat)
    requires h != [] && !IsTooLong(h[|h| - 1]) && forall j :: 0 <= j < |recent| ==> recent[j] < |h| - 1
    requires k < |recent| && Same(h[|h| - 1], h[recent[k]])
    requires Apart(Arrivals(h[..|h| - 1], recent))
    ensures var before := Entries(h[..|h| - 1], recent);
            Entries(h, recent) == before[k := before[k].(duplicates := before[k].duplicates + 1)]
  {
    EntriesAfter(h, recent);
    var xs := Arrivals(h[..|h| - 1], recent);
    forall j | 0 <= j < |recent| && j != k ensures !Same(h[|h| - 1], h[recent[j]]) {
      assert xs[j] == h[recent[j]] && xs[k] == h[recent[k]];
      assert !Same(xs[if j < k then k else j], xs[if j < k then j else k]);
    }
  }

  ghost predicate Apart(xs: seq<Arrival>) {
    forall a, b :: 0 <= a < b < |xs| ==> !Same(xs[b], xs[a])
  }

  function Arrivals(h: seq<Arrival>, indices: seq<nat>): (r: seq<Arrival>)
    requires forall k :: 0 <= k < |indices| ==> indices[k] < |h|
    ensures |r| == |indices|
  {
    seq(|indices|, k requires 0 <= k < |indices| => h[indices[k]])
  }

  lemma LastAreApart(h: seq<Arrival>, shown: seq<nat>)
    requires forall k :: 0 <= k < |shown| ==> shown[k] < |h|
    requires Spaced(h, shown)
    ensures Apart(Arrivals(h, Last(shown)))
  {
    var recent := Last(shown);
    var d := |shown| - |recent|;
    forall a, b | 0 <= a < b < |recent| ensures !Same(h[recent[b]], h[recent[a]]) {
      assert recent[a] == shown[d + a] && recent[b] == shown[d + b];
      assert !Same(h[shown[d + b]], h[shown[d + a]]);
    }
  }

  lemma RecentAreApart(rules: Rules, h: seq<Arrival>)
    ensures Apart(Arrivals(h, Last(Fresh(rules, h))))
  {
    FreshAreSpaced(rules, h);
    LastAreApart(h, Fresh(rules, h));
  }

  /** The scan finds an equal entry exactly when the record is not fresh. */
  lemma FreshOrRepeat(rules: Rules, h: seq<Arrival>)
    requires h != [] && rules.truncateDuplicates && !IsTooLong(h[|h| - 1])
    ensures var n, before, recent := |h| - 1, Fresh(rules, h[..|h| - 1]), Last(Fresh(rules, h[..|h| - 1]));
            var k := Find(Entries(h[..n], recent), h[n]);
            if k == |recent| then Fresh(rules, h) == before + [n]
              && forall j :: 0 <= j < k ==> !Same(h[n], h[recent[j]])
            else Fresh(rules, h) == before && k < |recent| && Same(h[n], h[recent[k]])
  {
    var n := |h| - 1;
    var recent := Last(Fresh(rules, h[..n]));
    var window := Entries(h[..n], recent);
    var k := Find(window, h[n]);
    assert forall j :: 0 <= j < |recent| ==> window[j].arrival == h[recent[j]];
    if k == |recent| {
      forall j | 0 <= j < |recent| ensures !Same(h[n], h[recent[j]]) {
        assert !Same(h[n], window[j].arrival);
      }
    } else {
      assert recent[k] in recent;
    }
  }

  lemma LastPush(before: seq<nat>, n: nat)
    ensures Last(before + [n]) == Push(Last(before), n)
  {
  }

  lemma StepRefines(rules: Rules, h: seq<Arrival>)
    requires h != []
    ensures Remember(rules, Entries(h[..|h| - 1], Last(Fresh(rules, h[..|h| - 1]))), h[|h| - 1]) == Entries(h, Last(Fresh(rules, h)))
  {
    var front, x := h[..|h| - 1], h[|h| - 1];
    var shown := Fresh(rules, front);
    var recent := Last(shown);
    if !rules.truncateDuplicates || IsTooLong(x) {
      EntriesAfter(h, recent);
    } else {
      FreshOrRepeat(rules, h);
      var k := Find(Entries(front, recent), x);
      if k == |recent| {
        FreshArrives(h, recent);
        LastPush(shown, |h| - 1);
      } else {
        RecentAreApart(rules, front);
        RepeatArrives(h, recent, k);
      }
    }
  }

  /** The window holds the last five fresh records, each with the number of its repeats. */
  lemma {:induction false} WindowRefinesHistory(rules: Rules, h: seq<Arrival>)
    ensures Window(rules, h) == Entries(h, Last(Fresh(rules, h)))
  {
    if h != [] {
      WindowRefinesHistory(rules, h[..|h| - 1]);
      StepRefines(rules, h);
    }
  }

  // ----- What readers of the log can rely on -----

  lemma FirstsAreFull(rules: Rules, h: seq<Arrival>, n: nat)
    requires n < |h| && Fresh(rules, h[..n + 1]) == Fresh(rules, h[..n]) + [n]
    ensures Emitted(rules, h, n).None?
  {
    assert h[..n + 1][..n] == h[..n];
    WindowRefinesHistory(rules, h[..n]);
    FreshOrRepeat(rules, h[..n + 1]);
  }

  lemma {:induction false} FreshRecordsAreFull(rules: Rules, h: seq<Arrival>, i: nat)
    requires i in Fresh(rules, h)
    ensures Emitted(rules, h, i).None?
  {
    var n := |h| - 1;
    if i in Fresh(rules, h[..n]) {
      FreshRecordsAreFull(rules, h[..n], i);
      assert h[..n][..i] == h[..i];
    } else {
      assert h[..n + 1] == h;
      FirstsAreFull(rules, h, n);
    }
  }

  /** Record i is one that the window can match record n with. */
  predicate Recalls(rules: Rules, h: seq<Arrival>, n: nat, i: nat)
    requires n < |h|
  {
    !IsTooLong(h[n]) && i in Last(Fresh(rules, h[..n])) && Same(h[n], h[i])
  }

  lemma RecalledIsFound(rules: Rules, h: seq<Arrival>, n: nat, i: nat)
    requires n < |h| && Recalls(rules, h, n, i)
    ensures var window, k := Window(rules, h[..n]), Find(Window(rules, h[..n]), h[n]);
            k < |window| && i < n && window[k] == Entry(h[i], Repeats(h[..n], i))
  {
    var front := h[..n];
    var recent := Last(Fresh(rules, front));
    WindowRefinesHistory(rules, front);
    RecentAreApart(rules, front);
    var window, xs := Entries(front, recent), Arrivals(front, recent);
    var j :| 0 <= j < |recent| && recent[j] == i;
    forall m | 0 <= m < j ensures !Same(h[n], window[m].arrival) {
      assert !Same(xs[j], xs[m]);
    }
    FindIs(window, h[n], j);
  }

  lemma RecalledIsFull(rules: Rules, h: seq<Arrival>, n: nat, i: nat)
    requires n < |h| && Recalls(rules, h, n, i)
    ensures i < n && Emitted(rules, h, i).None?
  {
    LastIsPart(Fresh(rules, h[..n]), i);
    FreshRecordsAreFull(rules, h[..n], i);
    assert h[..n][..i] == h[..i];
  }

  lemma LastIsPart(xs: seq<nat>, x: nat)
    requires x in Last(xs)
    ensures x in xs
  {
  }

  /** A record that equals a recalled one is shortened exactly when that one is worth shortening. */
  lemma RecalledDecides(rules: Rules, h: seq<Arrival>, n: nat, i: nat)
    requires n < |h| && Recalls(rules, h, n, i)
    ensures i < n
    ensures Emitted(rules, h, n) ==
            if ShouldTruncate(h[i]) then Some(Notice(h[i].time, Repeats(h[..n + 1], i), TruncatedMessage(rules, h[i]))) else None
  {
    RecalledIsFound(rules, h, n, i);
    assert h[..n + 1][..n] == h[..n];
    assert Fresh(rules, h[..n]) != [];
  }

  lemma ShortenedRecalls(rules: Rules, h: seq<Arrival>, n: nat) returns (i: nat)
    requires n < |h| && Emitted(rules, h, n).Some?
    ensures Recalls(rules, h, n, i)
  {
    WindowRefinesHistory(rules, h[..n]);
    var recent := Last(Fresh(rules, h[..n]));
    i := recent[Find(Entries(h[..n], recent), h[n])];
  }

  /**
   * A record is shortened exactly when one of the last five fresh records before it is equal to it
   * and worth shortening; that one was itself shown in full, and the notice gives its time, its
   * text, and how many times it has been repeated so far.
   */
  lemma ShortenedExactly(rules: Rules, h: seq<Arrival>, n: nat)
    requires n < |h|
    ensures Emitted(rules, h, n).Some? <==> exists i: nat :: Recalls(rules, h, n, i) && ShouldTruncate(h[i])
    ensures forall i: nat :: Recalls(rules, h, n, i) && Emitted(rules, h, n).Some? ==>
              && i < n && Emitted(rules, h, i).None?
              && Emitted(rules, h, n).value == Notice(h[i].time, Repeats(h[..n + 1], i), TruncatedMessage(rules, h[i]))
  {
    if Emitted(rules, h, n).Some? {
      var i := ShortenedRecalls(rules, h, n);
      RecalledDecides(rules, h, n, i);
    }
    forall i: nat | Recalls(rules, h, n, i)
      ensures i < n && Emitted(rules, h, i).None?
      ensures Emitted(rules, h, n) ==
              if ShouldTruncate(h[i]) then Some(Notice(h[i].time, Repeats(h[..n + 1], i), TruncatedMessage(rules, h[i]))) else None
    {
      RecalledDecides(rules, h, n, i);
      RecalledIsFull(rules, h, n, i);
    }
  }
}
