/** Two filters in series, as on the root logger: every record passes the one of the terminal's handler
    and then the one of the log file's handler, which sees the notices that the first one wrote. */
module LogChain {
  import opened Common
  import opened Text
  import opened LogFilter

  /** Record n as it reaches the second filter. */
  function Passed(rules: Rules, h: seq<Arrival>, n: nat): Arrival
    requires n < |h|
  {
    match Emitted(rules, h, n)
    case None => h[n]
    case Some(notice) => Arrive(rules, GetMessage(notice), h[n].threadLabel, h[n].time)
  }

  /** The history of the second filter, given the history of the first. */
  function Second(rules: Rules, h: seq<Arrival>): (r: seq<Arrival>)
    ensures |r| == |h| && forall n :: 0 <= n < |h| ==> r[n] == Passed(rules, h, n)
  {
    seq(|h|, n requires 0 <= n < |h| => Passed(rules, h, n))
  }

  lemma SecondGrows(rules: Rules, h: seq<Arrival>, x: Arrival)
    ensures Second(rules, h + [x]) == Second(rules, h) + [Passed(rules, h + [x], |h|)]
  {
    var longer := h + [x];
    forall n | 0 <= n < |h| ensures Passed(rules, longer, n) == Passed(rules, h, n) {
      assert longer[..n] == h[..n];
    }
  }

  // ----- Notices of one record -----

  /** The text of a notice tells how many repeats it counts. */
  lemma NoticeTellsCount(a: Body, b: Body)
    requires a.Notice? && b.Notice? && a.time == b.time && a.text == b.text && a.duplicates != b.duplicates
    ensures GetMessage(a) != GetMessage(b)
  {
    var start, end := "Message from " + a.time + " has been duplicated ", " times. Truncating to:\n" + a.text + ".";
    var d, e := IntText(a.duplicates), IntText(b.duplicates);
    assert GetMessage(a) == start + d + end && GetMessage(b) == start + e + end;
    if start + d + end == start + e + end {
      SameMiddle(start, d, e, end);
      IntRoundTrip(a.duplicates);
      IntRoundTrip(b.duplicates);
    }
  }

  lemma SameMiddle(start: string, d: string, e: string, end: string)
    requires start + d + end == start + e + end
    ensures d == e
  {
    assert |d| == |e|;
    assert (start + d + end)[|start|..|start| + |d|] == d;
    assert (start + e + end)[|start|..|start| + |e|] == e;
  }

  lemma {:induction false} RepeatsGrow(h: seq<Arrival>, i: nat, m: nat, n: nat)
    requires i < m <= n <= |h|
    ensures Repeats(h[..m], i) <= Repeats(h[..n], i)
    decreases n
  {
    if m < n {
      assert h[..n][..n - 1] == h[..n - 1];
      RepeatsGrow(h, i, m, n - 1);
    }
  }

  /** Record n repeats record i, and the first filter has put a notice in its place. */
  ghost predicate NoticeOf(rules: Rules, h: seq<Arrival>, n: nat, i: nat) {
    n < |h| && Recalls(rules, h, n, i) && Emitted(rules, h, n).Some?
  }

  /** What the second filter sees of a repeated record: a notice with the time and the text of the record
      repeated, and the number of its repeats so far. */
  lemma NoticeReachesSecond(rules: Rules, h: seq<Arrival>, n: nat, i: nat)
    requires NoticeOf(rules, h, n, i)
    ensures i < n
    ensures Emitted(rules, h, n) == Some(Notice(h[i].time, Repeats(h[..n + 1], i), TruncatedMessage(rules, h[i])))
    ensures Second(rules, h)[n] == Arrive(rules, GetMessage(Emitted(rules, h, n).value), h[n].threadLabel, h[n].time)
  {
    RecalledDecides(rules, h, n, i);
  }

  lemma CountsRise(rules: Rules, h: seq<Arrival>, m: nat, n: nat, i: nat)
    requires i <= m < n < |h| && !IsTooLong(h[n]) && Same(h[n], h[i])
    ensures Repeats(h[..m + 1], i) < Repeats(h[..n + 1], i)
  {
    RepeatsGrow(h, i, m + 1, n);
    assert h[..n + 1][..n] == h[..n];
  }

  /** The notices of one record all differ. */
  lemma NoticesDiffer(rules: Rules, h: seq<Arrival>, m: nat, n: nat, i: nat)
    requires m < n && NoticeOf(rules, h, m, i) && NoticeOf(rules, h, n, i)
    ensures Second(rules, h)[m].text != Second(rules, h)[n].text
  {
    NoticeReachesSecond(rules, h, m, i);
    NoticeReachesSecond(rules, h, n, i);
    CountsRise(rules, h, m, n, i);
    NoticeTellsCount(Emitted(rules, h, m).value, Emitted(rules, h, n).value);
  }

  /** Text that the timing clean-up leaves alone. */
  predicate IsPlain(x: Arrival) { !Contains(x.text, "WallTime") }

  lemma PlainNoticesDiffer(rules: Rules, h: seq<Arrival>, m: nat, n: nat, i: nat)
    requires m < n && NoticeOf(rules, h, m, i) && NoticeOf(rules, h, n, i)
    requires IsPlain(Second(rules, h)[m]) && IsPlain(Second(rules, h)[n])
    ensures !Same(Second(rules, h)[n], Second(rules, h)[m])
  {
    NoticesDiffer(rules, h, m, n, i);
    NoticeReachesSecond(rules, h, m, i);
    NoticeReachesSecond(rules, h, n, i);
  }

  /** The second filter never takes one notice of a record for a repeat of another, unless the clean-up of
      timings makes them equal: if it shortens a notice once more, that is for the sake of a record that
      it remembers and that is not a notice of the same one. */
  lemma NoticesAreNeverMerged(rules: Rules, h: seq<Arrival>, n: nat, i: nat) returns (j: nat)
    requires NoticeOf(rules, h, n, i) && Emitted(rules, Second(rules, h), n).Some?
    ensures Recalls(rules, Second(rules, h), n, j) && j < n
    ensures IsPlain(Second(rules, h)[j]) && IsPlain(Second(rules, h)[n]) ==> !NoticeOf(rules, h, j, i)
  {
    j := ShortenedRecalls(rules, Second(rules, h), n);
    RecalledIsFull(rules, Second(rules, h), n, j);
    if NoticeOf(rules, h, j, i) && IsPlain(Second(rules, h)[j]) && IsPlain(Second(rules, h)[n]) {
      PlainNoticesDiffer(rules, h, j, n, i);
    }
  }

  // ----- A run of repeats -----

  /** Records a to b - 1 repeat record i; their notices are plain, short enough to keep, and like nothing
      that the second filter saw before. */
  ghost predicate Burst(rules: Rules, h: seq<Arrival>, a: nat, b: nat, i: nat) {
    && a <= b <= |h|
    && forall n :: a <= n < b ==>
         && NoticeOf(rules, h, n, i) && IsPlain(Second(rules, h)[n]) && !IsTooLong(Second(rules, h)[n])
         && forall m :: 0 <= m < a ==> !Same(Second(rules, h)[n], Second(rules, h)[m])
  }

  /** Record n is short enough to keep and equals nothing before it. */
  ghost predicate NewAt(s: seq<Arrival>, n: nat)
    requires n < |s|
  {
    !IsTooLong(s[n]) && forall m :: 0 <= m < n ==> !Same(s[n], s[m])
  }

  ghost predicate AllNew(s: seq<Arrival>, a: nat, b: nat)
    requires b <= |s|
  {
    forall n :: a <= n < b ==> NewAt(s, n)
  }

  function UpTo(a: nat, b: nat): seq<nat> { if b <= a then [] else UpTo(a, b - 1) + [b - 1] }

  lemma LastIsFresh(rules: Rules, h: seq<Arrival>)
    requires rules.truncateDuplicates && h != [] && NewAt(h, |h| - 1)
    ensures Fresh(rules, h) == Fresh(rules, h[..|h| - 1]) + [|h| - 1]
  {
    var n, before := |h| - 1, Fresh(rules, h[..|h| - 1]);
    forall m | m in Last(before) ensures !Same(h[n], h[m]) {
      LastIsPart(before, m);
    }
  }

  lemma NewIsFresh(rules: Rules, s: seq<Arrival>, b: nat)
    requires rules.truncateDuplicates && 0 < b <= |s| && NewAt(s, b - 1)
    ensures Fresh(rules, s[..b]) == Fresh(rules, s[..b - 1]) + [b - 1]
  {
    var h := s[..b];
    assert h[..b - 1] == s[..b - 1];
    assert NewAt(h, b - 1);
    LastIsFresh(rules, h);
  }

  lemma AllNewLess(s: seq<Arrival>, a: nat, b: nat)
    requires a < b <= |s| && AllNew(s, a, b)
    ensures AllNew(s, a, b - 1) && NewAt(s, b - 1)
  {
  }

  lemma OneMoreUpTo(xs: seq<nat>, ys: seq<nat>, zs: seq<nat>, a: nat, b: nat)
    requires a < b && ys == xs + UpTo(a, b - 1) && zs == ys + [b - 1]
    ensures zs == xs + UpTo(a, b)
  {
  }

  lemma {:induction false} AllNewAreFresh(rules: Rules, s: seq<Arrival>, a: nat, b: nat)
    requires rules.truncateDuplicates && a <= b <= |s| && AllNew(s, a, b)
    ensures Fresh(rules, s[..b]) == Fresh(rules, s[..a]) + UpTo(a, b)
    decreases b
  {
    if a < b {
      AllNewLess(s, a, b);
      AllNewAreFresh(rules, s, a, b - 1);
      NewIsFresh(rules, s, b);
      OneMoreUpTo(Fresh(rules, s[..a]), Fresh(rules, s[..b - 1]), Fresh(rules, s[..b]), a, b);
    }
  }

  lemma LastFive(xs: seq<nat>, a: nat)
    ensures Last(xs + UpTo(a, a + WINDOW)) == [a, a + 1, a + 2, a + 3, a + 4]
  {
    assert UpTo(a, a) == [] && UpTo(a, a + 1) == [a] && UpTo(a, a + 2) == [a, a + 1] && UpTo(a, a + 3) == [a, a + 1, a + 2];
    assert UpTo(a, a + 4) == [a, a + 1, a + 2, a + 3] && UpTo(a, a + 5) == [a, a + 1, a + 2, a + 3, a + 4];
  }

  lemma BurstIsNewAt(rules: Rules, h: seq<Arrival>, a: nat, b: nat, i: nat, n: nat)
    requires Burst(rules, h, a, b, i) && a <= n < b
    ensures NewAt(Second(rules, h), n)
  {
    forall m | 0 <= m < n ensures !Same(Second(rules, h)[n], Second(rules, h)[m]) {
      if m >= a {
        PlainNoticesDiffer(rules, h, m, n, i);
      }
    }
  }

  lemma BurstIsNew(rules: Rules, h: seq<Arrival>, a: nat, b: nat, i: nat)
    requires Burst(rules, h, a, b, i)
    ensures AllNew(Second(rules, h), a, b)
  {
    forall n | a <= n < b ensures NewAt(Second(rules, h), n) {
      BurstIsNewAt(rules, h, a, b, i, n);
    }
  }

  lemma FiveNewFillWindow(rules: Rules, s: seq<Arrival>, a: nat)
    requires rules.truncateDuplicates && a + WINDOW <= |s| && AllNew(s, a, a + WINDOW)
    ensures Last(Fresh(rules, s[..a + WINDOW])) == [a, a + 1, a + 2, a + 3, a + 4]
  {
    AllNewAreFresh(rules, s, a, a + WINDOW);
    LastFive(Fresh(rules, s[..a]), a);
  }

  lemma FirstStillRemembers(rules: Rules, h: seq<Arrival>, a: nat, b: nat, i: nat)
    requires Burst(rules, h, a, b, i) && a < b
    ensures i in Last(Fresh(rules, h[..b - 1])) && i < a
  {
    assert NoticeOf(rules, h, a, i) && NoticeOf(rules, h, b - 1, i);
    RecalledDecides(rules, h, a, i);
  }

  /** After five repeats in a row the second filter remembers their notices and nothing else, while the
      first still remembers the record itself: their windows come apart. */
  lemma BurstFillsSecondWindow(rules: Rules, h: seq<Arrival>, a: nat, i: nat)
    requires rules.truncateDuplicates && Burst(rules, h, a, a + WINDOW, i)
    ensures Last(Fresh(rules, Second(rules, h)[..a + WINDOW])) == [a, a + 1, a + 2, a + 3, a + 4]
    ensures i in Last(Fresh(rules, h[..a + WINDOW - 1])) && i < a
  {
    BurstIsNew(rules, h, a, a + WINDOW, i);
    FiveNewFillWindow(rules, Second(rules, h), a);
    FirstStillRemembers(rules, h, a, a + WINDOW, i);
  }

  function Copies(x: Arrival, k: nat): (h: seq<Arrival>)
    ensures |h| == k && forall n :: 0 <= n < k ==> h[n] == x
  {
    seq(k, _ => x)
  }

  lemma {:induction false} RepeatedIsFreshOnce(rules: Rules, x: Arrival, k: nat)
    requires rules.truncateDuplicates && !IsTooLong(x) && k > 0
    ensures Fresh(rules, Copies(x, k)) == [0]
  {
    var h := Copies(x, k);
    assert h[..k - 1] == Copies(x, k - 1);
    if k > 1 {
      RepeatedIsFreshOnce(rules, x, k - 1);
      assert 0 in Last([0]) && Same(h[k - 1], h[0]);
    }
  }

  lemma {:induction false} RepeatedCounts(x: Arrival, k: nat)
    requires !IsTooLong(x) && k > 0
    ensures Repeats(Copies(x, k), 0) == k - 1
  {
    if k > 1 {
      assert Copies(x, k)[..k - 1] == Copies(x, k - 1);
      RepeatedCounts(x, k - 1);
    }
  }

  /** A record worth shortening that is logged again and again: the second filter sees it once, and then
      the notices 1, 2, 3 and so on. */
  lemma RepeatedRecord(rules: Rules, x: Arrival, k: nat, n: nat)
    requires rules.truncateDuplicates && !IsTooLong(x) && ShouldTruncate(x) && 0 < n < k
    ensures NoticeOf(rules, Copies(x, k), n, 0)
    ensures Emitted(rules, Copies(x, k), n) == Some(Notice(x.time, n, TruncatedMessage(rules, x)))
  {
    var h := Copies(x, k);
    assert h[..n] == Copies(x, n) && h[..n + 1] == Copies(x, n + 1);
    RepeatedIsFreshOnce(rules, x, n);
    assert 0 in Last([0]) && Recalls(rules, h, n, 0);
    RecalledDecides(rules, h, n, 0);
    RepeatedCounts(x, n + 1);
  }

  // ----- The two filter objects -----

  /** The first filter leaves what the second one remembers alone. */
  method FilterFirst(first: PkbLogFilter, second: PkbLogFilter, record: LogRecord, threadLabel: string)
    requires first != second && first.Valid() && second.Valid() && record !in first.Records() && record !in second.Records()
    requires forall e :: e in first.lastRecords ==> e !in second.lastRecords
    modifies first`lastRecords, first`history, first.lastRecords, record
    ensures first.Valid() && second.Valid() && record.pkbLabel == threadLabel
    ensures first.history == old(first.history) + [Arrive(first.rules, GetMessage(old(record.msg)), threadLabel, record.created)]
    ensures record.msg == Shown(old(record.msg), Emitted(first.rules, first.history, |old(first.history)|))
    ensures forall e :: e in first.lastRecords ==> e !in second.lastRecords
  {
    var _ := first.Filter(record, threadLabel);
    forall k | 0 <= k < |second.lastRecords| ensures second.lastRecords[k].View() == old(second.lastRecords[k].View()) {
      assert second.lastRecords[k] in second.lastRecords;
    }
    assert second.View() == old(second.View());
  }

  /** The second filter leaves what the first one remembers alone. */
  method FilterAgain(first: PkbLogFilter, second: PkbLogFilter, record: LogRecord, threadLabel: string)
    requires first != second && second.Valid() && record !in second.Records() && record.pkbLabel == threadLabel
    requires forall e :: e in first.lastRecords ==> e !in second.lastRecords
    modifies second`lastRecords, second`history, second.lastRecords, record
    ensures second.Valid() && record.pkbLabel == threadLabel && first.View() == old(first.View())
    ensures second.history == old(second.history) + [Arrive(second.rules, GetMessage(old(record.msg)), threadLabel, record.created)]
    ensures record.msg == Shown(old(record.msg), Emitted(second.rules, second.history, |old(second.history)|))
    ensures forall e :: e in first.lastRecords ==> e !in second.lastRecords
  {
    var _ := second.Filter(record, threadLabel);
    forall k | 0 <= k < |first.lastRecords| ensures first.lastRecords[k].View() == old(first.lastRecords[k].View()) {
      assert first.lastRecords[k] in first.lastRecords;
    }
  }

  /** One record through both handlers: the second filter's history stays what the first one makes of its
      own, and the record ends up as the second one leaves it. */
  method LogToBoth(first: PkbLogFilter, second: PkbLogFilter, record: LogRecord, threadLabel: string)
    requires first != second && first.rules == second.rules && first.Valid() && second.Valid()
    requires record !in first.Records() && record !in second.Records()
    requires forall e :: e in first.lastRecords ==> e !in second.lastRecords
    requires second.history == Second(first.rules, first.history)
    modifies first, second, first.lastRecords, second.lastRecords, record
    ensures first.Valid() && second.Valid() && record.pkbLabel == threadLabel
    ensures first.history == old(first.history) + [Arrive(first.rules, GetMessage(old(record.msg)), threadLabel, record.created)]
    ensures second.history == Second(first.rules, first.history)
    ensures var n := |old(first.history)|;
            record.msg == Shown(Shown(old(record.msg), Emitted(first.rules, first.history, n)),
                                Emitted(first.rules, second.history, n))
    ensures forall e :: e in first.lastRecords ==> e !in second.lastRecords
  {
    ghost var rules, h := first.rules, first.history;
    FilterFirst(first, second, record, threadLabel);
    SecondGrows(rules, h, first.history[|h|]);
    FilterAgain(first, second, record, threadLabel);
  }
}
