/** One record logged again and again: what the filter of the log file remembers of it. */
module LogBurst {
  import opened Common
  import opened Text
  import opened LogFilter
  import opened LogChain

  // ----- Bursts and the second window -----

  lemma {:induction false} UpToElements(a: nat, b: nat)
    requires a <= b
    ensures |UpTo(a, b)| == b - a && forall k :: 0 <= k < b - a ==> UpTo(a, b)[k] == a + k
    decreases b
  {
    if a < b {
      UpToElements(a, b - 1);
    }
  }

  lemma LastOfLonger(xs: seq<nat>, i: nat, a: nat, b: nat)
    requires xs != [] && xs[|xs| - 1] == i && i < a <= b && forall k :: 0 <= k < |xs| - 1 ==> xs[k] != i
    ensures i in Last(xs + UpTo(a, b)) <==> b - a < WINDOW
  {
    UpToElements(a, b);
    var all, p := xs + UpTo(a, b), |xs| - 1;
    assert all[p] == i && forall k :: p < k < |all| ==> all[k] > i;
    var recent := Last(all);
    var d := |all| - |recent|;
    assert forall k :: 0 <= k < |recent| ==> recent[k] == all[d + k];
    if p >= d {
      assert recent[p - d] == i;
    }
  }

  lemma AllNewForgets(rules: Rules, s: seq<Arrival>, a: nat, b: nat, before: seq<nat>)
    requires rules.truncateDuplicates && a <= b <= |s| && AllNew(s, a, b)
    requires before == Fresh(rules, s[..a]) && before != []
    ensures before[|before| - 1] in Last(Fresh(rules, s[..b])) <==> b - a < WINDOW
  {
    AllNewAreFresh(rules, s, a, b);
    FreshAreSpaced(rules, s[..a]);
    LastOfLonger(before, before[|before| - 1], a, b);
  }

  /** While the notices of a record come in, all new to the second filter, it forgets the record that it
      took last before them exactly when there have been five. */
  lemma ForgetsAfterFive(rules: Rules, h: seq<Arrival>, a: nat, b: nat, i: nat, before: seq<nat>)
    requires rules.truncateDuplicates && Burst(rules, h, a, b, i)
    requires before == Fresh(rules, Second(rules, h)[..a]) && before != []
    ensures before[|before| - 1] in Last(Fresh(rules, Second(rules, h)[..b])) <==> b - a < WINDOW
  {
    BurstIsNew(rules, h, a, b, i);
    AllNewForgets(rules, Second(rules, h), a, b, before);
  }

  // ----- What a notice of a record looks like -----

  lemma {:induction false} NotContained(s: string, sub: string, c: char)
    requires c in sub && c !in s
    ensures !Contains(s, sub)
  {
    forall i | 0 <= i <= |s| ensures c !in s[i..] {
    }
  }

  /** The notices of a record are left alone by the clean-up of timings, short enough to keep, and not
      what the record itself says. */
  predicate HasPlainNotices(rules: Rules, x: Arrival, k: nat) {
    && 'W' !in x.time && 'W' !in TruncatedMessage(rules, x)
    && |x.time| + k + 300 <= MAX_LENGTH
    && !("Message from " <= x.message)
  }

  lemma {:induction false} NatTextLength(n: nat)
    ensures |NatText(n)| <= n + 1
  {
    if n >= 10 {
      NatTextLength(n / 10);
    }
  }

  lemma DigitsAreNotLetters(n: nat)
    ensures 'W' !in IntText(n)
  {
    var s := IntText(n);
    forall i | 0 <= i < |s| ensures s[i] != 'W' {
      assert IsDigit(s[i]);
    }
  }

  lemma NoticeIsPlain(rules: Rules, x: Arrival, k: nat, n: nat)
    requires HasPlainNotices(rules, x, k) && n <= k
    ensures var text := GetMessage(Notice(x.time, n, TruncatedMessage(rules, x)));
            !Contains(text, "WallTime") && |text| <= MAX_LENGTH && text != x.message
  {
    var start, middle, end := "Message from ", " has been duplicated ", " times. Truncating to:\n";
    var shown, digits := TruncatedMessage(rules, x), IntText(n);
    var text := GetMessage(Notice(x.time, n, shown));
    assert text == start + x.time + middle + digits + end + shown + ".";
    NatTextLength(n);
    DigitsAreNotLetters(n);
    assert 'W' !in start && 'W' !in middle && 'W' !in end;
    NotContained(text, "WallTime", 'W');
    assert start <= text;
  }

  // ----- One record, over and over -----

  lemma SecondOfCopies(rules: Rules, x: Arrival, k: nat, n: nat)
    requires rules.truncateDuplicates && !IsTooLong(x) && n < k
    ensures Second(rules, Copies(x, k))[n] ==
            if n > 0 && ShouldTruncate(x)
            then Arrive(rules, GetMessage(Notice(x.time, n, TruncatedMessage(rules, x))), x.threadLabel, x.time)
            else x
  {
    var h := Copies(x, k);
    assert h[..n] == Copies(x, n);
    if n == 0 {
      assert h[..0] == [] && Emitted(rules, h, 0).None?;
    } else if ShouldTruncate(x) {
      RepeatedRecord(rules, x, k, n);
    } else {
      RepeatedIsFreshOnce(rules, x, n);
      assert 0 in Last([0]) && Recalls(rules, h, n, 0);
      RecalledDecides(rules, h, n, 0);
    }
  }

  /** The repeats of a record worth shortening, with plain notices, are a burst. */
  lemma RepeatsAreBurst(rules: Rules, x: Arrival, k: nat)
    requires rules.truncateDuplicates && !IsTooLong(x) && ShouldTruncate(x) && HasPlainNotices(rules, x, k) && k > 0
    ensures Burst(rules, Copies(x, k), 1, k, 0)
  {
    var h, s := Copies(x, k), Second(rules, Copies(x, k));
    SecondOfCopies(rules, x, k, 0);
    forall n | 1 <= n < k
      ensures NoticeOf(rules, h, n, 0) && IsPlain(s[n]) && !IsTooLong(s[n]) && !Same(s[n], s[0])
    {
      RepeatedRecord(rules, x, k, n);
      SecondOfCopies(rules, x, k, n);
      NoticeIsPlain(rules, x, k, n);
    }
  }

  lemma {:induction false} FirstIsKept(rules: Rules, h: seq<Arrival>)
    requires rules.truncateDuplicates && h != [] && !IsTooLong(h[0])
    ensures 0 in Fresh(rules, h) && |Fresh(rules, h)| <= |h|
  {
    if |h| == 1 {
      assert h[..0] == [] && Fresh(rules, h[..0]) == [];
    } else {
      FirstIsKept(rules, h[..|h| - 1]);
    }
  }

  lemma FewCopiesRemembered(rules: Rules, x: Arrival, k: nat)
    requires rules.truncateDuplicates && !IsTooLong(x) && 0 < k <= WINDOW
    ensures 0 in Last(Fresh(rules, Second(rules, Copies(x, k))))
  {
    SecondOfCopies(rules, x, k, 0);
    FirstIsKept(rules, Second(rules, Copies(x, k)));
  }

  lemma ShortRecordRemembered(rules: Rules, x: Arrival, k: nat)
    requires rules.truncateDuplicates && !IsTooLong(x) && !ShouldTruncate(x) && 0 < k
    ensures Second(rules, Copies(x, k)) == Copies(x, k) && Fresh(rules, Copies(x, k)) == [0]
  {
    forall n | 0 <= n < k ensures Second(rules, Copies(x, k))[n] == x {
      SecondOfCopies(rules, x, k, n);
    }
    RepeatedIsFreshOnce(rules, x, k);
  }

  lemma ManyCopiesForgotten(rules: Rules, x: Arrival, k: nat)
    requires rules.truncateDuplicates && !IsTooLong(x) && ShouldTruncate(x) && HasPlainNotices(rules, x, k) && WINDOW < k
    ensures 0 !in Last(Fresh(rules, Second(rules, Copies(x, k))))
  {
    var h, s := Copies(x, k), Second(rules, Copies(x, k));
    RepeatsAreBurst(rules, x, k);
    SecondOfCopies(rules, x, k, 0);
    FirstIsKept(rules, s[..1]);
    assert Fresh(rules, s[..1]) == [0];
    ForgetsAfterFive(rules, h, 1, k, 0, [0]);
    assert s[..k] == s;
  }

  /** A record logged k times in a row is remembered by the first filter throughout, and by the second
      exactly if it is not worth shortening or k is at most five. */
  lemma RememberedIff(rules: Rules, x: Arrival, k: nat)
    requires rules.truncateDuplicates && !IsTooLong(x) && HasPlainNotices(rules, x, k) && 0 < k
    ensures 0 in Last(Fresh(rules, Copies(x, k)))
    ensures 0 in Last(Fresh(rules, Second(rules, Copies(x, k)))) <==> !ShouldTruncate(x) || k <= WINDOW
  {
    RepeatedIsFreshOnce(rules, x, k);
    assert 0 in Last([0]);
    if k <= WINDOW {
      FewCopiesRemembered(rules, x, k);
    } else if ShouldTruncate(x) {
      ManyCopiesForgotten(rules, x, k);
    } else {
      ShortRecordRemembered(rules, x, k);
    }
  }

  /** Such records exist: 231 characters on two lines. */
  lemma ExampleRecord(rules: Rules) returns (x: Arrival)
    ensures x == Arrival(x.text, x.text, "", "0217 22:57:21") && |x.text| == 231
    ensures Arrive(rules, x.text, "", x.time) == x
    ensures !IsTooLong(x) && ShouldTruncate(x) && HasPlainNotices(rules, x, 6)
  {
    var text := "\n" + seq(230, _ => 'a');
    x := Arrival(text, text, "", "0217 22:57:21");
    assert text[0] == '\n' && forall c :: c in text ==> c == '\n' || c == 'a';
    NotContained(text, "WallTime", 'W');
    NotContained(text, "DO NOT DEDUPLICATE", 'D');
    NotContained(text, "ssh -A -p ", 's');
    assert TruncatedMessage(rules, x) == text[..150] + "...";
    assert "Message from "[0] == 'M';
  }

  /** Logged six times in a row, such a record is forgotten by the second filter and not by the first. */
  lemma ExampleIsForgotten(rules: Rules) returns (x: Arrival)
    requires rules.truncateDuplicates
    ensures |x.text| == 231 && ShouldTruncate(x) && Burst(rules, Copies(x, 6), 1, 6, 0)
    ensures 0 in Last(Fresh(rules, Copies(x, 6))) && 0 !in Last(Fresh(rules, Second(rules, Copies(x, 6))))
  {
    x := ExampleRecord(rules);
    RepeatsAreBurst(rules, x, 6);
    RememberedIff(rules, x, 6);
  }
}
