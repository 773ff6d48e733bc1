/** What the log filter does, in terms of the texts, messages and labels of the records alone. */
module LogFields {
  import opened Common
  import opened Text
  import opened LogFilter

  ghost predicate HasPart(s: string, part: string) { exists before, after :: s == before + part + after }

  lemma ContainsMeans(s: string, part: string)
    ensures Contains(s, part) <==> HasPart(s, part)
  {
    if Contains(s, part) {
      var i :| 0 <= i <= |s| && part <= s[i..];
      assert s == s[..i] + part + s[i + |part|..];
    }
    if HasPart(s, part) {
      var before, after :| s == before + part + after;
      assert s[|before|..] == part + after;
    }
  }

  // ----- Which records are fresh -----

  /** Record n repeats fresh record number p: it is one of the last five, with the same message and label. */
  ghost predicate Repeated(h: seq<Arrival>, n: nat, shown: seq<nat>, p: int)
    requires n < |h| && forall k :: 0 <= k < |shown| ==> shown[k] < n
  {
    && 0 <= p < |shown| && |shown| - 5 <= p
    && h[shown[p]].message == h[n].message && h[shown[p]].threadLabel == h[n].threadLabel
  }

  lemma LastMeans(shown: seq<nat>, i: nat)
    ensures i in Last(shown) <==> exists p :: 0 <= p < |shown| && |shown| - 5 <= p && shown[p] == i
  {
    var recent := Last(shown);
    var d := |shown| - |recent|;
    if i in recent {
      var k :| 0 <= k < |recent| && recent[k] == i;
      assert shown[d + k] == i;
    }
    if p :| 0 <= p < |shown| && |shown| - 5 <= p && shown[p] == i {
      assert recent[p - d] == i;
    }
  }

  lemma RecallsMeans(rules: Rules, h: seq<Arrival>, n: nat, i: nat)
    requires n < |h|
    ensures var shown := Fresh(rules, h[..n]);
            Recalls(rules, h, n, i) <==> |h[n].text| <= 104857600 && exists p :: Repeated(h, n, shown, p) && shown[p] == i
  {
    var shown := Fresh(rules, h[..n]);
    LastMeans(shown, i);
    if p :| 0 <= p < |shown| && |shown| - 5 <= p && shown[p] == i {
      if Same(h[n], h[i]) {
        assert Repeated(h, n, shown, p);
      }
    }
  }

  /** A record becomes fresh exactly if it is at most 100 MB long and none of the five fresh ones before it
      has its message and its label. */
  lemma FreshMeans(rules: Rules, h: seq<Arrival>, n: nat)
    requires n < |h|
    ensures var shown := Fresh(rules, h[..n]);
            Fresh(rules, h[..n + 1]) ==
            if rules.truncateDuplicates && |h[n].text| <= 104857600 && (forall p :: !Repeated(h, n, shown, p)) then shown + [n] else shown
  {
    var shown := Fresh(rules, h[..n]);
    assert h[..n + 1][..n] == h[..n];
    if forall p :: !Repeated(h, n, shown, p) {
      forall i | i in Last(shown) ensures !Same(h[n], h[i]) {
        LastMeans(shown, i);
        var p :| 0 <= p < |shown| && |shown| - 5 <= p && shown[p] == i;
        assert !Repeated(h, n, shown, p);
      }
    } else {
      var p :| Repeated(h, n, shown, p);
      LastMeans(shown, shown[p]);
      assert Same(h[n], h[shown[p]]);
    }
  }

  /** Equal fresh records are at least six apart. */
  lemma FreshAreFarApart(rules: Rules, h: seq<Arrival>, a: nat, b: nat)
    requires a < b < |Fresh(rules, h)|
    requires var shown := Fresh(rules, h);
             h[shown[a]].message == h[shown[b]].message && h[shown[a]].threadLabel == h[shown[b]].threadLabel
    ensures b - a > 5
  {
    FreshAreSpaced(rules, h);
  }

  /** The records after record i, up to n, with its message and label, that are at most 100 MB long. */
  ghost function LikeIt(h: seq<Arrival>, i: nat, n: nat): set<nat>
    requires i < n <= |h|
  {
    set j: nat | i < j < n && |h[j].text| <= 104857600 && h[j].message == h[i].message && h[j].threadLabel == h[i].threadLabel
  }

  lemma OneMoreLikeIt(h: seq<Arrival>, i: nat, n: nat)
    requires i < n < |h|
    ensures var like := |h[n].text| <= 104857600 && h[n].message == h[i].message && h[n].threadLabel == h[i].threadLabel;
            |LikeIt(h, i, n + 1)| == |LikeIt(h, i, n)| + if like then 1 else 0
  {
    var like := |h[n].text| <= 104857600 && h[n].message == h[i].message && h[n].threadLabel == h[i].threadLabel;
    assert LikeIt(h, i, n + 1) == LikeIt(h, i, n) + if like then {n} else {};
  }

  lemma {:induction false} RepeatsMeans(h: seq<Arrival>, i: nat, n: nat)
    requires i < n <= |h|
    ensures Repeats(h[..n], i) == |LikeIt(h, i, n)|
    decreases n
  {
    if n == i + 1 {
      assert LikeIt(h, i, n) == {};
    } else {
      assert h[..n][..n - 1] == h[..n - 1];
      RepeatsMeans(h, i, n - 1);
      OneMoreLikeIt(h, i, n - 1);
    }
  }

  // ----- Which records are shortened -----

  lemma ShouldTruncateMeans(x: Arrival)
    ensures ShouldTruncate(x) <==> '\n' in x.message && |x.text| > 220 && !HasPart(x.message, "DO NOT DEDUPLICATE")
  {
    ContainsMeans(x.message, "DO NOT DEDUPLICATE");
  }

  /** A record is shortened exactly if it is at most 100 MB long, has more than one line, does not forbid it,
      and one of the last five fresh records has its message and label and a text of over 220 characters. */
  lemma ShortenedMeans(rules: Rules, h: seq<Arrival>, n: nat)
    requires n < |h|
    ensures var shown := Fresh(rules, h[..n]);
            Emitted(rules, h, n).Some? <==>
              && |h[n].text| <= 104857600 && '\n' in h[n].message && !HasPart(h[n].message, "DO NOT DEDUPLICATE")
              && exists p :: Repeated(h, n, shown, p) && |h[shown[p]].text| > 220
  {
    var shown := Fresh(rules, h[..n]);
    ShortenedExactly(rules, h, n);
    if Emitted(rules, h, n).Some? {
      var i: nat :| Recalls(rules, h, n, i) && ShouldTruncate(h[i]);
      RecallsMeans(rules, h, n, i);
      ShouldTruncateMeans(h[i]);
    }
    if p :| Repeated(h, n, shown, p) && |h[shown[p]].text| > 220 {
      RecallsMeans(rules, h, n, shown[p]);
      ShouldTruncateMeans(h[shown[p]]);
    }
  }

  /** What a shortened record repeats: an earlier record of the same message and label that was shown in full.
      The notice has that one's time, and counts the records of this message and label since. */
  lemma ShortenedRepeatsFullOne(rules: Rules, h: seq<Arrival>, n: nat) returns (i: nat)
    requires n < |h| && Emitted(rules, h, n).Some?
    ensures i < n && h[i].message == h[n].message && h[i].threadLabel == h[n].threadLabel && Emitted(rules, h, i).None?
    ensures var notice := Emitted(rules, h, n).value;
            && notice.Notice? && notice.time == h[i].time && notice.text == TruncatedMessage(rules, h[i])
            && notice.duplicates == |LikeIt(h, i, n + 1)|
  {
    i := ShortenedRecalls(rules, h, n);
    RecalledIsFull(rules, h, n, i);
    RecalledDecides(rules, h, n, i);
    RepeatsMeans(h, i, n + 1);
  }

  /** The first record of a label is shown in full, whatever other labels have logged. */
  lemma NewLabelIsFull(rules: Rules, h: seq<Arrival>, n: nat)
    requires n < |h| && forall i :: 0 <= i < n ==> h[i].threadLabel != h[n].threadLabel
    ensures Emitted(rules, h, n).None?
  {
    if Emitted(rules, h, n).Some? {
      var i := ShortenedRepeatsFullOne(rules, h, n);
      assert false;
    }
  }

  /** Never shortened: what is over 100 MB, has one line only, or forbids it; and what was logged before, if at
      all, with texts of at most 220 characters. */
  lemma NeverShortened(rules: Rules, h: seq<Arrival>, n: nat)
    requires n < |h|
    ensures |h[n].text| > 104857600 || '\n' !in h[n].message || HasPart(h[n].message, "DO NOT DEDUPLICATE") ==> Emitted(rules, h, n).None?
    ensures (forall i :: 0 <= i < n && h[i].message == h[n].message && h[i].threadLabel == h[n].threadLabel ==> |h[i].text| <= 220)
              ==> Emitted(rules, h, n).None?
    ensures !rules.truncateDuplicates ==> Emitted(rules, h, n).None?
  {
    ShortenedMeans(rules, h, n);
  }

  // ----- The notice -----

  /** The text of a notice: the message, without the noise of ssh, up to 150 characters and three dots. */
  lemma TruncatedMeans(rules: Rules, x: Arrival)
    ensures var ssh := HasPart(x.message, "ssh -A -p ") && HasPart(x.message, "-o ControlPersist=");
            var cleaned := if ssh then rules.withoutSsh(x.message) else x.message;
            TruncatedMessage(rules, x) == if |cleaned| <= 150 then cleaned else cleaned[..150] + "..."
  {
    ContainsMeans(x.message, "ssh -A -p ");
    ContainsMeans(x.message, "-o ControlPersist=");
  }

  lemma NoticeStart()
    ensures "Message from " + "T" + " has been duplicated " + "3" == "Message from T has been duplicated 3"
  {
    assert "Message from " + "T" == "Message from T";
    assert "Message from T" + " has been duplicated " == "Message from T has been duplicated ";
  }

  lemma NoticeEnd(start: string)
    ensures start + " times. Truncating to:\n" + "x" + "." == start + " times. Truncating to:\nx."
  {
    assert " times. Truncating to:\n" + "x" + "." == " times. Truncating to:\nx.";
  }

  lemma NoticeExample()
    ensures GetMessage(Notice("T", 3, "x")) == "Message from T has been duplicated 3" + " times. Truncating to:\nx."
  {
    assert IntText(3) == "3";
    NoticeStart();
    NoticeEnd("Message from T has been duplicated 3");
  }

  /** The message by which records are compared. */
  lemma MessageMeans(rules: Rules, text: string, threadLabel: string, time: string)
    ensures var x := Arrive(rules, text, threadLabel, time);
            && x.text == text && x.threadLabel == threadLabel && x.time == time
            && x.message == if HasPart(text, "WallTime") then rules.withoutTimings(text) else text
  {
    ContainsMeans(text, "WallTime");
  }
}
