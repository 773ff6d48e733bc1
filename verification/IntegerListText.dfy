/** Reading integer lists from flag text and writing them back. */
module IntegerListText {
  import opened Common
  import opened Text
  import opened IntegerLists

  // ----- The two regular expressions of a group -----

  function Values(parts: seq<string>): seq<int>
    requires forall k :: 0 <= k < |parts| ==> IsSigned(parts[k])
  {
    seq(|parts|, k requires 0 <= k < |parts| => IntValue(parts[k]))
  }

  /** One to three numbers, or nothing if some part is not a number. */
  function Numbers(parts: seq<string>, signed: bool): (r: Option<seq<int>>)
    ensures r.Some? ==> 1 <= |r.value| <= 3
  {
    if 1 <= |parts| <= 3 && (forall k :: 0 <= k < |parts| ==> if signed then IsSigned(parts[k]) else IsUnsigned(parts[k]))
    then Some(Values(parts))
    else None
  }

  /** `$` also matches in front of a final newline. */
  function WithoutFinalNewline(s: string): string {
    if s != "" && s[|s| - 1] == '\n' then s[..|s| - 1] else s
  }

  /** Unsigned numbers separated by dashes, or else signed numbers separated by colons. */
  function MatchGroup(s: string): (r: Option<seq<int>>)
    ensures r.Some? ==> 1 <= |r.value| <= 3
  {
    var body := WithoutFinalNewline(s);
    var dashed := Numbers(Split(body, '-'), false);
    if dashed.Some? then dashed else Numbers(Split(body, ':'), true)
  }

  // ----- Parsing -----

  datatype OnNonIncreasing = Ignore | Warn | Raise

  predicate IsNonIncreasing(result: seq<Group>, val: int) {
    result != [] && val <= High(result[|result| - 1])
  }

  /** The group that three numbers, of which the step may be missing, stand for. */
  function GroupOf(numbers: seq<int>): Group
    requires 1 <= |numbers| <= 3
  {
    if |numbers| == 1 then Single(numbers[0]) else
      var step := if |numbers| == 3 then numbers[2] else 1;
      Triple(numbers[0], numbers[1], if step > 0 && numbers[0] > numbers[1] then -step else step)
  }

  /** What HandleNonIncreasing is called for. */
  predicate Suspicious(result: seq<Group>, g: Group) {
    (g.Triple? && g.hi <= g.lo) || IsNonIncreasing(result, Low(g))
  }

  /** What each part of a list's text matches. */
  function Matches(texts: seq<string>): (r: seq<Option<seq<int>>>)
    ensures |r| == |texts| && forall k :: 0 <= k < |r| ==> r[k] == MatchGroup(texts[k])
  {
    seq(|texts|, k requires 0 <= k < |texts| => MatchGroup(texts[k]))
  }

  /** The group that a match adds to the groups read so far. */
  function ReadGroup(result: seq<Group>, matched: Option<seq<int>>, mode: OnNonIncreasing): Result<Group, ValueError> {
    if matched.None? || !(1 <= |matched.value| <= 3) then Failure(InvalidList)
    else if mode.Raise? && Suspicious(result, GroupOf(matched.value)) then Failure(NotIncreasing)
    else Success(GroupOf(matched.value))
  }

  function ReadGroups(result: seq<Group>, matches: seq<Option<seq<int>>>, mode: OnNonIncreasing): Result<seq<Group>, ValueError>
    decreases |matches|
  {
    if matches == [] then Success(result) else
      match ReadGroup(result, matches[0], mode)
      case Failure(e) => Failure(e)
      case Success(g) => ReadGroups(result + [g], matches[1..], mode)
  }

  /** The groups that a flag's text stands for. */
  function Parsed(inp: string, mode: OnNonIncreasing): Result<seq<Group>, ValueError> {
    match ReadGroups([], Matches(Split(inp, ',')), mode)
    case Failure(e) => Failure(e)
    case Success(groups) => if Steps(groups) then Success(groups) else Failure(ZeroStep)
  }

  /** The body of the parse loop. */
  method ParseGroup(result: seq<Group>, group: string, mode: OnNonIncreasing) returns (r: Result<Group, ValueError>)
    ensures r == ReadGroup(result, MatchGroup(group), mode)
  {
    var matched := MatchGroup(group);
    if matched.None? {
      return Failure(InvalidList);
    }
    var numbers := matched.value;
    if |numbers| == 1 {
      var val := numbers[0];
      if mode.Raise? && IsNonIncreasing(result, val) {
        return Failure(NotIncreasing);
      }
      return Success(Single(val));
    }
    var low, high := numbers[0], numbers[1];
    var step := if |numbers| == 3 then numbers[2] else 1;
    if step > 0 && low > high {
      step := -step;
    }
    if mode.Raise? && (high <= low || IsNonIncreasing(result, low)) {
      return Failure(NotIncreasing);
    }
    r := Success(Triple(low, high, step));
  }

  /** IntegerListParser.parse on a string. */
  method Parse(inp: string, mode: OnNonIncreasing) returns (r: Result<IntegerList, ValueError>)
    ensures r.Success? <==> Parsed(inp, mode).Success?
    ensures r.Success? ==> r.value == IntegerList(Parsed(inp, mode).value, |Expand(Parsed(inp, mode).value)|)
    ensures r.Failure? ==> r.error == Parsed(inp, mode).error
  {
    var groups, result := Split(inp, ','), [];
    ghost var matches := Matches(groups);
    for k := 0 to |groups|
      invariant ReadGroups([], matches, mode) == ReadGroups(result, matches[k..], mode)
    {
      assert matches[k..][0] == matches[k] && matches[k..][1..] == matches[k + 1..];
      var group := ParseGroup(result, groups[k], mode);
      if group.Failure? {
        return Failure(group.error);
      }
      result := result + [group.value];
    }
    r := Create(result);
  }

  // ----- Serializing -----

  /** The numbers of a group, as they are written. */
  function Written(g: Group): (r: seq<int>)
    ensures 1 <= |r| <= 3
  {
    match g
    case Single(v) => [v]
    case Pair(lo, hi) => [lo, hi]
    case Triple(lo, hi, step) => [lo, hi, step]
  }

  function Texts(numbers: seq<int>): (r: seq<string>)
    ensures |r| == |numbers| && forall k :: 0 <= k < |r| ==> r[k] == IntText(numbers[k])
  {
    seq(|numbers|, k requires 0 <= k < |numbers| => IntText(numbers[k]))
  }

  predicate Negative(numbers: seq<int>) { exists k :: 0 <= k < |numbers| && numbers[k] < 0 }

  /** _SerializeRange, and str for a single integer. */
  function SerializeGroup(g: Group): string {
    JoinBy(Texts(Written(g)), if Negative(Written(g)) then ':' else '-')
  }

  function SerializeGroups(groups: seq<Group>): (r: seq<string>)
    ensures |r| == |groups| && forall k :: 0 <= k < |r| ==> r[k] == SerializeGroup(groups[k])
  {
    seq(|groups|, k requires 0 <= k < |groups| => SerializeGroup(groups[k]))
  }

  /** IntegerListSerializer.serialize. */
  function Serialize(groups: seq<Group>): string { JoinBy(SerializeGroups(groups), ',') }

  /** What is written: dashes between nonnegative numbers, colons if one is negative. */
  lemma WrittenText(g: Group)
    ensures g.Single? ==> SerializeGroup(g) == IntText(g.value)
    ensures g.Pair? ==>
              var sep := if g.lo < 0 || g.hi < 0 then ":" else "-";
              SerializeGroup(g) == IntText(g.lo) + sep + IntText(g.hi)
    ensures g.Triple? ==>
              var sep := if g.lo < 0 || g.hi < 0 || g.step < 0 then ":" else "-";
              SerializeGroup(g) == IntText(g.lo) + sep + IntText(g.hi) + sep + IntText(g.step)
  {
    NegativeMeans(Written(g));
    JoinFew(Texts(Written(g)), if Negative(Written(g)) then ':' else '-');
  }

  lemma NegativeMeans(numbers: seq<int>)
    requires 1 <= |numbers| <= 3
    ensures Negative(numbers) <==> numbers[0] < 0 || (|numbers| > 1 && numbers[1] < 0) || (|numbers| > 2 && numbers[2] < 0)
  {
  }

  lemma JoinFew(parts: seq<string>, separator: char)
    requires 1 <= |parts| <= 3
    ensures JoinBy(parts, separator) ==
            parts[0] + (if |parts| > 1 then [separator] + parts[1] else "") + (if |parts| > 2 then [separator] + parts[2] else "")
  {
    if |parts| > 1 {
      assert parts[1..][0] == parts[1];
      if |parts| > 2 {
        assert parts[1..][1..][0] == parts[2];
      }
    }
  }

  lemma WrittenList(g: Group, rest: seq<Group>)
    ensures Serialize([]) == "" && Serialize([g]) == SerializeGroup(g)
    ensures rest != [] ==> Serialize([g] + rest) == SerializeGroup(g) + "," + Serialize(rest)
  {
    assert SerializeGroups([g])[0] == SerializeGroup(g);
    assert SerializeGroups([g] + rest) == [SerializeGroup(g)] + SerializeGroups(rest);
  }

  // ----- Round trips -----

  lemma SignedText(s: string)
    requires IsSigned(s)
    ensures s != "" && IsDigit(s[|s| - 1])
    ensures forall c :: c in s ==> IsDigit(c) || c == '-'
  {
    forall c | c in s ensures IsDigit(c) || c == '-' {
      var i :| 0 <= i < |s| && s[i] == c;
      if !IsUnsigned(s) && i > 0 {
        assert s[1..][i - 1] == c;
      }
    }
    if !IsUnsigned(s) {
      assert s[1..][|s| - 2] == s[|s| - 1];
    }
  }

  /** Joined signed numbers end in a digit and start as the first of them does. */
  lemma {:induction false} JoinedText(parts: seq<string>, separator: char)
    requires parts != [] && forall k :: 0 <= k < |parts| ==> IsSigned(parts[k])
    ensures parts[0] != "" && JoinBy(parts, separator) != "" && JoinBy(parts, separator)[0] == parts[0][0]
    ensures IsDigit(JoinBy(parts, separator)[|JoinBy(parts, separator)| - 1])
    ensures forall c :: c in JoinBy(parts, separator) ==> IsDigit(c) || c == '-' || c == separator
    ensures |parts| > 1 ==> separator in JoinBy(parts, separator)
  {
    SignedText(parts[0]);
    if |parts| > 1 {
      JoinedText(parts[1..], separator);
    }
  }

  /** A text with a colon, or with a dash in front, is not a dashed group. */
  lemma NotDashed(body: string)
    requires ':' in body || (body != "" && body[0] == '-')
    ensures Numbers(Split(body, '-'), false).None?
  {
    var parts := Split(body, '-');
    JoinSplit(body, '-');
    if body[0] == '-' {
      assert parts[0] == "";
    } else if Numbers(parts, false).Some? {
      JoinedText(parts, '-');
    }
  }

  /** What the two regular expressions say: body is one to three unsigned numbers joined by dashes, or
      one to three signed numbers joined by colons. */
  predicate GroupPattern(body: string, parts: seq<string>) {
    && 1 <= |parts| <= 3 && (forall k :: 0 <= k < |parts| ==> IsSigned(parts[k]))
    && (body == JoinBy(parts, ':') || (body == JoinBy(parts, '-') && forall k :: 0 <= k < |parts| ==> IsUnsigned(parts[k])))
  }

  /** A group is read as its numbers in any way of taking it apart, and rejected if there is none. */
  lemma MatchMeansPattern(s: string, parts: seq<string>)
    ensures GroupPattern(WithoutFinalNewline(s), parts) ==> MatchGroup(s) == Some(Values(parts))
    ensures MatchGroup(s).Some? ==> exists found :: GroupPattern(WithoutFinalNewline(s), found)
  {
    var body := WithoutFinalNewline(s);
    if GroupPattern(body, parts) {
      forall k | 0 <= k < |parts| ensures ':' !in parts[k] && (IsUnsigned(parts[k]) ==> '-' !in parts[k]) {
        SignedText(parts[k]);
      }
      SplitJoin(parts, ':');
      if forall k :: 0 <= k < |parts| ==> IsUnsigned(parts[k]) {
        SplitJoin(parts, '-');
      }
      if body == JoinBy(parts, ':') && (|parts| > 1 || !IsUnsigned(parts[0])) {
        JoinedText(parts, ':');
        NotDashed(body);
      }
    }
    JoinSplit(body, '-');
    JoinSplit(body, ':');
    if MatchGroup(s).Some? {
      assert GroupPattern(body, Split(body, '-')) || GroupPattern(body, Split(body, ':'));
    }
  }

  lemma PatternEndsInDigit(body: string, parts: seq<string>)
    requires GroupPattern(body, parts)
    ensures body != "" && body[|body| - 1] != '\n'
  {
    JoinedText(parts, ':');
    JoinedText(parts, '-');
  }

  ghost predicate HasPattern(body: string) { exists parts :: GroupPattern(body, parts) }

  /** So a text is accepted exactly if it can be taken apart that way, with or without a final newline. */
  lemma MatchMeansText(s: string)
    ensures MatchGroup(s).Some? <==> HasPattern(s) || (s != "" && s[|s| - 1] == '\n' && HasPattern(s[..|s| - 1]))
  {
    MatchMeansPattern(s, []);
    if HasPattern(s) {
      var parts :| GroupPattern(s, parts);
      PatternEndsInDigit(s, parts);
      MatchMeansPattern(s, parts);
    } else if s != "" && s[|s| - 1] == '\n' && HasPattern(s[..|s| - 1]) {
      var parts :| GroupPattern(s[..|s| - 1], parts);
      MatchMeansPattern(s, parts);
    }
  }

  lemma NumbersOfTexts(numbers: seq<int>, signed: bool)
    requires 1 <= |numbers| <= 3 && (signed || forall k :: 0 <= k < |numbers| ==> numbers[k] >= 0)
    ensures Numbers(Texts(numbers), signed) == Some(numbers)
  {
    var texts := Texts(numbers);
    forall k | 0 <= k < |texts| ensures IsSigned(texts[k]) && IntValue(texts[k]) == numbers[k] {
      IntRoundTrip(numbers[k]);
    }
    assert Values(texts) == numbers;
  }

  lemma SplitTexts(numbers: seq<int>, separator: char)
    requires numbers != [] && separator in ":-" && (separator == ':' || forall k :: 0 <= k < |numbers| ==> numbers[k] >= 0)
    ensures Split(JoinBy(Texts(numbers), separator), separator) == Texts(numbers)
  {
    forall k | 0 <= k < |numbers| ensures separator !in Texts(numbers)[k] {
      SignedText(IntText(numbers[k]));
    }
    SplitJoin(Texts(numbers), separator);
  }

  lemma MatchDashes(numbers: seq<int>, body: string)
    requires 1 <= |numbers| <= 3 && !Negative(numbers) && body == JoinBy(Texts(numbers), '-')
    ensures Numbers(Split(body, '-'), false) == Some(numbers)
  {
    SplitTexts(numbers, '-');
    NumbersOfTexts(numbers, false);
  }

  lemma MatchColons(numbers: seq<int>, body: string)
    requires 1 <= |numbers| <= 3 && Negative(numbers) && body == JoinBy(Texts(numbers), ':')
    ensures Numbers(Split(body, '-'), false).None? && Numbers(Split(body, ':'), true) == Some(numbers)
  {
    SplitTexts(numbers, ':');
    NumbersOfTexts(numbers, true);
    JoinedText(Texts(numbers), ':');
    if |numbers| == 1 {
      assert IntText(numbers[0])[0] == '-';
    }
    NotDashed(body);
  }

  lemma MatchWritten(g: Group)
    ensures MatchGroup(SerializeGroup(g)) == Some(Written(g))
    ensures ',' !in SerializeGroup(g)
  {
    var numbers, body := Written(g), SerializeGroup(g);
    JoinedText(Texts(numbers), if Negative(numbers) then ':' else '-');
    assert WithoutFinalNewline(body) == body;
    if Negative(numbers) {
      MatchColons(numbers, body);
    } else {
      MatchDashes(numbers, body);
    }
  }

  /** What a group becomes when it is written and read again. */
  function Reread(g: Group): Group { GroupOf(Written(g)) }

  function RereadAll(groups: seq<Group>): (r: seq<Group>)
    ensures |r| == |groups|
  {
    seq(|groups|, k requires 0 <= k < |groups| => Reread(groups[k]))
  }

  /** The numbers written for each group. */
  function AllWritten(groups: seq<Group>): (r: seq<Option<seq<int>>>)
    ensures |r| == |groups| && forall k :: 0 <= k < |r| ==> r[k] == Some(Written(groups[k]))
  {
    seq(|groups|, k requires 0 <= k < |groups| => Some(Written(groups[k])))
  }

  lemma MatchesWritten(groups: seq<Group>)
    ensures Matches(SerializeGroups(groups)) == AllWritten(groups)
  {
    forall k | 0 <= k < |groups| ensures Matches(SerializeGroups(groups))[k] == AllWritten(groups)[k] {
      MatchWritten(groups[k]);
    }
  }

  lemma {:induction false} ReadWritten(done: seq<Group>, groups: seq<Group>)
    ensures ReadGroups(done, AllWritten(groups), Ignore) == Success(done + RereadAll(groups))
    decreases |groups|
  {
    if groups == [] {
      assert done + RereadAll(groups) == done;
    } else {
      ReadWritten(done + [Reread(groups[0])], groups[1..]);
      assert AllWritten(groups)[1..] == AllWritten(groups[1..]);
      assert done + [Reread(groups[0])] + RereadAll(groups[1..]) == done + RereadAll(groups);
    }
  }

  lemma RereadSteps(groups: seq<Group>)
    requires Steps(groups)
    ensures Steps(RereadAll(groups))
  {
    forall k | 0 <= k < |groups| ensures Step(RereadAll(groups)[k]) != 0 {
      RereadItems(groups[k]);
    }
  }

  lemma EmptyText(mode: OnNonIncreasing)
    ensures Parsed("", mode) == Failure(InvalidList)
  {
    var parts := [""];
    assert Split("", '-') == parts && Split("", ':') == parts && Split("", ',') == parts;
    assert !IsSigned(parts[0]);
    assert MatchGroup(parts[0]).None?;
  }

  lemma {:induction false} RoundTripUnchecked(groups: seq<Group>)
    requires Steps(groups) && groups != []
    ensures Parsed(Serialize(groups), Ignore) == Success(RereadAll(groups))
  {
    var texts := SerializeGroups(groups);
    forall p | p in texts ensures ',' !in p {
      var k :| 0 <= k < |texts| && p == texts[k];
      MatchWritten(groups[k]);
    }
    SplitJoin(texts, ',');
    MatchesWritten(groups);
    ReadWritten([], groups);
    assert [] + RereadAll(groups) == RereadAll(groups);
    RereadSteps(groups);
  }

  /** Reading back what was written gives, in every mode, the same groups up to the step rule; only the
      strict mode can refuse, and it does exactly when these groups do not rise. An empty list is written
      as the empty text, which is not a list. */
  lemma {:induction false} RoundTrip(groups: seq<Group>, mode: OnNonIncreasing)
    requires Steps(groups)
    ensures Parsed(Serialize(groups), mode) ==
            if groups == [] then Failure(InvalidList)
            else if mode.Raise? && !Rising(RereadAll(groups)) then Failure(NotIncreasing)
            else Success(RereadAll(groups))
  {
    if groups == [] {
      EmptyText(mode);
    } else {
      RoundTripUnchecked(groups);
      IncreasingCheckIsSound(Serialize(groups));
    }
  }

  // ----- What the round trip preserves -----

  /** Groups as the parser makes them. */
  predicate Canonical(g: Group) { !g.Pair? && !(g.Triple? && g.step > 0 && g.lo > g.hi) }

  lemma {:induction false} ParsedIsCanonical(result: seq<Group>, matches: seq<Option<seq<int>>>, mode: OnNonIncreasing)
    requires ReadGroups(result, matches, mode).Success? && forall k :: 0 <= k < |result| ==> Canonical(result[k])
    ensures forall k :: 0 <= k < |ReadGroups(result, matches, mode).value| ==> Canonical(ReadGroups(result, matches, mode).value[k])
    decreases |matches|
  {
    if matches != [] {
      ParsedIsCanonical(result + [GroupOf(matches[0].value)], matches[1..], mode);
    }
  }

  lemma {:induction false} ParsedKeepsCount(result: seq<Group>, matches: seq<Option<seq<int>>>, mode: OnNonIncreasing)
    requires ReadGroups(result, matches, mode).Success?
    ensures |ReadGroups(result, matches, mode).value| == |result| + |matches|
    decreases |matches|
  {
    if matches != [] {
      ParsedKeepsCount(result + [GroupOf(matches[0].value)], matches[1..], mode);
    }
  }

  lemma RereadCanonical(g: Group)
    requires Canonical(g)
    ensures Reread(g) == g
  {
  }

  lemma {:induction false} ParsedShape(inp: string, mode: OnNonIncreasing)
    ensures Parsed(inp, mode).Success? ==>
              var groups := Parsed(inp, mode).value;
              groups != [] && Steps(groups) && forall k :: 0 <= k < |groups| ==> Canonical(groups[k])
  {
    if Parsed(inp, mode).Success? {
      var matches := Matches(Split(inp, ','));
      ParsedIsCanonical([], matches, mode);
      ParsedKeepsCount([], matches, mode);
    }
  }

  lemma RereadCanonicals(groups: seq<Group>)
    requires forall k :: 0 <= k < |groups| ==> Canonical(groups[k])
    ensures RereadAll(groups) == groups
  {
    forall k | 0 <= k < |groups| ensures RereadAll(groups)[k] == groups[k] {
      RereadCanonical(groups[k]);
    }
  }

  /** A list that came out of the parser survives being written and read again unchanged, in every pair of
      modes, unless it is now read more strictly and does not rise; what the strict mode has accepted
      once, it accepts again. */
  lemma {:induction false} ParsedListsRoundTrip(inp: string, first: OnNonIncreasing, second: OnNonIncreasing)
    ensures Parsed(inp, first).Success? ==>
              Parsed(Serialize(Parsed(inp, first).value), second) ==
              if second.Raise? && !Rising(Parsed(inp, first).value) then Failure(NotIncreasing) else Parsed(inp, first)
    ensures Parsed(inp, first).Success? && (second.Raise? ==> first.Raise?) ==>
              Parsed(Serialize(Parsed(inp, first).value), second) == Parsed(inp, first)
  {
    if Parsed(inp, first).Success? {
      var groups := Parsed(inp, first).value;
      ParsedShape(inp, first);
      RereadCanonicals(groups);
      RoundTrip(groups, second);
      IncreasingCheckIsSound(inp);
    }
  }

  /** A range whose bounds fall while its step is positive (or absent): it is empty, and comes back
      turned round. */
  predicate TurnsRound(g: Group) { !g.Single? && g.lo > g.hi && Step(g) > 0 }

  lemma RereadItems(g: Group)
    requires Step(g) != 0
    ensures Step(Reread(g)) != 0
    ensures !TurnsRound(g) ==> Items(Reread(g)) == Items(g)
    ensures TurnsRound(g) ==> Items(g) == [] && Items(Reread(g)) != []
  {
  }

  lemma {:induction false} RereadExpands(groups: seq<Group>)
    requires Steps(groups)
    ensures Steps(RereadAll(groups)) && |Expand(RereadAll(groups))| >= |Expand(groups)|
    ensures (exists k :: 0 <= k < |groups| && TurnsRound(groups[k])) ==> |Expand(RereadAll(groups))| > |Expand(groups)|
    ensures !(exists k :: 0 <= k < |groups| && TurnsRound(groups[k])) ==> Expand(RereadAll(groups)) == Expand(groups)
  {
    RereadSteps(groups);
    if groups != [] {
      RereadItems(groups[0]);
      RereadExpands(groups[1..]);
      assert RereadAll(groups)[1..] == RereadAll(groups[1..]);
    }
  }

  /** Writing and reading again keeps what a list stands for, where it can be read, exactly when no range
      turns round: so for every list of non-empty groups. */
  lemma {:induction false} SameExpansionIff(groups: seq<Group>, mode: OnNonIncreasing)
    requires Steps(groups) && groups != []
    ensures Parsed(Serialize(groups), mode).Success? <==> !mode.Raise? || Rising(RereadAll(groups))
    ensures Parsed(Serialize(groups), mode).Success? ==>
              var read := Parsed(Serialize(groups), mode).value;
              && Steps(read)
              && (Expand(read) == Expand(groups) <==> forall k :: 0 <= k < |groups| ==> !TurnsRound(groups[k]))
              && ((forall k :: 0 <= k < |groups| ==> Items(groups[k]) != []) ==> Expand(read) == Expand(groups))
  {
    RoundTrip(groups, mode);
    RereadExpands(groups);
    forall k | 0 <= k < |groups| && Items(groups[k]) != [] ensures !TurnsRound(groups[k]) {
      RereadItems(groups[k]);
    }
  }

  lemma FiveDownToThree()
    ensures Range(5, 2, -1) == [5, 4, 3]
  {
    assert Range(2, 2, -1) == [];
    assert Range(3, 2, -1) == [3] + Range(2, 2, -1);
    assert Range(4, 2, -1) == [4] + Range(3, 2, -1);
  }

  /** The empty range (5, 3) comes back as 5, 4, 3. */
  lemma EmptyRangeTurnsRound()
    ensures Expand([Pair(5, 3)]) == []
    ensures Parsed(Serialize([Pair(5, 3)]), Ignore) == Success([Triple(5, 3, -1)]) && Expand([Triple(5, 3, -1)]) == [5, 4, 3]
  {
    RoundTrip([Pair(5, 3)], Ignore);
    assert RereadAll([Pair(5, 3)]) == [Triple(5, 3, -1)];
    ExpandOne(Pair(5, 3));
    ExpandOne(Triple(5, 3, -1));
    FiveDownToThree();
  }

  /** The only empty groups the parser makes have an explicit negative step and rising bounds. */
  lemma {:induction false} ParsedEmptyGroups(inp: string, mode: OnNonIncreasing)
    ensures Parsed(inp, mode).Success? ==>
              var groups := Parsed(inp, mode).value;
              forall k :: 0 <= k < |groups| ==>
                Step(groups[k]) != 0
                && (Items(groups[k]) == [] <==> groups[k].Triple? && groups[k].step < 0 && groups[k].lo < groups[k].hi)
  {
    ParsedShape(inp, mode);
  }

  // ----- The increasing check -----

  ghost predicate StrictlyIncreasing(xs: seq<int>) { forall i, j :: 0 <= i < j < |xs| ==> xs[i] < xs[j] }

  /** Every range rises, and every group starts above the upper bound of the one before. */
  ghost predicate Rising(groups: seq<Group>) {
    forall k :: 0 <= k < |groups| ==> !Suspicious(groups[..k], groups[k])
  }

  lemma RisingPrefix(result: seq<Group>, all: seq<Group>)
    requires result <= all && Rising(all)
    ensures Rising(result)
  {
    forall k | 0 <= k < |result| ensures !Suspicious(result[..k], result[k]) {
      assert result[..k] == all[..k] && result[k] == all[k];
    }
  }

  lemma RisingFurther(result: seq<Group>, g: Group)
    requires Rising(result)
    ensures Rising(result + [g]) <==> !Suspicious(result, g)
  {
    var next := result + [g];
    assert next[..|result|] == result && next[|result|] == g;
    forall k | 0 <= k < |result| ensures !Suspicious(next[..k], next[k]) {
      assert next[..k] == result[..k] && next[k] == result[k];
    }
  }

  lemma {:induction false} RaiseModeAccepts(result: seq<Group>, matches: seq<Option<seq<int>>>)
    requires Rising(result)
    ensures ReadGroups(result, matches, Raise).Success? <==>
              ReadGroups(result, matches, Ignore).Success? && Rising(ReadGroups(result, matches, Ignore).value)
    ensures ReadGroups(result, matches, Raise).Success? ==> ReadGroups(result, matches, Raise) == ReadGroups(result, matches, Ignore)
    ensures ReadGroups(result, matches, Ignore).Success? && ReadGroups(result, matches, Raise).Failure? ==>
              ReadGroups(result, matches, Raise).error == NotIncreasing
    decreases |matches|
  {
    if matches != [] && matches[0].Some? && 1 <= |matches[0].value| <= 3 {
      var g := GroupOf(matches[0].value);
      var next := result + [g];
      RisingFurther(result, g);
      assert ReadGroups(result, matches, Ignore) == ReadGroups(next, matches[1..], Ignore);
      if Suspicious(result, g) {
        if ReadGroups(next, matches[1..], Ignore).Success? {
          var all := ReadGroups(next, matches[1..], Ignore).value;
          IgnoreExtends(next, matches[1..]);
          if Rising(all) {
            RisingPrefix(next, all);
          }
        }
      } else {
        assert ReadGroups(result, matches, Raise) == ReadGroups(next, matches[1..], Raise);
        RaiseModeAccepts(next, matches[1..]);
      }
    }
  }

  lemma {:induction false} IgnoreExtends(result: seq<Group>, matches: seq<Option<seq<int>>>)
    requires ReadGroups(result, matches, Ignore).Success?
    ensures result <= ReadGroups(result, matches, Ignore).value
    decreases |matches|
  {
    if matches != [] {
      IgnoreExtends(result + [GroupOf(matches[0].value)], matches[1..]);
    }
  }

  lemma MulRises(i: nat, j: nat, step: int)
    requires i < j && 0 < step
    ensures i * step < j * step
  {
    MulMono(i + 1, j, step);
    OneMore(i, step);
  }

  lemma RisingRange(low: int, high: int, step: int)
    requires step != 0 && low < high
    ensures var r := Range(low, high + (if step > 0 then 1 else -1), step);
            StrictlyIncreasing(r) && forall i :: 0 <= i < |r| ==> low <= r[i] <= high
  {
    var r := Range(low, high + (if step > 0 then 1 else -1), step);
    if step > 0 {
      forall i | 0 <= i < |r| ensures r[i] == low + i * step && low <= r[i] <= high {
        RangeAt(low, high + 1, step, i);
      }
      forall i, j | 0 <= i < j < |r| ensures r[i] < r[j] {
        MulRises(i, j, step);
      }
    }
  }

  lemma IncreasingConcat(xs: seq<int>, ys: seq<int>, bound: int)
    requires StrictlyIncreasing(xs) && StrictlyIncreasing(ys)
    requires (forall x :: x in xs ==> x <= bound) && (forall y :: y in ys ==> bound < y)
    ensures StrictlyIncreasing(xs + ys)
  {
    forall i, j | 0 <= i < j < |xs + ys| ensures (xs + ys)[i] < (xs + ys)[j] {
      assert i < |xs| ==> xs[i] in xs;
      assert j >= |xs| ==> ys[j - |xs|] in ys;
    }
  }

  lemma RisingItems(g: Group)
    requires Step(g) != 0 && (g.Triple? ==> g.lo < g.hi) && !g.Pair?
    ensures StrictlyIncreasing(Items(g)) && forall x :: x in Items(g) ==> Low(g) <= x <= High(g)
  {
    if g.Triple? {
      RisingRange(g.lo, g.hi, g.step);
    }
  }

  lemma {:induction false} RisingExpands(groups: seq<Group>)
    requires Steps(groups) && Rising(groups) && forall k :: 0 <= k < |groups| ==> !groups[k].Pair?
    ensures StrictlyIncreasing(Expand(groups))
    ensures groups != [] ==> forall x :: x in Expand(groups) ==> x <= High(groups[|groups| - 1])
    decreases |groups|
  {
    if groups != [] {
      var front, g := groups[..|groups| - 1], groups[|groups| - 1];
      assert groups == front + [g];
      assert forall k :: 0 <= k < |front| ==> front[..k] == groups[..k];
      RisingExpands(front);
      ExpandSnoc(front, g);
      RisingItems(g);
      if front != [] {
        IncreasingConcat(Expand(front), Items(g), High(front[|front| - 1]));
      }
    }
  }

  /** In exception mode the parser accepts exactly the texts it would accept anyway whose groups rise;
      and every list it accepts is strictly increasing, element by element. */
  lemma IncreasingCheckIsSound(inp: string)
    ensures Parsed(inp, Raise).Success? <==> Parsed(inp, Ignore).Success? && Rising(Parsed(inp, Ignore).value)
    ensures Parsed(inp, Raise).Success? ==>
              Parsed(inp, Raise) == Parsed(inp, Ignore) && StrictlyIncreasing(Expand(Parsed(inp, Raise).value))
    ensures Parsed(inp, Ignore).Success? && Parsed(inp, Raise).Failure? ==> Parsed(inp, Raise).error == NotIncreasing
    ensures Parsed(inp, Warn) == Parsed(inp, Ignore)
  {
    RaiseModeAccepts([], Matches(Split(inp, ',')));
    WarnIsIgnore([], Matches(Split(inp, ',')));
    if Parsed(inp, Raise).Success? {
      ParsedShape(inp, Raise);
      RisingExpands(Parsed(inp, Raise).value);
    }
  }

  lemma {:induction false} WarnIsIgnore(result: seq<Group>, matches: seq<Option<seq<int>>>)
    ensures ReadGroups(result, matches, Warn) == ReadGroups(result, matches, Ignore)
    decreases |matches|
  {
    if matches != [] && matches[0].Some? && 1 <= |matches[0].value| <= 3 {
      WarnIsIgnore(result + [GroupOf(matches[0].value)], matches[1..]);
    }
  }

  // ----- What the numbers of a group mean -----

  /** One number is itself; two are the integers between them, both included, from the first one on. */
  lemma FewNumbersMean(numbers: seq<int>, x: int)
    requires 1 <= |numbers| <= 2
    ensures Step(GroupOf(numbers)) != 0
    ensures |numbers| == 1 ==> Items(GroupOf(numbers)) == [numbers[0]]
    ensures |numbers| == 2 ==>
              && (x in Items(GroupOf(numbers)) <==> numbers[0] <= x <= numbers[1] || numbers[1] <= x <= numbers[0])
              && Items(GroupOf(numbers)) != [] && Items(GroupOf(numbers))[0] == numbers[0]
  {
    if |numbers| == 2 {
      var lo, hi := numbers[0], numbers[1];
      if lo <= hi {
        ItemsMembers(Pair(lo, hi), x);
        assert Items(GroupOf(numbers)) == Items(Pair(lo, hi));
      } else {
        ItemsMembers(Triple(lo, hi, -1), x);
        if hi <= x <= lo {
          var i: nat := lo - x;
          assert x == lo + i * -1;
        }
      }
    }
  }

  /** Three numbers are the integers that are whole steps from the first and not beyond the second; a positive
      step leads towards the second number, whichever is the larger one, and a negative step down. */
  lemma StepMeans(lo: int, hi: int, step: int, x: int)
    requires step != 0
    ensures Step(GroupOf([lo, hi, step])) != 0
    ensures step > 0 && lo <= hi ==> (x in Items(GroupOf([lo, hi, step])) <==> exists i: nat :: x == lo + i * step && x <= hi)
    ensures step > 0 && lo > hi ==>
              var down := -step; (x in Items(GroupOf([lo, hi, step])) <==> exists i: nat :: x == lo + i * down && x >= hi)
    ensures step < 0 ==> (x in Items(GroupOf([lo, hi, step])) <==> exists i: nat :: x == lo + i * step && x >= hi)
    ensures Items(GroupOf([lo, hi, step])) != [] ==> Items(GroupOf([lo, hi, step]))[0] == lo
  {
    var taken := if step > 0 && lo > hi then -step else step;
    assert GroupOf([lo, hi, step]) == Triple(lo, hi, taken);
    ItemsMembers(Triple(lo, hi, taken), x);
  }

  function FirstBound(g: Group): int { match g case Single(v) => v case Pair(lo, _) => lo case Triple(lo, _, _) => lo }
  function LastBound(g: Group): int { match g case Single(v) => v case Pair(_, hi) => hi case Triple(_, hi, _) => hi }

  /** What the strict mode asks for, group by group. */
  lemma RisingMeans(groups: seq<Group>)
    ensures Rising(groups) <==>
              && (forall k :: 0 <= k < |groups| && groups[k].Triple? ==> groups[k].lo < groups[k].hi)
              && (forall k :: 0 < k < |groups| ==> LastBound(groups[k - 1]) < FirstBound(groups[k]))
  {
    forall k | 0 <= k < |groups|
      ensures Suspicious(groups[..k], groups[k]) <==>
                || (groups[k].Triple? && groups[k].lo >= groups[k].hi)
                || (k > 0 && LastBound(groups[k - 1]) >= FirstBound(groups[k]))
    {
    }
  }

  // ----- Negative items -----

  /** The smallest item of a non-empty group. */
  function Smallest(g: Group): int
    requires Step(g) != 0
  {
    if g.Single? || Step(g) > 0 then Low(g)
    else if g.lo < g.hi then Low(g)
    else g.lo - (g.lo - g.hi) / -Step(g) * -Step(g)
  }

  lemma SmallestIsLeast(g: Group)
    requires Step(g) != 0 && Items(g) != []
    ensures Smallest(g) in Items(g) && forall x :: x in Items(g) ==> Smallest(g) <= x
  {
    if !g.Single? && Step(g) < 0 {
      var down, last := -Step(g), (g.lo - g.hi) / -Step(g);
      FallingItems(g.lo, g.hi, down);
      assert Items(g)[last] == g.lo - last * down;
      forall x | x in Items(g) ensures Smallest(g) <= x {
        var i :| 0 <= i < |Items(g)| && Items(g)[i] == x;
        MulMono(i, last, down);
      }
    } else if !g.Single? {
      forall x | x in Items(g) ensures Low(g) <= x {
        var i :| 0 <= i < |Items(g)| && Items(g)[i] == x;
        RangeAt(Low(g), High(g) + 1, Step(g), i);
      }
    }
  }

  /** The integers of a list are nonnegative exactly when the smallest item of every non-empty group is. */
  lemma {:induction false} NonnegativeIff(groups: seq<Group>)
    requires Steps(groups)
    ensures (forall x :: x in Expand(groups) ==> x >= 0)
       <==> forall k :: 0 <= k < |groups| && Items(groups[k]) != [] ==> Smallest(groups[k]) >= 0
  {
    if groups != [] {
      var g, rest := groups[0], groups[1..];
      NonnegativeIff(rest);
      assert forall k :: 0 < k < |groups| ==> groups[k] == rest[k - 1];
      if Items(g) != [] {
        SmallestIsLeast(g);
      }
      assert forall x :: x in Expand(groups) <==> x in Items(g) || x in Expand(rest);
      if forall k :: 0 <= k < |groups| && Items(groups[k]) != [] ==> Smallest(groups[k]) >= 0 {
        forall k | 0 <= k < |rest| && Items(rest[k]) != [] ensures Smallest(rest[k]) >= 0 {
          assert rest[k] == groups[k + 1];
        }
      }
    }
  }

  /** The parser accepts a negative integer. */
  lemma ParsedNegative(mode: OnNonIncreasing)
    ensures Parsed(Serialize([Single(-3)]), mode) == Success([Single(-3)]) && Expand([Single(-3)]) == [-3]
  {
    var groups := [Single(-3)];
    RoundTrip(groups, mode);
    assert RereadAll(groups) == groups;
    assert Rising(groups);
    assert groups[1..] == [];
  }
}
