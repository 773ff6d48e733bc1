/** Overriding flags for the duration of a context, and putting them back. */
module FlagOverrides {
  import opened Common

  /** A flag's value, and how often it has been given (0: it has its default). */
  datatype Flag = Flag(value: string, present: nat)

  type FlagMap = map<string, Flag>
  type Settings = seq<(string, string)>

  /** The parser of each flag; None stands for an IllegalFlagValueError. */
  type Parser = (string, string) -> Option<string>

  datatype EnterError = UnrecognizedOption(key: string) | InvalidValue(key: string)

  /** The flags and saved values after __enter__, and the error that stopped it, if any. */
  datatype Entering = Entering(flags: FlagMap, saved: map<string, string>, error: Option<EnterError>)

  /** __enter__: flags that are present are left alone, the others are saved and overridden. */
  function Enter(flags: FlagMap, saved: map<string, string>, config: Settings, parse: Parser): Entering
    decreases |config|
  {
    if config == [] then Entering(flags, saved, None) else
      var (key, value) := config[0];
      if key !in flags then Entering(flags, saved, Some(UnrecognizedOption(key)))
      else if flags[key].present > 0 then Enter(flags, saved, config[1..], parse)
      else
        var nowSaved := saved[key := flags[key].value];
        match parse(key, value)
        case None => Entering(flags, nowSaved, Some(InvalidValue(key)))
        case Some(parsed) => Enter(flags[key := Flag(parsed, 1)], nowSaved, config[1..], parse)
  }

  /** __exit__. */
  function Restore(flags: FlagMap, saved: map<string, string>): FlagMap {
    map k | k in flags :: if k in saved then Flag(saved[k], 0) else flags[k]
  }

  class FlagValues {
    var flags: FlagMap

    constructor (flags: FlagMap)
      ensures this.flags == flags
    {
      this.flags := flags;
    }
  }

  class OverrideFlags {
    const flagValues: FlagValues
    const config: Settings
    const parse: Parser
    var flagsToReapply: map<string, string>

    constructor (flagValues: FlagValues, config: Settings, parse: Parser)
      ensures this.flagValues == flagValues && this.config == config && this.parse == parse && flagsToReapply == map[]
    {
      this.flagValues, this.config, this.parse, flagsToReapply := flagValues, config, parse, map[];
    }

    method EnterContext() returns (error: Option<EnterError>)
      modifies this, flagValues
      ensures Enter(old(flagValues.flags), old(flagsToReapply), config, parse) == Entering(flagValues.flags, flagsToReapply, error)
    {
      for i := 0 to |config|
        invariant Enter(old(flagValues.flags), old(flagsToReapply), config, parse) ==
                  Enter(flagValues.flags, flagsToReapply, config[i..], parse)
      {
        var (key, value) := config[i];
        assert config[i..][0] == config[i] && config[i..][1..] == config[i + 1..];
        if key !in flagValues.flags {
          return Some(UnrecognizedOption(key));
        }
        if flagValues.flags[key].present == 0 {
          flagsToReapply := flagsToReapply[key := flagValues.flags[key].value];
          var parsed := parse(key, value);
          if parsed.None? {
            return Some(InvalidValue(key));
          }
          flagValues.flags := flagValues.flags[key := Flag(parsed.value, flagValues.flags[key].present + 1)];
        }
      }
      error := None;
    }

    method ExitContext()
      requires flagsToReapply.Keys <= flagValues.flags.Keys
      modifies flagValues
      ensures flagValues.flags == Restore(old(flagValues.flags), flagsToReapply)
    {
      var todo := flagsToReapply.Keys;
      while todo != {}
        invariant todo <= flagsToReapply.Keys && flagValues.flags.Keys == old(flagValues.flags).Keys
        invariant forall k :: k in flagValues.flags ==>
                    flagValues.flags[k] == if k in flagsToReapply && k !in todo then Flag(flagsToReapply[k], 0)
                                           else old(flagValues.flags)[k]
        decreases todo
      {
        var key :| key in todo;
        flagValues.flags := flagValues.flags[key := Flag(flagsToReapply[key], 0)];
        todo := todo - {key};
      }
    }
  }

  // ----- One context -----

  /** Flags that were present are as they were, and nothing new is saved of them; of the others the value
      is saved, or they are as they were. */
  ghost predicate Saves(flags: FlagMap, saved: map<string, string>, e: Entering) {
    && e.flags.Keys == flags.Keys && saved.Keys <= e.saved.Keys <= flags.Keys
    && (forall k :: k in saved ==> e.saved[k] == saved[k])
    && (forall k :: k in flags && flags[k].present > 0 ==> e.flags[k] == flags[k] && (k in e.saved ==> k in saved))
    && (forall k :: k in flags && flags[k].present == 0 ==>
          if k in e.saved then e.saved[k] == flags[k].value else e.flags[k] == flags[k])
  }

  /** Every configured flag is present, and so is every flag of which the value is saved. */
  ghost predicate AllPresent(flags: FlagMap, config: Settings, e: Entering) {
    && e.flags.Keys == flags.Keys && e.saved.Keys <= flags.Keys
    && (forall k :: k in flags && flags[k].present > 0 ==> e.flags[k].present > 0)
    && (forall i :: 0 <= i < |config| ==> config[i].0 in flags && e.flags[config[i].0].present > 0)
    && (forall k :: k in e.saved ==> e.flags[k].present > 0)
  }

  lemma {:induction false} EnterSaves(flags: FlagMap, saved: map<string, string>, config: Settings, parse: Parser)
    requires forall k :: k in saved ==> k in flags && flags[k].present > 0
    ensures Saves(flags, saved, Enter(flags, saved, config, parse))
    decreases |config|
  {
    if config != [] && config[0].0 in flags {
      var (key, value) := config[0];
      if flags[key].present > 0 {
        EnterSaves(flags, saved, config[1..], parse);
      } else if parse(key, value).Some? {
        EnterSaves(flags[key := Flag(parse(key, value).value, 1)], saved[key := flags[key].value], config[1..], parse);
      }
    }
  }

  lemma {:induction false} EnterMarksPresent(flags: FlagMap, saved: map<string, string>, config: Settings, parse: Parser)
    requires forall k :: k in saved ==> k in flags && flags[k].present > 0
    ensures var e := Enter(flags, saved, config, parse); e.error.None? ==> AllPresent(flags, config, e)
    decreases |config|
  {
    if config != [] && config[0].0 in flags {
      var (key, value) := config[0];
      if flags[key].present > 0 {
        EnterMarksPresent(flags, saved, config[1..], parse);
      } else if parse(key, value).Some? {
        EnterMarksPresent(flags[key := Flag(parse(key, value).value, 1)], saved[key := flags[key].value], config[1..], parse);
      }
      assert forall i :: 0 < i < |config| ==> config[i] == config[1..][i - 1];
    }
  }

  /** What entering does to each flag, and what it saves, even if it fails half-way. */
  lemma EnterThenRestore(flags: FlagMap, saved: map<string, string>, config: Settings, parse: Parser)
    requires forall k :: k in saved ==> k in flags && flags[k].present > 0
    ensures var e := Enter(flags, saved, config, parse); Saves(flags, saved, e) && (e.error.None? ==> AllPresent(flags, config, e))
  {
    EnterSaves(flags, saved, config, parse);
    EnterMarksPresent(flags, saved, config, parse);
  }

  ghost predicate DifferentKeys(config: Settings) {
    forall i, j :: 0 <= i < j < |config| ==> config[i].0 != config[j].0
  }

  predicate Configured(config: Settings, key: string) { exists i :: 0 <= i < |config| && config[i].0 == key }

  /** A flag that is not configured is as it was, and nothing is saved of it. */
  lemma {:induction false} EnterLeavesOthers(flags: FlagMap, saved: map<string, string>, config: Settings, parse: Parser, key: string)
    requires !Configured(config, key)
    ensures var e := Enter(flags, saved, config, parse);
            && (key in e.flags <==> key in flags) && (key in flags ==> e.flags[key] == flags[key])
            && (key in e.saved <==> key in saved) && (key in saved ==> e.saved[key] == saved[key])
    decreases |config|
  {
    if config != [] && config[0].0 in flags {
      var (first, value) := config[0];
      assert config[0].0 != key;
      assert forall i :: 0 < i < |config| ==> config[i] == config[1..][i - 1];
      if flags[first].present > 0 {
        EnterLeavesOthers(flags, saved, config[1..], parse, key);
      } else if parse(first, value).Some? {
        EnterLeavesOthers(flags[first := Flag(parse(first, value).value, 1)], saved[first := flags[first].value], config[1..], parse, key);
      }
    }
  }

  /** Inside the context a configured flag that had its default has the value configured for it, parsed, and
      counts as given once; one that had been given keeps its value. */
  lemma {:induction false} EnterOverrides(flags: FlagMap, saved: map<string, string>, config: Settings, parse: Parser, i: nat)
    requires DifferentKeys(config) && i < |config| && Enter(flags, saved, config, parse).error.None?
    ensures var e, (key, value) := Enter(flags, saved, config, parse), config[i];
            && key in flags && key in e.flags
            && if flags[key].present > 0 then e.flags[key] == flags[key]
               else parse(key, value).Some? && e.flags[key] == Flag(parse(key, value).value, 1)
    decreases |config|
  {
    var (first, value) := config[0];
    var rest := config[1..];
    assert forall j :: 0 < j < |config| ==> config[j] == rest[j - 1];
    if flags[first].present > 0 {
      if i > 0 {
        EnterOverrides(flags, saved, rest, parse, i - 1);
      } else {
        EnterLeavesOthers(flags, saved, rest, parse, first);
      }
    } else {
      var nowFlags, nowSaved := flags[first := Flag(parse(first, value).value, 1)], saved[first := flags[first].value];
      if i > 0 {
        EnterOverrides(nowFlags, nowSaved, rest, parse, i - 1);
      } else {
        EnterLeavesOthers(nowFlags, nowSaved, rest, parse, first);
      }
    }
  }

  /** Entering succeeds exactly if every key is a flag and every value of a flag that has its default can be
      parsed. */
  lemma {:induction false} EnterSucceedsIff(flags: FlagMap, saved: map<string, string>, config: Settings, parse: Parser)
    requires DifferentKeys(config)
    ensures Enter(flags, saved, config, parse).error.None?
       <==> forall i :: 0 <= i < |config| ==>
              config[i].0 in flags && (flags[config[i].0].present > 0 || parse(config[i].0, config[i].1).Some?)
    decreases |config|
  {
    if config != [] && config[0].0 in flags {
      var (first, value) := config[0];
      var rest := config[1..];
      assert forall i :: 0 < i < |config| ==> config[i] == rest[i - 1];
      assert forall i :: 0 <= i < |rest| ==> rest[i] == config[i + 1];
      if flags[first].present > 0 {
        EnterSucceedsIff(flags, saved, rest, parse);
      } else if parse(first, value).Some? {
        EnterSucceedsIff(flags[first := Flag(parse(first, value).value, 1)], saved[first := flags[first].value], rest, parse);
      }
    }
  }

  /** And if it fails, it fails at the first key that is no flag, or whose value cannot be parsed. */
  lemma {:induction false} EnterFailsAtFirst(flags: FlagMap, saved: map<string, string>, config: Settings, parse: Parser, i: nat)
    requires DifferentKeys(config) && i < |config|
    requires forall j :: 0 <= j < i ==>
               config[j].0 in flags && (flags[config[j].0].present > 0 || parse(config[j].0, config[j].1).Some?)
    requires config[i].0 !in flags || (flags[config[i].0].present == 0 && parse(config[i].0, config[i].1).None?)
    ensures Enter(flags, saved, config, parse).error ==
            Some(if config[i].0 in flags then InvalidValue(config[i].0) else UnrecognizedOption(config[i].0))
    decreases |config|
  {
    if i > 0 {
      var (first, value) := config[0];
      var rest := config[1..];
      assert forall j :: 0 <= j < |rest| ==> rest[j] == config[j + 1];
      if flags[first].present > 0 {
        EnterFailsAtFirst(flags, saved, rest, parse, i - 1);
      } else {
        EnterFailsAtFirst(flags[first := Flag(parse(first, value).value, 1)], saved[first := flags[first].value], rest, parse, i - 1);
      }
    }
  }

  /** Leaving right after entering restores every flag's value and presence. */
  lemma LeavingUndoesEntering(flags: FlagMap, config: Settings, parse: Parser)
    ensures Restore(Enter(flags, map[], config, parse).flags, Enter(flags, map[], config, parse).saved) == flags
  {
    EnterThenRestore(flags, map[], config, parse);
  }

  // ----- Nested contexts -----

  datatype Op = EnterWith(config: Settings) | Leave

  /** The flags, and the saved values of the contexts that are open, innermost last. */
  datatype State = State(flags: FlagMap, open: seq<map<string, string>>)

  /** Runs a sequence of successful entries and of exits of the innermost context. */
  function Run(s: State, ops: seq<Op>, parse: Parser): Option<State>
    decreases |ops|
  {
    if ops == [] then Some(s) else
      match ops[0]
      case EnterWith(config) =>
        var e := Enter(s.flags, map[], config, parse);
        if e.error.Some? then None else Run(State(e.flags, s.open + [e.saved]), ops[1..], parse)
      case Leave =>
        if s.open == [] then None
        else Run(State(Restore(s.flags, s.open[|s.open| - 1]), s.open[..|s.open| - 1]), ops[1..], parse)
  }

  /** The flags once every open context has been left, innermost first. */
  function Unwind(flags: FlagMap, open: seq<map<string, string>>): FlagMap
    decreases |open|
  {
    if open == [] then flags else Unwind(Restore(flags, open[|open| - 1]), open[..|open| - 1])
  }

  /** At every point of every run, leaving all open contexts gives back the flags of the start; and
      flags that were present at the start have not changed. */
  lemma {:induction false} NestedContextsUnwind(s: State, ops: seq<Op>, parse: Parser)
    requires Run(s, ops, parse).Some?
    ensures Unwind(Run(s, ops, parse).value.flags, Run(s, ops, parse).value.open) == Unwind(s.flags, s.open)
    decreases |ops|
  {
    if ops != [] {
      match ops[0] {
        case EnterWith(config) =>
          var e := Enter(s.flags, map[], config, parse);
          LeavingUndoesEntering(s.flags, config, parse);
          assert (s.open + [e.saved])[..|s.open|] == s.open;
          NestedContextsUnwind(State(e.flags, s.open + [e.saved]), ops[1..], parse);
        case Leave =>
          NestedContextsUnwind(State(Restore(s.flags, s.open[|s.open| - 1]), s.open[..|s.open| - 1]), ops[1..], parse);
      }
    }
  }

  /** Flag k has this value, and no open context will change it. */
  ghost predicate Untouched(s: State, k: string, f: Flag) {
    k in s.flags && s.flags[k] == f && forall i :: 0 <= i < |s.open| ==> k !in s.open[i]
  }

  lemma {:induction false} PresentFlagsStay(s: State, ops: seq<Op>, parse: Parser, k: string, f: Flag)
    requires Run(s, ops, parse).Some? && Untouched(s, k, f) && f.present > 0
    ensures Untouched(Run(s, ops, parse).value, k, f)
    decreases |ops|
  {
    if ops != [] {
      match ops[0] {
        case EnterWith(config) =>
          var e := Enter(s.flags, map[], config, parse);
          EnterThenRestore(s.flags, map[], config, parse);
          PresentFlagsStay(State(e.flags, s.open + [e.saved]), ops[1..], parse, k, f);
        case Leave =>
          PresentFlagsStay(State(Restore(s.flags, s.open[|s.open| - 1]), s.open[..|s.open| - 1]), ops[1..], parse, k, f);
      }
    }
  }

  /** Properly nested contexts: when all of them have been left, every flag's value and presence are
      back; and in between, a flag that was present at the start is what it was. */
  lemma NestedContextsRestore(flags: FlagMap, ops: seq<Op>, parse: Parser)
    requires Run(State(flags, []), ops, parse).Some?
    ensures Run(State(flags, []), ops, parse).value.open == [] ==> Run(State(flags, []), ops, parse).value.flags == flags
    ensures forall k :: k in flags && flags[k].present > 0 ==>
              k in Run(State(flags, []), ops, parse).value.flags && Run(State(flags, []), ops, parse).value.flags[k] == flags[k]
  {
    NestedContextsUnwind(State(flags, []), ops, parse);
    forall k | k in flags && flags[k].present > 0 ensures Untouched(Run(State(flags, []), ops, parse).value, k, flags[k]) {
      PresentFlagsStay(State(flags, []), ops, parse, k, flags[k]);
    }
  }
}
