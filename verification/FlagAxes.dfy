/** The configurations of one benchmark: its zipped flag axes crossed with its flag matrix. */
module FlagAxes {
  import opened Common

  type Value = string
  type Flags = map<string, Value>

  /** A flag with its values: one axis of a zip or of a matrix. Names are the keys of a dict. */
  datatype Axis = Axis(flag: string, values: seq<Value>)

  // ----- Dictionaries -----

  class FlagDict {
    var entries: Flags

    constructor (entries: Flags)
      ensures this.entries == entries
    {
      this.entries := entries;
    }

    method Update(other: Flags)
      modifies this
      ensures entries == old(entries) + other
    {
      entries := entries + other;
    }
  }

  /** A benchmark config: its 'flags' entry, if it has one, and its other entries. */
  class Config {
    var flags: FlagDict?
    var other: map<string, string>

    constructor (flags: FlagDict?, other: map<string, string>)
      ensures this.flags == flags && this.other == other
    {
      this.flags, this.other := flags, other;
    }

    function LocalFlags(): (r: Flags)
      reads this, flags
      ensures flags == null ==> r == map[]
      ensures flags != null ==> r == flags.entries
    {
      if flags == null then map[] else flags.entries
    }
  }

  /** Settings laid over base one after another. */
  function Overlay(base: Flags, settings: seq<Flags>): Flags
    decreases |settings|
  {
    if settings == [] then base else Overlay(base + settings[0], settings[1..])
  }

  /** _GetConfigForAxis. Nothing that existed before is modified. */
  method GetConfigForAxis(benchmarkConfig: Config, globalFlags: FlagDict, flagConfig: seq<Flags>) returns (config: Config)
    ensures fresh(config) && config.flags != null && fresh(config.flags) && config.other == benchmarkConfig.other
    ensures config.flags.entries == Overlay(globalFlags.entries + benchmarkConfig.LocalFlags(), flagConfig)
  {
    config := new Config(benchmarkConfig.flags, benchmarkConfig.other);
    var localFlags := config.LocalFlags();
    var flags := new FlagDict(globalFlags.entries);
    config.flags := flags;
    flags.Update(localFlags);
    for k := 0 to |flagConfig|
      invariant fresh(flags) && config.flags == flags && config.other == benchmarkConfig.other
      invariant Overlay(flags.entries, flagConfig[k..]) == Overlay(globalFlags.entries + benchmarkConfig.LocalFlags(), flagConfig)
    {
      flags.Update(flagConfig[k]);
    }
  }

  // ----- Axes -----

  /** [{flag: v} for v in values]. */
  function Settings(axis: Axis): (r: seq<Flags>)
    ensures |r| == |axis.values| && forall i :: 0 <= i < |r| ==> r[i] == map[axis.flag := axis.values[i]]
  {
    seq(|axis.values|, i requires 0 <= i < |axis.values| => map[axis.flag := axis.values[i]])
  }

  predicate SameLength(axes: seq<Axis>) { forall k :: 0 <= k < |axes| ==> |axes[k].values| == |axes[0].values| }

  /** The settings in row i of the zip. */
  function RowSettings(zip: seq<Axis>, i: nat): (r: seq<Flags>)
    requires forall k :: 0 <= k < |zip| ==> i < |zip[k].values|
    ensures |r| == |zip|
  {
    seq(|zip|, k requires 0 <= k < |zip| => map[zip[k].flag := zip[k].values[i]])
  }

  /** itertools.product: the last axis varies fastest. */
  function Product(axes: seq<seq<Flags>>): seq<seq<Flags>> {
    if axes == [] then [[]] else Prepend(axes[0], Product(axes[1..]))
  }

  function Prepend(firsts: seq<Flags>, rests: seq<seq<Flags>>): seq<seq<Flags>> {
    if firsts == [] then [] else
      seq(|rests|, i requires 0 <= i < |rests| => [firsts[0]] + rests[i]) + Prepend(firsts[1..], rests)
  }

  /** The axes that are crossed: the merged rows of the zip, if there is one, then the matrix. */
  function Crossed(base: Flags, zip: seq<Axis>, matrix: seq<Axis>): seq<seq<Flags>>
    requires SameLength(zip)
  {
    (if zip == [] then [] else [ZipRows(base, zip)]) + seq(|matrix|, k requires 0 <= k < |matrix| => Settings(matrix[k]))
  }

  function ZipRows(base: Flags, zip: seq<Axis>): (r: seq<Flags>)
    requires SameLength(zip) && zip != []
    ensures |r| == |zip[0].values| && forall i :: 0 <= i < |r| ==> r[i] == Overlay(base, RowSettings(zip, i))
  {
    seq(|zip[0].values|, i requires 0 <= i < |zip[0].values| => Overlay(base, RowSettings(zip, i)))
  }

  /** The final flags of every combination that passes the filter, in order. */
  function FinalFlags(base: Flags, combinations: seq<seq<Flags>>, filter: Flags -> bool): seq<Flags> {
    if combinations == [] then [] else
      var flags := Overlay(base, combinations[|combinations| - 1]);
      FinalFlags(base, combinations[..|combinations| - 1], filter) + if filter(flags) then [flags] else []
  }

  /** [x] * copies for every x. */
  function Repeated<T>(xs: seq<T>, copies: int): seq<T> {
    if xs == [] then [] else Repeated(xs[..|xs| - 1], copies) + seq(if copies < 0 then 0 else copies, _ => xs[|xs| - 1])
  }

  /** Config objects with these flags. */
  ghost predicate Hold(configs: seq<Config>, flags: seq<Flags>, other: map<string, string>)
    reads configs, set c | c in configs && c.flags != null :: c.flags
  {
    && |configs| == |flags|
    && forall i :: 0 <= i < |configs| ==>
         configs[i].flags != null && configs[i].flags.entries == flags[i] && configs[i].other == other
  }

  /** [config['flags'] for config in configs]. */
  function EntriesOf(configs: seq<Config>): (r: seq<Flags>)
    requires forall c :: c in configs ==> c.flags != null
    reads configs, set c | c in configs && c.flags != null :: c.flags
    ensures |r| == |configs| && forall i :: 0 <= i < |r| ==> r[i] == configs[i].flags.entries
  {
    if configs == [] then [] else [configs[0].flags.entries] + EntriesOf(configs[1..])
  }

  /** The zip part: one config per row. None stands for the ValueError of _AssertZipAxesHaveSameLength. */
  method ZipConfigs(benchmarkConfig: Config, globalFlags: FlagDict, zip: seq<Axis>) returns (zipped: Option<seq<Config>>)
    requires zip != []
    ensures zipped.Some? <==> SameLength(zip)
    ensures zipped.Some? <==> forall j, k :: 0 <= j < |zip| && 0 <= k < |zip| ==> |zip[j].values| == |zip[k].values|
    ensures zipped.Some? ==> Hold(zipped.value, ZipRows(globalFlags.entries + benchmarkConfig.LocalFlags(), zip), benchmarkConfig.other)
    ensures zipped.Some? ==> forall c :: c in zipped.value ==> fresh(c) && c.flags != null && fresh(c.flags)
  {
    var expectedLength := |zip[0].values|;
    for k := 1 to |zip|
      invariant forall j :: 0 <= j < k ==> |zip[j].values| == expectedLength
    {
      if |zip[k].values| != expectedLength {
        return None;
      }
    }
    ghost var rows := ZipRows(globalFlags.entries + benchmarkConfig.LocalFlags(), zip);
    var made: seq<Config> := [];
    for i := 0 to expectedLength
      invariant |made| == i && Hold(made, rows[..i], benchmarkConfig.other)
      invariant forall c :: c in made ==> fresh(c) && c.flags != null && fresh(c.flags)
    {
      var config := GetConfigForAxis(benchmarkConfig, globalFlags, RowSettings(zip, i));
      made := made + [config];
    }
    assert rows[..expectedLength] == rows;
    zipped := Some(made);
  }

  /** The axes to cross, or None for the ValueError of the zip. */
  method CrossedAxes(benchmarkConfig: Config, globalFlags: FlagDict, zip: seq<Axis>, matrix: seq<Axis>)
    returns (axes: Option<seq<seq<Flags>>>)
    ensures axes.Some? <==> SameLength(zip)
    ensures axes.Some? ==> axes.value == Crossed(globalFlags.entries + benchmarkConfig.LocalFlags(), zip, matrix)
  {
    var crossedAxes: seq<seq<Flags>> := [];
    if zip != [] {
      var zipped := ZipConfigs(benchmarkConfig, globalFlags, zip);
      if zipped.None? {
        return None;
      }
      crossedAxes := [EntriesOf(zipped.value)];
      assert EntriesOf(zipped.value) == ZipRows(globalFlags.entries + benchmarkConfig.LocalFlags(), zip);
    }
    axes := Some(crossedAxes + seq(|matrix|, k requires 0 <= k < |matrix| => Settings(matrix[k])));
  }

  lemma OneMoreCombination(base: Flags, combinations: seq<seq<Flags>>, filter: Flags -> bool, k: nat)
    requires k < |combinations|
    ensures FinalFlags(base, combinations[..k + 1], filter) ==
            FinalFlags(base, combinations[..k], filter)
              + if filter(Overlay(base, combinations[k])) then [Overlay(base, combinations[k])] else []
  {
    assert combinations[..k + 1][..k] == combinations[..k];
  }

  lemma RepeatedOneMore<T>(xs: seq<T>, x: T, copies: int)
    ensures Repeated(xs + [x], copies) == Repeated(xs, copies) + seq(if copies < 0 then 0 else copies, _ => x)
  {
    assert (xs + [x])[..|xs|] == xs;
  }

  lemma HoldOneMore(configs: seq<Config>, flags: seq<Flags>, other: map<string, string>, config: Config)
    requires Hold(configs, flags, other) && config.flags != null && config.other == other
    ensures Hold(configs + [config], flags + [config.flags.entries], other)
  {
  }

  /** One more config, beside those that were made before. */
  method AnotherConfig(benchmarkConfig: Config, globalFlags: FlagDict, flagConfig: seq<Flags>,
                       ghost base: Flags, ghost made: seq<Config>, ghost flags: seq<Flags>) returns (config: Config)
    requires base == globalFlags.entries + benchmarkConfig.LocalFlags() && Hold(made, flags, benchmarkConfig.other)
    ensures fresh(config) && config.flags != null && fresh(config.flags)
    ensures base == globalFlags.entries + benchmarkConfig.LocalFlags() && config.flags.entries == Overlay(base, flagConfig)
    ensures Hold(made, flags, benchmarkConfig.other) && Hold(made + [config], flags + [config.flags.entries], benchmarkConfig.other)
  {
    config := GetConfigForAxis(benchmarkConfig, globalFlags, flagConfig);
    HoldOneMore(made, flags, benchmarkConfig.other, config);
  }

  /** One config for every combination that passes the filter, and copies of it in the list returned. */
  method ConfigsOf(benchmarkConfig: Config, globalFlags: FlagDict, combinations: seq<seq<Flags>>,
                   filter: Flags -> bool, copies: int) returns (configs: seq<Config>, ghost made: seq<Config>)
    ensures Hold(made, FinalFlags(globalFlags.entries + benchmarkConfig.LocalFlags(), combinations, filter), benchmarkConfig.other)
    ensures forall c :: c in made ==> fresh(c) && c.flags != null && fresh(c.flags)
    ensures configs == Repeated(made, copies)
  {
    configs, made := [], [];
    ghost var base := globalFlags.entries + benchmarkConfig.LocalFlags();
    ghost var flags := [];
    for k := 0 to |combinations|
      invariant base == globalFlags.entries + benchmarkConfig.LocalFlags()
      invariant flags == FinalFlags(base, combinations[..k], filter) && Hold(made, flags, benchmarkConfig.other)
      invariant forall c :: c in made ==> fresh(c) && c.flags != null && fresh(c.flags)
      invariant configs == Repeated(made, copies)
    {
      var config := AnotherConfig(benchmarkConfig, globalFlags, combinations[k], base, made, flags);
      OneMoreCombination(base, combinations, filter, k);
      if !filter(config.flags.entries) {
        continue;
      }
      RepeatedOneMore(made, config, copies);
      made, flags := made + [config], flags + [config.flags.entries];
      configs := configs + seq(if copies < 0 then 0 else copies, _ => config);
    }
    assert combinations[..|combinations|] == combinations;
  }

  /** The configs that GetBenchmarksFromFlags makes of one benchmark. The copies of a configuration are
      one and the same config object. */
  method GetConfigs(benchmarkConfig: Config, globalFlags: FlagDict, zip: seq<Axis>, matrix: seq<Axis>,
                    filter: Flags -> bool, copies: int) returns (r: Option<seq<Config>>, ghost made: seq<Config>)
    ensures r.Some? <==> SameLength(zip)
    ensures r.Some? ==>
              var base := globalFlags.entries + benchmarkConfig.LocalFlags();
              && Hold(made, FinalFlags(base, Product(Crossed(base, zip, matrix)), filter), benchmarkConfig.other)
              && (forall c :: c in made ==> fresh(c) && c.flags != null && fresh(c.flags))
              && r.value == Repeated(made, copies)
  {
    made := [];
    var crossedAxes := CrossedAxes(benchmarkConfig, globalFlags, zip, matrix);
    if crossedAxes.None? {
      return None, made;
    }
    var configs;
    configs, made := ConfigsOf(benchmarkConfig, globalFlags, Product(crossedAxes.value), filter, copies);
    r := Some(configs);
  }

  // ----- What the combinations are -----

  /** A choice is one index per axis. */
  predicate IsChoice(axes: seq<seq<Flags>>, choice: seq<nat>) {
    |choice| == |axes| && forall k :: 0 <= k < |axes| ==> choice[k] < |axes[k]|
  }

  function Pick(axes: seq<seq<Flags>>, choice: seq<nat>): (r: seq<Flags>)
    requires IsChoice(axes, choice)
    ensures |r| == |axes|
  {
    seq(|axes|, k requires 0 <= k < |axes| => axes[k][choice[k]])
  }

  /** The number of choices. */
  function Choices(axes: seq<seq<Flags>>): nat {
    if axes == [] then 1 else |axes[0]| * Choices(axes[1..])
  }

  /** The position of a choice when the last index varies fastest. */
  function Rank(axes: seq<seq<Flags>>, choice: seq<nat>): nat
    requires IsChoice(axes, choice)
  {
    if axes == [] then 0 else choice[0] * Choices(axes[1..]) + Rank(axes[1..], choice[1..])
  }

  lemma FirstIndex(axes: seq<seq<Flags>>, n: nat)
    requires axes != [] && n < Choices(axes)
    ensures var inner := Choices(axes[1..]);
            inner > 0 && n / inner < |axes[0]| && n % inner < inner && n == n / inner * inner + n % inner
  {
    var inner := Choices(axes[1..]);
    FactorPositive(|axes[0]|, inner);
    QuotientBelow(n, inner, |axes[0]|);
    DivMod(n, inner);
  }

  function Unrank(axes: seq<seq<Flags>>, n: nat): seq<nat>
    requires n < Choices(axes)
  {
    if axes == [] then [] else
      FirstIndex(axes, n);
      var inner := Choices(axes[1..]);
      [n / inner] + Unrank(axes[1..], n % inner)
  }

  lemma PrependShift(firsts: seq<Flags>, rests: seq<seq<Flags>>, n: nat)
    requires firsts != [] && |rests| <= n < |Prepend(firsts, rests)|
    ensures Prepend(firsts, rests)[n] == Prepend(firsts[1..], rests)[n - |rests|]
  {
  }

  lemma {:induction false} PrependAt(firsts: seq<Flags>, rests: seq<seq<Flags>>, i: nat, j: nat)
    requires i < |firsts| && j < |rests|
    ensures i * |rests| + j < |Prepend(firsts, rests)| && Prepend(firsts, rests)[i * |rests| + j] == [firsts[i]] + rests[j]
  {
    if i > 0 {
      PrependAt(firsts[1..], rests, i - 1, j);
      OneMore(i - 1, |rests|);
      PrependShift(firsts, rests, i * |rests| + j);
    }
  }

  lemma {:induction false} PrependSize(firsts: seq<Flags>, rests: seq<seq<Flags>>)
    ensures |Prepend(firsts, rests)| == |firsts| * |rests|
  {
    if firsts != [] {
      PrependSize(firsts[1..], rests);
      OneMore(|firsts| - 1, |rests|);
    }
  }

  lemma {:induction false} ProductSize(axes: seq<seq<Flags>>)
    ensures |Product(axes)| == Choices(axes)
  {
    if axes != [] {
      ProductSize(axes[1..]);
      PrependSize(axes[0], Product(axes[1..]));
    }
  }

  lemma PickFirst(axes: seq<seq<Flags>>, first: nat, rest: seq<nat>)
    requires axes != [] && first < |axes[0]| && IsChoice(axes[1..], rest)
    ensures IsChoice(axes, [first] + rest) && Pick(axes, [first] + rest) == [axes[0][first]] + Pick(axes[1..], rest)
    ensures Rank(axes, [first] + rest) == first * Choices(axes[1..]) + Rank(axes[1..], rest)
  {
    assert ([first] + rest)[1..] == rest;
  }

  /** The n-th combination is the n-th choice: ranks and positions match one to one. */
  lemma {:induction false} ProductAt(axes: seq<seq<Flags>>, choice: seq<nat>)
    requires IsChoice(axes, choice)
    ensures Rank(axes, choice) < |Product(axes)| && Product(axes)[Rank(axes, choice)] == Pick(axes, choice)
  {
    if axes != [] {
      ProductAt(axes[1..], choice[1..]);
      ProductSize(axes[1..]);
      PrependAt(axes[0], Product(axes[1..]), choice[0], Rank(axes[1..], choice[1..]));
      PickFirst(axes, choice[0], choice[1..]);
      assert choice == [choice[0]] + choice[1..];
    }
  }

  lemma {:induction false} RankOfChoice(axes: seq<seq<Flags>>, choice: seq<nat>)
    requires IsChoice(axes, choice)
    ensures Rank(axes, choice) < Choices(axes) && Unrank(axes, Rank(axes, choice)) == choice
  {
    ProductAt(axes, choice);
    ProductSize(axes);
    if axes != [] {
      RankOfChoice(axes[1..], choice[1..]);
      DivModUnique(Rank(axes, choice), Choices(axes[1..]), choice[0], Rank(axes[1..], choice[1..]));
      assert choice == [choice[0]] + choice[1..];
    }
  }

  lemma {:induction false} ChoiceOfRank(axes: seq<seq<Flags>>, n: nat)
    requires n < Choices(axes)
    ensures IsChoice(axes, Unrank(axes, n)) && Rank(axes, Unrank(axes, n)) == n
  {
    if axes != [] {
      FirstIndex(axes, n);
      var inner := Choices(axes[1..]);
      var q, r := n / inner, n % inner;
      ChoiceOfRank(axes[1..], r);
      PickFirst(axes, q, Unrank(axes[1..], r));
    }
  }

  lemma PickAppend(axes: seq<seq<Flags>>, last: seq<Flags>, choice: seq<nat>, j: nat)
    requires IsChoice(axes, choice) && j < |last|
    ensures IsChoice(axes + [last], choice + [j]) && Pick(axes + [last], choice + [j]) == Pick(axes, choice) + [last[j]]
  {
  }

  /** A further axis varies fastest: every combination of the others is followed by all its values in turn. */
  lemma {:induction false} ProductAppend(axes: seq<seq<Flags>>, last: seq<Flags>, p: nat, j: nat)
    requires p < |Product(axes)| && j < |last|
    ensures |Product(axes + [last])| == |Product(axes)| * |last| && p * |last| + j < |Product(axes + [last])|
    ensures Product(axes + [last])[p * |last| + j] == Product(axes)[p] + [last[j]]
  {
    ProductSize(axes);
    ProductSize(axes + [last]);
    ChoicesAppend(axes, last);
    ChoiceOfRank(axes, p);
    var choice := Unrank(axes, p);
    RankAppend(axes, last, choice, j);
    ProductAt(axes, choice);
    ProductAt(axes + [last], choice + [j]);
    PickAppend(axes, last, choice, j);
  }

  lemma {:induction false} ChoicesAppend(axes: seq<seq<Flags>>, last: seq<Flags>)
    ensures Choices(axes + [last]) == Choices(axes) * |last|
  {
    if axes == [] {
      assert axes + [last] == [last] && [last][1..] == [];
    } else {
      ChoicesAppend(axes[1..], last);
      assert (axes + [last])[1..] == axes[1..] + [last];
      Associative(|axes[0]|, Choices(axes[1..]), |last|);
    }
  }

  lemma Associative(a: nat, b: nat, c: nat)
    ensures a * (b * c) == a * b * c
  {
  }

  lemma {:induction false} RankAppend(axes: seq<seq<Flags>>, last: seq<Flags>, choice: seq<nat>, j: nat)
    requires IsChoice(axes, choice) && j < |last|
    ensures IsChoice(axes + [last], choice + [j]) && Rank(axes + [last], choice + [j]) == Rank(axes, choice) * |last| + j
  {
    var longer, more := axes + [last], choice + [j];
    assert IsChoice(longer, more);
    if axes == [] {
      assert longer == [last] && more == [j] && [last][1..] == [] && [j][1..] == [];
      assert Choices([last][1..]) == 1;
    } else {
      RankAppend(axes[1..], last, choice[1..], j);
      ChoicesAppend(axes[1..], last);
      assert longer[1..] == axes[1..] + [last] && more[1..] == choice[1..] + [j];
      Associative(choice[0], Choices(axes[1..]), |last|);
      Distributive(choice[0] * Choices(axes[1..]), Rank(axes[1..], choice[1..]), |last|);
    }
  }

  lemma Distributive(a: nat, b: nat, c: nat)
    ensures (a + b) * c == a * c + b * c
  {
  }

  // ----- What the filter lets through -----

  /** The flags that remain are those of the combinations that pass, each once and in order. */
  lemma {:induction false} FilterKeeps(base: Flags, combinations: seq<seq<Flags>>, filter: Flags -> bool) returns (kept: seq<nat>)
    ensures |FinalFlags(base, combinations, filter)| == |kept|
    ensures forall i :: 0 <= i < |kept| ==> kept[i] < |combinations|
    ensures forall i, j :: 0 <= i < j < |kept| ==> kept[i] < kept[j]
    ensures forall i :: 0 <= i < |kept| ==> FinalFlags(base, combinations, filter)[i] == Overlay(base, combinations[kept[i]])
    ensures forall n: nat :: n < |combinations| ==> (n in kept <==> filter(Overlay(base, combinations[n])))
    decreases |combinations|
  {
    if combinations == [] {
      kept := [];
    } else {
      var n := |combinations| - 1;
      var front := combinations[..n];
      var before := FilterKeeps(base, front, filter);
      kept := before + if filter(Overlay(base, combinations[n])) then [n] else [];
      assert forall m :: 0 <= m < n ==> front[m] == combinations[m];
      assert n !in before;
    }
  }

  // ----- One config per combination, in layers -----

  /** The number of rows to cross with: 1 if there is no zip. */
  function Rows(zip: seq<Axis>): nat { if zip == [] then 1 else |zip[0].values| }

  /** The product of the lengths of the matrix axes. */
  function MatrixChoices(matrix: seq<Axis>): nat {
    if matrix == [] then 1 else |matrix[0].values| * MatrixChoices(matrix[1..])
  }

  predicate IsMatrixChoice(matrix: seq<Axis>, choice: seq<nat>) {
    |choice| == |matrix| && forall k :: 0 <= k < |matrix| ==> choice[k] < |matrix[k].values|
  }

  function ChosenSettings(matrix: seq<Axis>, choice: seq<nat>): seq<Flags>
    requires IsMatrixChoice(matrix, choice)
  {
    seq(|matrix|, k requires 0 <= k < |matrix| => map[matrix[k].flag := matrix[k].values[choice[k]]])
  }

  /** The row of the zip, merged; nothing if there is no zip. */
  function Row(zip: seq<Axis>, z: nat): Flags
    requires SameLength(zip) && z < Rows(zip)
  {
    if zip == [] then map[] else Overlay(map[], RowSettings(zip, z))
  }

  lemma {:induction false} OverlayIsUnion(base: Flags, settings: seq<Flags>)
    ensures Overlay(base, settings) == base + Overlay(map[], settings)
    decreases |settings|
  {
    if settings != [] {
      OverlayIsUnion(base + settings[0], settings[1..]);
      OverlayIsUnion(map[] + settings[0], settings[1..]);
      assert map[] + settings[0] == settings[0];
    }
  }

  lemma {:induction false} MatrixSize(matrix: seq<Axis>)
    ensures Choices(seq(|matrix|, k requires 0 <= k < |matrix| => Settings(matrix[k]))) == MatrixChoices(matrix)
  {
    var axes := seq(|matrix|, k requires 0 <= k < |matrix| => Settings(matrix[k]));
    if matrix != [] {
      assert axes[1..] == seq(|matrix[1..]|, k requires 0 <= k < |matrix[1..]| => Settings(matrix[1..][k]));
      MatrixSize(matrix[1..]);
    }
  }

  lemma CrossedSize(base: Flags, zip: seq<Axis>, matrix: seq<Axis>)
    requires SameLength(zip)
    ensures |Product(Crossed(base, zip, matrix))| == Rows(zip) * MatrixChoices(matrix)
  {
    var axes := Crossed(base, zip, matrix);
    var matrixAxes := seq(|matrix|, k requires 0 <= k < |matrix| => Settings(matrix[k]));
    ProductSize(axes);
    MatrixSize(matrix);
    if zip == [] {
      assert axes == matrixAxes;
    } else {
      assert axes[1..] == matrixAxes;
    }
  }

  lemma {:induction false} UnfilteredFlags(base: Flags, combinations: seq<seq<Flags>>)
    ensures |FinalFlags(base, combinations, _ => true)| == |combinations|
    ensures forall n :: 0 <= n < |combinations| ==> FinalFlags(base, combinations, _ => true)[n] == Overlay(base, combinations[n])
    decreases |combinations|
  {
    if combinations != [] {
      UnfilteredFlags(base, combinations[..|combinations| - 1]);
    }
  }

  /** Without a filter there is one config per row of the zip and choice from the matrix, and its flags
      are the global flags, overlaid with the local ones, the row and the choice: laying the row over a
      dictionary that was already merged with the base changes nothing. */
  lemma ConfigPerCombination(globalFlags: Flags, localFlags: Flags, zip: seq<Axis>, matrix: seq<Axis>, z: nat, choice: seq<nat>)
    requires SameLength(zip) && z < Rows(zip) && IsMatrixChoice(matrix, choice)
    ensures var base := globalFlags + localFlags;
            var axes, whole := Crossed(base, zip, matrix), (if zip == [] then [] else [z]) + choice;
            var configs := FinalFlags(base, Product(axes), _ => true);
            && |configs| == Rows(zip) * MatrixChoices(matrix)
            && IsChoice(axes, whole) && Rank(axes, whole) < |configs|
            && configs[Rank(axes, whole)] == globalFlags + localFlags + Row(zip, z) + Overlay(map[], ChosenSettings(matrix, choice))
  {
    var base := globalFlags + localFlags;
    var axes, whole := Crossed(base, zip, matrix), (if zip == [] then [] else [z]) + choice;
    CrossedSize(base, zip, matrix);
    UnfilteredFlags(base, Product(axes));
    ProductAt(axes, whole);
    LayersOf(base, zip, matrix, z, choice);
  }

  lemma LayersOf(base: Flags, zip: seq<Axis>, matrix: seq<Axis>, z: nat, choice: seq<nat>)
    requires SameLength(zip) && z < Rows(zip) && IsMatrixChoice(matrix, choice)
    requires IsChoice(Crossed(base, zip, matrix), (if zip == [] then [] else [z]) + choice)
    ensures Overlay(base, Pick(Crossed(base, zip, matrix), (if zip == [] then [] else [z]) + choice)) ==
            base + Row(zip, z) + Overlay(map[], ChosenSettings(matrix, choice))
  {
    var axes, whole, chosen := Crossed(base, zip, matrix), (if zip == [] then [] else [z]) + choice, ChosenSettings(matrix, choice);
    if zip == [] {
      assert Pick(axes, whole) == chosen;
      OverlayIsUnion(base, chosen);
      assert base + map[] == base;
    } else {
      var row := Overlay(base, RowSettings(zip, z));
      assert Pick(axes, whole) == [row] + chosen;
      OverlayIsUnion(base + row, chosen);
      OverlayIsUnion(base, RowSettings(zip, z));
      assert base + row == base + Row(zip, z);
    }
  }

  /** Every config belongs to exactly one combination. */
  lemma CombinationPerConfig(axes: seq<seq<Flags>>, n: nat, choice: seq<nat>)
    requires n < Choices(axes) && IsChoice(axes, choice)
    ensures |Product(axes)| == Choices(axes)
    ensures IsChoice(axes, Unrank(axes, n)) && Product(axes)[n] == Pick(axes, Unrank(axes, n))
    ensures Rank(axes, choice) == n <==> choice == Unrank(axes, n)
  {
    ProductSize(axes);
    ChoiceOfRank(axes, n);
    RankOfChoice(axes, choice);
    ProductAt(axes, Unrank(axes, n));
  }

  ghost predicate DistinctFlags(axes: seq<Axis>) {
    forall j, k :: 0 <= j < k < |axes| ==> axes[j].flag != axes[k].flag
  }

  lemma {:induction false} SinglesLookup(base: Flags, axes: seq<Axis>, choice: seq<nat>)
    requires IsMatrixChoice(axes, choice) && DistinctFlags(axes)
    ensures var r := Overlay(base, ChosenSettings(axes, choice));
            && (forall k :: 0 <= k < |axes| ==> axes[k].flag in r && r[axes[k].flag] == axes[k].values[choice[k]])
            && (forall f :: (forall k :: 0 <= k < |axes| ==> axes[k].flag != f) ==>
                  (f in r <==> f in base) && (f in base ==> r[f] == base[f]))
    decreases |axes|
  {
    if axes != [] {
      var first := map[axes[0].flag := axes[0].values[choice[0]]];
      SinglesLookup(base + first, axes[1..], choice[1..]);
      assert ChosenSettings(axes, choice)[1..] == ChosenSettings(axes[1..], choice[1..]);
      assert forall k :: 1 <= k < |axes| ==> axes[k] == axes[1..][k - 1];
    }
  }

  /** Who decides the value of a flag: the matrix before the zip, the zip before the config itself, and
      the config before the global flags. */
  lemma LayeredLookup(globalFlags: Flags, localFlags: Flags, zip: seq<Axis>, matrix: seq<Axis>, z: nat, choice: seq<nat>, f: string)
    requires SameLength(zip) && z < Rows(zip) && IsMatrixChoice(matrix, choice) && DistinctFlags(zip) && DistinctFlags(matrix)
    ensures var flags := globalFlags + localFlags + Row(zip, z) + Overlay(map[], ChosenSettings(matrix, choice));
            var inMatrix, inZip := exists k :: 0 <= k < |matrix| && matrix[k].flag == f, exists k :: 0 <= k < |zip| && zip[k].flag == f;
            && (forall k :: 0 <= k < |matrix| && matrix[k].flag == f ==> f in flags && flags[f] == matrix[k].values[choice[k]])
            && (!inMatrix ==> forall k :: 0 <= k < |zip| && zip[k].flag == f ==> f in flags && flags[f] == zip[k].values[z])
            && (!inMatrix && !inZip && f in localFlags ==> f in flags && flags[f] == localFlags[f])
            && (!inMatrix && !inZip && f !in localFlags ==>
                  (f in flags <==> f in globalFlags) && (f in globalFlags ==> flags[f] == globalFlags[f]))
  {
    SinglesLookup(map[], matrix, choice);
    if zip != [] {
      var sameRow := seq(|zip|, _ => z);
      SinglesLookup(map[], zip, sameRow);
      assert ChosenSettings(zip, sameRow) == RowSettings(zip, z);
    }
  }

  /** Copy j of config i. */
  lemma {:induction false} RepeatedAt<T>(xs: seq<T>, copies: nat, i: nat, j: nat)
    requires i < |xs| && j < copies
    ensures |Repeated(xs, copies)| == |xs| * copies && i * copies + j < |xs| * copies
    ensures Repeated(xs, copies)[i * copies + j] == xs[i]
  {
    RepeatedSize(xs, copies);
    RepeatedSize(xs[..|xs| - 1], copies);
    OneMore(i, copies);
    MulMono(i + 1, |xs|, copies);
    OneMore(|xs| - 1, copies);
    if i < |xs| - 1 {
      RepeatedAt(xs[..|xs| - 1], copies, i, j);
    }
  }

  lemma {:induction false} RepeatedSize<T>(xs: seq<T>, copies: nat)
    ensures |Repeated(xs, copies)| == |xs| * copies
  {
    if xs != [] {
      RepeatedSize(xs[..|xs| - 1], copies);
      OneMore(|xs| - 1, copies);
    }
  }
}
