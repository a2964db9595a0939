/** Merge strategies, the merge configuration and the functional options that set it up. */
module MergeConfig {
  import opened Common
  import opened Values

  /** MergeStrategy is a Go int; these are its four named values. */
  type MergeStrategy = int
  const Overwrite: MergeStrategy := 0
  const AppendAdditive: MergeStrategy := 1
  const UniqueFirstSeen: MergeStrategy := 2
  const UniqueLastSeen: MergeStrategy := 3

  /** MergeStrategy.String: the four names, with every out-of-range value shown as "overwrite". */
  function StrategyName(mt: MergeStrategy): (r: string)
    ensures r in {"overwrite", "additive", "unique-first-seen", "unique-last-seen"}
    ensures r == "overwrite" <==> !(AppendAdditive <= mt <= UniqueLastSeen)
    ensures mt == AppendAdditive ==> r == "additive"
    ensures mt == UniqueFirstSeen ==> r == "unique-first-seen"
    ensures mt == UniqueLastSeen ==> r == "unique-last-seen"
  {
    var names := ["overwrite", "additive", "unique-first-seen", "unique-last-seen"];
    if mt < AppendAdditive || mt > UniqueLastSeen then names[0] else names[mt]
  }

  /** Each named non-default strategy has a name of its own. */
  lemma StrategyNamesDistinct(a: MergeStrategy, b: MergeStrategy)
    requires AppendAdditive <= a <= UniqueLastSeen && a != b
    ensures StrategyName(a) != StrategyName(b)
  {
  }

  /** What a transformer does with (dst, src): a new value for dst, or an error. */
  datatype TransformResult = Transformed(v: Value) | TransformFailed(msg: string)

  /** The Transformers hook: a lookup from the destination's type to an optional merge function. */
  datatype Transformers = Transformers(lookup: TypeTag -> Option<(Value, Value) -> TransformResult>)

  datatype Config = Config(
    skipEmptyFields: bool,
    override: bool,
    appendSlice: bool,
    strategy: MergeStrategy,
    transformers: Option<Transformers>)

  /** The zero Config{} every merge call starts from. */
  const Default: Config := Config(false, false, false, Overwrite, None)

  /** A functional option `func(*Config)`. Custom stands for any other option, such as the one
      a caller's merge settings provide or `func(c) { c.SkipEmptyFields = false }`. */
  datatype ConfigOption =
    | WithOverride
    | WithAppendSlice
    | WithAppend
    | WithUniqueFirstSeen
    | WithUniqueLastSeen
    | WithTransformers(t: Transformers)
    | Custom(f: Config -> Config)

  function ApplyOption(c: Config, o: ConfigOption): (r: Config)
    ensures StrategySetBy(o).Some? ==> r.strategy == StrategySetBy(o).value && r.appendSlice
    ensures !o.Custom? && StrategySetBy(o).None? ==> r.strategy == c.strategy && r.appendSlice == c.appendSlice
    ensures !o.Custom? ==> r.skipEmptyFields == c.skipEmptyFields
    ensures !o.Custom? && !o.WithOverride? ==> r.override == c.override
    ensures o == WithOverride ==> r.override
    ensures !o.Custom? && !o.WithTransformers? ==> r.transformers == c.transformers
  {
    match o
    case WithOverride => c.(override := true)
    case WithAppendSlice => c.(appendSlice := true, strategy := AppendAdditive)
    case WithAppend => c.(appendSlice := true, strategy := AppendAdditive)
    case WithUniqueFirstSeen => c.(appendSlice := true, strategy := UniqueFirstSeen)
    case WithUniqueLastSeen => c.(appendSlice := true, strategy := UniqueLastSeen)
    case WithTransformers(t) => c.(transformers := Some(t))
    case Custom(f) => f(c)
  }

  /** The options applied one after another, in the order given. */
  function ApplyOptions(c: Config, opts: seq<ConfigOption>): (r: Config)
    ensures (forall j :: 0 <= j < |opts| ==> !opts[j].Custom?) ==> r.skipEmptyFields == c.skipEmptyFields
    ensures (forall j :: 0 <= j < |opts| ==> !opts[j].Custom? && !opts[j].WithTransformers?) ==> r.transformers == c.transformers
  {
    if opts == [] then c else ApplyOption(ApplyOptions(c, opts[..|opts| - 1]), opts[|opts| - 1])
  }

  /** The strategy an option sets, if it sets one. */
  function StrategySetBy(o: ConfigOption): Option<MergeStrategy>
  {
    match o
    case WithAppendSlice => Some(AppendAdditive)
    case WithAppend => Some(AppendAdditive)
    case WithUniqueFirstSeen => Some(UniqueFirstSeen)
    case WithUniqueLastSeen => Some(UniqueLastSeen)
    case _ => None
  }

  /** `for _, opt := range opts { opt(config) }` on a fresh Config. */
  method Configure(opts: seq<ConfigOption>) returns (c: Config)
    ensures c == ApplyOptions(Default, opts)
  {
    c := Default;
    var i := 0;
    while i < |opts|
      invariant 0 <= i <= |opts|
      invariant c == ApplyOptions(Default, opts[..i])
    {
      assert opts[..i + 1][..i] == opts[..i];
      c := ApplyOption(c, opts[i]);
      i := i + 1;
    }
    assert opts[..i] == opts;
  }

  /** Options apply in order: the last option that sets a strategy decides it, as long as no
      later option is a custom one. */
  lemma {:induction false} LastStrategyWins(c: Config, opts: seq<ConfigOption>, i: nat)
    requires i < |opts| && StrategySetBy(opts[i]).Some?
    requires forall j :: i < j < |opts| ==> StrategySetBy(opts[j]).None? && !opts[j].Custom?
    ensures ApplyOptions(c, opts).strategy == StrategySetBy(opts[i]).value
    ensures ApplyOptions(c, opts).appendSlice
    decreases |opts|
  {
    var n := |opts| - 1;
    if i < n {
      assert opts[..n][i] == opts[i];
      LastStrategyWins(c, opts[..n], i);
    }
  }

  /** WithOverride, once applied, stays in force unless a custom option resets it. */
  lemma {:induction false} OverrideSticks(c: Config, opts: seq<ConfigOption>, i: nat)
    requires i < |opts| && opts[i] == WithOverride
    requires forall j :: i < j < |opts| ==> !opts[j].Custom?
    ensures ApplyOptions(c, opts).override
    decreases |opts|
  {
    var n := |opts| - 1;
    if i < n {
      assert opts[..n][i] == opts[i];
      OverrideSticks(c, opts[..n], i);
    }
  }
}
