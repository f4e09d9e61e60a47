/**
 * The `fieldnaming` package: its own `FieldNamingConverter.of` and its copies of the snake,
 * screaming-snake, pascal, lowercase and uppercase converters. The kebab and dromedary classes
 * that `of` instantiates are not part of this model; they are taken to be the `field` package's bodies.
 */
module FieldNamingConverters {
  import opened Wrappers
  import opened Exceptions
  import opened Ascii
  import opened Patterns
  import opened Naming
  import opened FieldConverters

  /** `FieldNamingConverter.of`: one converter class per strategy, dromedary for the default branch. */
  function Of(strategy: Strategy): (r: Converter)
    ensures StrategyOf(r) == strategy
  {
    match strategy
    case Lowercase => LowercaseNamingConverter
    case Uppercase => UppercaseNamingConverter
    case KebabCase => KebabCaseNamingConverter
    case SnakeCase => SnakeCaseNamingConverter
    case PascalCase => PascalCaseNamingConverter
    case ScreamingSnakeCase => ScreamingSnakeCaseNamingConverter
    case DromedaryCase => DromedaryCaseNamingConverter
  }

  /** `SnakeCaseNamingConverter.convert` of this package. */
  function Snake(name: string): (r: string)
    ensures r == Lower(Separated(name, '_'))
    ensures NoUpper(r)
    ensures |r| == |name| + BoundaryCount(name)
  {
    TwoPassesSeparate(name, '_');
    Lower(ReplaceAll(FollowedByDigit, ReplaceAll(FollowedByCapitalized, name, '_'), '_'))
  }

  /** `ScreamingSnakeCaseNamingConverter.convert` of this package: '_' between words, then upper case. */
  function ScreamingSnake(name: string): (r: string)
    ensures r == Upper(Separated(name, '_'))
    ensures r == Upper(Snake(name))
    ensures NoLower(r)
    ensures |r| == |name| + BoundaryCount(name)
  {
    TwoPassesSeparate(name, '_');
    FoldAbsorbs(Separated(name, '_'));
    Upper(ReplaceAll(FollowedByDigit, ReplaceAll(FollowedByCapitalized, name, '_'), '_'))
  }

  /** `PascalCaseNamingConverter.convert` of this package. */
  function Pascal(name: string): (r: Result<string, Error>)
    ensures r.Failure? <==> name == []
    ensures r.Failure? ==> r.error == IllegalArgument
    ensures r.Success? ==> |r.value| == |name| && r.value[0] == ToUpper(name[0]) && r.value[1..] == name[1..]
  {
    if |name| < 1 then Failure(IllegalArgument) else Success(Upper(name[..1]) + name[1..])
  }

  /** `LowercaseNamingConverter.convert` of this package. */
  function Lowercase(name: string): (r: string)
    ensures |r| == |name| && NoUpper(r)
    ensures forall i :: 0 <= i < |r| ==> SameIgnoringCase(r[i], name[i])
    ensures forall i :: 0 <= i < |r| && !IsLetter(name[i]) ==> r[i] == name[i]
    ensures r == Lower(r)
  {
    forall i | 0 <= i < |name| ensures SameIgnoringCase(ToLower(name[i]), name[i]) {
      CaseRoundTrip(name[i]);
    }
    FoldKeepsFolded(name);
    Lower(name)
  }

  /** `UppercaseNamingConverter.convert` of this package. */
  function Uppercase(name: string): (r: string)
    ensures |r| == |name| && NoLower(r)
    ensures forall i :: 0 <= i < |r| ==> SameIgnoringCase(r[i], name[i])
    ensures forall i :: 0 <= i < |r| && !IsLetter(name[i]) ==> r[i] == name[i]
    ensures r == Upper(r)
  {
    forall i | 0 <= i < |name| ensures SameIgnoringCase(ToUpper(name[i]), name[i]) {
      CaseRoundTrip(name[i]);
    }
    FoldKeepsFolded(name);
    Upper(name)
  }

  /** `convert` of the class `of` returned; classes this package lacks use the `field` bodies. */
  function Convert(c: Converter, name: string): (r: Result<string, Error>)
    ensures r == Intended(StrategyOf(c), name)
    ensures r.Failure? <==> c == PascalCaseNamingConverter && name == []
  {
    match c
    case SnakeCaseNamingConverter => Success(Snake(name))
    case ScreamingSnakeCaseNamingConverter => Success(ScreamingSnake(name))
    case PascalCaseNamingConverter =>
      var p := Pascal(name);
      assert p.Success? ==> p.value == [p.value[0]] + p.value[1..];
      p
    case LowercaseNamingConverter => Success(Lowercase(name))
    case UppercaseNamingConverter => Success(Uppercase(name))
    case _ => FieldConverters.Convert(c, name)
  }

  /** The converter `of` picks produces what its strategy is meant to produce, as in the other packages. */
  lemma OfConverts(strategy: Strategy, name: string)
    ensures Convert(Of(strategy), name) == Intended(strategy, name)
    ensures Convert(Of(strategy), name) == FieldConverters.Convert(Of(strategy), name)
  {
  }

  /** Pascal case keeps every character after the first, so interior separators survive. */
  lemma PascalKeepsInterior(name: string, i: nat)
    requires 0 < i < |name|
    ensures Pascal(name).Success? && Pascal(name).value[i] == name[i]
  {
    assert Pascal(name).value[1..][i - 1] == name[1..][i - 1];
  }
}
