/** The converter classes of the `field` package; every `convert` is one expression over its argument. */
module FieldConverters {
  import opened Wrappers
  import opened Exceptions
  import opened Ascii
  import opened Patterns
  import opened Naming

  /** The seven `FieldNamingConverter` implementations of the package. */
  datatype Converter =
    | SnakeCaseNamingConverter
    | KebabCaseNamingConverter
    | ScreamingSnakeCaseNamingConverter
    | PascalCaseNamingConverter
    | DromedaryCaseNamingConverter
    | LowercaseNamingConverter
    | UppercaseNamingConverter

  /** The strategy each converter class implements. */
  function StrategyOf(c: Converter): Strategy
  {
    match c
    case SnakeCaseNamingConverter => SnakeCase
    case KebabCaseNamingConverter => KebabCase
    case ScreamingSnakeCaseNamingConverter => ScreamingSnakeCase
    case PascalCaseNamingConverter => PascalCase
    case DromedaryCaseNamingConverter => DromedaryCase
    case LowercaseNamingConverter => Strategy.Lowercase
    case UppercaseNamingConverter => Strategy.Uppercase
  }

  /** `SnakeCaseNamingConverter.convert`. */
  function Snake(name: string): (r: string)
    ensures r == Lower(Separated(name, '_'))
    ensures NoUpper(r)
    ensures |r| == |name| + BoundaryCount(name)
  {
    TwoPassesSeparate(name, '_');
    Lower(ReplaceAll(FollowedByDigit, ReplaceAll(FollowedByCapitalized, name, '_'), '_'))
  }

  /** `KebabCaseNamingConverter.convert`. */
  function Kebab(name: string): (r: string)
    ensures r == Lower(Separated(name, '-'))
    ensures NoUpper(r)
    ensures |r| == |name| + BoundaryCount(name)
  {
    TwoPassesSeparate(name, '-');
    Lower(ReplaceAll(FollowedByDigit, ReplaceAll(FollowedByCapitalized, name, '-'), '-'))
  }

  /** `ScreamingSnakeCaseNamingConverter.convert`: the upper case of the snake case. */
  function ScreamingSnake(name: string): (r: string)
    ensures r == Upper(Separated(name, '_'))
    ensures r == Upper(Snake(name))
    ensures NoLower(r)
    ensures |r| == |name| + BoundaryCount(name)
  {
    TwoPassesSeparate(name, '_');
    FoldAbsorbs(Separated(name, '_'));
    Upper(ReplaceAll(FollowedByDigit, ReplaceAll(FollowedByCapitalized, name, '_'), '_'))
  }

  /** `PascalCaseNamingConverter.convert`: throws on "", else upper-cases the first character only. */
  function Pascal(name: string): (r: Result<string, Error>)
    ensures r.Failure? <==> name == []
    ensures r.Failure? ==> r.error == IllegalArgument
    ensures r.Success? ==> |r.value| == |name| && r.value[0] == ToUpper(name[0]) && r.value[1..] == name[1..]
  {
    if |name| < 1 then Failure(IllegalArgument) else Success(Upper(name[..1]) + name[1..])
  }

  /** `DromedaryCaseNamingConverter.convert`: field names are already dromedary case. */
  function Dromedary(name: string): (r: string)
    ensures r == name
  {
    name
  }

  /** `LowercaseNamingConverter.convert`. */
  function Lowercase(name: string): (r: string)
    ensures |r| == |name| && NoUpper(r)
    ensures forall i :: 0 <= i < |r| ==> SameIgnoringCase(r[i], name[i])
    ensures forall i :: 0 <= i < |r| && !IsLetter(name[i]) ==> r[i] == name[i]
  {
    forall i | 0 <= i < |name| ensures SameIgnoringCase(ToLower(name[i]), name[i]) {
      CaseRoundTrip(name[i]);
    }
    Lower(name)
  }

  /** `UppercaseNamingConverter.convert`. */
  function Uppercase(name: string): (r: string)
    ensures |r| == |name| && NoLower(r)
    ensures forall i :: 0 <= i < |r| ==> SameIgnoringCase(r[i], name[i])
    ensures forall i :: 0 <= i < |r| && !IsLetter(name[i]) ==> r[i] == name[i]
  {
    forall i | 0 <= i < |name| ensures SameIgnoringCase(ToUpper(name[i]), name[i]) {
      CaseRoundTrip(name[i]);
    }
    Upper(name)
  }

  /** `FieldNamingConverter.convert`, dispatched on the converter's class. */
  function Convert(c: Converter, name: string): (r: Result<string, Error>)
    ensures r == Intended(StrategyOf(c), name)
    ensures r.Failure? <==> c == PascalCaseNamingConverter && name == []
  {
    match c
    case SnakeCaseNamingConverter => Success(Snake(name))
    case KebabCaseNamingConverter => Success(Kebab(name))
    case ScreamingSnakeCaseNamingConverter => Success(ScreamingSnake(name))
    case PascalCaseNamingConverter =>
      var p := Pascal(name);
      assert p.Success? ==> p.value == [p.value[0]] + p.value[1..];
      p
    case DromedaryCaseNamingConverter => Success(Dromedary(name))
    case LowercaseNamingConverter => Success(Lowercase(name))
    case UppercaseNamingConverter => Success(Uppercase(name))
  }
}
