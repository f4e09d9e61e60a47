/**
 * The `name` package: its own `FieldNamingConverter.of` and its copies of the kebab, lowercase,
 * uppercase and dromedary converters. The snake, pascal and screaming-snake classes that `of`
 * instantiates are not part of this model; they are taken to be the `field` package's bodies.
 */
module NameConverters {
  import opened Wrappers
  import opened Exceptions
  import opened Ascii
  import opened Patterns
  import opened Naming
  import opened FieldConverters

  /** `FieldNamingConverter.of`: one converter class per strategy, dromedary for the default branch. */
  function Of(strategy: Strategy): (r: Converter)
    ensures StrategyOf(r) == strategy
  {
    match strategy
    case Lowercase => LowercaseNamingConverter
    case Uppercase => UppercaseNamingConverter
    case KebabCase => KebabCaseNamingConverter
    case SnakeCase => SnakeCaseNamingConverter
    case PascalCase => PascalCaseNamingConverter
    case ScreamingSnakeCase => ScreamingSnakeCaseNamingConverter
    case DromedaryCase => DromedaryCaseNamingConverter
  }

  /** Every converter class is the one `of` returns for its own strategy. */
  lemma OfCoversEveryClass(c: Converter)
    ensures Of(StrategyOf(c)) == c
  {
  }

  /** `KebabCaseNamingConverter.convert` of this package. */
  function Kebab(name: string): (r: string)
    ensures r == Lower(Separated(name, '-'))
    ensures NoUpper(r)
    ensures |r| == |name| + BoundaryCount(name)
  {
    TwoPassesSeparate(name, '-');
    Lower(ReplaceAll(FollowedByDigit, ReplaceAll(FollowedByCapitalized, name, '-'), '-'))
  }

  /** No '-' is placed before the first character or inside a leading run of digits. */
  lemma KebabKeepsLeadingDigits(name: string, k: nat)
    requires k <= |name| && forall i :: 0 <= i < k ==> IsDigit(name[i])
    ensures k <= |Kebab(name)| && Kebab(name)[..k] == name[..k]
  {
    LeadingDigitsKept(name, '-', k);
    var s := Separated(name, '-');
    forall i | 0 <= i < k ensures Kebab(name)[i] == name[i] {
      assert s[..k][i] == s[i];
      assert name[..k][i] == name[i];
    }
  }

  /** `LowercaseNamingConverter.convert` of this package. */
  function Lowercase(name: string): (r: string)
    ensures |r| == |name| && NoUpper(r)
    ensures forall i :: 0 <= i < |r| ==> SameIgnoringCase(r[i], name[i])
    ensures forall i :: 0 <= i < |r| && !IsLetter(name[i]) ==> r[i] == name[i]
    ensures r == Lower(r)
  {
    forall i | 0 <= i < |name| ensures SameIgnoringCase(ToLower(name[i]), name[i]) {
      CaseRoundTrip(name[i]);
    }
    FoldKeepsFolded(name);
    Lower(name)
  }

  /** `UppercaseNamingConverter.convert` of this package. */
  function Uppercase(name: string): (r: string)
    ensures |r| == |name| && NoLower(r)
    ensures forall i :: 0 <= i < |r| ==> SameIgnoringCase(r[i], name[i])
    ensures forall i :: 0 <= i < |r| && !IsLetter(name[i]) ==> r[i] == name[i]
    ensures r == Upper(r)
  {
    forall i | 0 <= i < |name| ensures SameIgnoringCase(ToUpper(name[i]), name[i]) {
      CaseRoundTrip(name[i]);
    }
    FoldKeepsFolded(name);
    Upper(name)
  }

  /** Converting twice is converting once. */
  lemma CaseFoldsIdempotent(name: string)
    ensures Lowercase(Lowercase(name)) == Lowercase(name)
    ensures Uppercase(Uppercase(name)) == Uppercase(name)
  {
    FoldKeepsFolded(name);
  }

  /** `DromedaryCaseNamingConverter.convert` of this package: the name is kept, even when empty. */
  function Dromedary(name: string): (r: string)
    ensures r == name && |r| == |name|
  {
    name
  }

  /** `convert` of the class `of` returned; classes this package lacks use the `field` bodies. */
  function Convert(c: Converter, name: string): (r: Result<string, Error>)
    ensures r == Intended(StrategyOf(c), name)
    ensures r.Failure? <==> c == PascalCaseNamingConverter && name == []
  {
    match c
    case KebabCaseNamingConverter => Success(Kebab(name))
    case LowercaseNamingConverter => Success(Lowercase(name))
    case UppercaseNamingConverter => Success(Uppercase(name))
    case DromedaryCaseNamingConverter => Success(Dromedary(name))
    case _ => FieldConverters.Convert(c, name)
  }

  /** The converter `of` picks produces what its strategy is meant to produce. */
  lemma OfConverts(strategy: Strategy, name: string)
    ensures Convert(Of(strategy), name) == Intended(strategy, name)
    ensures Convert(Of(strategy), name) == FieldConverters.Convert(Of(strategy), name)
  {
  }
}
