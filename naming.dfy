/** The seven field naming strategies and what each is designed to produce. */
module Naming {
  import opened Wrappers
  import opened Exceptions
  import opened Ascii
  import opened Patterns

  /** `AvroRecordNaming.FieldNamingStrategies`, in declaration order. */
  datatype Strategy =
    | SnakeCase
    | KebabCase
    | DromedaryCase
    | Uppercase
    | Lowercase
    | ScreamingSnakeCase
    | PascalCase

  /**
   * The reference meaning of each strategy: identity; lower/upper case; a separator at every
   * boundary of the original, then the case fold; or the first character upper-cased, which
   * needs a non-empty name.
   */
  function Intended(strategy: Strategy, name: string): Result<string, Error>
  {
    match strategy
    case DromedaryCase => Success(name)
    case Lowercase => Success(Lower(name))
    case Uppercase => Success(Upper(name))
    case SnakeCase => Success(Lower(Separated(name, '_')))
    case KebabCase => Success(Lower(Separated(name, '-')))
    case ScreamingSnakeCase => Success(Upper(Separated(name, '_')))
    case PascalCase => if name == [] then Failure(IllegalArgument) else Success([ToUpper(name[0])] + name[1..])
  }
}
