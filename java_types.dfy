/**
 * The part of a Java class the schema generators look at through reflection: each declared
 * field's name, declared type and modifiers, the `@AvroField` annotation of the `field` package,
 * and the class-level `@AvroRecord` and `@AvroRecordNaming` annotations.
 */
module JavaTypes {
  import opened Wrappers
  import opened Naming

  /** The eight primitive classes (`boolean.class` … `short.class`). */
  datatype Primitive = Boolean | Byte | Char | Double | Float | Int | Long | Short

  /** Their box classes in `java.lang`. */
  datatype Box = BooleanClass | ByteClass | CharacterClass | DoubleClass | FloatClass | IntegerClass | LongClass | ShortClass

  /**
   * A field's declared class. A class type that is neither a box, `String` nor a `Map` is a
   * `ClassType`, which carries its declaration so that a nested `@AvroRecord` class can be read.
   */
  datatype JavaType =
    | PrimitiveType(primitive: Primitive)
    | BoxType(box: Box)
    | StringType
    | ArrayType(component: JavaType)
    | MapType
    | ClassType(decl: ClassDecl)

  /** A declared class: its name, its annotations and its declared fields in declaration order. */
  datatype ClassDecl = ClassDecl(
    name: string,
    isAvroRecord: bool,
    naming: Option<Strategy>,
    fields: seq<FieldDecl>)

  /** `@AvroField(name = …, included = …)`; an empty `name` means "convert the field name". */
  datatype FieldAnnotation = AvroField(name: string, included: bool)

  /** A declared field. */
  datatype FieldDecl = FieldDecl(
    name: string,
    fieldType: JavaType,
    isStatic: bool,
    isFinal: bool,
    annotation: Option<FieldAnnotation>)

  /** The primitive a box class wraps. */
  function Unbox(b: Box): Primitive
  {
    match b
    case BooleanClass => Boolean
    case ByteClass => Byte
    case CharacterClass => Char
    case DoubleClass => Double
    case FloatClass => Float
    case IntegerClass => Int
    case LongClass => Long
    case ShortClass => Short
  }

  /** Field names that are pairwise distinct, as in any one Java class. */
  predicate DistinctNames(fs: seq<FieldDecl>)
  {
    forall i, j :: 0 <= i < j < |fs| ==> fs[i].name != fs[j].name
  }
}
