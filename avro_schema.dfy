/**
 * `AvroSchema`: a schema generator for one class. It keeps the map from original field names
 * to schema field names and the last schema it generated, and copies objects of the class into
 * generic records under those names.
 */
module AvroSchemas {
  import opened Wrappers
  import opened Exceptions
  import opened Ascii
  import opened Patterns
  import opened Naming
  import opened JavaTypes
  import opened Avro
  import opened Emission
  import FieldNamingConverters

  // The naming helpers: this class's own copies of the converters.

  /** `toSnakeCase`. */
  function ToSnakeCase(name: string): (r: string)
    ensures r == Lower(Separated(name, '_'))
    ensures NoUpper(r) && |r| == |name| + BoundaryCount(name)
  {
    TwoPassesSeparate(name, '_');
    Lower(ReplaceAll(FollowedByDigit, ReplaceAll(FollowedByCapitalized, name, '_'), '_'))
  }

  /** `toKebabCase`. */
  function ToKebabCase(name: string): (r: string)
    ensures r == Lower(Separated(name, '-'))
    ensures NoUpper(r) && |r| == |name| + BoundaryCount(name)
  {
    TwoPassesSeparate(name, '-');
    Lower(ReplaceAll(FollowedByDigit, ReplaceAll(FollowedByCapitalized, name, '-'), '-'))
  }

  /** `toScreamingSnakeCase`: its replacement is "$1-$2", so it puts '-' between words, then upper-cases. */
  function ToScreamingSnakeCase(name: string): (r: string)
    ensures r == Upper(Separated(name, '-'))
    ensures NoLower(r) && |r| == |name| + BoundaryCount(name)
  {
    TwoPassesSeparate(name, '-');
    Upper(ReplaceAll(FollowedByDigit, ReplaceAll(FollowedByCapitalized, name, '-'), '-'))
  }

  /** `toLowerCase`. */
  function ToLowerCase(name: string): (r: string)
    ensures |r| == |name| && NoUpper(r)
    ensures forall i :: 0 <= i < |r| ==> SameIgnoringCase(r[i], name[i])
    ensures forall i :: 0 <= i < |r| && !IsLetter(name[i]) ==> r[i] == name[i]
  {
    forall i | 0 <= i < |name| ensures SameIgnoringCase(ToLower(name[i]), name[i]) {
      CaseRoundTrip(name[i]);
    }
    Lower(name)
  }

  /** `toUpperCase`. */
  function ToUpperCase(name: string): (r: string)
    ensures |r| == |name| && NoLower(r)
    ensures forall i :: 0 <= i < |r| ==> SameIgnoringCase(r[i], name[i])
    ensures forall i :: 0 <= i < |r| && !IsLetter(name[i]) ==> r[i] == name[i]
  {
    forall i | 0 <= i < |name| ensures SameIgnoringCase(ToUpper(name[i]), name[i]) {
      CaseRoundTrip(name[i]);
    }
    Upper(name)
  }

  /** `toPascalCase`: throws on "", else upper-cases the first character only. */
  function ToPascalCase(name: string): (r: Result<string, Error>)
    ensures r.Failure? <==> name == []
    ensures r.Failure? ==> r.error == IllegalArgument
    ensures r.Success? ==> |r.value| == |name| && r.value[0] == ToUpper(name[0]) && r.value[1..] == name[1..]
  {
    if |name| < 1 then Failure(IllegalArgument) else Success(Upper(name[..1]) + name[1..])
  }

  /** `toDromedaryCase`. */
  function ToDromedaryCase(name: string): (r: string)
    ensures r == name
  {
    name
  }

  /** The strategy `generate` applies: the `@AvroRecordNaming` strategy, dromedary without one. */
  function SelectedStrategy(naming: Option<Strategy>): (s: Strategy)
    ensures naming.None? ==> s == DromedaryCase
    ensures naming.Some? ==> s == naming.value
  {
    if naming.Some? then naming.value else DromedaryCase
  }

  /** The helper the strategy switch binds, applied to a field name. */
  function ConvertFieldName(strategy: Strategy, name: string): (r: Result<string, Error>)
    ensures strategy != ScreamingSnakeCase ==> r == Intended(strategy, name)
    ensures strategy == ScreamingSnakeCase ==> r == Success(Upper(Separated(name, '-')))
    ensures r.Failure? <==> strategy == PascalCase && name == []
  {
    match strategy
    case ScreamingSnakeCase => Success(ToScreamingSnakeCase(name))
    case KebabCase => Success(ToKebabCase(name))
    case Lowercase => Success(ToLowerCase(name))
    case Uppercase => Success(ToUpperCase(name))
    case PascalCase =>
      var p := ToPascalCase(name);
      assert p.Success? ==> p.value == [p.value[0]] + p.value[1..];
      p
    case SnakeCase => Success(ToSnakeCase(name))
    case DromedaryCase => Success(ToDromedaryCase(name))
  }

  /**
   * The screaming-snake helper agrees with the `fieldnaming` converter exactly on names without a
   * word boundary; on any other name the two put '-' and '_' at the same position.
   */
  lemma ScreamingSnakeDiffers(name: string)
    ensures ToScreamingSnakeCase(name) == FieldNamingConverters.ScreamingSnake(name) <==> BoundaryCount(name) == 0
  {
    if BoundaryCount(name) == 0 {
      NoBoundaryUnchanged(name, '-');
      NoBoundaryUnchanged(name, '_');
    } else {
      var k := SeparatorsDiffer(name, '-', '_');
      assert ToScreamingSnakeCase(name)[k] == '-';
      assert FieldNamingConverters.ScreamingSnake(name)[k] == '_';
    }
  }

  /** The type dispatch of `generate`; any other declared type is refused with `IllegalAccessException`. */
  function SchemaTypeOf(t: JavaType): (r: Result<AvroType, Error>)
    ensures r.Failure? ==> r.error == IllegalAccess
    ensures r.Success? ==> !r.value.RecordOf? && !r.value.BooleanType? && !r.value.FloatType?
    ensures t.BoxType? || t.ClassType? ==> r.Failure?
    ensures t.PrimitiveType? ==> (r.Success? <==> t.primitive in {Long, Int, Double})
    ensures t.ArrayType? ==> (r.Success? <==> t.component in {PrimitiveType(Long), BoxType(LongClass)})
  {
    if t.StringType? then Success(Avro.StringType)
    else if t == PrimitiveType(Long) then Success(LongType)
    else if t == PrimitiveType(Int) then Success(IntType)
    else if t == PrimitiveType(Double) then Success(DoubleType)
    else if t == ArrayType(PrimitiveType(Long)) || t == ArrayType(BoxType(LongClass)) then Success(ArrayOf(LongType))
    else if t.MapType? then Success(MapOf(Avro.StringType))
    else Failure(IllegalAccess)
  }

  /**
   * The Avro type each accepted declared type gets, in both directions: `String` is a string,
   * `long`, `int` and `double` their own type, `long[]` and `Long[]` an array of longs, and a
   * `Map` a map of strings.
   */
  lemma GenerateTypeTable(t: JavaType)
    ensures SchemaTypeOf(t) == Success(Avro.StringType) <==> t == JavaType.StringType
    ensures SchemaTypeOf(t) == Success(LongType) <==> t == PrimitiveType(Long)
    ensures SchemaTypeOf(t) == Success(IntType) <==> t == PrimitiveType(Int)
    ensures SchemaTypeOf(t) == Success(DoubleType) <==> t == PrimitiveType(Double)
    ensures SchemaTypeOf(t) == Success(ArrayOf(LongType)) <==> t == ArrayType(PrimitiveType(Long)) || t == ArrayType(BoxType(LongClass))
    ensures SchemaTypeOf(t) == Success(MapOf(Avro.StringType)) <==> t.MapType?
    ensures SchemaTypeOf(t).Success? ==> SchemaTypeOf(t).value in {Avro.StringType, LongType, IntType, DoubleType, ArrayOf(LongType), MapOf(Avro.StringType)}
  {
  }

  /** The schema field `generate` builds for one non-static field: name first, then type; always required. */
  function EmitField(strategy: Strategy, f: FieldDecl): (r: Result<SchemaField, Error>)
    ensures r.Success? <==> ConvertFieldName(strategy, f.name).Success? && SchemaTypeOf(f.fieldType).Success?
    ensures r.Success? ==> r.value == SchemaField(ConvertFieldName(strategy, f.name).value, SchemaTypeOf(f.fieldType).value, false)
    ensures r.Failure? && ConvertFieldName(strategy, f.name).Failure? ==> r.error == IllegalArgument
    ensures r.Failure? && ConvertFieldName(strategy, f.name).Success? ==> r.error == IllegalAccess
  {
    match ConvertFieldName(strategy, f.name)
    case Failure(e) => Failure(e)
    case Success(n) =>
      match SchemaTypeOf(f.fieldType)
      case Failure(e) => Failure(e)
      case Success(t) => Success(SchemaField(n, t, false))
  }

  /** Every non-static field is emitted or fails. */
  function GenerationStep(strategy: Strategy): Step
  {
    f => Some(EmitField(strategy, f))
  }

  /** The non-static fields, in declaration order. */
  function NonStatic(fs: seq<FieldDecl>): (r: seq<FieldDecl>)
    ensures forall f :: f in r <==> f in fs && !f.isStatic
    ensures |r| <= |fs|
  {
    if |fs| == 0 then []
    else NonStatic(fs[..|fs| - 1]) + (if fs[|fs| - 1].isStatic then [] else [fs[|fs| - 1]])
  }

  /** The fold `generate` runs over the non-static fields of a class. */
  function Generation(cls: ClassDecl): (r: Progress)
    ensures r.failure.None? ==> |r.emitted| == |NonStatic(cls.fields)|
    ensures r.failure.None? ==> forall sf :: sf in r.emitted ==> !sf.optional
  {
    var step, fs := GenerationStep(SelectedStrategy(cls.naming)), NonStatic(cls.fields);
    SucceedsIff(step, fs);
    EmittedCount(step, fs);
    if Steps(step, fs).failure.None? then
      EmittedFields(step, fs);
      Steps(step, fs)
    else
      Steps(step, fs)
  }

  /** The schema `generate` assigns, or the `CannotGenerateSchemaException` it throws. */
  function GeneratedSchema(cls: ClassDecl): (r: Result<Schema, Error>)
    ensures r.Success? <==> Generation(cls).failure.None?
    ensures r.Failure? ==> r.error == CannotGenerateSchema(Generation(cls).failure.value)
    ensures r.Success? ==> r.value.name == cls.name && r.value.namespace.None? && r.value.fields == Generation(cls).emitted
  {
    var g := Generation(cls);
    if g.failure.Some? then Failure(CannotGenerateSchema(g.failure.value))
    else Success(Schema(cls.name, None, g.emitted))
  }

  /** A class is generated exactly when every non-static field has a convertible name and a supported type. */
  lemma GenerationSucceedsIff(cls: ClassDecl)
    ensures GeneratedSchema(cls).Success? <==>
            forall f :: f in cls.fields && !f.isStatic ==>
              ConvertFieldName(SelectedStrategy(cls.naming), f.name).Success? && SchemaTypeOf(f.fieldType).Success?
  {
    var strategy, fs := SelectedStrategy(cls.naming), NonStatic(cls.fields);
    SucceedsIff(GenerationStep(strategy), fs);
    assert GeneratedSchema(cls).Success? <==> Generation(cls).failure.None?;
    NoFailureIffAccepted(strategy, fs);
  }

  /** No non-static field fails exactly when each has a convertible name and a supported type. */
  lemma NoFailureIffAccepted(strategy: Strategy, fs: seq<FieldDecl>)
    ensures (forall i :: 0 <= i < |fs| ==> !Fails(GenerationStep(strategy)(fs[i]))) <==>
            forall f :: f in fs ==> ConvertFieldName(strategy, f.name).Success? && SchemaTypeOf(f.fieldType).Success?
  {
    assert forall i :: 0 <= i < |fs| ==> GenerationStep(strategy)(fs[i]) == Some(EmitField(strategy, fs[i]));
    assert forall f :: f in fs ==> exists i :: 0 <= i < |fs| && fs[i] == f;
  }

  /**
   * After a successful generation the name map has one key per non-static field, mapped to that
   * field's converted name, and no static field's name.
   */
  lemma GenerationNames(cls: ClassDecl, i: nat)
    requires DistinctNames(cls.fields) && GeneratedSchema(cls).Success? && i < |cls.fields|
    ensures var names := Generation(cls).names;
            var f := cls.fields[i];
            if f.isStatic then f.name !in names
            else f.name in names && Success(names[f.name]) == ConvertFieldName(SelectedStrategy(cls.naming), f.name)
  {
    var strategy, fs := SelectedStrategy(cls.naming), NonStatic(cls.fields);
    var step := GenerationStep(strategy);
    var f := cls.fields[i];
    NonStaticDistinct(cls.fields);
    if f.isStatic {
      NamesWithin(step, fs);
      forall j | 0 <= j < |fs| ensures fs[j].name != f.name {
        assert fs[j] in cls.fields && !fs[j].isStatic;
        var k :| 0 <= k < |cls.fields| && cls.fields[k] == fs[j];
        assert k != i;
      }
    } else {
      assert f in fs;
      var j :| 0 <= j < |fs| && fs[j] == f;
      SucceedsIff(step, fs);
      assert step(fs[j]) == Some(EmitField(strategy, f));
      NamesValues(step, fs, j);
    }
  }

  /** After a successful generation the name map has a key for each non-static field and no other key. */
  lemma GenerationKeys(cls: ClassDecl)
    requires GeneratedSchema(cls).Success?
    ensures Generation(cls).names.Keys == set f | f in cls.fields && !f.isStatic :: f.name
  {
    var strategy, fs := SelectedStrategy(cls.naming), NonStatic(cls.fields);
    AllEmitKeys(GenerationStep(strategy), fs);
    NonStaticNames(cls.fields);
  }

  /** The names of the non-static fields. */
  lemma NonStaticNames(fs: seq<FieldDecl>)
    ensures (set f | f in NonStatic(fs) :: f.name) == set f | f in fs && !f.isStatic :: f.name
  {
  }

  /**
   * After a successful generation the schema's fields are exactly the fields `EmitField` builds
   * for the non-static fields.
   */
  lemma GenerationFields(cls: ClassDecl)
    requires GeneratedSchema(cls).Success?
    ensures forall sf :: sf in GeneratedSchema(cls).value.fields <==>
              exists f :: f in cls.fields && !f.isStatic && EmitField(SelectedStrategy(cls.naming), f) == Success(sf)
  {
    var strategy, fs := SelectedStrategy(cls.naming), NonStatic(cls.fields);
    var step := GenerationStep(strategy);
    EmittedByMember(step, fs);
    assert forall f :: step(f) == Some(EmitField(strategy, f));
  }

  /** Dropping the static fields keeps the field names distinct. */
  lemma {:induction false} NonStaticDistinct(fs: seq<FieldDecl>)
    requires DistinctNames(fs)
    ensures DistinctNames(NonStatic(fs))
  {
    if |fs| > 0 {
      var init := fs[..|fs| - 1];
      assert DistinctNames(init);
      NonStaticDistinct(init);
      var last := fs[|fs| - 1];
      forall g | g in NonStatic(init) ensures g.name != last.name {
        var k :| 0 <= k < |init| && init[k] == g;
      }
    }
  }

  /** After a successful generation every recorded name is a field of the generated schema. */
  lemma GeneratedNamesInSchema(cls: ClassDecl)
    requires GeneratedSchema(cls).Success?
    ensures forall k :: k in Generation(cls).names ==> Generation(cls).names[k] in FieldNames(GeneratedSchema(cls).value)
  {
    NamesTargetEmitted(GenerationStep(SelectedStrategy(cls.naming)), NonStatic(cls.fields));
  }

  /** A field failing after a clean prefix ends the generation with that prefix and the field's error. */
  lemma GenerationFailsAt(cls: ClassDecl, i: nat, emitted: seq<SchemaField>, names: map<string, string>, e: Error)
    requires i < |NonStatic(cls.fields)|
    requires Steps(GenerationStep(SelectedStrategy(cls.naming)), NonStatic(cls.fields)[..i]) == Progress(emitted, names, None)
    requires EmitField(SelectedStrategy(cls.naming), NonStatic(cls.fields)[i]) == Failure(e)
    ensures Generation(cls) == Progress(emitted, names, Some(e))
    ensures GeneratedSchema(cls) == Failure(CannotGenerateSchema(e))
  {
    var step, fs := GenerationStep(SelectedStrategy(cls.naming)), NonStatic(cls.fields);
    StepsSnoc(step, fs, i);
    FailureSticks(step, fs, i + 1);
  }

  /** The state of `convertFromPojo`'s loop: the values put so far, and whether an exception ended it. */
  datatype Filling = Filling(values: map<string, Value>, stopped: bool)

  /** An object of the class: it has a value for every declared field. */
  predicate IsInstance(pojo: map<string, Value>, fs: seq<FieldDecl>)
  {
    forall i :: 0 <= i < |fs| ==> fs[i].name in pojo
  }

  /**
   * The values put for the fields fs: a non-static field with a recorded name is put under that
   * name; a null object or a name missing from the schema throws, which ends the loop.
   */
  function Fill(schemaFields: map<string, string>, schema: Schema, pojo: Option<map<string, Value>>, fs: seq<FieldDecl>): (r: Filling)
    requires pojo.Some? ==> IsInstance(pojo.value, fs)
    ensures r.values.Keys <= FieldNames(schema)
  {
    if |fs| == 0 then Filling(map[], false)
    else
      var p := Fill(schemaFields, schema, pojo, fs[..|fs| - 1]);
      var f := fs[|fs| - 1];
      if p.stopped || f.isStatic || f.name !in schemaFields then p
      else if pojo.None? || schemaFields[f.name] !in FieldNames(schema) then p.(stopped := true)
      else p.(values := p.values[schemaFields[f.name] := pojo.value[f.name]])
  }

  /** Only recorded names of non-static fields are ever set, whatever ends the loop. */
  lemma {:induction false} FillKeysWithin(schemaFields: map<string, string>, schema: Schema, pojo: Option<map<string, Value>>, fs: seq<FieldDecl>)
    requires pojo.Some? ==> IsInstance(pojo.value, fs)
    ensures forall k :: k in Fill(schemaFields, schema, pojo, fs).values ==>
              exists i :: 0 <= i < |fs| && !fs[i].isStatic && fs[i].name in schemaFields && schemaFields[fs[i].name] == k
  {
    if |fs| > 0 {
      var init := fs[..|fs| - 1];
      FillKeysWithin(schemaFields, schema, pojo, init);
      assert forall i :: 0 <= i < |init| ==> init[i] == fs[i];
    }
  }

  /**
   * When the object is not null and every recorded name is a schema field, nothing throws and
   * every non-static field with a recorded name has its key set to the value of some field
   * recorded under the same name.
   */
  lemma {:induction false} FillComplete(schemaFields: map<string, string>, schema: Schema, pojo: map<string, Value>, fs: seq<FieldDecl>)
    requires IsInstance(pojo, fs)
    requires forall k :: k in schemaFields ==> schemaFields[k] in FieldNames(schema)
    ensures !Fill(schemaFields, schema, Some(pojo), fs).stopped
    ensures forall i :: 0 <= i < |fs| && !fs[i].isStatic && fs[i].name in schemaFields ==>
              schemaFields[fs[i].name] in Fill(schemaFields, schema, Some(pojo), fs).values
    ensures forall k :: k in Fill(schemaFields, schema, Some(pojo), fs).values ==>
              exists i :: 0 <= i < |fs| && !fs[i].isStatic && fs[i].name in schemaFields && schemaFields[fs[i].name] == k
                          && Fill(schemaFields, schema, Some(pojo), fs).values[k] == pojo[fs[i].name]
  {
    if |fs| > 0 {
      var init := fs[..|fs| - 1];
      FillComplete(schemaFields, schema, pojo, init);
      assert forall i :: 0 <= i < |init| ==> init[i] == fs[i];
    }
  }

  /** A null object sets nothing. */
  lemma {:induction false} FillNull(schemaFields: map<string, string>, schema: Schema, fs: seq<FieldDecl>)
    ensures Fill(schemaFields, schema, None, fs).values == map[]
  {
    if |fs| > 0 {
      FillNull(schemaFields, schema, fs[..|fs| - 1]);
    }
  }

  /** The generator for one class. */
  class AvroSchema {
    const clazz: ClassDecl
    var schemaFields: map<string, string>
    var schema: Option<Schema>

    /** The generated constructor: no names recorded and no schema yet. */
    constructor(clazz: ClassDecl)
      ensures this.clazz == clazz && schemaFields == map[] && schema == None
    {
      this.clazz := clazz;
      schemaFields := map[];
      schema := None;
    }

    /**
     * `generate`: clears the name map, collects the non-static fields, picks the helper for the
     * class's strategy and adds one required field per non-static field, recording its name.
     * The schema is assigned only when every field succeeded; otherwise it keeps its previous
     * value and the name map keeps the fields recorded before the failing one.
     */
    method Generate() returns (r: Outcome<Error>)
      modifies this
      ensures schemaFields == Generation(clazz).names
      ensures GeneratedSchema(clazz).Success? ==> r == Pass && schema == Some(GeneratedSchema(clazz).value)
      ensures GeneratedSchema(clazz).Failure? ==> r == Fail(GeneratedSchema(clazz).error) && schema == old(schema)
    {
      schemaFields := map[];
      var nonStatic: seq<FieldDecl> := [];
      for i := 0 to |clazz.fields|
        invariant nonStatic == NonStatic(clazz.fields[..i])
        invariant schemaFields == map[] && schema == old(schema)
      {
        assert clazz.fields[..i + 1][..i] == clazz.fields[..i];
        if !clazz.fields[i].isStatic {
          nonStatic := nonStatic + [clazz.fields[i]];
        }
      }
      assert clazz.fields[..|clazz.fields|] == clazz.fields;
      var strategy := SelectedStrategy(clazz.naming);
      ghost var step := GenerationStep(strategy);
      var emitted: seq<SchemaField> := [];
      for i := 0 to |nonStatic|
        invariant Steps(step, nonStatic[..i]) == Progress(emitted, schemaFields, None)
        invariant schema == old(schema)
      {
        var f := nonStatic[i];
        StepsSnoc(step, nonStatic, i);
        assert step(f) == Some(EmitField(strategy, f));
        var processed := ConvertFieldName(strategy, f.name);
        if processed.Failure? {
          GenerationFailsAt(clazz, i, emitted, schemaFields, processed.error);
          return Fail(CannotGenerateSchema(processed.error));
        }
        var fieldType := SchemaTypeOf(f.fieldType);
        if fieldType.Failure? {
          GenerationFailsAt(clazz, i, emitted, schemaFields, fieldType.error);
          return Fail(CannotGenerateSchema(fieldType.error));
        }
        emitted := emitted + [SchemaField(processed.value, fieldType.value, false)];
        schemaFields := schemaFields[f.name := processed.value];
      }
      assert nonStatic[..|nonStatic|] == nonStatic;
      assert GeneratedSchema(clazz) == Success(Schema(clazz.name, None, emitted));
      schema := Some(Schema(clazz.name, None, emitted));
      return Pass;
    }

    /**
     * `convertFromPojo`: a record for the current schema (refused when no schema was generated),
     * with each non-static field's value put under its recorded name. An exception inside the
     * loop is swallowed and the record built so far is returned.
     */
    method ConvertFromPojo(pojo: Option<map<string, Value>>) returns (r: Result<GenericRecord, Error>)
      requires pojo.Some? ==> IsInstance(pojo.value, clazz.fields)
      ensures schema.None? ==> r == Failure(NotARecordSchema)
      ensures schema.Some? ==> r == Success(GenericRecord(schema.value, Fill(schemaFields, schema.value, pojo, clazz.fields).values))
    {
      if schema.None? {
        return Failure(NotARecordSchema);
      }
      var s := schema.value;
      var values: map<string, Value> := map[];
      var i := 0;
      while i < |clazz.fields|
        invariant i <= |clazz.fields|
        invariant Fill(schemaFields, s, pojo, clazz.fields[..i]) == Filling(values, false)
      {
        var f := clazz.fields[i];
        assert clazz.fields[..i + 1][..i] == clazz.fields[..i];
        if !f.isStatic && f.name in schemaFields {
          if pojo.None? || schemaFields[f.name] !in FieldNames(s) {
            FillStopped(schemaFields, s, pojo, clazz.fields, i + 1);
            return Success(GenericRecord(s, values));
          }
          values := values[schemaFields[f.name] := pojo.value[f.name]];
        }
        i := i + 1;
      }
      assert clazz.fields[..i] == clazz.fields;
      return Success(GenericRecord(s, values));
    }
  }

  /** Once the loop of `convertFromPojo` has stopped, no later field changes the record. */
  lemma {:induction false} FillStopped(schemaFields: map<string, string>, schema: Schema, pojo: Option<map<string, Value>>, fs: seq<FieldDecl>, k: nat)
    requires k <= |fs| && (pojo.Some? ==> IsInstance(pojo.value, fs))
    requires Fill(schemaFields, schema, pojo, fs[..k]).stopped
    ensures Fill(schemaFields, schema, pojo, fs) == Fill(schemaFields, schema, pojo, fs[..k])
    decreases |fs| - k
  {
    if k < |fs| {
      assert fs[..k + 1][..k] == fs[..k];
      FillStopped(schemaFields, schema, pojo, fs, k + 1);
    } else {
      assert fs[..k] == fs;
    }
  }

  /**
   * After a successful `generate`, converting an object never stops early: the record has one key
   * per recorded name, each holding the value of a non-static field recorded under it.
   */
  lemma ConvertAfterGenerate(cls: ClassDecl, pojo: map<string, Value>)
    requires GeneratedSchema(cls).Success? && IsInstance(pojo, cls.fields)
    ensures var values := Fill(Generation(cls).names, GeneratedSchema(cls).value, Some(pojo), cls.fields).values;
            forall k :: k in values ==> exists i :: 0 <= i < |cls.fields| && !cls.fields[i].isStatic
                                         && cls.fields[i].name in Generation(cls).names
                                         && Generation(cls).names[cls.fields[i].name] == k
                                         && values[k] == pojo[cls.fields[i].name]
    ensures !Fill(Generation(cls).names, GeneratedSchema(cls).value, Some(pojo), cls.fields).stopped
  {
    GeneratedNamesInSchema(cls);
    FillComplete(Generation(cls).names, GeneratedSchema(cls).value, pojo, cls.fields);
  }
}
