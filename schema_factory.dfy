/**
 * `SchemaFactory`: a record builder that the caller fills field by field. Each included field
 * gets its output name (the `@AvroField` name, or the converted original name), its primitive
 * type is replaced by the box class, and the box class picks the Avro type; a final field becomes
 * a required field and any other field an optional one (the union of null and the type).
 */
module SchemaFactories {
  import opened Wrappers
  import opened Exceptions
  import opened Naming
  import opened JavaTypes
  import opened Avro
  import opened Emission
  import opened FieldConverters
  import opened AvroSchemas

  /** `wrapperMap`: the box class of each primitive class. */
  function WrapperOf(p: Primitive): (b: Box)
    ensures Unbox(b) == p
  {
    match p
    case Boolean => BooleanClass
    case Byte => ByteClass
    case Char => CharacterClass
    case Double => DoubleClass
    case Float => FloatClass
    case Int => IntegerClass
    case Long => LongClass
    case Short => ShortClass
  }

  /** `toWrapper`: a primitive class becomes its box class, any other class is returned as it is. */
  function ToWrapper(t: JavaType): (r: JavaType)
    ensures !r.PrimitiveType?
    ensures t.PrimitiveType? ==> r.BoxType? && Unbox(r.box) == t.primitive
    ensures !t.PrimitiveType? ==> r == t
  {
    if !t.PrimitiveType? then t else BoxType(WrapperOf(t.primitive))
  }

  /** The box class table is one-to-one, and wrapping twice is wrapping once. */
  lemma WrapperTable(p: Primitive, q: Primitive, t: JavaType)
    ensures WrapperOf(p) == WrapperOf(q) <==> p == q
    ensures ToWrapper(ToWrapper(t)) == ToWrapper(t)
  {
  }

  /** The Avro type of a wrapped class that is a box or `String`, as the `isAssignableFrom` chain picks it. */
  function ScalarKind(w: JavaType): (r: Option<AvroType>)
    ensures r.Some? <==> w.BoxType? || w.StringType?
    ensures r.Some? ==> !r.value.RecordOf? && !r.value.ArrayOf? && !r.value.MapOf?
  {
    match w
    case BoxType(BooleanClass) => Some(BooleanType)
    case BoxType(LongClass) => Some(LongType)
    case BoxType(IntegerClass) | BoxType(ByteClass) | BoxType(CharacterClass) | BoxType(ShortClass) => Some(IntType)
    case BoxType(DoubleClass) => Some(DoubleType)
    case BoxType(FloatClass) => Some(FloatType)
    case StringType => Some(AvroType.StringType)
    case _ => None
  }

  /** A class that carries `@AvroRecord`. */
  predicate IsAvroRecordClass(w: JavaType)
  {
    w.ClassType? && w.decl.isAvroRecord
  }

  /**
   * The field that `setRequiredField` (required) or `setOptionalField` (not required) appends
   * for a class, or the exception it throws. A nested record field has no default in both
   * branches, so it is never optional.
   */
  function FieldSchema(t: JavaType, name: string, required: bool): (r: Result<SchemaField, Error>)
    ensures r.Success? ==> r.value.name == name
    ensures ScalarKind(ToWrapper(t)).Some? ==> r == Success(SchemaField(name, ScalarKind(ToWrapper(t)).value, !required))
    ensures ScalarKind(ToWrapper(t)).None? && IsAvroRecordClass(t) ==>
              match GeneratedSchema(t.decl)
              case Success(s) => r == Success(SchemaField(name, RecordOf(s), false))
              case Failure(e) => r == Failure(e)
    ensures !IsAvroRecordClass(t) && ScalarKind(ToWrapper(t)).None? ==> r == Failure(CannotCreateValidEncoding)
  {
    var w := ToWrapper(t);
    match ScalarKind(w)
    case Some(kind) => Success(SchemaField(name, kind, !required))
    case None =>
      if IsAvroRecordClass(w) then
        match GeneratedSchema(w.decl)
        case Success(s) => Success(SchemaField(name, RecordOf(s), false))
        case Failure(e) => Failure(e)
      else Failure(CannotCreateValidEncoding)
  }

  /**
   * The two branches use the same type table: they accept the same classes with the same Avro
   * type and the same error, and differ only in optionality, which only a non-record field has.
   */
  lemma BranchesShareKinds(t: JavaType, name: string)
    ensures FieldSchema(t, name, true).Success? <==> FieldSchema(t, name, false).Success?
    ensures FieldSchema(t, name, true).Failure? ==> FieldSchema(t, name, true).error == FieldSchema(t, name, false).error
    ensures FieldSchema(t, name, true).Success? ==>
              var req, opt := FieldSchema(t, name, true).value, FieldSchema(t, name, false).value;
              req.fieldType == opt.fieldType && !req.optional
              && (opt.optional <==> !opt.fieldType.RecordOf?)
  {
  }

  /** A required field is never optional; an optional field is, unless it is a nested record. */
  lemma RequiredWhenFinal(t: JavaType, name: string, required: bool)
    ensures FieldSchema(t, name, required).Success? ==>
              var sf := FieldSchema(t, name, required).value;
              (required ==> !sf.optional) && (!required && !sf.fieldType.RecordOf? ==> sf.optional)
  {
  }

  /** A primitive field and a field of its box class give the same schema field. */
  lemma PrimitiveAsBox(p: Primitive, name: string, required: bool)
    ensures FieldSchema(PrimitiveType(p), name, required) == FieldSchema(BoxType(WrapperOf(p)), name, required)
    ensures FieldSchema(PrimitiveType(p), name, required).Success?
  {
  }

  /** The type table after wrapping, class by class. */
  lemma KindTable(t: JavaType, name: string, required: bool)
    ensures var w := ToWrapper(t);
            var r := FieldSchema(t, name, required);
            (w in {BoxType(IntegerClass), BoxType(ByteClass), BoxType(CharacterClass), BoxType(ShortClass)} ==> r.Success? && r.value.fieldType == IntType)
            && (w == BoxType(BooleanClass) ==> r.Success? && r.value.fieldType == BooleanType)
            && (w == BoxType(LongClass) ==> r.Success? && r.value.fieldType == LongType)
            && (w == BoxType(DoubleClass) ==> r.Success? && r.value.fieldType == DoubleType)
            && (w == BoxType(FloatClass) ==> r.Success? && r.value.fieldType == FloatType)
            && (w == JavaType.StringType ==> r.Success? && r.value.fieldType == AvroType.StringType)
            && (w.ArrayType? || w == MapType ==> r == Failure(CannotCreateValidEncoding))
  {
  }

  /** The output name: the annotation's non-empty name as written, otherwise the converted original name. */
  function OutputName(converter: Converter, f: FieldDecl): (r: Result<string, Error>)
    ensures f.annotation.Some? && f.annotation.value.name != [] ==> r == Success(f.annotation.value.name)
    ensures f.annotation.None? || f.annotation.value.name == [] ==> r == Intended(StrategyOf(converter), f.name)
  {
    if f.annotation.None? || f.annotation.value.name == "" then Convert(converter, f.name)
    else Success(f.annotation.value.name)
  }

  /** An `@AvroField(included = false)` field. */
  predicate Excluded(f: FieldDecl)
  {
    f.annotation.Some? && !f.annotation.value.included
  }

  /** What one entry of `setFields` contributes. */
  function FactoryField(converter: Converter, f: FieldDecl): (r: Option<Result<SchemaField, Error>>)
    ensures r.None? <==> Excluded(f)
    ensures r.Some? && r.value.Success? ==> OutputName(converter, f).Success? && r.value.value.name == OutputName(converter, f).value
    ensures r.Some? && OutputName(converter, f).Failure? ==> r.value == Failure(OutputName(converter, f).error)
  {
    if Excluded(f) then None
    else match OutputName(converter, f)
      case Failure(e) => Some(Failure(e))
      case Success(name) => Some(FieldSchema(f.fieldType, name, f.isFinal))
  }

  /** The step of the `setFields` loop. */
  function FactoryStep(converter: Converter): Step
  {
    f => FactoryField(converter, f)
  }

  /** An excluded field leaves a running loop as it is. */
  lemma FactorySkips(converter: Converter, p: Progress, f: FieldDecl)
    requires p.failure.None? && Excluded(f)
    ensures Next(FactoryStep(converter), p, f) == p
  {
  }

  /** An included field whose name cannot be converted ends the loop with the converter's error. */
  lemma FactoryNameFails(converter: Converter, p: Progress, f: FieldDecl)
    requires p.failure.None? && !Excluded(f) && OutputName(converter, f).Failure?
    ensures Next(FactoryStep(converter), p, f) == p.(failure := Some(OutputName(converter, f).error))
  {
  }

  /** An included field with output name `name` adds its schema field and records the name, or fails. */
  lemma FactoryAdds(converter: Converter, p: Progress, f: FieldDecl, name: string)
    requires p.failure.None? && !Excluded(f) && OutputName(converter, f) == Success(name)
    ensures FieldSchema(f.fieldType, name, f.isFinal).Failure? ==>
              Next(FactoryStep(converter), p, f) == p.(failure := Some(FieldSchema(f.fieldType, name, f.isFinal).error))
    ensures FieldSchema(f.fieldType, name, f.isFinal).Success? ==>
              Next(FactoryStep(converter), p, f)
              == Progress(p.emitted + [FieldSchema(f.fieldType, name, f.isFinal).value], p.names[f.name := name], None)
  {
  }

  /** `SchemaBuilder.FieldAssembler`: the record's name and namespace and the fields added so far. */
  datatype FieldAssembler = FieldAssembler(recordName: string, namespace: string, fields: seq<SchemaField>)

  /** A schema factory for one record. */
  class SchemaFactory {
    var builder: FieldAssembler

    /** Starts the record `name` in `namespace`, with no fields. */
    constructor(name: string, namespace: string)
      ensures builder == FieldAssembler(name, namespace, [])
    {
      builder := FieldAssembler(name, namespace, []);
    }

    /** `setRequiredField`: appends the required field for the class, or throws. */
    method SetRequiredField(fieldType: JavaType, fieldName: string) returns (o: Outcome<Error>)
      modifies this
      ensures FieldSchema(fieldType, fieldName, true).Success? ==>
                o == Pass && builder == old(builder).(fields := old(builder.fields) + [FieldSchema(fieldType, fieldName, true).value])
      ensures FieldSchema(fieldType, fieldName, true).Failure? ==>
                o == Fail(FieldSchema(fieldType, fieldName, true).error) && builder == old(builder)
    {
      var wrappedType := ToWrapper(fieldType);
      if wrappedType == BoxType(BooleanClass) {
        builder := builder.(fields := builder.fields + [SchemaField(fieldName, BooleanType, false)]);
      } else if wrappedType == BoxType(LongClass) {
        builder := builder.(fields := builder.fields + [SchemaField(fieldName, LongType, false)]);
      } else if wrappedType == BoxType(IntegerClass) || wrappedType == BoxType(ByteClass)
             || wrappedType == BoxType(CharacterClass) || wrappedType == BoxType(ShortClass) {
        builder := builder.(fields := builder.fields + [SchemaField(fieldName, IntType, false)]);
      } else if wrappedType == BoxType(DoubleClass) {
        builder := builder.(fields := builder.fields + [SchemaField(fieldName, DoubleType, false)]);
      } else if wrappedType == BoxType(FloatClass) {
        builder := builder.(fields := builder.fields + [SchemaField(fieldName, FloatType, false)]);
      } else if wrappedType == JavaType.StringType {
        builder := builder.(fields := builder.fields + [SchemaField(fieldName, AvroType.StringType, false)]);
      } else if IsAvroRecordClass(wrappedType) {
        var schema := new AvroSchema(wrappedType.decl);
        var generated := schema.Generate();
        if generated.Fail? {
          return Fail(generated.error);
        }
        builder := builder.(fields := builder.fields + [SchemaField(fieldName, RecordOf(schema.schema.value), false)]);
      } else {
        return Fail(CannotCreateValidEncoding);
      }
      return Pass;
    }

    /** `setOptionalField`: appends the optional field for the class, or throws. */
    method SetOptionalField(fieldType: JavaType, fieldName: string) returns (o: Outcome<Error>)
      modifies this
      ensures FieldSchema(fieldType, fieldName, false).Success? ==>
                o == Pass && builder == old(builder).(fields := old(builder.fields) + [FieldSchema(fieldType, fieldName, false).value])
      ensures FieldSchema(fieldType, fieldName, false).Failure? ==>
                o == Fail(FieldSchema(fieldType, fieldName, false).error) && builder == old(builder)
    {
      var wrappedType := ToWrapper(fieldType);
      if wrappedType == BoxType(BooleanClass) {
        builder := builder.(fields := builder.fields + [SchemaField(fieldName, BooleanType, true)]);
      } else if wrappedType == BoxType(LongClass) {
        builder := builder.(fields := builder.fields + [SchemaField(fieldName, LongType, true)]);
      } else if wrappedType == BoxType(IntegerClass) || wrappedType == BoxType(ByteClass)
             || wrappedType == BoxType(CharacterClass) || wrappedType == BoxType(ShortClass) {
        builder := builder.(fields := builder.fields + [SchemaField(fieldName, IntType, true)]);
      } else if wrappedType == BoxType(DoubleClass) {
        builder := builder.(fields := builder.fields + [SchemaField(fieldName, DoubleType, true)]);
      } else if wrappedType == BoxType(FloatClass) {
        builder := builder.(fields := builder.fields + [SchemaField(fieldName, FloatType, true)]);
      } else if wrappedType == JavaType.StringType {
        builder := builder.(fields := builder.fields + [SchemaField(fieldName, AvroType.StringType, true)]);
      } else if IsAvroRecordClass(wrappedType) {
        var schema := new AvroSchema(wrappedType.decl);
        var generated := schema.Generate();
        if generated.Fail? {
          return Fail(generated.error);
        }
        builder := builder.(fields := builder.fields + [SchemaField(fieldName, RecordOf(schema.schema.value), false)]);
      } else {
        return Fail(CannotCreateValidEncoding);
      }
      return Pass;
    }

    /** `setField`: the required branch for a required field, the optional branch otherwise. */
    method SetField(fieldType: JavaType, fieldName: string, isRequired: bool) returns (o: Outcome<Error>)
      modifies this
      ensures FieldSchema(fieldType, fieldName, isRequired).Success? ==>
                o == Pass && builder == old(builder).(fields := old(builder.fields) + [FieldSchema(fieldType, fieldName, isRequired).value])
      ensures FieldSchema(fieldType, fieldName, isRequired).Failure? ==>
                o == Fail(FieldSchema(fieldType, fieldName, isRequired).error) && builder == old(builder)
    {
      if isRequired {
        o := SetRequiredField(fieldType, fieldName);
      } else {
        o := SetOptionalField(fieldType, fieldName);
      }
    }

    /**
     * `setFields`: adds every included field under its output name, required when it is final,
     * and returns the original→output name map. The first exception ends the loop; the fields
     * added before it stay in the builder and no map is returned.
     */
    method SetFields(fields: seq<FieldDecl>, converter: Converter) returns (r: Result<map<string, string>, Error>)
      modifies this
      ensures builder == old(builder).(fields := old(builder.fields) + Steps(FactoryStep(converter), fields).emitted)
      ensures r.Success? <==> Steps(FactoryStep(converter), fields).failure.None?
      ensures r.Success? ==> r.value == Steps(FactoryStep(converter), fields).names
      ensures r.Failure? ==> r.error == Steps(FactoryStep(converter), fields).failure.value
    {
      ghost var step := FactoryStep(converter);
      ghost var emitted: seq<SchemaField> := [];
      var fieldNames: map<string, string> := map[];
      for i := 0 to |fields|
        invariant Steps(step, fields[..i]) == Progress(emitted, fieldNames, None)
        invariant builder == old(builder).(fields := old(builder.fields) + emitted)
      {
        var field := fields[i];
        StepsSnoc(step, fields, i);
        ghost var p := Steps(step, fields[..i]);
        var fieldAnnotation := field.annotation;
        if fieldAnnotation.Some? && !fieldAnnotation.value.included {
          FactorySkips(converter, p, field);
          continue;
        }
        var originalFieldName := field.name;
        var processedFieldName: string;
        if fieldAnnotation.None? || fieldAnnotation.value.name == "" {
          var converted := Convert(converter, originalFieldName);
          assert OutputName(converter, field) == converted;
          if converted.Failure? {
            FactoryNameFails(converter, p, field);
            FailureSticks(step, fields, i + 1);
            return Failure(converted.error);
          }
          processedFieldName := converted.value;
        } else {
          processedFieldName := fieldAnnotation.value.name;
        }
        FactoryAdds(converter, p, field, processedFieldName);
        var added := SetField(field.fieldType, processedFieldName, field.isFinal);
        if added.Fail? {
          FailureSticks(step, fields, i + 1);
          return Failure(added.error);
        }
        emitted := emitted + [FieldSchema(field.fieldType, processedFieldName, field.isFinal).value];
        fieldNames := fieldNames[originalFieldName := processedFieldName];
      }
      assert fields[..|fields|] == fields;
      return Success(fieldNames);
    }
  }

  /** The `@NonNull` parameters of the constructor: a missing name or namespace is refused. */
  method NewSchemaFactory(name: Option<string>, namespace: Option<string>) returns (r: Result<SchemaFactory, Error>)
    ensures r.Failure? <==> name.None? || namespace.None?
    ensures r.Failure? ==> r.error == NullPointer
    ensures r.Success? ==> fresh(r.value) && r.value.builder == FieldAssembler(name.value, namespace.value, [])
  {
    if name.None? || namespace.None? {
      return Failure(NullPointer);
    }
    var factory := new SchemaFactory(name.value, namespace.value);
    return Success(factory);
  }

  /** `setFields` fails exactly when some included field has a failing name conversion or an unsupported type. */
  lemma SetFieldsSucceedsIff(fields: seq<FieldDecl>, converter: Converter)
    ensures Steps(FactoryStep(converter), fields).failure.None? <==>
            forall i :: 0 <= i < |fields| && !Excluded(fields[i]) ==>
              OutputName(converter, fields[i]).Success?
              && FieldSchema(fields[i].fieldType, OutputName(converter, fields[i]).value, fields[i].isFinal).Success?
  {
    SucceedsIff(FactoryStep(converter), fields);
  }

  /** An excluded field changes neither the builder, nor the name map, nor the outcome. */
  lemma ExcludedFieldIgnored(fields: seq<FieldDecl>, converter: Converter, i: nat)
    requires i < |fields| && Excluded(fields[i])
    ensures Steps(FactoryStep(converter), fields) == Steps(FactoryStep(converter), fields[..i] + fields[i + 1..])
    ensures DistinctNames(fields) ==> fields[i].name !in Steps(FactoryStep(converter), fields).names
  {
    SkippedFieldIgnored(FactoryStep(converter), fields, i);
    NamesWithin(FactoryStep(converter), fields);
  }

  /** After a complete `setFields`, the returned map has a key for exactly the included fields, each mapped to its output name. */
  lemma SetFieldsNames(fields: seq<FieldDecl>, converter: Converter, i: nat)
    requires DistinctNames(fields) && Steps(FactoryStep(converter), fields).failure.None?
    requires i < |fields|
    ensures fields[i].name in Steps(FactoryStep(converter), fields).names <==> !Excluded(fields[i])
    ensures !Excluded(fields[i]) ==>
              OutputName(converter, fields[i]).Success?
              && Steps(FactoryStep(converter), fields).names[fields[i].name] == OutputName(converter, fields[i]).value
  {
    var step := FactoryStep(converter);
    SucceedsIff(step, fields);
    if !Excluded(fields[i]) {
      assert step(fields[i]) == FactoryField(converter, fields[i]);
      NamesValues(step, fields, i);
    } else {
      NamesWithin(step, fields);
    }
  }

  /**
   * After a complete `setFields`, every included field's schema field is in the builder: required
   * when the field is final, and optional when it is not final and not a nested record.
   */
  lemma SetFieldsEmitted(fields: seq<FieldDecl>, converter: Converter, i: nat)
    requires Steps(FactoryStep(converter), fields).failure.None?
    requires i < |fields| && !Excluded(fields[i])
    ensures Emits(FactoryField(converter, fields[i]))
    ensures var sf := FactoryField(converter, fields[i]).value.value;
            sf in Steps(FactoryStep(converter), fields).emitted
            && (fields[i].isFinal ==> !sf.optional)
            && (!fields[i].isFinal && !sf.fieldType.RecordOf? ==> sf.optional)
  {
    var step := FactoryStep(converter);
    assert step(fields[i]) == FactoryField(converter, fields[i]);
    EmittedAt(step, fields, i);
    RequiredWhenFinal(fields[i].fieldType, OutputName(converter, fields[i]).value, fields[i].isFinal);
  }
}
