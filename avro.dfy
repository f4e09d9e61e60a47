/**
 * The Avro values the generators build: record schemas made of typed fields, and generic
 * records holding one value per schema field.
 */
module Avro {
  import opened Wrappers

  /** The field types the two generators can produce. */
  datatype AvroType =
    | BooleanType
    | IntType
    | LongType
    | FloatType
    | DoubleType
    | StringType
    | ArrayOf(items: AvroType)
    | MapOf(values: AvroType)
    | RecordOf(schema: Schema)

  /** A record field; an optional field is the union of null and its type, defaulting to null. */
  datatype SchemaField = SchemaField(name: string, fieldType: AvroType, optional: bool)

  /** A record schema. */
  datatype Schema = Schema(name: string, namespace: Option<string>, fields: seq<SchemaField>)

  /** The names of a schema's fields. */
  function FieldNames(s: Schema): set<string>
  {
    set i | 0 <= i < |s.fields| :: s.fields[i].name
  }

  /** A Java value read from a field; only its identity matters to the model. */
  datatype Value = Null | JavaValue(id: nat)

  /** `GenericData.Record`: a record schema and the values put so far, by schema field name. */
  datatype GenericRecord = GenericRecord(schema: Schema, values: map<string, Value>)
}
