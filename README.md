# easy-avro in Dafny

easy-avro derives Apache Avro record schemas from Java classes and copies objects into Avro
generic records. This project models its core and proves properties of the model:

- **The field-name converters.** Seven naming strategies turn a Java field name into a schema
  field name: dromedary (identity), lowercase, uppercase, pascal, snake, kebab and
  screaming snake. The project has them in four copies: the `field`, `name` and `fieldnaming`
  packages and the helper methods of `AvroSchema`.
  - Java's `String.replaceAll` is modelled as a leftmost, greedy, non-overlapping scan
    (`Patterns.ReplaceAll`).
  - It is proved equal to inserting the separator at each adjacent pair the pattern matches.
  - The two chained passes are proved equal to inserting it at every word boundary of the
    original name (`Patterns.Separated`).
  - Every converter is tied to one reference definition per strategy (`Naming.Intended`).
- **Strategy dispatch.** `FieldNamingConverter.of` of the `name` and `fieldnaming` packages, and
  the strategy switch inside `AvroSchema.generate`.
- **`SchemaFactory`.** A class whose `builder` field holds the record being assembled.
  `setFields` walks field descriptors. It skips fields annotated `included = false` and picks
  each output name. It replaces a primitive by its box class, classifies the class, appends a
  required field for a final field and an optional field otherwise, and returns the
  original→output name map.
- **`AvroSchema`.** A class holding the `schemaFields` map and the `schema` slot.
  - `generate` keeps the non-static fields and turns each into a required field. It assigns
    `schema` only when every field succeeds.
  - `convertFromPojo` puts each mapped field's value into a generic record.

Reflection is replaced by field descriptors (`JavaTypes.FieldDecl`): name, declared class,
`static` and `final` flags, and the optional `@AvroField` annotation. The Avro builder is a
sequence of `Avro.SchemaField` values, and a generic record is a map from schema field names to
values. Exceptions are `Failure`/`Fail` values carrying `Exceptions.Error`.

The main loops share one loop model, `Emission.Steps`. It is a fold over the fields in which
each field is skipped, emits a schema field and records its name, or fails and stops the loop.
Both `setFields` and the main loop of `generate` are proved to compute this fold exactly.

The model follows the code as written where it departs from its tests or from the other copies of a converter:
- `AvroSchema.toScreamingSnakeCase` inserts `-`, not `_` (`AvroSchema.java` line 143).
  `AvroSchemas.ScreamingSnakeDiffers` proves this differs from the `fieldnaming` converter
  exactly on names that have a word boundary.
- With no `@AvroRecordNaming`, `generate` uses the identity converter.
- `generate` ignores `@AvroField` and supports only `String`, `long`, `int`, `double`, `long[]`,
  `Long[]` and maps. Every other type fails, including `boolean` and `Integer`.
- `SchemaFactory` has no array, list or map support. Those classes fail with
  `CannotCreateValidEncoding`.
- A failed `generate` leaves the entries recorded before the failing field in `schemaFields`.
- `convertFromPojo` returns the record filled so far when a `put` fails.

## Model

| member | source | states |
|---|---|---|
| `Ascii.ToUpper` | src/main/java/me/atour/easyavro/field/PascalCaseNamingConverter.java:21 | `String.toUpperCase` of the one-character prefix, on ASCII: the result is not lowercase, letters stay letters, non-lowercase characters are unchanged |
| `Ascii.ToLower` | src/main/java/me/atour/easyavro/field/LowercaseNamingConverter.java:18 | ASCII lower-casing of one character: the result is not uppercase, letters stay letters, non-uppercase characters are unchanged |
| `Ascii.CaseRoundTrip` | src/main/java/me/atour/easyavro/field/UppercaseNamingConverter.java:18 | folding an uppercase letter down and back up restores it (and vice versa); folding keeps the letter ignoring case |
| `Ascii.Lower` | src/main/java/me/atour/easyavro/field/LowercaseNamingConverter.java:18 | ASCII `toLowerCase`: same length, each character folded independently |
| `Ascii.Upper` | src/main/java/me/atour/easyavro/field/UppercaseNamingConverter.java:18 | ASCII `toUpperCase`: same length, each character folded independently |
| `Ascii.FoldAbsorbs` | src/main/java/me/atour/easyavro/field/ScreamingSnakeCaseNamingConverter.java:19-21 | lower-casing after upper-casing is lower-casing, and vice versa |
| `Ascii.FoldKeepsFolded` | src/main/java/me/atour/easyavro/name/LowercaseNamingConverter.java:11-13 | a string already in the target case is unchanged, so each fold is idempotent |
| `Ascii.FoldConcat` | src/main/java/me/atour/easyavro/field/SnakeCaseNamingConverter.java:19-21 | case folding distributes over concatenation |
| `Patterns.RunLength` | src/main/java/me/atour/easyavro/name/FieldNamingConverter.java:12-13 | the greedy `+` run: every character of it is in the second group's class, and the next one is not |
| `Patterns.GroupsDisjoint` | src/main/java/me/atour/easyavro/name/FieldNamingConverter.java:12-13 | in each pattern, no character belongs to both group classes |
| `Patterns.ReplaceAll` | src/main/java/me/atour/easyavro/field/SnakeCaseNamingConverter.java:19-20 | one `replaceAll` pass of a `(class)(class+)` pattern with `$1<sep>$2`, scanning left to right; it keeps the first character and never shortens the name; characterised by `ReplaceAllIsInsert` |
| `Patterns.ReplaceAllIsInsert` | src/main/java/me/atour/easyavro/name/FieldNamingConverter.java:12-13 | one `replaceAll` pass equals inserting the separator after every index where the pattern matches two adjacent characters |
| `Patterns.InsertsChain` | src/main/java/me/atour/easyavro/field/SnakeCaseNamingConverter.java:19-20 | the second insertion applied to the first's output inserts at both boundary kinds of the original name |
| `Patterns.TwoPassesSeparate` | src/main/java/me/atour/easyavro/field/SnakeCaseNamingConverter.java:19-20 | the two chained `replaceAll` passes equal `Separated`: the separator at every boundary of the original name and nowhere else |
| `Patterns.Separated` | src/main/java/me/atour/easyavro/field/SnakeCaseNamingConverter.java:19-20 | the reference: output length is input length plus the boundary count, and the first character is kept |
| `Patterns.NoBoundaryUnchanged` | src/test/java/me/atour/easyavro/field/FieldNamingConverterTest.java:179-198 | a name without boundaries gets no separator |
| `Patterns.AllUpperHasNoBoundary` | src/test/java/me/atour/easyavro/field/FieldNamingConverterTest.java:65-82 | an all-uppercase name has no boundary |
| `Patterns.CaselessHasNoBoundary` | src/test/java/me/atour/easyavro/field/FieldNamingConverterTest.java:42-61 | a name with no uppercase letter and no digit has no boundary |
| `Patterns.LeadingDigitsKept` | src/main/java/me/atour/easyavro/name/FieldNamingConverter.java:12-13 | no separator goes before index 0 or inside a leading run of digits |
| `Patterns.SeparatorsDiffer` | src/main/java/me/atour/easyavro/AvroSchema.java:142-147 | two separators give outputs that differ at the same position when the name has a boundary |
| `Patterns.SeparatedConcat` | src/main/java/me/atour/easyavro/name/FieldNamingConverter.java:12-13 | separating a concatenation separates each part, plus one separator when the join is a boundary |
| `Patterns.BoundaryCountConcat` | src/main/java/me/atour/easyavro/name/FieldNamingConverter.java:12-13 | the boundaries of a concatenation are those of its parts plus the join |
| `Words.SeparatedWords` | src/test/java/me/atour/easyavro/field/FieldNamingConverterTest.java:86-113 | for a name made of boundary-free words that meet at boundaries, separation puts the separator exactly between the words |
| `Words.LowerJoin` | src/main/java/me/atour/easyavro/field/SnakeCaseNamingConverter.java:21 | lower-casing a joined name lower-cases each word and keeps a non-letter separator |
| `Words.UpperJoin` | src/main/java/me/atour/easyavro/field/ScreamingSnakeCaseNamingConverter.java:21 | upper-casing a joined name upper-cases each word and keeps a non-letter separator |
| `Words.FoldConcatWords` | src/main/java/me/atour/easyavro/field/LowercaseNamingConverter.java:18 | folding a name folds each of its words |
| `FieldConverters.Snake` | src/main/java/me/atour/easyavro/field/SnakeCaseNamingConverter.java:17-22 | `_` at exactly the boundaries, then lower case; no uppercase remains; length is input length plus the boundary count |
| `FieldConverters.Kebab` | src/main/java/me/atour/easyavro/field/KebabCaseNamingConverter.java:17-22 | `-` at exactly the boundaries, then lower case; no uppercase remains; length is input length plus the boundary count |
| `FieldConverters.ScreamingSnake` | src/main/java/me/atour/easyavro/field/ScreamingSnakeCaseNamingConverter.java:17-22 | `_` at exactly the boundaries, then upper case; it is the upper case of snake case; no lowercase remains |
| `FieldConverters.Pascal` | src/main/java/me/atour/easyavro/field/PascalCaseNamingConverter.java:17-22 | fails with `IllegalArgumentException` exactly on the empty name; otherwise same length, first character upper-cased, the rest unchanged |
| `FieldConverters.Dromedary` | src/main/java/me/atour/easyavro/field/DromedaryCaseNamingConverter.java:17-19 | the name is returned unchanged |
| `FieldConverters.Lowercase` | src/main/java/me/atour/easyavro/field/LowercaseNamingConverter.java:17-19 | same length, no uppercase, each character the same letter ignoring case, non-letters untouched |
| `FieldConverters.Uppercase` | src/main/java/me/atour/easyavro/field/UppercaseNamingConverter.java:17-19 | same length, no lowercase, each character the same letter ignoring case, non-letters untouched |
| `FieldConverters.Convert` | src/main/java/me/atour/easyavro/field/SnakeCaseNamingConverter.java:17-22 | each class's `convert` produces what its strategy is meant to produce; only pascal on "" fails |
| `NameConverters.Of` | src/main/java/me/atour/easyavro/name/FieldNamingConverter.java:29-56 | `of` is total, and the class it returns implements the requested strategy (dromedary for the default branch) |
| `NameConverters.OfCoversEveryClass` | src/main/java/me/atour/easyavro/name/FieldNamingConverter.java:29-56 | every converter class is what `of` returns for its own strategy |
| `NameConverters.Kebab` | src/main/java/me/atour/easyavro/name/KebabCaseNamingConverter.java:8-13 | `-` at exactly the boundaries, then lower case; no uppercase; length is input length plus the boundary count |
| `NameConverters.KebabKeepsLeadingDigits` | src/main/java/me/atour/easyavro/name/KebabCaseNamingConverter.java:10-11 | no `-` before index 0 or inside a leading run of digits |
| `NameConverters.Lowercase` | src/main/java/me/atour/easyavro/name/LowercaseNamingConverter.java:11-13 | same length, no uppercase, same letters ignoring case, non-letters untouched, already folded |
| `NameConverters.Uppercase` | src/main/java/me/atour/easyavro/name/UppercaseNamingConverter.java:11-13 | same length, no lowercase, same letters ignoring case, non-letters untouched, already folded |
| `NameConverters.CaseFoldsIdempotent` | src/main/java/me/atour/easyavro/name/LowercaseNamingConverter.java:11-13 | converting twice equals converting once, for both case converters |
| `NameConverters.Dromedary` | src/main/java/me/atour/easyavro/name/DromedaryCaseNamingConverter.java:11-13 | the name is returned unchanged with its length, never failing, even on "" |
| `NameConverters.Convert` | src/main/java/me/atour/easyavro/name/KebabCaseNamingConverter.java:8-13 | this package's classes produce what their strategy is meant to produce; only pascal on "" fails |
| `NameConverters.OfConverts` | src/main/java/me/atour/easyavro/name/FieldNamingConverter.java:29-56 | the converter `of` picks gives the intended result, the same as the `field` package's |
| `FieldNamingConverters.Of` | src/main/java/me/atour/easyavro/fieldnaming/FieldNamingConverter.java:13-40 | `of` is total, and the class it returns implements the requested strategy (dromedary for the default branch) |
| `FieldNamingConverters.Snake` | src/main/java/me/atour/easyavro/fieldnaming/SnakeCaseNamingConverter.java:8-13 | `_` at exactly the boundaries, then lower case; no uppercase; length is input length plus the boundary count |
| `FieldNamingConverters.ScreamingSnake` | src/main/java/me/atour/easyavro/fieldnaming/ScreamingSnakeCaseNamingConverter.java:8-13 | `_` at exactly the boundaries, then upper case; equal to the upper case of this package's snake case; no lowercase |
| `FieldNamingConverters.Pascal` | src/main/java/me/atour/easyavro/fieldnaming/PascalCaseNamingConverter.java:8-13 | fails exactly on ""; otherwise same length, first character upper-cased, the rest unchanged |
| `FieldNamingConverters.PascalKeepsInterior` | src/main/java/me/atour/easyavro/fieldnaming/PascalCaseNamingConverter.java:12 | every character after index 0 survives, separators included |
| `FieldNamingConverters.Lowercase` | src/main/java/me/atour/easyavro/fieldnaming/LowercaseNamingConverter.java:8-10 | same length, no uppercase, same letters ignoring case, non-letters untouched, idempotent |
| `FieldNamingConverters.Uppercase` | src/main/java/me/atour/easyavro/fieldnaming/UppercaseNamingConverter.java:8-10 | same length, no lowercase, same letters ignoring case, non-letters untouched, idempotent |
| `FieldNamingConverters.Convert` | src/main/java/me/atour/easyavro/fieldnaming/FieldNamingConverter.java:13-40 | this package's classes produce what their strategy is meant to produce; only pascal on "" fails |
| `FieldNamingConverters.OfConverts` | src/main/java/me/atour/easyavro/fieldnaming/FieldNamingConverter.java:13-40 | the converter `of` picks gives the intended result, the same as the `field` package's |
| `FieldConverterExamples.WordConversions` | src/test/java/me/atour/easyavro/field/FieldNamingConverterTest.java:86-113 | on a name made of words, snake and kebab join the lower-cased words with `_` and `-`, screaming snake joins the upper-cased words with `_`, and the case converters fold each word |
| `FieldConverterExamples.CaselessName` | src/test/java/me/atour/easyavro/field/FieldNamingConverterTest.java:42-61 | without uppercase letters or digits, snake, kebab, lowercase and dromedary keep the name, and screaming snake and uppercase only upper-case it |
| `FieldConverterExamples.UpperCaseName` | src/test/java/me/atour/easyavro/field/FieldNamingConverterTest.java:65-82 | an all-uppercase name is only lower-cased by snake, kebab and lowercase, and is kept by screaming snake, uppercase, dromedary and pascal |
| `FieldConverterExamples.PascalKeepsCapitalOrDigit` | src/test/java/me/atour/easyavro/field/FieldNamingConverterTest.java:148-175 | pascal keeps a name whose first character is not a lowercase letter |
| `FieldConverterExamples.WordsWithoutBoundary` | src/test/java/me/atour/easyavro/field/FieldNamingConverterTest.java:86-175 | the words of the test names contain no boundary |
| `FieldConverterExamples.DigitInMiddleSplit` | src/test/java/me/atour/easyavro/field/FieldNamingConverterTest.java:86-113 | `aString9WithSomeNumber` splits into the words a, String, 9, With, Some, Number |
| `FieldConverterExamples.DigitInMiddleLower` | src/test/java/me/atour/easyavro/field/FieldNamingConverterTest.java:86-113 | those words lower-cased |
| `FieldConverterExamples.DigitInMiddleUpper` | src/test/java/me/atour/easyavro/field/FieldNamingConverterTest.java:86-113 | those words upper-cased |
| `FieldConverterExamples.DigitInMiddle` | src/test/java/me/atour/easyavro/field/FieldNamingConverterTest.java:86-113 | the expected snake `a_string_9_with_some_number`, kebab, screaming snake, lowercase and uppercase outputs |
| `FieldConverterExamples.DigitAtEndSplit` | src/test/java/me/atour/easyavro/field/FieldNamingConverterTest.java:117-144 | `aStringWithSomeNumber9` splits into the words a, String, With, Some, Number, 9 |
| `FieldConverterExamples.DigitAtEndLower` | src/test/java/me/atour/easyavro/field/FieldNamingConverterTest.java:117-144 | those words lower-cased |
| `FieldConverterExamples.DigitAtEndUpper` | src/test/java/me/atour/easyavro/field/FieldNamingConverterTest.java:117-144 | those words upper-cased |
| `FieldConverterExamples.DigitAtEnd` | src/test/java/me/atour/easyavro/field/FieldNamingConverterTest.java:117-144 | the expected snake `a_string_with_some_number_9`, kebab, screaming snake, lowercase and uppercase outputs |
| `FieldConverterExamples.DigitAtStartSplit` | src/test/java/me/atour/easyavro/field/FieldNamingConverterTest.java:148-175 | `2aStringWithSomeNumber` splits into the words 2a, String, With, Some, Number |
| `FieldConverterExamples.DigitAtStartLower` | src/test/java/me/atour/easyavro/field/FieldNamingConverterTest.java:148-175 | those words lower-cased |
| `FieldConverterExamples.DigitAtStartUpper` | src/test/java/me/atour/easyavro/field/FieldNamingConverterTest.java:148-175 | those words upper-cased |
| `FieldConverterExamples.DigitAtStart` | src/test/java/me/atour/easyavro/field/FieldNamingConverterTest.java:148-175 | the expected snake `2a_string_with_some_number` (no separator after the leading digit), kebab, screaming snake, lowercase and uppercase outputs |
| `Emission.Next` | src/main/java/me/atour/easyavro/SchemaFactory.java:55-72 | one iteration of the field loops (also AvroSchema.java:80-103): the builder and the name map only grow, by at most one field, and an error, once raised, is kept; `Steps` folds it over the fields and is characterised by `FailureSticks`, `SucceedsIff` and the lemmas below |
| `Emission.FailureSticks` | src/main/java/me/atour/easyavro/SchemaFactory.java:55-72 | after a field fails, the remaining fields change nothing |
| `Emission.SkippedFieldIgnored` | src/main/java/me/atour/easyavro/SchemaFactory.java:56-59 | a skipped field leaves the whole loop's outcome as if it were absent |
| `Emission.SucceedsIff` | src/main/java/me/atour/easyavro/SchemaFactory.java:55-72 | the loop succeeds exactly when no field fails |
| `Emission.FirstFailure` | src/main/java/me/atour/easyavro/AvroSchema.java:80-108 | a failing loop stops at its first failing field, with that field's error and the builder and names of the fields before it |
| `Emission.NamesWithin` | src/main/java/me/atour/easyavro/SchemaFactory.java:71 | whatever the outcome, the name map's keys are original names of emitted fields |
| `Emission.NamesTargetEmitted` | src/main/java/me/atour/easyavro/AvroSchema.java:102 | whatever the outcome, every recorded name is the name of a builder field |
| `Emission.NamesKeys` | src/main/java/me/atour/easyavro/SchemaFactory.java:71 | after a complete loop, the keys are exactly the original names of the emitting fields |
| `Emission.NamesValues` | src/main/java/me/atour/easyavro/SchemaFactory.java:70-71 | with distinct field names, each emitting field maps to the name it was emitted under |
| `Emission.EmittedFields` | src/main/java/me/atour/easyavro/SchemaFactory.java:70 | after a complete loop, the builder holds exactly the schema fields the emitting fields produced |
| `Emission.EmittedAt` | src/main/java/me/atour/easyavro/SchemaFactory.java:70 | after a complete loop, every field that is not skipped was emitted into the builder |
| `Emission.EmittedCount` | src/main/java/me/atour/easyavro/AvroSchema.java:80-103 | at most one builder field and one map key per field; one builder field each when every field emits |
| `AvroSchemas.ToSnakeCase` | src/main/java/me/atour/easyavro/AvroSchema.java:128-133 | `_` at exactly the boundaries, then lower case; no uppercase; length is input length plus the boundary count |
| `AvroSchemas.ToKebabCase` | src/main/java/me/atour/easyavro/AvroSchema.java:135-140 | `-` at exactly the boundaries, then lower case; no uppercase; length is input length plus the boundary count |
| `AvroSchemas.ToScreamingSnakeCase` | src/main/java/me/atour/easyavro/AvroSchema.java:142-147 | `-` (as written) at exactly the boundaries, then upper case; no lowercase |
| `AvroSchemas.ScreamingSnakeDiffers` | src/main/java/me/atour/easyavro/AvroSchema.java:142-147 | `toScreamingSnakeCase` agrees with the `fieldnaming` screaming snake exactly on names without a boundary |
| `AvroSchemas.ToLowerCase` | src/main/java/me/atour/easyavro/AvroSchema.java:149-151 | same length, no uppercase, same letters ignoring case, non-letters untouched |
| `AvroSchemas.ToUpperCase` | src/main/java/me/atour/easyavro/AvroSchema.java:153-155 | same length, no lowercase, same letters ignoring case, non-letters untouched |
| `AvroSchemas.ToPascalCase` | src/main/java/me/atour/easyavro/AvroSchema.java:157-162 | fails with `IllegalArgumentException` exactly on ""; otherwise only index 0 is upper-cased |
| `AvroSchemas.ToDromedaryCase` | src/main/java/me/atour/easyavro/AvroSchema.java:164-166 | the name is returned unchanged |
| `AvroSchemas.SelectedStrategy` | src/main/java/me/atour/easyavro/AvroSchema.java:50-79 | no `@AvroRecordNaming` selects dromedary; otherwise the annotation's strategy |
| `AvroSchemas.ConvertFieldName` | src/main/java/me/atour/easyavro/AvroSchema.java:50-79 | the selected helper gives the strategy's intended result, except screaming snake, which separates with `-`; only pascal on "" fails |
| `AvroSchemas.SchemaTypeOf` | src/main/java/me/atour/easyavro/AvroSchema.java:85-101 | an accepted type is never given a record, boolean or float type; every box class, every primitive except `long`, `int` and `double`, every array other than `long[]`/`Long[]`, and every other class fails with `IllegalAccessException` |
| `AvroSchemas.GenerateTypeTable` | src/main/java/me/atour/easyavro/AvroSchema.java:85-97 | in both directions: `String` gives string, `long` long, `int` int, `double` double, `long[]` and `Long[]` an array of long, and a `Map` a map of string values; no other Avro type is produced |
| `AvroSchemas.EmitField` | src/main/java/me/atour/easyavro/AvroSchema.java:84-101 | a field succeeds exactly when its name converts and its type is accepted, and becomes a required field of that name and type; otherwise the error of the failing step |
| `AvroSchemas.NonStatic` | src/main/java/me/atour/easyavro/AvroSchema.java:43-49 | exactly the non-static fields are kept |
| `AvroSchemas.NonStaticDistinct` | src/main/java/me/atour/easyavro/AvroSchema.java:43-49 | filtering keeps field names distinct |
| `AvroSchemas.GeneratedSchema` | src/main/java/me/atour/easyavro/AvroSchema.java:35-109 | a schema exists exactly when the loop did not fail; it is named after the class and holds the emitted fields; otherwise the error is wrapped as `CannotGenerateSchemaException` |
| `AvroSchemas.Generation` | src/main/java/me/atour/easyavro/AvroSchema.java:80-103 | the fold `generate` runs over the non-static fields; when it completes, it has one schema field per non-static field and every one is required; characterised by `GenerationSucceedsIff` and `GenerationNames` |
| `AvroSchemas.GenerationSucceedsIff` | src/main/java/me/atour/easyavro/AvroSchema.java:80-108 | generation succeeds exactly when every non-static field has a convertible name and an accepted type |
| `AvroSchemas.GenerationNames` | src/main/java/me/atour/easyavro/AvroSchema.java:102 | after a successful generation, each non-static field maps to its converted name, and static fields are not keys |
| `AvroSchemas.GenerationKeys` | src/main/java/me/atour/easyavro/AvroSchema.java:80-103 | after a successful generation, `schemaFields` has a key for each non-static field and no other key |
| `AvroSchemas.GenerationFields` | src/main/java/me/atour/easyavro/AvroSchema.java:80-104 | after a successful generation, the schema's fields are exactly the required fields built for the non-static fields |
| `AvroSchemas.GeneratedNamesInSchema` | src/main/java/me/atour/easyavro/AvroSchema.java:102-104 | every recorded name is a field of the generated schema |
| `AvroSchemas.GenerationFailsAt` | src/main/java/me/atour/easyavro/AvroSchema.java:105-108 | a failure at the first failing field ends generation with the names recorded before it and the wrapped error |
| `AvroSchemas.Fill` | src/main/java/me/atour/easyavro/AvroSchema.java:113-124 | the values `convertFromPojo`'s loop puts; every key is a field of the record's schema; characterised by `FillKeysWithin`, `FillComplete`, `FillNull` and `FillStopped` |
| `AvroSchemas.FillKeysWithin` | src/main/java/me/atour/easyavro/AvroSchema.java:116-118 | every key the record gets is the recorded name of a non-static field |
| `AvroSchemas.FillComplete` | src/main/java/me/atour/easyavro/AvroSchema.java:113-121 | when every recorded name is in the schema, the loop never stops early and each mapped field's value is stored under its recorded name |
| `AvroSchemas.FillNull` | src/main/java/me/atour/easyavro/AvroSchema.java:122-124 | a null object stops the loop before anything is stored |
| `AvroSchemas.FillStopped` | src/main/java/me/atour/easyavro/AvroSchema.java:122-125 | once the loop has stopped, later fields change nothing |
| `AvroSchemas.ConvertAfterGenerate` | src/main/java/me/atour/easyavro/AvroSchema.java:111-126 | after a successful generation, conversion stores under each key the value of a non-static field recorded under it, and never stops early |
| `AvroSchemas.AvroSchema.constructor` | src/main/java/me/atour/easyavro/AvroSchema.java:23-33 | a new generator has an empty name map and no schema |
| `AvroSchemas.AvroSchema.Generate` | src/main/java/me/atour/easyavro/AvroSchema.java:35-109 | `schemaFields` becomes the fold's name map; the schema is assigned on success and otherwise kept, with the error wrapped |
| `AvroSchemas.AvroSchema.ConvertFromPojo` | src/main/java/me/atour/easyavro/AvroSchema.java:111-126 | without a schema, the record cannot be created; otherwise the record on the current schema holds the values the fill loop computes |
| `SchemaFactories.WrapperOf` | src/main/java/me/atour/easyavro/SchemaFactory.java:20-28 | each primitive's box class wraps that primitive |
| `SchemaFactories.ToWrapper` | src/main/java/me/atour/easyavro/SchemaFactory.java:166-171 | a primitive becomes the box class of that primitive; any other class is returned unchanged; the result is never primitive |
| `SchemaFactories.WrapperTable` | src/main/java/me/atour/easyavro/SchemaFactory.java:20-28 | the box table is one-to-one and wrapping is idempotent |
| `SchemaFactories.ScalarKind` | src/main/java/me/atour/easyavro/SchemaFactory.java:100-115 | exactly the box classes and `String` have a scalar Avro type |
| `SchemaFactories.FieldSchema` | src/main/java/me/atour/easyavro/SchemaFactory.java:99-124 | scalar classes give a field of their kind, required or optional as asked; an `@AvroRecord` class gives a field of the nested generated schema with no default, or the nested generation's error; anything else fails with `CannotCreateValidEncodingException` |
| `SchemaFactories.BranchesShareKinds` | src/main/java/me/atour/easyavro/SchemaFactory.java:133-157 | the required and optional branches accept the same classes with the same Avro type and error, and differ only in optionality of a non-record field |
| `SchemaFactories.RequiredWhenFinal` | src/main/java/me/atour/easyavro/SchemaFactory.java:84-90 | a required field is never optional; an optional one is, unless it is a nested record |
| `SchemaFactories.PrimitiveAsBox` | src/main/java/me/atour/easyavro/SchemaFactory.java:100 | a primitive and its box class give the same field, and every primitive is accepted |
| `SchemaFactories.KindTable` | src/main/java/me/atour/easyavro/SchemaFactory.java:99-115 | after wrapping: Integer, Byte, Character and Short give int; Boolean, Long, Double, Float and String give their own type; arrays and maps fail |
| `SchemaFactories.OutputName` | src/main/java/me/atour/easyavro/SchemaFactory.java:60-66 | the annotation's non-empty name as written, otherwise the converter's intended result for the original name |
| `SchemaFactories.FactoryField` | src/main/java/me/atour/easyavro/SchemaFactory.java:56-70 | skipped exactly when excluded; an emitted field carries the output name; a failing name conversion is the field's error |
| `SchemaFactories.SchemaFactory.constructor` | src/main/java/me/atour/easyavro/SchemaFactory.java:38-40 | the builder starts the named, namespaced record with no fields |
| `SchemaFactories.NewSchemaFactory` | src/main/java/me/atour/easyavro/SchemaFactory.java:38 | a missing name or namespace is refused with `NullPointerException`; otherwise a fresh factory with an empty builder |
| `SchemaFactories.SchemaFactory.SetRequiredField` | src/main/java/me/atour/easyavro/SchemaFactory.java:99-124 | appends the required field for the class and passes, or throws and leaves the builder as it was |
| `SchemaFactories.SchemaFactory.SetOptionalField` | src/main/java/me/atour/easyavro/SchemaFactory.java:133-158 | appends the optional field for the class and passes, or throws and leaves the builder as it was |
| `SchemaFactories.SchemaFactory.SetField` | src/main/java/me/atour/easyavro/SchemaFactory.java:84-90 | the required branch for a required field and the optional branch otherwise |
| `SchemaFactories.SchemaFactory.SetFields` | src/main/java/me/atour/easyavro/SchemaFactory.java:51-74 | the builder gains exactly the fold's emitted fields; the map is returned exactly when no included field failed, and is the fold's name map; otherwise the first error |
| `SchemaFactories.SetFieldsSucceedsIff` | src/main/java/me/atour/easyavro/SchemaFactory.java:55-72 | `setFields` succeeds exactly when every included field has a convertible output name and an encodable class |
| `SchemaFactories.ExcludedFieldIgnored` | src/main/java/me/atour/easyavro/SchemaFactory.java:56-59 | an `included = false` field changes neither the builder, the map nor the outcome, and is never a key |
| `SchemaFactories.SetFieldsNames` | src/main/java/me/atour/easyavro/SchemaFactory.java:60-71 | after success, the keys are exactly the included fields, each mapped to its output name |
| `SchemaFactories.SetFieldsEmitted` | src/main/java/me/atour/easyavro/SchemaFactory.java:69-70 | after success, each included field's schema field is in the builder, required when final and optional when not final and not a record |

## Left out

- Reflection (`privateLookupIn`, `unreflectGetter`, `unreflectVarHandle`, `revealDirect`, `Modifier`) is replaced by field descriptors. The `IllegalAccessException` that reflection can throw in `setFields` is not modelled.
- The Avro library is foreign. `SchemaBuilder` is a field sequence and `GenericData.Record` a map. Avro name validation, duplicate-field checks at `endRecord`, and the split of a dotted class name into name and namespace are not modelled.
- Field order in `setFields`: it iterates a `Map` its caller supplies, whose order is unspecified. The model takes the fields in the order of the sequence it is given, and states its properties per field or over maps and sets. `generate` and `convertFromPojo` follow the declared-field order, which the model keeps.
- `SchemaFactory.create` only ends the record with Avro's builder. Its result is the builder held in the `builder` field, so it has no member of its own.
- `MapOf`/`ClassType` overlap: in `generate`, a class that implements `Map` is a `MapType` descriptor. A user class is never taken as a `Map`.
- Case mapping is ASCII-only. Java's Unicode- and locale-dependent `toLowerCase`/`toUpperCase` are not modelled.
- The literal test strings are stated through their word lists (`Words.Concat`, `Words.Join`) rather than as string literals.
- Tests written for another revision are not modelled: record-name derivation, default snake-case naming, array and map support in `SchemaFactory`, `convertToPojo`, and annotation-aware `generate`.
- The annotations, the strategy enum, the exception classes and logging hold no logic. They appear only as datatypes.
- The `name` package's snake, pascal and screaming-snake classes are not part of this model. Its `Convert` uses the `field` package's bodies for them.
- The `fieldnaming` package's kebab and dromedary classes are not part of this model. Its `Convert` uses the `field` package's bodies for them.
- The `field` package's `FieldNamingConverter` interface, with its patterns and any `of`, is not part of this model. The `field` converters are taken to use the same two patterns.
- `AvroSchemas.AvroSchema.ConvertFromPojo`: the object is a map from field names to values and must have a value for every field. A `null` object is `None`, and the `NullPointerException` it causes is swallowed like any other error.
- Cyclic class graphs cannot be written, because class declarations are finite values. Nothing is lost: `SchemaFactory` generates a nested `@AvroRecord` class with `AvroSchema.generate`, which refuses every class-typed field, so the recursion stops one level down, a cycle included, and the model reaches that failure.
