/**
 * The loop both generators run over a class's fields: each field is skipped, or converted to a
 * schema field that is appended to the builder and whose name is recorded under the original
 * field name, or it fails, which ends the loop with what was built so far.
 */
module Emission {
  import opened Wrappers
  import opened Exceptions
  import opened JavaTypes
  import opened Avro

  /** What one field contributes: nothing (skipped), a schema field, or an error. */
  type Step = FieldDecl -> Option<Result<SchemaField, Error>>

  predicate Fails(r: Option<Result<SchemaField, Error>>) { r.Some? && r.value.Failure? }
  predicate Emits(r: Option<Result<SchemaField, Error>>) { r.Some? && r.value.Success? }

  /** The builder's fields, the original→schema name map, and the error that ended the loop, if any. */
  datatype Progress = Progress(emitted: seq<SchemaField>, names: map<string, string>, failure: Option<Error>)

  /** The state after one more field; a failed loop takes no further step. */
  function Next(step: Step, p: Progress, f: FieldDecl): (r: Progress)
    ensures p.emitted <= r.emitted && |r.emitted| <= |p.emitted| + 1
    ensures p.names.Keys <= r.names.Keys
    ensures p.failure.Some? ==> r.failure == p.failure
  {
    if p.failure.Some? then p
    else match step(f)
      case None => p
      case Some(Failure(e)) => p.(failure := Some(e))
      case Some(Success(sf)) => Progress(p.emitted + [sf], p.names[f.name := sf.name], None)
  }

  /** The state after the fields fs, taken in order. */
  function Steps(step: Step, fs: seq<FieldDecl>): Progress
  {
    if |fs| == 0 then Progress([], map[], None)
    else Next(step, Steps(step, fs[..|fs| - 1]), fs[|fs| - 1])
  }

  /** Extending a prefix by one field is one more step. */
  lemma StepsSnoc(step: Step, fs: seq<FieldDecl>, i: nat)
    requires i < |fs|
    ensures Steps(step, fs[..i + 1]) == Next(step, Steps(step, fs[..i]), fs[i])
  {
    assert fs[..i + 1][..i] == fs[..i];
  }

  /** Once a field has failed, the remaining fields change nothing. */
  lemma {:induction false} FailureSticks(step: Step, fs: seq<FieldDecl>, k: nat)
    requires k <= |fs| && Steps(step, fs[..k]).failure.Some?
    ensures Steps(step, fs) == Steps(step, fs[..k])
    decreases |fs| - k
  {
    if k < |fs| {
      StepsSnoc(step, fs, k);
      FailureSticks(step, fs, k + 1);
    } else {
      assert fs[..k] == fs;
    }
  }

  /** A field the step skips contributes nothing: the loop ends as if it were not there. */
  lemma {:induction false} SkippedFieldIgnored(step: Step, fs: seq<FieldDecl>, i: nat)
    requires i < |fs| && step(fs[i]).None?
    ensures Steps(step, fs) == Steps(step, fs[..i] + fs[i + 1..])
  {
    var init := fs[..|fs| - 1];
    if i == |fs| - 1 {
      assert fs[..i] + fs[i + 1..] == init;
    } else {
      SkippedFieldIgnored(step, init, i);
      var rest := init[..i] + init[i + 1..];
      assert fs[..i] + fs[i + 1..] == rest + [fs[|fs| - 1]];
      assert (rest + [fs[|fs| - 1]])[..|rest|] == rest;
    }
  }

  /** The loop succeeds exactly when no field fails. */
  lemma {:induction false} SucceedsIff(step: Step, fs: seq<FieldDecl>)
    ensures Steps(step, fs).failure.None? <==> forall i :: 0 <= i < |fs| ==> !Fails(step(fs[i]))
  {
    if |fs| > 0 {
      var init := fs[..|fs| - 1];
      SucceedsIff(step, init);
      assert forall i :: 0 <= i < |init| ==> init[i] == fs[i];
    }
  }

  /**
   * A failing loop stops at its first failing field i with that field's error, and keeps the
   * builder fields and names of the fields before i.
   */
  lemma {:induction false} FirstFailure(step: Step, fs: seq<FieldDecl>) returns (i: nat)
    requires Steps(step, fs).failure.Some?
    ensures i < |fs| && Fails(step(fs[i])) && forall j :: 0 <= j < i ==> !Fails(step(fs[j]))
    ensures Steps(step, fs[..i]).failure.None?
    ensures Steps(step, fs) == Steps(step, fs[..i]).(failure := Some(step(fs[i]).value.error))
  {
    var init := fs[..|fs| - 1];
    if Steps(step, init).failure.Some? {
      i := FirstFailure(step, init);
      assert init[..i] == fs[..i];
      assert forall j :: 0 <= j <= i ==> init[j] == fs[j];
    } else {
      i := |fs| - 1;
      assert init == fs[..i];
      SucceedsIff(step, init);
      assert forall j :: 0 <= j < i ==> init[j] == fs[j];
    }
  }

  /** Whatever the outcome, only emitted fields' original names are keys of the name map. */
  lemma {:induction false} NamesWithin(step: Step, fs: seq<FieldDecl>)
    ensures forall k :: k in Steps(step, fs).names ==> exists i :: 0 <= i < |fs| && Emits(step(fs[i])) && fs[i].name == k
  {
    if |fs| > 0 {
      var init := fs[..|fs| - 1];
      NamesWithin(step, init);
      assert forall i :: 0 <= i < |init| ==> init[i] == fs[i];
    }
  }

  /** The names of the fields in a builder. */
  function FieldNamesOf(emitted: seq<SchemaField>): set<string>
  {
    set j | 0 <= j < |emitted| :: emitted[j].name
  }

  /** Whatever the outcome, every recorded name is the name of a field in the builder. */
  lemma {:induction false} NamesTargetEmitted(step: Step, fs: seq<FieldDecl>)
    ensures forall k :: k in Steps(step, fs).names ==> Steps(step, fs).names[k] in FieldNamesOf(Steps(step, fs).emitted)
  {
    if |fs| > 0 {
      var init := fs[..|fs| - 1];
      NamesTargetEmitted(step, init);
      var p, q := Steps(step, init), Steps(step, fs);
      if p.failure.None? && Emits(step(fs[|fs| - 1])) {
        var sf := step(fs[|fs| - 1]).value.value;
        assert q.emitted == p.emitted + [sf];
        assert q.emitted[|p.emitted|] == sf;
        forall j | 0 <= j < |p.emitted| ensures p.emitted[j].name in FieldNamesOf(q.emitted) {
          assert q.emitted[j] == p.emitted[j];
        }
      }
    }
  }

  /** After a complete loop, the name map's keys are the original names of the emitted fields. */
  lemma {:induction false} NamesKeys(step: Step, fs: seq<FieldDecl>)
    requires Steps(step, fs).failure.None?
    ensures Steps(step, fs).names.Keys == set i | 0 <= i < |fs| && Emits(step(fs[i])) :: fs[i].name
  {
    if |fs| > 0 {
      var init := fs[..|fs| - 1];
      NamesKeys(step, init);
      assert forall i :: 0 <= i < |init| ==> init[i] == fs[i];
    }
  }

  /** Each emitted field's original name maps to the name it was emitted under. */
  lemma {:induction false} NamesValues(step: Step, fs: seq<FieldDecl>, i: nat)
    requires DistinctNames(fs) && Steps(step, fs).failure.None?
    requires i < |fs| && Emits(step(fs[i]))
    ensures fs[i].name in Steps(step, fs).names
    ensures Steps(step, fs).names[fs[i].name] == step(fs[i]).value.value.name
  {
    var init := fs[..|fs| - 1];
    if i < |fs| - 1 {
      assert DistinctNames(init) && init[i] == fs[i];
      NamesValues(step, init, i);
      assert fs[i].name != fs[|fs| - 1].name;
    }
  }

  /** After a complete loop, the builder holds exactly the schema fields the emitting fields produced. */
  lemma {:induction false} EmittedFields(step: Step, fs: seq<FieldDecl>)
    requires Steps(step, fs).failure.None?
    ensures forall sf :: sf in Steps(step, fs).emitted <==> exists i :: 0 <= i < |fs| && step(fs[i]) == Some(Success(sf))
  {
    if |fs| > 0 {
      var init := fs[..|fs| - 1];
      EmittedFields(step, init);
      assert forall i :: 0 <= i < |init| ==> init[i] == fs[i];
    }
  }

  /** After a complete loop that skips no field, the name map's keys are exactly the fields' original names. */
  lemma AllEmitKeys(step: Step, fs: seq<FieldDecl>)
    requires Steps(step, fs).failure.None? && forall i :: 0 <= i < |fs| ==> step(fs[i]).Some?
    ensures Steps(step, fs).names.Keys == set f | f in fs :: f.name
  {
    SucceedsIff(step, fs);
    NamesKeys(step, fs);
    EmittingNames(step, fs);
  }

  /** When every field emits, the names of the emitting fields are the names of all fields. */
  lemma EmittingNames(step: Step, fs: seq<FieldDecl>)
    requires forall i :: 0 <= i < |fs| ==> step(fs[i]).Some? && !Fails(step(fs[i]))
    ensures (set i | 0 <= i < |fs| && Emits(step(fs[i])) :: fs[i].name) == set f | f in fs :: f.name
  {
    var a := set i | 0 <= i < |fs| && Emits(step(fs[i])) :: fs[i].name;
    var b := set f | f in fs :: f.name;
    forall k | k in a ensures k in b {
      var i :| 0 <= i < |fs| && Emits(step(fs[i])) && fs[i].name == k;
      assert fs[i] in fs;
    }
    forall k | k in b ensures k in a {
      var f :| f in fs && f.name == k;
      var i :| 0 <= i < |fs| && fs[i] == f;
      assert Emits(step(fs[i]));
    }
  }

  /** After a complete loop, a schema field is in the builder exactly when some field produced it. */
  lemma EmittedByMember(step: Step, fs: seq<FieldDecl>)
    requires Steps(step, fs).failure.None?
    ensures forall sf :: sf in Steps(step, fs).emitted <==> exists f :: f in fs && step(f) == Some(Success(sf))
  {
    EmittedFields(step, fs);
    forall sf | (exists f :: f in fs && step(f) == Some(Success(sf)))
      ensures exists i :: 0 <= i < |fs| && step(fs[i]) == Some(Success(sf))
    {
      var f :| f in fs && step(f) == Some(Success(sf));
      var i :| 0 <= i < |fs| && fs[i] == f;
    }
  }

  /** After a complete loop, a field the step does not skip was emitted into the builder. */
  lemma {:induction false} EmittedAt(step: Step, fs: seq<FieldDecl>, i: nat)
    requires Steps(step, fs).failure.None? && i < |fs| && step(fs[i]).Some?
    ensures Emits(step(fs[i])) && step(fs[i]).value.value in Steps(step, fs).emitted
  {
    var init := fs[..|fs| - 1];
    if i < |fs| - 1 {
      assert init[i] == fs[i];
      EmittedAt(step, init, i);
    }
  }

  /** The builder gains one field per emitting field and the map at most one key per field. */
  lemma {:induction false} EmittedCount(step: Step, fs: seq<FieldDecl>)
    ensures |Steps(step, fs).emitted| <= |fs| && |Steps(step, fs).names| <= |fs|
    ensures Steps(step, fs).failure.None? && (forall i :: 0 <= i < |fs| ==> Emits(step(fs[i])))
            ==> |Steps(step, fs).emitted| == |fs|
  {
    if |fs| > 0 {
      var init := fs[..|fs| - 1];
      EmittedCount(step, init);
      assert forall i :: 0 <= i < |init| ==> init[i] == fs[i];
      var p := Steps(step, init);
      assert |p.names[fs[|fs| - 1].name := ""]| <= |p.names| + 1;
    }
  }
}
