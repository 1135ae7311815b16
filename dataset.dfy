/** Dataset-record validation: every element of `svm_dataset` against the record schema,
    `id_entity` against the id schema, other keys ignored, every failure kept. */
module Dataset {
  import opened Json
  import opened Foreign
  import opened Results

  const DatasetKey := "svm_dataset"
  const IdKey := "id_entity"

  /** Python 2's message when a `for` loop is handed a value it cannot iterate: the value's
      type name, quoted, then the fixed text. */
  function NotIterableMessage(v: Value): (msg: string)
    ensures |msg| == 1 + |TypeName(v)| + |NotIterableSuffix|
    ensures msg[..1] == "'"
    ensures msg[1..1 + |TypeName(v)|] == TypeName(v)
    ensures msg[1 + |TypeName(v)|..] == NotIterableSuffix
  {
    var msg := "'" + TypeName(v) + NotIterableSuffix;
    assert msg == "'" + (TypeName(v) + NotIterableSuffix);
    msg
  }

  const NotIterableSuffix := "' object is not iterable"

  /** The messages of the failing records, in order; none exactly when every record passes. */
  function RecordErrors(records: seq<Value>, schemas: Schemas): (r: seq<string>)
    ensures r == [] <==> forall i :: 0 <= i < |records| ==> schemas.record(records[i]).None?
  {
    var errorsOf := (record: Value) => ErrorsOf(schemas.record(record));
    CollectEmpty(records, errorsOf);
    Collect(records, errorsOf)
  }

  /** What one key of the mapping contributes. A non-iterable `svm_dataset` raises before
      any element is checked, and the outer handler turns that into one message. */
  function KeyErrors(key: string, value: Value, schemas: Schemas): (r: seq<string>)
    ensures key != DatasetKey && key != IdKey ==> r == []
    ensures key == IdKey ==> (r == [] <==> schemas.id(JObj([(IdKey, value)])).None?) && |r| <= 1
    ensures key == DatasetKey && Iterate(value).None? ==> r == [NotIterableMessage(value)]
    ensures key == DatasetKey && Iterate(value).Some? ==>
              (r == [] <==> forall i :: 0 <= i < |Iterate(value).value| ==> schemas.record(Iterate(value).value[i]).None?)
  {
    if key == DatasetKey then
      match Iterate(value)
      case None => [NotIterableMessage(value)]
      case Some(records) => RecordErrors(records, schemas)
    else if key == IdKey then ErrorsOf(schemas.id(JObj([(IdKey, value)])))
    else []
  }

  /** The error list `dataset_validation` builds, walking the mapping in iteration order;
      empty exactly when no key contributes a message. */
  function DatasetErrors(entries: seq<(string, Value)>, schemas: Schemas): (r: seq<string>)
    ensures r == [] <==> forall i :: 0 <= i < |entries| ==> KeyErrors(entries[i].0, entries[i].1, schemas) == []
  {
    var errorsOf := (entry: (string, Value)) => KeyErrors(entry.0, entry.1, schemas);
    CollectEmpty(entries, errorsOf);
    Collect(entries, errorsOf)
  }

  /** One more record checked. */
  lemma RecordErrorsSnoc(records: seq<Value>, j: nat, schemas: Schemas)
    requires j < |records|
    ensures RecordErrors(records[..j + 1], schemas) == RecordErrors(records[..j], schemas) + ErrorsOf(schemas.record(records[j]))
  {
    CollectSnoc(records, j, (record: Value) => ErrorsOf(schemas.record(record)));
  }

  /** One more key walked. */
  lemma DatasetErrorsSnoc(entries: seq<(string, Value)>, i: nat, schemas: Schemas)
    requires i < |entries|
    ensures DatasetErrors(entries[..i + 1], schemas) == DatasetErrors(entries[..i], schemas) + KeyErrors(entries[i].0, entries[i].1, schemas)
  {
    CollectSnoc(entries, i, (entry: (string, Value)) => KeyErrors(entry.0, entry.1, schemas));
  }

  /** One turn of the inner loop: a rejected record appends its message. */
  function AddRecordError(errors: seq<string>, record: Value, schemas: Schemas): seq<string>
  {
    match schemas.record(record)
    case None => errors
    case Some(failure) => errors + [failure]
  }

  /** One turn of the outer loop, on the list built so far. */
  function AddKeyErrors(errors: seq<string>, key: string, value: Value, schemas: Schemas): seq<string>
  {
    if key == DatasetKey then
      match Iterate(value)
      case None => errors + [NotIterableMessage(value)]
      case Some(records) => errors + RecordErrors(records, schemas)
    else if key == IdKey then
      match schemas.id(JObj([(IdKey, value)]))
      case None => errors
      case Some(failure) => errors + [failure]
    else errors
  }

  /** The inner loop's list after one more record, in the form the loop builds it. */
  lemma RecordErrorsStep(before: seq<string>, records: seq<Value>, j: nat, schemas: Schemas)
    requires j < |records|
    ensures before + RecordErrors(records[..j + 1], schemas) == AddRecordError(before + RecordErrors(records[..j], schemas), records[j], schemas)
  {
    RecordErrorsSnoc(records, j, schemas);
  }

  /** The outer loop's list after one more key, in the form the loop builds it. */
  lemma DatasetErrorsStep(entries: seq<(string, Value)>, i: nat, schemas: Schemas)
    requires i < |entries|
    ensures DatasetErrors(entries[..i + 1], schemas) == AddKeyErrors(DatasetErrors(entries[..i], schemas), entries[i].0, entries[i].1, schemas)
  {
    DatasetErrorsSnoc(entries, i, schemas);
  }

  // ---------------------------------------------------------------------------
  // Properties

  /** The indices of the records the record schema rejects. */
  function FailingRecords(records: seq<Value>, schemas: Schemas): set<nat>
  {
    set i: nat | i < |records| && schemas.record(records[i]).Some?
  }

  /** Exactly one message per failing record. */
  lemma {:induction false} RecordErrorsCount(records: seq<Value>, schemas: Schemas)
    ensures |RecordErrors(records, schemas)| == |FailingRecords(records, schemas)|
  {
    if records != [] {
      var n := |records| - 1;
      var prefix := records[..n];
      RecordErrorsCount(prefix, schemas);
      RecordErrorsSnoc(records, n, schemas);
      assert records[..n + 1] == records;
      var before, after := FailingRecords(prefix, schemas), FailingRecords(records, schemas);
      var grown := before + (if schemas.record(records[n]).Some? then {n} else {});
      forall i: nat
        ensures i in after <==> i in grown
      {
        if i < n {
          assert prefix[i] == records[i];
        }
      }
      assert after == grown;
      assert n !in before;
    }
  }

  /** Keys other than `svm_dataset` and `id_entity` add nothing, wherever they stand. */
  lemma IgnoredKeyAddsNothing(a: seq<(string, Value)>, key: string, value: Value, b: seq<(string, Value)>, schemas: Schemas)
    requires key != DatasetKey && key != IdKey
    ensures DatasetErrors(a + [(key, value)] + b, schemas) == DatasetErrors(a + b, schemas)
  {
    var errorsOf := (entry: (string, Value)) => KeyErrors(entry.0, entry.1, schemas);
    var single := [(key, value)];
    CollectSnoc(single, 0, errorsOf);
    assert single[..1] == single && single[..0] == [];
    assert Collect(single, errorsOf) == [];
    CollectAppend(a + single, b, errorsOf);
    CollectAppend(a, single, errorsOf);
    CollectAppend(a, b, errorsOf);
  }

  /** How many failing units a key holds: each rejected record of `svm_dataset` (or the one
      loop that could not start), and `id_entity` when the id schema rejects it. */
  function FailingUnits(key: string, value: Value, schemas: Schemas): nat
  {
    if key == DatasetKey then
      match Iterate(value)
      case None => 1
      case Some(records) => |FailingRecords(records, schemas)|
    else if key == IdKey then
      (if schemas.id(JObj([(IdKey, value)])).Some? then 1 else 0)
    else 0
  }

  function TotalFailingUnits(entries: seq<(string, Value)>, schemas: Schemas): nat
  {
    if entries == [] then 0
    else TotalFailingUnits(entries[1..], schemas) + FailingUnits(entries[0].0, entries[0].1, schemas)
  }

  /** One key's errors number its failing units. */
  lemma KeyErrorsCount(key: string, value: Value, schemas: Schemas)
    ensures |KeyErrors(key, value, schemas)| == FailingUnits(key, value, schemas)
  {
    if key == DatasetKey && Iterate(value).Some? {
      RecordErrorsCount(Iterate(value).value, schemas);
    }
  }

  /** Each failing unit contributes exactly one error: the list is as long as the number of
      failing units. */
  lemma {:induction false} DatasetErrorsCount(entries: seq<(string, Value)>, schemas: Schemas)
    ensures |DatasetErrors(entries, schemas)| == TotalFailingUnits(entries, schemas)
  {
    if entries != [] {
      var errorsOf := (entry: (string, Value)) => KeyErrors(entry.0, entry.1, schemas);
      var first, rest := [entries[0]], entries[1..];
      assert entries == first + rest;
      CollectAppend(first, rest, errorsOf);
      CollectSnoc(first, 0, errorsOf);
      assert first[..1] == first && first[..0] == [];
      DatasetErrorsCount(rest, schemas);
      KeyErrorsCount(entries[0].0, entries[0].1, schemas);
    }
  }

  /** `dataset_validation` succeeds exactly when there is no failing unit. */
  lemma DatasetStatus(entries: seq<(string, Value)>, schemas: Schemas)
    ensures ReportOf(DatasetErrors(entries, schemas)).status <==> TotalFailingUnits(entries, schemas) == 0
  {
    DatasetErrorsCount(entries, schemas);
  }
}
