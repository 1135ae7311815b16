/** The `Validator` class: it keeps the submitted data and the lower-cased session mode, and
    offers the three validations. Each method builds its error list step by step as the
    program does and is proved equal to the specification in Settings, Dataset and Upload. */
module DataValidator {
  import opened Json
  import opened Foreign
  import opened Results
  import opened Settings
  import opened Dataset
  import opened Upload

  /** What `svm_data` holds: JSON text (None when `json.loads` rejects it), or an already
      decoded mapping, which is what `dataset_validation` iterates. */
  datatype Raw = Text(parsed: Option<Value>) | Dict(entries: seq<(string, Value)>)

  class Validator {
    var svmData: Raw
    var svmSession: string

    /** Saves the data and reads the session mode from it once, lower-cased. The program
        raises here unless the data is JSON text with a string at
        `data.settings.svm_session`. */
    constructor (svmData: Raw)
      requires svmData.Text? && svmData.parsed.Some? && SessionOf(svmData.parsed.value).Some?
      ensures this.svmData == svmData
      ensures svmSession == Lower(SessionOf(svmData.parsed.value).value)
    {
      this.svmData := svmData;
      this.svmSession := Lower(SessionOf(svmData.parsed.value).value);
    }

    /** `data_validation`: the settings checked against the schema of the session's mode. */
    method DataValidation(schemas: Schemas) returns (r: Report)
      requires svmData.Text? && SettingsDefined(svmData.parsed, svmSession)
      ensures r == ReportOf(SettingsErrors(svmData.parsed, svmSession, schemas))
    {
      var flagJson := false;
      var listError: seq<string> := [];
      var jsonData := JNull;
      match svmData.parsed {
        case None =>
          listError := listError + [SettingsMessage];
          flagJson := false;
        case Some(payload) =>
          jsonData := SettingsOf(payload).value;
          flagJson := true;
      }
      if svmSession == DataNewSession && flagJson {
        var failure := schemas.training(jsonData);
        if failure.Some? {
          listError := listError + [failure.value];
        }
      } else if svmSession == ModelUseSession && flagJson {
        var failure := schemas.analysis(jsonData);
        if failure.Some? {
          listError := listError + [failure.value];
        }
      }
      assert listError == SettingsErrors(svmData.parsed, svmSession, schemas);
      if |listError| > 0 {
        r := Report(false, Some(listError));
      } else {
        r := Report(true, None);
      }
    }

    /** `dataset_validation`: walks the mapping, checking every element of `svm_dataset` and
        the `id_entity` value, and keeps going after each failure. */
    method DatasetValidation(schemas: Schemas) returns (r: Report)
      requires svmData.Dict?
      ensures r == ReportOf(DatasetErrors(svmData.entries, schemas))
    {
      var entries := svmData.entries;
      var listError: seq<string> := [];
      var i := 0;
      while i < |entries|
        invariant 0 <= i <= |entries|
        invariant listError == DatasetErrors(entries[..i], schemas)
      {
        var key, value := entries[i].0, entries[i].1;
        DatasetErrorsStep(entries, i, schemas);
        if key == DatasetKey {
          var records := Iterate(value);
          if records.None? {
            listError := listError + [NotIterableMessage(value)];
          } else {
            ghost var before := listError;
            var j := 0;
            while j < |records.value|
              invariant 0 <= j <= |records.value|
              invariant listError == before + RecordErrors(records.value[..j], schemas)
            {
              RecordErrorsStep(before, records.value, j, schemas);
              var failure := schemas.record(records.value[j]);
              if failure.Some? {
                listError := listError + [failure.value];
              }
              j := j + 1;
            }
            assert records.value[..j] == records.value;
          }
        } else if key == IdKey {
          var failure := schemas.id(JObj([(key, value)]));
          if failure.Some? {
            listError := listError + [failure.value];
          }
        }
        i := i + 1;
      }
      assert entries[..i] == entries;
      if |listError| > 0 {
        r := Report(false, Some(listError));
      } else {
        r := Report(true, None);
      }
    }

    /** `file_upload_validation`: sniffs and hashes each upload entry, keeps the first entry of
        each digest, and on success returns the dataset with its upload list replaced by the
        kept entries. */
    method FileUploadValidation(jsonFileObj: Value, io: Io) returns (r: UploadReport)
      requires UploadDefined(jsonFileObj)
      ensures r == UploadOutcome(jsonFileObj, io)
    {
      var listError: seq<string> := [];
      var jsonData := DatasetOf(jsonFileObj).value;
      var uniqueHash: set<Digest> := {};
      var jsonKeep: seq<Kept> := [];
      var fileUpload := Lookup(jsonData.fields, "file_upload");
      if fileUpload.Some? && Truthy(fileUpload.value) {
        var entries := fileUpload.value.items;
        var index: nat := 0;
        while index < |entries|
          invariant index <= |entries|
          invariant listError == ErrorsAll(entries[..index], io)
          invariant Keep(uniqueHash, jsonKeep) == KeepAll(entries[..index], io)
        {
          var filedata := entries[index];
          ErrorsAllSnoc(entries, index + 1, io);
          KeepAllSnoc(entries, index + 1, io);
          match PathOf(filedata) {
            case None =>
              listError := listError + [IndexMessage(index)];
            case Some(path) =>
              match io.mime(path) {
                case None =>
                  listError := listError + [IndexMessage(index)];
                case Some(mimetype) =>
                  if mimetype !in AcceptableTypes {
                    listError := listError + [TypeMessage(path)];
                  }
                  match io.hash(path) {
                    case None =>
                      listError := listError + [IndexMessage(index)];
                    case Some(filehash) =>
                      if filehash !in uniqueHash {
                        uniqueHash := uniqueHash + {filehash};
                        jsonKeep := jsonKeep + [Kept(mimetype, filedata)];
                      }
                  }
              }
          }
          index := index + 1;
        }
        assert entries[..index] == entries;
        jsonData := JObj(Update(jsonData.fields, "file_upload", JArr(KeptJsons(jsonKeep))));
      } else {
        listError := listError + [NoUploadMessage];
      }
      assert UploadsOf(jsonFileObj).Some? ==>
        var entries := UploadsOf(jsonFileObj).value;
        listError == ErrorsAll(entries, io) &&
        jsonData == JObj(Update(DatasetOf(jsonFileObj).value.fields, "file_upload", JArr(KeptJsons(KeepAll(entries, io).kept))));
      assert UploadsOf(jsonFileObj).None? ==> listError == [NoUploadMessage];
      if |listError| > 0 {
        r := UploadReport(false, Some(listError), None);
      } else {
        r := UploadReport(true, None, Some(jsonData));
      }
    }
  }
}
