# Data validator, modelled in Dafny

This project models the `Validator` class of `python/data_validator.py`. The class checks
the JSON a support-vector-machine web application receives before any model is trained or
used. It collects every problem it finds into an error list instead of stopping at the first.

- The **constructor** stores `svm_data`. It also reads the session mode from
  `data.settings.svm_session` once, lower-cased.
- **`data_validation`** checks the settings against one schema. The mode picks it:
  `data_new` uses the training schema, `model_use` the analysis schema, and any other mode
  uses none. Settings text that does not parse gives one generic message.
- **`dataset_validation`** walks a mapping. It checks every element of `svm_dataset`
  against the record schema and `id_entity` against the id schema. It ignores other keys
  and keeps going after each failure.
- **`file_upload_validation`** walks the upload list. For each entry it:
  - sniffs the MIME type and checks it against a three-type whitelist;
  - hashes the file and keeps the first entry of each digest;
  - turns any fault into a message that carries the entry's index.

  On success it returns the dataset with its upload list replaced by the kept entries.

Modules:

- `Json` (json.dfy): parsed JSON values and the Python operations the validator uses on
  them: `d[key]`, `d.get`, truthiness, `for` iteration, `str.lower()` and `str(n)`.
- `Foreign` (foreign.dfy): the calls the validator makes into code outside this model.
  These are the jsonschema checks, libmagic's sniffing and the MD5 helper. They are
  functions carried in the `Schemas` and `Io` values that the operations take as
  parameters. `None` means the call succeeded (schemas) or raised (sniffing, hashing).
- `Results` (results.dfy): the returned dictionaries, and the rule that `status` is true
  exactly when the error list is empty.
- `Settings`, `Dataset` and `Upload` hold the specification functions of the three
  validations and the lemmas about them.
- `DataValidator` (validator.dfy): the `Validator` class. Its methods build their error
  lists in loops, as the program does. Each method is proved equal to the matching
  specification function.

Where the program raises an uncaught exception, the model has a precondition.
`SettingsDefined` and `UploadDefined` state when the program returns normally.

Two facts about the code as written:

- A `Validator` built by the constructor has already parsed `svm_data`.
  - So the "settings have not been properly configured" path of `data_validation` is
    reachable only if a caller replaces `svm_data` after construction.
  - `dataset_validation` needs `svm_data` to be a dictionary. The constructor needs it to
    be text. So a caller must also replace the field before calling it.
  - The model keeps `svmData` an ordinary mutable field, as the Python attribute is.
- One might expect a re-run of the upload validation on its own output to change nothing;
  as written it does not. The kept entries are rewrapped as
  `{'type': ..., 'filedata': ...}` and have no `file_temp`, so a re-run faults on every
  entry (`RerunOnOutputFaults`). The model follows the code. What does hold is that
  de-duplicating the kept `filedata` values again removes nothing (`DedupIdempotent`).

## Model

| member | source | states |
|---|---|---|
| DataValidator.Validator.constructor | python/data_validator.py:21-23 | stores the data, and the session field is the lower-cased `data.settings.svm_session` of the parsed text |
| DataValidator.Validator.DataValidation | python/data_validator.py:31-72 | the report is the one built from the settings errors: status true with no error list exactly when no schema check failed and the text parsed |
| DataValidator.Validator.DatasetValidation | python/data_validator.py:79-104 | the nested loops build exactly the dataset error list (one message per failing record, per non-iterable `svm_dataset`, per failing `id_entity`, in key order), and the report follows it |
| DataValidator.Validator.FileUploadValidation | python/data_validator.py:111-153 | the loop's error list, seen-digest set and keep-list are those of the specification at every index; the returned report is the upload outcome |
| Results.CollectEmpty | python/data_validator.py:84-98 | a walk that keeps going after each failure reports nothing exactly when no element has an error |
| Results.ReportOf | python/data_validator.py:69-72 | status is true exactly when the error list is empty, the error field is absent exactly then, and otherwise it carries the whole list |
| Results.ErrorsOf | python/data_validator.py:49-50 | a caught exception adds its message and nothing else (at most one entry); a call that does not raise adds nothing, as each `except Exception, error: list_error.append(str(error))` does (also lines 65-66, 90-91, 95-96) |
| Json.LookupFinds | python/data_validator.py:121 | a key lookup finds something exactly when some member has that key, and what it finds is that member's value |
| Json.Update | python/data_validator.py:143 | replacing a member's value keeps the number and the keys of the members |
| Json.UpdateLookup | python/data_validator.py:143 | after the replacement, `file_upload` reads the new list and every other key reads what it read before |
| Json.Nested | python/data_validator.py:115 | `payload['data'][key]`, as `data.settings` (line 38) and `data.dataset` (line 115) are read: found exactly when the payload has `data` and that has the key, and it is that member |
| Json.TypeName | python/data_validator.py:97-98 | an integer is named `int` exactly when it fits a 64-bit `int` and `long` otherwise; no other value takes either name |
| Json.Iterate | python/data_validator.py:87 | a `for` loop can start exactly on a list, a string or a dict |
| Json.Truthy | python/data_validator.py:53 | a value is false exactly when it is `None`, `False`, `0`, or an empty string, list or dict; this decides the `if` at line 53 and the one at line 121 |
| Json.Lower | python/data_validator.py:23 | lower-casing keeps the length, leaves no upper-case letter and changes each character at most in case |
| Json.LowerCaseInsensitive | python/data_validator.py:23 | two names lower-case to the same string exactly when they differ only in the case of their letters |
| Json.LowerIdempotent | python/data_validator.py:23 | lower-casing a lower-cased name changes nothing |
| Json.NatToString | python/data_validator.py:139 | `str(index)` is a non-empty string of digits without a leading zero |
| Json.NatToStringRoundTrip | python/data_validator.py:139 | reading the digits of `str(index)` back gives the index |
| Json.NatToStringInjective | python/data_validator.py:139 | different indices have different decimal notations |
| Settings.SessionOf | python/data_validator.py:23 | a session name is found exactly when `data.settings.svm_session` exists and is a string, and it is that string |
| Settings.SecondaryCheckDefined | python/data_validator.py:53-54 | the `data_new` branch's lookups need the settings to be a dictionary; with any dataset type other than "upload file" nothing more is needed |
| Settings.SettingsDefined | python/data_validator.py:37-55 | `data_validation` returns on unparsable text, never returns without `data.settings`, needs the secondary check only for `data_new`, and needs nothing more for other modes |
| Settings.ModeOf | python/data_validator.py:46-62 | each recognised mode is chosen exactly when the session equals its name |
| Settings.SettingsErrors | python/data_validator.py:37-66 | at most one message, and exactly the generic settings message when the text did not parse |
| Settings.DataNewUsesTrainingOnly | python/data_validator.py:46-50 | a `data_new` session's errors are the training check's, whatever the analysis schema says |
| Settings.ModelUseUsesAnalysisOnly | python/data_validator.py:62-66 | a `model_use` session's errors are the analysis check's, whatever the training schema says |
| Settings.OtherModesAddNothing | python/data_validator.py:57-59 | every other session, `data_append` and `model_generate` included, adds no error |
| Settings.ParseFailureSkipsSchemas | python/data_validator.py:37-43 | unparsable settings give exactly the generic message, whatever the mode and the schemas |
| Settings.ModeCaseInsensitive | python/data_validator.py:23 | the lower-cased name selects `data_new` (or `model_use`) exactly when it spells that name in any mix of cases |
| Dataset.NotIterableMessage | python/data_validator.py:97-98 | the message for a value a loop cannot iterate quotes the value's type name and ends with "object is not iterable" |
| Dataset.RecordErrors | python/data_validator.py:87-91 | the records report nothing exactly when the record schema accepts every one of them |
| Dataset.KeyErrors | python/data_validator.py:86-98 | other keys add nothing; `id_entity` adds at most one message, and one exactly when the id schema rejects it; a non-iterable `svm_dataset` adds exactly the not-iterable message; an iterable one adds nothing exactly when every element passes |
| Dataset.DatasetErrors | python/data_validator.py:84-98 | the dataset error list is empty exactly when no key contributes a message |
| Dataset.RecordErrorsStep | python/data_validator.py:87-91 | one turn of the inner loop appends the record's message exactly when the record schema rejects it |
| Dataset.DatasetErrorsStep | python/data_validator.py:84-98 | one turn of the outer loop appends exactly what that key contributes |
| Dataset.RecordErrorsCount | python/data_validator.py:87-91 | one message per failing record |
| Dataset.IgnoredKeyAddsNothing | python/data_validator.py:84-98 | a key other than `svm_dataset` and `id_entity` adds nothing, wherever it stands |
| Dataset.KeyErrorsCount | python/data_validator.py:86-98 | a key contributes as many messages as it has failing units |
| Dataset.DatasetErrorsCount | python/data_validator.py:84-98 | the error list is exactly as long as the number of failing units of all keys, so a failure never stops later records or keys from being checked |
| Dataset.DatasetStatus | python/data_validator.py:84-104 | the dataset validation succeeds exactly when no unit fails |
| Upload.TypeListJoined | python/data_validator.py:128-129 | the list the whitelist message ends with is `', '.join` of the three acceptable types |
| Upload.TypeMessage | python/data_validator.py:127-130 | the whitelist message opens with its fixed prefix, quotes the path and ends with the acceptable types |
| Upload.IndexMessage | python/data_validator.py:139 | the fault message opens with "Problem with file upload #", continues with the decimal index and ends with ". Please re-upload the file." |
| Upload.MessagesDistinct | python/data_validator.py:128-139 | a whitelist message is never a fault message, so the two kinds can be told apart in the list |
| Upload.IndexMessageInjective | python/data_validator.py:139 | each fault message names the one index it was raised for |
| Upload.PathOf | python/data_validator.py:125-132 | the path exists only where `file_temp` does; from a list it is the first element when that is a string, from a string its first character, and any other `file_temp` gives none |
| Upload.KeptOf | python/data_validator.py:136 | a kept record carries the entry's own `filedata` |
| Upload.KeptJsons | python/data_validator.py:143 | the written list holds one `{'type', 'filedata'}` dictionary per kept entry, in order |
| Upload.EntryErrors | python/data_validator.py:124-140 | an entry adds one message if its type is rejected plus one if its handling raised; the first names its path, the last its index |
| Upload.EntryMessages | python/data_validator.py:124-140 | the whitelist message for an entry's path appears exactly when its sniffed type is rejected, and its indexed message exactly when the `try` raised: no path, a failed sniff or a failed hash |
| Upload.AddEntryErrors | python/data_validator.py:124-140 | a turn of the loop only appends: one message for a rejected type, one for a fault, the type message first and the indexed message last |
| Upload.AddEntryErrorsAppends | python/data_validator.py:124-140 | one turn of the loop appends exactly the entry's own messages to what was there |
| Upload.ErrorsAllSnoc | python/data_validator.py:123-140 | the error list after one more entry is the list so far with that turn's appends, which are exactly the entry's own messages |
| Upload.KeepStep | python/data_validator.py:132-136 | a turn adds the entry's digest to the seen set if it has one, and appends at most one record to the keep-list, exactly when the digest is new |
| Upload.KeepAllSnoc | python/data_validator.py:123-136 | the seen set and keep-list after one more entry are those so far after one more turn |
| Upload.KeptMatchesSeen | python/data_validator.py:118-136 | the keep-list is exactly as long as the seen set: each kept entry brought one new digest |
| Upload.FirstsBelow | python/data_validator.py:134-136 | the indices listed are increasing and are exactly the entries that are first of their digest |
| Upload.FirstIffUnseen | python/data_validator.py:134 | an entry is first of its digest exactly when its digest is not among those seen before it |
| Upload.SeenCharacterized | python/data_validator.py:118-135 | the seen set holds exactly the digests of the entries handled so far |
| Upload.KeptGrow | python/data_validator.py:134-136 | a turn of the loop keeps its entry exactly when the entry is first of its digest |
| Upload.KeptCharacterized | python/data_validator.py:119-136 | the keep-list is, in order, the first entries of their digests among those handled so far |
| Upload.Dedup | python/data_validator.py:118-143 | the kept entries are, in input order, exactly the first entry of each digest; they are no more than the input, are input entries that were hashed, and have pairwise distinct digests |
| Upload.RejectedStillKept | python/data_validator.py:127-136 | an entry whose type is rejected still goes through hashing and is kept, with the rejected type, if it is first of its digest |
| Upload.KeepAllDistinct | python/data_validator.py:134-136 | entries that all hash to pairwise distinct digests are all kept, in order |
| Upload.DedupIdempotent | python/data_validator.py:134-136 | de-duplicating the kept `filedata` values again keeps every one of them |
| Upload.ErrorCount | python/data_validator.py:123-140 | the error list is as long as the number of rejected types plus the number of faulted entries |
| Upload.ErrorsPrefix | python/data_validator.py:123-140 | what the first entries reported stays at the front of the list: later entries only append |
| Upload.EntryReported | python/data_validator.py:127-140 | a rejected type's message and a fault's indexed message both reach the final list, whatever later entries do |
| Upload.ErrorsEmpty | python/data_validator.py:123-140 | the loop reports nothing exactly when every entry has a whitelisted type and a digest |
| Upload.UploadDefined | python/data_validator.py:115-143 | the method returns only on a dataset that is a dictionary, and always returns on one without `file_upload` |
| Upload.UploadsOf | python/data_validator.py:121 | the uploads are absent exactly when `file_upload` is missing or falsy; otherwise they are the non-empty list stored there |
| Upload.UploadOutcome | python/data_validator.py:145-153 | status is true exactly when there is no error, and then exactly when data is returned; a failure carries a non-empty list |
| Upload.NoUploads | python/data_validator.py:145-151 | an absent or empty upload list gives exactly `['No file(s) were uploaded']` and no data |
| Upload.UploadSuccess | python/data_validator.py:143-153 | success exactly when there are uploads and each has a whitelisted type and a digest; the data returned then has `file_upload` replaced by the kept list and every other key untouched |
| Upload.RejectedFails | python/data_validator.py:127-151 | one rejected type makes the whole operation fail with no data, and its message names the path |
| Upload.RerunOnOutputFaults | python/data_validator.py:123-143 | feeding the rewritten upload list back in faults every entry, the k-th message naming index k |
| Upload.AllFaulted | python/data_validator.py:138-140 | entries without a usable path report their own indices, one message each, in order |

## Left out

- The contents of the jsonschema schemas and the text of jsonschema's messages. A schema
  check is a function from the checked value to an optional message.
- libmagic sniffing and the MD5 helper. They are file I/O, so they are functions of the
  path that may fail. A digest is an opaque string.
- `json.loads` text parsing. The model starts from the parsed value, with `None` standing
  for text that does not parse. The validator parses the same text in three places; the
  model parses it once and reuses the result.
- The debug `print` loop over `svm_dataset` in `data_validation`. It prints and changes
  nothing. Its precondition is kept: the settings are a dictionary, and a truthy
  `svm_dataset` of an "upload file" session can be iterated.
- JSON numbers other than integers. Python floats are not modelled, so neither is their
  type name in "object is not iterable" messages.
- Json.TypeName: takes the `int`/`long` boundary of a 64-bit Python 2 (`sys.maxint` is
  2^63 - 1); on a 32-bit build integers from 2^31 on would already be named `long`.
- Json.Lower: lower-cases ASCII letters only, whereas Python 2's `unicode.lower()` also
  lower-cases non-ASCII letters.
- The constructor's `session_type` parameter. The class never reads it.
- The in-place slice assignment `json_data['file_upload'][:] = json_keep`. It changes a
  dictionary the method has just parsed itself and then returns. So it is modelled as
  building the returned value with the upload list replaced. No other reference to that
  list exists.
- `src/js/ajax_data.js`: browser form handling with no logic of its own. It is not part of
  this model.
