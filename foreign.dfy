/** The collaborators the validator calls into but does not define: the four jsonschema
    checks, libmagic's MIME sniffing and the MD5 file digest. Each is a function value
    supplied by the caller, so every theorem holds for every choice of them. */
module Foreign {
  import opened Json

  /** `validate(instance, schema)` for each of the four schemas: None when the instance
      conforms, otherwise `str()` of the exception jsonschema raises. */
  datatype Schemas = Schemas(
    training: Value -> Option<string>,
    analysis: Value -> Option<string>,
    record: Value -> Option<string>,
    id: Value -> Option<string>)

  /** An MD5 digest, as the hex string the hashing helper returns. */
  type Digest = string

  /** `magic.from_file(path, mime=True)` and `md5_for_file(path)`: None when the call raises
      (an unreadable or missing file, for one). */
  datatype Io = Io(mime: string -> Option<string>, hash: string -> Option<Digest>)
}
