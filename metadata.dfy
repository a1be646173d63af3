/** The metadata tamper check `is_pdf_modified`. */
module Metadata {
  import opened Wrappers

  /**
   * What reading the document's metadata yields: a failure of the PDF reader
   * (with its exception text), a document without an information dictionary
   * (`reader.metadata` is `None`), or the dictionary with its raw string values.
   */
  datatype MetadataSource =
    | ReadFailed(reason: string)
    | NoInfo
    | Info(fields: map<string, string>)

  /**
   * The triple `(modified, creation_date, mod_date)` that `is_pdf_modified`
   * returns. On the error path the third component carries the diagnostic.
   */
  datatype Evidence = Evidence(pdfModified: bool, creationDate: Option<string>, modificationDate: Option<string>)

  const CREATION_DATE_KEY: string := "/CreationDate"
  const MOD_DATE_KEY: string := "/ModDate"
  const ERROR_PREFIX: string := "Metadata error: "

  /** The exception text Python gives for `.get` on `None`. */
  const NO_INFO_REASON: string := "'NoneType' object has no attribute 'get'"

  /** `metadata.get(key)`. */
  function Get(fields: map<string, string>, key: string): Option<string> {
    if key in fields then Some(fields[key]) else None
  }

  /** The diagnostic of the error path: the prefix and the exception text. */
  function ErrorReason(source: MetadataSource): string
    requires !source.Info?
  {
    if source.ReadFailed? then source.reason else NO_INFO_REASON
  }

  /**
   * `is_pdf_modified`: the document counts as modified exactly when both dates
   * are present, non-empty and different; any failure reads as "not modified"
   * with no creation date and a diagnostic in place of the modification date.
   */
  function IsPdfModified(source: MetadataSource): (e: Evidence)
    ensures e.pdfModified <==>
              && source.Info?
              && Truthy(Get(source.fields, CREATION_DATE_KEY))
              && Truthy(Get(source.fields, MOD_DATE_KEY))
              && source.fields[CREATION_DATE_KEY] != source.fields[MOD_DATE_KEY]
    ensures source.Info? ==> e.creationDate == Get(source.fields, CREATION_DATE_KEY)
                             && e.modificationDate == Get(source.fields, MOD_DATE_KEY)
    ensures !source.Info? ==> e == Evidence(false, None, Some(ERROR_PREFIX + ErrorReason(source)))
    ensures e.pdfModified ==> e.creationDate.Some? && e.modificationDate.Some?
                              && e.creationDate != e.modificationDate
  {
    match source
    case ReadFailed(reason) => Evidence(false, None, Some(ERROR_PREFIX + reason))
    case NoInfo => Evidence(false, None, Some(ERROR_PREFIX + NO_INFO_REASON))
    case Info(fields) =>
      var created := Get(fields, CREATION_DATE_KEY);
      var modified := Get(fields, MOD_DATE_KEY);
      if Truthy(created) && Truthy(modified) && created != modified then
        Evidence(true, created, modified)
      else
        Evidence(false, created, modified)
  }

  /**
   * Worked cases: two different dates report a modification and are passed
   * through; equal dates or an empty dictionary do not; a document without an
   * information dictionary takes the error path, so a false flag alone does
   * not tell an intact document from unreadable metadata.
   */
  lemma MetadataScenarios()
    ensures IsPdfModified(Info(map[CREATION_DATE_KEY := "D:20230101", MOD_DATE_KEY := "D:20230105"]))
            == Evidence(true, Some("D:20230101"), Some("D:20230105"))
    ensures IsPdfModified(Info(map[CREATION_DATE_KEY := "D:20230101", MOD_DATE_KEY := "D:20230101"]))
            == Evidence(false, Some("D:20230101"), Some("D:20230101"))
    ensures IsPdfModified(Info(map[])) == Evidence(false, None, None)
    ensures IsPdfModified(NoInfo) == Evidence(false, None, Some(ERROR_PREFIX + NO_INFO_REASON))
  {
  }
}
