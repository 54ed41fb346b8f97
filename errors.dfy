/**
 * The exceptions the client raises, one constructor per distinct failure.
 * The comment on each constructor names the Python exception type it stands for.
 */
module FlexErrors {
  import opened Wrappers

  datatype FlexError =
    | MissingConfig                            // ValueError: TOKEN or QUERY_ID missing or empty
    | SendFailed                               // RuntimeError: transport or HTTP failure on SendRequest
    | InvalidXml                               // ValueError: acknowledgement is not well-formed XML
    | RequestRejected(status: Option<string>)  // RuntimeError: Status other than "Success"
    | NoReferenceCode                          // ValueError: "Success" without a reference code
    | DownloadFailed                           // RuntimeError: transport or HTTP failure on GetStatement
    | DirectoryFailed                          // OSError from creating the parent directories
    | WriteFailed                              // RuntimeError: writing the file failed
}
