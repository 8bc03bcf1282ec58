/** Failure-carrying values shared by every stage of the summarizer pipeline. */
module Errors {

  datatype Option<+T> = None | Some(value: T)

  /** The failures the pipeline can surface; each stands for an exception the
      Python code raises or lets propagate. */
  datatype Error =
    | UnsupportedExtension(ext: string)  // ValueError for a path that is neither .txt nor .pdf
    | NotASource                         // TypeError for a value that is no path, bytes or stream
    | PdfLibraryMissing                  // ValueError when pdfplumber could not be imported
    | ExtractionFailed                   // pdfplumber could not open or read the document
    | FileError(path: string)            // the file could not be read
    | InvalidChunkSize                   // range() refuses a zero step
    | UnknownBackend(engine: string)     // ValueError from choose_backend
    | ChatFailed                         // the model client raised (network, auth, rate limit)

  datatype Result<+T> = Ok(value: T) | Err(error: Error)
}
