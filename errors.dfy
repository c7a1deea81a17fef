/** The error values the upload pipeline reports. An error is a code and a
    message, as `thorin.error(code, message)` builds it; errors that arrive
    from a resolver, a hook, a processor or a storage backend are carried as
    they are. */
module Errors {

  datatype Error = Error(code: string, message: string)

  const InvalidField := Error("UPLOAD.INVALID_FIELD", "Upload file field name is invalid.")
  const FileInvalid := Error("UPLOAD.FILE_INVALID", "Unsupported file type.")
  const FileTooLarge := Error("UPLOAD.FILE_TOO_LARGE", "File is too large.")
  const StorageUnavailable := Error("UPLOAD.STORAGE_UNAVAILABLE", "File storage is currently unavailable.")
  /** Built only by `onFilesLimit`, which is never attached to the parser;
      kept to name the code, and reported by no member. */
  const FileLimit := Error("UPLOAD.FILE_LIMIT", "Only one file can be uploaded once.")
  const SizeLimit := Error("UPLOAD.SIZE_LIMIT", "Form contains too many parts.")
  const FieldsLimit := Error("UPLOAD.FIELDS_LIMIT", "Uploader does not support POST fields.")
  /** The "no file in the body" error: note the code is INVALID_FILE, not FILE_INVALID. */
  const NoFile := Error("UPLOAD.INVALID_FILE", "Please specify the file to upload")
  /** The default error an upload file records when it is marked too large. */
  const EntityTooLarge := Error("UPLOAD.FILE_TOO_LARGE", "The file is too large.")
}
