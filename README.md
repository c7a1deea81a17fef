# Thorin upload plugin: a Dafny model

This project models the core of the Thorin upload plugin, which accepts
`multipart/form-data` uploads on configured HTTP paths. Each upload is checked
against the path's handler policy and streamed to a storage backend chosen per
request. The model covers four pieces:

- **The upload file** (`UploadFiles`, lib/uploadFile.js). The file's name,
  extension and storage key are derived from the part headers. The file also
  has a byte counter, the storage folder, the full key, a terminal error slot
  and a destructor.
- **The handler policy** (`Handlers`, lib/handler.js):
  - the builder setters;
  - the size-string converter;
  - the allow-list check of a file's MIME type and extension.
- **The plugin** (`Plugin`, lib/uploadPlugin.js):
  - the storage class registry;
  - the storage instance registry and its three registration forms;
  - the handlers waiting for the transport to start.
- **The uploader** (`Uploader` and `UploadSession`, lib/uploader.js). The
  route table decides which handler gets a request, and the admission
  decision decides whether the upload pipeline starts. Each accepted request
  then runs a state machine that calls the completion callback at most once,
  with the first error or with success after the file was saved.

Supporting modules:

- `Text` gives the JavaScript string operations the source relies on, with
  their properties proved:
  - collapsing runs of slashes;
  - `path.extname`;
  - ASCII case mapping;
  - `indexOf`, and `replace` of the first occurrence;
  - decimal rendering;
  - `parseInt`.
- `Errors` holds the error codes and messages.
- `Storage` holds the records a storage class builds.

Things outside the plugin are inputs to the model rather than computed by it:

- **Key inputs.** The clock, the random salt and the SHA-2 digest that go
  into a file's key are a `KeySeed` value.
- **Route matching.** The route-parser is a predicate parameter.
- **Regular expressions.** A regular expression given to `mimeType(...)` is
  a predicate value.
- **Parser events and callbacks.**
  - Each multipart parser event is a method call on a `Session`.
  - Each answer of the storage resolver, the hooks, the processor and the
    backend is also a method call on the `Session`, with its outcome as an
    argument.

Where the code and the plugin's documented behaviour differ, the model
follows the code, except for the two defects under "## Findings". There the
code as written is modelled beside the intended behaviour, and the rest of the
model uses the intended one: `TooLargeError`, `FileTooLarge` and
`OnStreamLimit` record the too-large error, and `Convert` and `Limit` read a
unit-less size string as bytes. The other differences, where the model follows
the code:

- **Leading slash in `setFolder`.** `setFolder` removes only one leading
  slash before collapsing runs, so `"//x"` is stored as `"/x"`. See
  `NormalizeFolderShape`.
- **`FILE_LIMIT` never fires.** `onFilesLimit` is defined but never attached
  to the parser. A second file part is therefore not reported as
  `FILE_LIMIT`.
- **No-file error code.** A body that ends without a file fails with
  `UPLOAD.INVALID_FILE`, not `UPLOAD.FILE_INVALID`.
- **Resolver errors.** An error from the storage resolver is reported as it
  is, not as `STORAGE_UNAVAILABLE`.
- **No `Content-Length` check.** The request's `Content-Length` is not
  checked before parsing.

## Model

| member | source | states |
|---|---|---|
| `Text.CollapseSlashes` | lib/uploadFile.js:48 | the collapse never lengthens a string, and only the empty string collapses to the empty string; `Text.CollapseSlashesRun` and `Text.CollapseSlashesFixed` pin it down as one slash per run |
| `Text.CollapseSlashesNoDouble` | lib/uploadFile.js:138 | after `replace(/\/\/+/g, '/')` no two slashes are adjacent |
| `Text.CollapseSlashesFixed` | lib/uploadFile.js:138 | a string without a double slash is left unchanged |
| `Text.CollapseSlashesRun` | lib/uploadFile.js:138 | a run of slashes one longer collapses to the same string, so with `Text.CollapseSlashesFixed` every run of two or more slashes becomes exactly one slash (`"a//b"` gives `"a/b"`) |
| `Text.CollapseSlashesKeepsSubstring` | lib/uploadFile.js:48 | a slash-free piece of the string survives the collapse |
| `Text.RemoveSpaces` | lib/handler.js:15 | the result holds no space, and a string without spaces is unchanged |
| `Text.RemoveFirst` | lib/handler.js:17 | without an occurrence of the pattern the string is unchanged; otherwise exactly its first occurrence is cut out |
| `Text.RemoveSpacesConcat` | lib/handler.js:15 | removing the spaces of two joined strings removes them from each part, so every other character is kept in its order |
| `Text.ExtName` | lib/uploadFile.js:33 | `path.extname` is empty or starts with its only dot, and never holds a slash |
| `Text.ExtNameOfPath` | lib/uploadFile.js:33 | `path.extname` is empty exactly when the last path segment has no dot after its first character, or is `..`; otherwise it ends both that segment and the whole name |
| `Text.ToLower` | lib/uploadFile.js:34 | lower-casing keeps the length and maps every character |
| `Text.DecimalRoundTrip` | lib/uploadFile.js:41 | the rendered timestamp is a digit string that reads back as the timestamp |
| `Text.IndexOfFrom` | lib/uploadFile.js:45 | `indexOf` finds the first occurrence at or after the start, or reports that there is none |
| `Text.Utf16Length` | lib/uploadFile.js:53 | a string's `length` counts UTF-16 code units: one or two per character, and exactly one per character when no character lies outside the Basic Multilingual Plane |
| `Text.TrimStart` | lib/handler.js:17 | `parseInt` first skips leading white space: what remains ends the string and starts with no white space, and every skipped character is white space |
| `Text.ParseInt` | lib/handler.js:17 | `parseInt` yields a number only when the string holds a digit |
| `Text.ParseIntOfDigits` | lib/handler.js:17 | `parseInt` of a digit string is its decimal value |
| `Text.ParseIntOfHex` | lib/handler.js:17 | `parseInt` of `0x` or `0X` followed by hexadecimal digits is their hexadecimal value |
| `Text.ParseIntSkipsSpace` | lib/handler.js:17 | leading JavaScript white space, tabs and line breaks included, does not change what `parseInt` reads |
| `UploadFiles.FileName` | lib/uploadFile.js:28-30 | a missing or empty file name becomes `file`; any other name is kept |
| `UploadFiles.ExtensionShape` | lib/uploadFile.js:33-37 | the extension is lower-case and holds no dot or slash; it is empty exactly when `extname` gives at most a dot; otherwise it is `extname` lower-cased without its dot |
| `UploadFiles.ExtensionIsSuffix` | lib/uploadFile.js:33-37 | a non-empty extension, preceded by a dot, ends the lower-cased file name |
| `UploadFiles.RawDefault` | lib/uploadFile.js:20-27 | raw text or buffer input without a MIME type or encoding gets `text/plain` or `utf8`, so it always has one; a given value, and anything a part brings, is kept |
| `UploadFiles.RawKeyHasExtension` | lib/uploadFile.js:41-47 | before the collapse, the key contains `.` plus the extension whenever the extension is non-empty |
| `UploadFiles.DeriveKey` | lib/uploadFile.js:38-48 | the derived key is never empty |
| `UploadFiles.DeriveKeyShape` | lib/uploadFile.js:38-48 | the key is non-empty, starts with a timestamp digit, has no double slash, and contains `.` plus the extension when that is non-empty |
| `UploadFiles.NormalizeFolder` | lib/uploadFile.js:137-138 | the stored folder is never longer than the argument |
| `UploadFiles.NormalizeFolderShape` | lib/uploadFile.js:137-138 | a stored folder has no double slash, and starts with a slash exactly when the argument started with two |
| `UploadFiles.FullKey` | lib/uploadFile.js:165-173 | with no folder (or an empty one) the full key is the key; otherwise it is the folder, a `/` unless the folder ends in one, then the key |
| `UploadFiles.FullKeyNormalised` | lib/uploadFile.js:165-173 | the full key of a fresh file, with any folder set through `setFolder`, has no double slash |
| `UploadFiles.TooLargeError` | lib/uploadFile.js:120-127 | as intended, the recorded error is the cause when one is given, otherwise an `UPLOAD.FILE_TOO_LARGE` error |
| `UploadFiles.TooLargeErrorAsWritten` | lib/uploadFile.js:120-127 | as written, marking a file too large without a cause throws when the error table is undefined |
| `UploadFiles.TooLargeAsWrittenThrows` | lib/uploadFile.js:124 | with the uploader's undefined table, the as-written version throws where the intended one records FILE_TOO_LARGE; the two agree when a cause or a table is given |
| `UploadFiles.UploadFile.constructor` | lib/uploadFile.js:19-95 | a new file holds the derived name, extension, key, MIME type and encoding; its size is the raw text's length in UTF-16 code units, the buffer's length in bytes, or 0 for a part |
| `UploadFiles.UploadFile.OnData` | lib/uploadFile.js:61-64 | every chunk adds its length, so `size` stays the total of the chunks seen |
| `UploadFiles.UploadFile.ToJson` | lib/uploadFile.js:97-103 | the JSON has the URL, and has the size exactly when it is non-zero |
| `UploadFiles.UploadFile.GetStream` | lib/uploadFile.js:112-115 | the stream is returned unless it is missing or falsy; after `destroy` it is null |
| `UploadFiles.UploadFile.FileTooLarge` | lib/uploadFile.js:120-127 | as intended, the error slot holds the cause, or the too-large error |
| `UploadFiles.UploadFile.SetFolder` | lib/uploadFile.js:132-141 | a non-string is ignored; otherwise the normalised folder, free of double slashes, is stored |
| `UploadFiles.UploadFile.SetOptions` | lib/uploadFile.js:150-155 | only an object replaces the options |
| `UploadFiles.UploadFile.GetKey` | lib/uploadFile.js:165-173 | the full key is recomputed from the current folder and always ends with the key |
| `UploadFiles.UploadFile.Destroy` | lib/uploadFile.js:176-185 | stream, options, folder and the header-derived fields are cleared; the error, size and URL are kept; a second call changes nothing |
| `Handlers.ConvertAsWritten` | lib/handler.js:14-30 | as written, a size string converts to a number or to `NaN`, never to anything else; its suffix is `substr(-2)` counted in UTF-16 code units |
| `Handlers.Convert` | lib/handler.js:14-30 | as intended, a size string converts to a number or to `NaN`, never to anything else; the first occurrence of its last two characters is removed only when they are a unit |
| `Handlers.ConvertAgreesWithUnit` | lib/handler.js:14-30 | whenever the last two characters (after space removal) are a unit in any case, the intended and the as-written conversion agree, so the correction changes only unit-less strings |
| `Handlers.ConvertWithUnit` | lib/handler.js:14-30 | digits followed by KB, MB, GB or TB in any case convert to the number times 1024 to that power, both as written and as intended |
| `Handlers.ConvertIgnoresSpaces` | lib/handler.js:14-30 | spaces anywhere in a size string are removed first: text that is digits once its spaces are gone, followed by text that is a unit once its spaces are gone (`"10 MB"`), converts to the digits' value times the unit's factor, both as written and as intended |
| `Handlers.ConvertPlainNumber` | lib/handler.js:14-30 | as intended, a unit-less number of bytes converts to itself |
| `Handlers.ConvertHexWithUnit` | lib/handler.js:14-30 | since `parseInt` reads a `0x` prefix, a hexadecimal amount followed by a unit converts to its value times the unit's factor, both as written and as intended |
| `Handlers.ConvertAsWrittenAstralSuffix` | lib/handler.js:16-17 | as written, digits followed by a character outside the Basic Multilingual Plane convert to the digits' value: `substr(-2)` is that character's surrogate pair, which is removed and is no unit |
| `Handlers.ConvertAsWrittenDropsZeros` | lib/handler.js:16-17 | as written, `"100"` converts to 1, where the intended result is 100 |
| `Handlers.ExtensionsShape` | lib/handler.js:95-105 | the configured extensions are lower-case, and at most one is added per argument |
| `Handlers.ExtensionMatchIgnoresCase` | lib/handler.js:95-105 | a configured extension, written with or without its leading dot, that agrees with a file's extension up to case normalises to exactly the file's extension |
| `Handlers.UploadHandler.constructor` | lib/handler.js:37-50 | a new handler accepts the field `asset`, has empty allow-lists, no storage and no processor, and starts from the default limits |
| `Handlers.UploadHandler.IsFileValid` | lib/handler.js:52-77 | a file is valid exactly when the MIME list is empty or one pattern accepts its MIME type, AND the extension list is empty or holds its extension |
| `Handlers.UploadHandler.MimeType` | lib/handler.js:81-92 | strings become patterns, regular expressions are kept, other values are skipped, in argument order |
| `Handlers.UploadHandler.Extension` | lib/handler.js:95-105 | each string is appended without one leading dot and lower-cased, in order; the list stays lower-case |
| `Handlers.UploadHandler.Field` | lib/handler.js:108-113 | only a string changes the field name |
| `Handlers.UploadHandler.Limit` | lib/handler.js:116-130 | as intended, `limit(key, value)` sets exactly that key, converting a size string; `limit(object)` merges the object; any other call changes nothing |
| `Handlers.UploadHandler.Storage` | lib/handler.js:141-154 | the storage is set once: a name or object becomes a constant resolver, a function is kept, anything else is ignored |
| `Handlers.UploadHandler.Upload` | lib/handler.js:159-170 | the processor is set once: afterwards the handler has a processor and exactly one upload-process entry on its stack |
| `Plugin.Registered` | lib/uploadPlugin.js:56-58 | the uploader receives at most one route entry per pending handler |
| `Plugin.RegisteredShape` | lib/uploader.js:257-274 | only ready handlers are registered, each under its own path; when all are ready, all are registered in order |
| `Plugin.UploadPlugin.constructor` | lib/uploadPlugin.js:17-26 | the plugin starts with empty registries, no pending handler and an empty route table |
| `Plugin.UploadPlugin.Init` | lib/uploadPlugin.js:54-62 | the run listener is attached |
| `Plugin.OfferAll` | lib/uploadPlugin.js:55-57 | offering the pending handlers in order appends exactly the route entries of the ready ones, in that order |
| `Plugin.UploadPlugin.OnTransportRun` | lib/uploadPlugin.js:55-61 | every pending handler is offered to the uploader in order, the ready ones are appended to the route table, the pending list is emptied and the plugin is started |
| `Plugin.UploadPlugin.AddHandler` | lib/uploadPlugin.js:67-78 | once started nothing is added; a missing or empty name or path throws; otherwise exactly one new handler is queued; it satisfies the handler invariant, accepts the field `asset`, has empty allow-lists and an empty stack, no storage, no processor and the default limits |
| `Plugin.UploadPlugin.RegisterStorageClass` | lib/uploadPlugin.js:83-90 | a new type is added and true is returned; a taken type returns false and keeps its class |
| `Plugin.UploadPlugin.CreateStorage` | lib/uploadPlugin.js:96-103 | an unknown type gives null; otherwise an unnamed instance of the registered class with the given configuration |
| `Plugin.UploadPlugin.RegisterStorage` | lib/uploadPlugin.js:112-155 | the three forms register under the instance's name, the given name, or the type; in the `(type, config)` form the configuration is any object, a storage instance included, which the new instance receives as its configuration; a taken name, an unknown type, or any other argument shape (a first argument that is neither an instance nor a string, or a string followed by neither a string nor an object) returns false and changes nothing; no registered name is ever overwritten |
| `Storage.Instantiate` | lib/uploadPlugin.js:129-134 | the new instance has the class and configuration given, and the given name, or the interface's default name when that is empty |
| `Plugin.UploadPlugin.GetStorage` | lib/uploadPlugin.js:160-162 | the instance registered under the name, or null |
| `Uploader.FirstMatchFrom` | lib/uploader.js:23-35 | the result is the first entry whose route matches, or none when no entry matches |
| `Uploader.FirstWithPathFrom` | lib/uploader.js:280-288 | the result is the first entry registered under exactly that path, or none |
| `Uploader.Admit` | lib/uploader.js:66-80 | the pipeline starts exactly for a matched multipart POST; a matched OPTIONS request is answered; everything else passes through |
| `Uploader.Uploader.constructor` | lib/uploader.js:15 | the route table starts empty |
| `Uploader.Uploader.Add` | lib/uploader.js:257-279 | a handler is appended exactly when it has a storage resolver and a processor; otherwise the table is unchanged |
| `Uploader.Uploader.Remove` | lib/uploader.js:280-288 | only the first entry with that path is removed and true returned; otherwise false and the table is unchanged |
| `Uploader.Uploader.MatchHandler` | lib/uploader.js:23-35 | the handler of the first matching entry in registration order, or none exactly when no route matches |
| `Uploader.Uploader.HandleIncomingRequest` | lib/uploader.js:66-80 | the request is admitted according to the first matching handler |
| `UploadSession.Designated` | lib/uploader.js:156-161 | a name designates the registered instance, if any; an instance designates itself; anything else designates none |
| `UploadSession.Session.constructor` | lib/uploader.js:101-109 | a new request has not ended, has no file and has called nothing |
| `UploadSession.Session.HandleError` | lib/uploader.js:111-117 | the first error completes the request; every later one is dropped |
| `UploadSession.Session.OnFile` | lib/uploader.js:119-152 | a part under another field fails with INVALID_FIELD and builds no file; a file failing the allow-lists is destroyed and fails with FILE_INVALID, leaving `hasFile`, the intent's file and every listener as they were; an accepted file is in the state its constructor gives a part (derived name, extension and key, the part's MIME type and encoding, size 0, no folder, options, error or URL) and becomes the intent's file with its limit listener attached; after the end nothing happens |
| `UploadSession.Session.Reject` | lib/uploader.js:128-134 | on a running request, the rejected file is destroyed and the request fails with FILE_INVALID; the accepted files, their listeners and the intent's file stay as they were |
| `UploadSession.Session.Accept` | lib/uploader.js:136-137 | the file is appended to the accepted files with its limit listener attached, and becomes the intent's file |
| `UploadSession.Session.TakePart` | lib/uploader.js:128-139 | a part under the handler's field is accepted exactly when the allow-lists admit its file, which then is in the constructor's state for a part and becomes the intent's file; otherwise the file is destroyed, the request fails with FILE_INVALID, and the earlier files and their listeners stay as they were |
| `UploadSession.Session.BuildFile` | lib/uploader.js:128-129 | the new file is in the state its constructor gives a part, and it is valid exactly when the handler's MIME and extension allow-lists admit it |
| `UploadSession.Session.OnStreamLimit` | lib/uploader.js:140-150 | as intended, the listener fires once, records the too-large error on the file and changes no other field of it, and fails the request with FILE_TOO_LARGE unless it already ended |
| `UploadSession.Session.OnPartsLimit` | lib/uploader.js:201-203 | fails with SIZE_LIMIT while the request is running |
| `UploadSession.Session.OnFieldsLimit` | lib/uploader.js:205-207 | fails with FIELDS_LIMIT while the request is running |
| `UploadSession.Session.OnFinish` | lib/uploader.js:209-213 | a body that ends with no accepted file fails with INVALID_FILE |
| `UploadSession.Session.OnStorageResolved` | lib/uploader.js:154-194 | a resolver error is reported as is; an answer that designates no instance fails with STORAGE_UNAVAILABLE; a `before` hook error is reported; only otherwise is the processor started, and an exception it throws is reported |
| `UploadSession.Session.OnProcessorDone` | lib/uploader.js:173-176 | a processor error is reported; a save starts only after a processor success while the request is running |
| `UploadSession.Session.OnSaveSettled` | lib/uploader.js:176-182 | a resolved save runs the `after` hook and completes with success unless the request already ended; a rejected save is reported |
| `UploadSession.Session.OnIntentCompleted` | lib/uploader.js:235-249 | the file's own error wins, then the intent's error, else the success response is sent; the file is destroyed in every case, keeping its error slot, size and URL |
| `UploadSession.CleanUpload` | lib/uploader.js:119-249 | an admissible part, a resolver answer that designates a storage instance (a registered instance name or an instance object), and a processor, save and intent that succeed complete the request exactly once, with success, and send the success response |

Every `Session` method keeps `Session.Valid`, which says:

- The completion callback is called at most once, and exactly when `isDone`
  is set.
- Success is reported only after the `after` hook ran.
- The `after` hook runs only for a save that was started.
- A save is started only for a processor run.
- A processor run is started only for an accepted file.

Every `Session` method also leaves the completion untouched once the request
has ended.

## Left out

- The stream plumbing is not modelled: the parser, `req.pipe`, the
  pass-through streams and the `unpipe`/`resume` draining. The parser's
  events are method calls.
- The per-request limits merge (lib/uploader.js:103-106) is not modelled,
  because it is delegated to the framework's `extend` and to the parser.
- The framework objects are not modelled: intents, the dispatcher,
  `_runHandler`/`_runStack`, the transport middleware, the success response,
  the logger and `thorin.error`. Hook, processor and save outcomes are
  arguments.
  - `onIntentCreated` and `dispatcher.addAction` are part of this.
  - `thorin.error(e)` wrapping an error is taken to return it unchanged.
- CORS headers (`checkCors`) are not modelled, because they are response
  output only.
- `toBytes` and `fromBytes` (lib/uploadPlugin.js:167-207) are not modelled,
  because they rely on floating point.
- The route-parser and `RegExp.test` are predicate parameters.
  - `Handlers.Accepts` treats a pattern built from a string as a substring
    test, which matches `RegExp` only for strings without metacharacters.
  - Route parameters and the query string are not modelled.
- `sha2`, `randomString` and `Date.now` are a `KeySeed` argument.
- `Text.ExtName` does not model `path.extname` of a path ending in a slash:
  there it gives the empty string, where Node skips the trailing slashes.
- `Text.ToLower` and `Text.ToUpper` map ASCII letters only, not the rest of
  Unicode.
- `Text.ParseInt` computes with exact integers. JavaScript's `parseInt`
  returns a double, which loses precision above 2^53.
- `Handlers.Convert` and `Handlers.ConvertAsWritten` multiply exact integers
  where the source multiplies doubles, so they do not model rounding of
  amounts above 2^53 bytes.
- `Handlers.ConvertAsWritten` does not model a `substr(-2)` that splits a
  surrogate pair (the next-to-last character outside the Basic Multilingual
  Plane, the last one inside it). A Dafny string holds whole Unicode scalar
  values, so it cannot hold the lone low surrogate; there the model takes the
  last two characters.
- `UploadFiles.UploadFile.constructor` requires a MIME type for a part
  stream. The source calls `mimeType.toString()` (lib/uploadFile.js:40) and
  throws a `TypeError` when it is missing. The class is public as
  `plugin.File` (lib/uploadPlugin.js:27-31), but the model does not capture
  that exception.
- `Handlers.UploadHandler.MimeType` appends a pattern for every string. The
  source's `new RegExp(m)` (lib/handler.js:86) throws for a string that is
  not a valid regular expression; regular-expression syntax is not modelled.
- `Handlers.UploadHandler.MimeType` and `Handlers.UploadHandler.Extension`
  take the argument list as a sequence. When the first argument is an array,
  the source reads that array and ignores the other arguments
  (lib/handler.js:82, 96); the caller then passes that array as the sequence.
- `Uploader.Uploader.Add` appends the route entry at once. The source defers
  it until the handler is registered with the dispatcher.
- `Uploader.Uploader.Add` has no `Valid` invariant tying the table to the
  handlers' current state, because the handlers are separate objects that
  the table does not own.
- `UploadSession.Session.OnStorageResolved` takes the resolver's answer as
  given. A resolver that calls back twice, or a processor that calls back and
  then throws, is a caller choice the model does not restrict.
- `UploadSession.Session.OnStorageResolved` requires a constant resolver to
  answer its own value. It does not model that answer arriving synchronously,
  inside `onFile`.
- Object keys inherited from `Object.prototype`, which the registries would
  find as present, are not modelled: a registry is a map.
- `url` and `size` written by a storage backend during `save` are not
  modelled, because backends are outside the plugin.
- lib/IStorage.js is not modelled beyond the default instance name
  `INTERFACE`. Its methods only throw, and an instance is any
  `StorageInstance` record.
- `onFilesLimit` has no method, because the parser never calls it.
- example/upload.js is not part of this model.

## Findings

| source | as written | input that shows it | evidently intended | confidence | as-written member | corrected member |
|---|---|---|---|---|---|---|
| lib/uploadFile.js:124 | `fileTooLarge()` without a cause reads `ERROR.FILE_TOO_LARGE`. lib/uploader.js:14 builds the file class without its third argument, so `ERROR` is undefined and the read throws a `TypeError`. | A part whose stream exceeds `fileSize`: `onFileTooLarge` calls `fileObj.fileTooLarge()` | The fallback `UPLOAD.FILE_TOO_LARGE` error is recorded and the request fails with FILE_TOO_LARGE | high; not executed | `UploadFiles.TooLargeErrorAsWritten`, shown by `UploadFiles.TooLargeAsWrittenThrows` | `UploadFiles.TooLargeError`, used by `UploadFiles.UploadFile.FileTooLarge` and `UploadSession.Session.OnStreamLimit` |
| lib/handler.js:16-17 | `convert` parses the string with the first occurrence of its last two characters removed, even when those are not a unit | `convert("100")` gives 1 | A unit-less size string is a number of bytes, so `"100"` gives 100 | medium; not executed | `Handlers.ConvertAsWritten`, shown by `Handlers.ConvertAsWrittenDropsZeros` | `Handlers.Convert`, proved by `Handlers.ConvertPlainNumber` and `Handlers.ConvertWithUnit`, equal to the code as written for every unit-suffixed string by `Handlers.ConvertAgreesWithUnit`, used by `Handlers.UploadHandler.Limit` |
