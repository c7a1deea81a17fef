/** One upload request after `attachBusboy` (lib/uploader.js:101-232): the
    multipart parser's events and the callbacks of the storage resolver, the
    upload processor and the storage backend drive a small state machine
    whose central promise is that `onDone` is called at most once, with the
    first error that occurred or with success after the file was saved.
    `onIntentCompleted` (lines 235-249) then turns the intent's outcome into
    the response, preferring the file's own error, and destroys the file.

    Each event is a method; the callbacks that the source nests inside one
    another are separate methods that name the file, processor run or save
    they answer. Events the parser would no longer deliver because its
    listeners were removed are no-ops. */
module UploadSession {
  import opened Text
  import opened Errors
  import opened Storage
  import opened UploadFiles
  import opened Handlers

  /** A call of `onDone`: without an argument, or with an error. */
  datatype Completion = Succeeded | Failed(error: Error)

  /** What the storage resolver passes to its callback. */
  datatype ResolverAnswer = Rejected(error: Error) | Answered(value: ResolverValue)

  /** A run of the upload processor (or a save) for the file at `file`,
      headed for `storage`. */
  datatype Processing = Processing(file: nat, storage: StorageInstance)

  /** How the intent completed. */
  datatype IntentOutcome = IntentSucceeded | IntentFailed(error: Error)

  /** What `onIntentCompleted` does with the response. */
  datatype Response = Forwarded(error: Error) | SentSuccess

  /** The storage a resolver's answer designates: a name is looked up among
      the registered instances, an instance is taken as it is, and anything
      else designates none. */
  function Designated(value: ResolverValue, instances: map<string, StorageInstance>): (r: Option<StorageInstance>)
    ensures r.Some? <==> value.StorageObject? || (value.StorageName? && value.name in instances)
    ensures value.StorageObject? ==> r == Some(value.instance)
    ensures value.StorageName? && r.Some? ==> r.value == instances[value.name]
  {
    match value
    case StorageName(n) => if n in instances then Some(instances[n]) else None
    case StorageObject(inst) => Some(inst)
    case PlainObject => None
  }

  class Session {
    const handler: UploadHandler
    var isDone: bool
    var hasFile: bool
    /** Every call of `onDone`, in order. */
    var completions: seq<Completion>
    /** The files that passed validation, in arrival order. */
    var files: seq<UploadFile>
    /** Whether the `limit` listener of each file's stream is still attached. */
    var armed: seq<bool>
    /** `intentObj.data('file')`. */
    var intentFile: Option<UploadFile>
    /** Every start of the upload processor. */
    var processors: seq<Processing>
    /** Every call of `storageObj.save(fileObj)`. */
    var saves: seq<Processing>
    /** Whether the `after` upload hook ran. */
    var afterHookRan: bool

    /** `onDone` is called at most once and exactly when `isDone` is set; it
        reports success exactly when the `after` hook ran, which happens only
        once a save was started, and a save is started only for a processor
        run, which is started only for an accepted file. The intent's file is
        the last accepted one. */
    ghost predicate Valid()
      reads this
    {
      && |completions| <= 1
      && (isDone <==> |completions| == 1)
      && (afterHookRan <==> completions == [Succeeded])
      && (afterHookRan ==> |saves| > 0)
      && (forall i | 0 <= i < |saves| :: saves[i] in processors)
      && (forall i | 0 <= i < |processors| :: processors[i].file < |files|)
      && |armed| == |files|
      && (hasFile <==> |files| > 0)
      && (hasFile ==> intentFile == Some(files[|files| - 1]))
      && (!hasFile ==> intentFile.None?)
    }

    /** `attachBusboy`: nothing has happened yet. */
    constructor (handler: UploadHandler)
      ensures Valid()
      ensures this.handler == handler
      ensures !isDone && !hasFile && !afterHookRan
      ensures completions == [] && files == [] && armed == [] && intentFile.None?
      ensures processors == [] && saves == []
    {
      this.handler := handler;
      isDone := false;
      hasFile := false;
      completions := [];
      files := [];
      armed := [];
      intentFile := None;
      processors := [];
      saves := [];
      afterHookRan := false;
    }

    /** `handleError`: the first error ends the request; later ones are dropped. */
    method HandleError(e: Error)
      requires Valid()
      modifies this`isDone, this`completions
      ensures Valid()
      ensures isDone
      ensures old(isDone) ==> completions == old(completions)
      ensures !old(isDone) ==> completions == [Failed(e)]
    {
      if isDone {
        return;
      }
      isDone := true;
      completions := completions + [Failed(e)];
      assert completions[0].Failed?;
    }

    /** Whether a part named `fileName` with type `mimeType` passes the
        handler's allow-lists. */
    predicate Admissible(fileName: Option<string>, mimeType: string)
      reads handler
    {
      && MimeAllowed(handler.mimeTypes, mimeType)
      && ExtensionAllowed(handler.extensions, Some(Extension(FileName(fileName))))
    }

    /** `onFile`: a part under another field name fails the request with
        INVALID_FIELD before any file is built; a file that fails validation
        is destroyed and fails it with FILE_INVALID; otherwise the file
        becomes the intent's file, its `limit` listener is attached and the
        storage resolver is asked (its answer is `OnStorageResolved`). */
    method OnFile(fieldName: string, fileName: Option<string>, encoding: Option<string>,
                  mimeType: string, seed: KeySeed) returns (created: Option<UploadFile>, accepted: bool)
      requires Valid()
      modifies this`isDone, this`completions, this`hasFile, this`intentFile, this`files, this`armed
      ensures Valid()
      ensures old(isDone) ==> created.None? && !accepted && unchanged(this)
      ensures created.None? <==> old(isDone) || fieldName != handler.fieldName
      ensures !old(isDone) && fieldName != handler.fieldName ==>
        completions == [Failed(InvalidField)] && files == old(files)
      ensures accepted <==> !old(isDone) && fieldName == handler.fieldName && Admissible(fileName, mimeType)
      ensures created.Some? ==> fresh(created.value) && created.value.source == PartStream
      ensures accepted ==> created.value.IsNewPart(fileName, mimeType, encoding, seed)
      ensures created.Some? && !accepted ==>
        created.value.IsDestroyed() && completions == [Failed(FileInvalid)] && files == old(files)
      ensures accepted ==> files == old(files) + [created.value] && armed == old(armed) + [true]
      ensures accepted ==> intentFile == created && hasFile && !isDone
      ensures accepted ==> completions == old(completions)
      ensures !accepted ==> hasFile == old(hasFile) && intentFile == old(intentFile) && armed == old(armed)
      ensures processors == old(processors) && saves == old(saves)
    {
      if isDone {
        return None, false;
      }
      if fieldName != handler.fieldName {
        HandleError(InvalidField);
        return None, false;
      }
      var file;
      file, accepted := TakePart(fileName, encoding, mimeType, seed);
      created := Some(file);
    }

    /** A part under the handler's field: its file is built, then rejected or
        accepted. */
    method TakePart(fileName: Option<string>, encoding: Option<string>, mimeType: string, seed: KeySeed)
      returns (file: UploadFile, accepted: bool)
      requires Valid() && !isDone
      modifies this`isDone, this`completions, this`hasFile, this`intentFile, this`files, this`armed
      ensures Valid()
      ensures fresh(file) && file.source == PartStream
      ensures accepted <==> Admissible(fileName, mimeType)
      ensures accepted ==> file.IsNewPart(fileName, mimeType, encoding, seed)
      ensures !accepted ==>
        file.IsDestroyed() && completions == [Failed(FileInvalid)] && files == old(files)
      ensures accepted ==> files == old(files) + [file] && armed == old(armed) + [true]
      ensures accepted ==> intentFile == Some(file) && hasFile && !isDone
      ensures accepted ==> completions == old(completions)
      ensures !accepted ==> hasFile == old(hasFile) && intentFile == old(intentFile) && armed == old(armed)
    {
      var valid;
      file, valid := BuildFile(fileName, encoding, mimeType, seed);
      if !valid {
        Reject(file);
        return file, false;
      }
      Accept(file);
      return file, true;
    }

    /** The file of a part, and whether the handler's allow-lists admit it. */
    method BuildFile(fileName: Option<string>, encoding: Option<string>, mimeType: string, seed: KeySeed)
      returns (file: UploadFile, valid: bool)
      ensures fresh(file) && file.source == PartStream
      ensures file.IsNewPart(fileName, mimeType, encoding, seed)
      ensures valid <==> Admissible(fileName, mimeType)
    {
      file := new UploadFile(PartStream, fileName, Some(mimeType), encoding, seed);
      assert file.encoding == encoding;
      assert MimeText(file.mimeType) == mimeType;
      assert file.extension == Some(Extension(FileName(fileName)));
      valid := handler.IsFileValid(file);
    }

    /** A file that fails validation is destroyed and fails the request with
        FILE_INVALID. */
    method Reject(file: UploadFile)
      requires Valid() && !isDone
      modifies this`isDone, this`completions, file
      ensures Valid()
      ensures file.IsDestroyed()
      ensures completions == [Failed(FileInvalid)]
      ensures files == old(files) && hasFile == old(hasFile) && intentFile == old(intentFile)
    {
      file.Destroy();
      HandleError(FileInvalid);
    }

    /** An accepted file becomes the intent's file, with its `limit` listener
        attached. */
    method Accept(file: UploadFile)
      requires Valid()
      modifies this`hasFile, this`intentFile, this`files, this`armed
      ensures Valid()
      ensures files == old(files) + [file] && armed == old(armed) + [true]
      ensures intentFile == Some(file) && hasFile
    {
      hasFile := true;
      intentFile := Some(file);
      files := files + [file];
      armed := armed + [true];
    }

    /** `onFileTooLarge` for the file at `k`: the listener detaches itself,
        the file records the too-large error, and the request fails with
        FILE_TOO_LARGE unless it already ended. */
    method OnStreamLimit(k: nat)
      requires Valid() && k < |files|
      modifies this`isDone, this`completions, this`armed, (files[k] as UploadFile)`error
      ensures Valid()
      ensures !old(armed[k]) ==> unchanged(this) && unchanged(files[k])
      ensures old(armed[k]) ==> armed == old(armed)[k := false]
      ensures old(armed[k]) ==> files[k].error == Some(TooLargeError(None))
      ensures old(armed[k]) && !old(isDone) ==> completions == [Failed(FileTooLarge)]
      ensures old(isDone) ==> completions == old(completions)
    {
      if !armed[k] {
        return;
      }
      armed := armed[k := false];
      files[k].FileTooLarge(None);
      if isDone {
        return;
      }
      HandleError(FileTooLarge);
    }

    /** `onPartsLimit`, while the parser's listeners are attached. */
    method OnPartsLimit()
      requires Valid()
      modifies this`isDone, this`completions
      ensures Valid()
      ensures old(isDone) ==> unchanged(this)
      ensures !old(isDone) ==> completions == [Failed(SizeLimit)]
    {
      if isDone {
        return;
      }
      HandleError(SizeLimit);
    }

    /** `onFieldsLimit`, while the parser's listeners are attached. */
    method OnFieldsLimit()
      requires Valid()
      modifies this`isDone, this`completions
      ensures Valid()
      ensures old(isDone) ==> unchanged(this)
      ensures !old(isDone) ==> completions == [Failed(FieldsLimit)]
    {
      if isDone {
        return;
      }
      HandleError(FieldsLimit);
    }

    /** `onEnd`: a form that ended without an accepted file fails with
        INVALID_FILE; otherwise nothing happens. */
    method OnFinish()
      requires Valid()
      modifies this`isDone, this`completions
      ensures Valid()
      ensures old(isDone) || old(hasFile) ==> unchanged(this)
      ensures !old(isDone) && !old(hasFile) ==> completions == [Failed(NoFile)]
    {
      if isDone {
        return;
      }
      if !hasFile {
        HandleError(NoFile);
      }
    }

    /** The storage resolver's callback for the file at `k`. A resolver error
        is reported as it is; an answer that designates no registered
        instance fails with STORAGE_UNAVAILABLE; an error left on the intent
        by the `before` hook is reported; otherwise the upload processor is
        started, and an exception it throws is reported. The processor is
        started even when the request already ended. A constant resolver
        always answers its value. */
    method OnStorageResolved(k: nat, answer: ResolverAnswer, instances: map<string, StorageInstance>,
                             hookError: Option<Error>, processorThrew: Option<Error>) returns (started: bool)
      requires Valid() && k < |files|
      requires handler.storageFn.Some? && handler.storageFn.value.Constant? ==>
        answer == Answered(handler.storageFn.value.value)
      modifies this`isDone, this`completions, this`processors
      ensures Valid()
      ensures started <==>
        answer.Answered? && Designated(answer.value, instances).Some? && hookError.None?
      ensures started ==> processors == old(processors) + [Processing(k, Designated(answer.value, instances).value)]
      ensures !started ==> processors == old(processors)
      ensures old(isDone) ==> completions == old(completions)
      ensures !old(isDone) && answer.Rejected? ==> completions == [Failed(answer.error)]
      ensures !old(isDone) && answer.Answered? && Designated(answer.value, instances).None? ==>
        completions == [Failed(StorageUnavailable)]
      ensures !old(isDone) && answer.Answered? && Designated(answer.value, instances).Some? && hookError.Some? ==>
        completions == [Failed(hookError.value)]
      ensures !old(isDone) && started && processorThrew.Some? ==> completions == [Failed(processorThrew.value)]
      ensures !old(isDone) && started && processorThrew.None? ==> completions == []
    {
      if answer.Rejected? {
        HandleError(answer.error);
        return false;
      }
      var storage := Designated(answer.value, instances);
      if storage.None? {
        HandleError(StorageUnavailable);
        return false;
      }
      if hookError.Some? {
        HandleError(hookError.value);
        return false;
      }
      processors := processors + [Processing(k, storage.value)];
      if processorThrew.Some? {
        HandleError(processorThrew.value);
      }
      return true;
    }

    /** The upload processor's callback for run `p`: an error is reported; a
        success starts the save, unless the request already ended. */
    method OnProcessorDone(p: nat, err: Option<Error>) returns (saving: bool)
      requires Valid() && p < |processors|
      modifies this`isDone, this`completions, this`saves
      ensures Valid()
      ensures saving <==> err.None? && !old(isDone)
      ensures saving ==> saves == old(saves) + [processors[p]]
      ensures !saving ==> saves == old(saves)
      ensures old(isDone) ==> completions == old(completions)
      ensures !old(isDone) && err.Some? ==> completions == [Failed(err.value)]
      ensures err.None? ==> completions == old(completions)
    {
      if err.Some? {
        HandleError(err.value);
        return false;
      }
      if isDone {
        return false;
      }
      saves := saves + [processors[p]];
      return true;
    }

    /** The settling of save `s`: a resolved save ends the request with
        success after the `after` hook, unless it already ended; a rejected
        save is reported as an error. */
    method OnSaveSettled(s: nat, rejection: Option<Error>)
      requires Valid() && s < |saves|
      modifies this`isDone, this`completions, this`afterHookRan
      ensures Valid()
      ensures isDone
      ensures old(isDone) ==> completions == old(completions) && afterHookRan == old(afterHookRan)
      ensures !old(isDone) && rejection.None? ==> completions == [Succeeded] && afterHookRan
      ensures !old(isDone) && rejection.Some? ==> completions == [Failed(rejection.value)] && !afterHookRan
    {
      if rejection.Some? {
        HandleError(rejection.value);
        return;
      }
      if isDone {
        return;
      }
      isDone := true;
      afterHookRan := true;
      completions := completions + [Succeeded];
    }

    /** `onIntentCompleted`: an error recorded on the file wins over the
        intent's outcome; otherwise a failed intent forwards its error and a
        successful one sends the success response. The file is destroyed in
        every case. */
    method OnIntentCompleted(outcome: IntentOutcome) returns (response: Response)
      modifies if intentFile.Some? then {intentFile.value} else {}
      ensures intentFile.Some? && old(intentFile.value.error).Some? ==>
        response == Forwarded(old(intentFile.value.error).value)
      ensures (intentFile.None? || old(intentFile.value.error).None?) && outcome.IntentFailed? ==>
        response == Forwarded(outcome.error)
      ensures (intentFile.None? || old(intentFile.value.error).None?) && outcome.IntentSucceeded? ==>
        response == SentSuccess
      ensures intentFile.Some? ==> intentFile.value.IsDestroyed()
      ensures intentFile.Some? ==>
        && intentFile.value.error == old(intentFile.value.error)
        && intentFile.value.size == old(intentFile.value.size)
        && intentFile.value.url == old(intentFile.value.url)
    {
      if intentFile.Some? && intentFile.value.error.Some? {
        var err := intentFile.value.error.value;
        intentFile.value.Destroy();
        return Forwarded(err);
      }
      if outcome.IntentFailed? {
        response := Forwarded(outcome.error);
      } else {
        response := SentSuccess;
      }
      if intentFile.Some? {
        intentFile.value.Destroy();
      }
    }
  }

  /** A clean upload: a part under the handler's field that passes its
      allow-lists, a resolver whose answer designates a storage instance (a
      name registered in `instances`, or an instance object), no `before`
      hook error, and a processor, a save and an intent that all succeed.
      The request completes exactly once, with success, and the success
      response is sent. */
  method CleanUpload(handler: UploadHandler, fileName: Option<string>, encoding: Option<string>,
                     mimeType: string, seed: KeySeed, answer: ResolverValue,
                     instances: map<string, StorageInstance>)
    returns (completions: seq<Completion>, response: Response)
    requires Designated(answer, instances).Some?
    requires handler.storageFn.Some? && handler.storageFn.value.Constant? ==>
      handler.storageFn.value.value == answer
    requires MimeAllowed(handler.mimeTypes, mimeType)
    requires ExtensionAllowed(handler.extensions, Some(Extension(FileName(fileName))))
    ensures completions == [Succeeded]
    ensures response == SentSuccess
  {
    var session := new Session(handler);
    var created, accepted := session.OnFile(handler.fieldName, fileName, encoding, mimeType, seed);
    assert accepted;
    var file := created.value;
    var started := session.OnStorageResolved(0, Answered(answer), instances, None, None);
    assert started;
    var saving := session.OnProcessorDone(0, None);
    assert saving;
    session.OnSaveSettled(0, None);
    assert session.intentFile == Some(file) && file.error.None?;
    completions := session.completions;
    response := session.OnIntentCompleted(IntentSucceeded);
  }
}
