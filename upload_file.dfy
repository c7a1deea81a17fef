/** The upload file entity (lib/uploadFile.js): the name, extension and key
    derived from the part headers, the byte count, the storage folder, the
    terminal error slot and the destructor. */
module UploadFiles {
  import opened Text
  import opened Errors

  newtype byte = x: int | 0 <= x < 256

  /** What the constructor receives: raw text, a byte buffer, or a multipart
      part stream, which is piped through a byte-counting pass-through. */
  datatype Source = RawText(text: string) | RawBuffer(bytes: seq<byte>) | PartStream

  /** The inputs of the key that the model does not compute: `Date.now()`,
      `randomString(8)` and the `sha2` digest of the salt and file details. */
  datatype KeySeed = KeySeed(now: nat, salt: string, digest: string)

  /** What `toJSON()` produces. */
  datatype FileJson = FileJson(url: Option<string>, size: Option<nat>)

  // ---------------------------------------------------------------------
  // Derivations done by the constructor

  /** A missing, non-string or empty file name becomes `file`. */
  function FileName(fileName: Option<string>): (r: string)
    ensures r != ""
    ensures fileName.Some? && fileName.value != "" ==> r == fileName.value
    ensures fileName.None? || fileName.value == "" ==> r == "file"
  {
    if fileName.None? || fileName.value == "" then "file" else fileName.value
  }

  /** `path.extname(name)`, lower-cased, without its leading dot. */
  function Extension(name: string): string {
    LowerTail(ExtName(name))
  }

  /** An `extname` result lower-cased, without its leading dot. */
  function LowerTail(e: string): string {
    var lower := if e != "" then ToLower(e) else e;
    if |lower| > 0 && lower[0] == '.' then lower[1..] else lower
  }

  /** Lower-casing a string without dots or slashes gives a lower-case string
      without dots or slashes. */
  lemma ToLowerPlain(x: string)
    requires forall j | 0 <= j < |x| :: x[j] != '.' && x[j] != '/'
    ensures IsLower(ToLower(x))
    ensures forall j | 0 <= j < |ToLower(x)| :: ToLower(x)[j] != '.' && ToLower(x)[j] != '/'
  {
    var l := ToLower(x);
    forall j | 0 <= j < |l| ensures !('A' <= l[j] <= 'Z') && l[j] != '.' && l[j] != '/' {
      assert l[j] == LowerChar(x[j]);
    }
  }

  /** Lower-casing a string that starts with a dot keeps the dot in front. */
  lemma ToLowerAfterDot(e: string)
    requires e != "" && e[0] == '.'
    ensures ToLower(e)[0] == '.'
    ensures ToLower(e)[1..] == ToLower(e[1..])
  {
  }

  /** What an `extname` result (empty, or a dot followed by no dot and no
      slash) becomes: lower-case, without dots or slashes, empty exactly when
      it is at most the dot. */
  lemma LowerTailShape(e: string)
    requires e == "" || e[0] == '.'
    requires SlashFree(e)
    requires forall j | 0 < j < |e| :: e[j] != '.'
    ensures IsLower(LowerTail(e))
    ensures forall j | 0 <= j < |LowerTail(e)| :: LowerTail(e)[j] != '.' && LowerTail(e)[j] != '/'
    ensures LowerTail(e) == "" <==> |e| <= 1
    ensures e == "" || LowerTail(e) == ToLower(e[1..])
  {
    if e != "" {
      ToLowerAfterDot(e);
      var tail := e[1..];
      assert LowerTail(e) == ToLower(tail);
      forall j | 0 <= j < |tail| ensures tail[j] != '.' && tail[j] != '/' {
        assert tail[j] == e[j + 1];
      }
      ToLowerPlain(tail);
    }
  }

  /** The extension is lower-case, holds no dot and no slash, and is empty
      exactly when the name's last segment has no extension (or ends in a dot). */
  lemma ExtensionShape(name: string)
    ensures IsLower(Extension(name))
    ensures forall j | 0 <= j < |Extension(name)| :: Extension(name)[j] != '.' && Extension(name)[j] != '/'
    ensures Extension(name) == "" <==> |ExtName(name)| <= 1
    ensures ExtName(name) == "" || Extension(name) == ToLower(ExtName(name)[1..])
  {
    LowerTailShape(ExtName(name));
  }

  /** A non-empty extension is what the lower-cased name ends with, after
      a dot. */
  lemma ExtensionIsSuffix(name: string)
    ensures Extension(name) != "" ==> EndsWith(ToLower(name), "." + Extension(name))
  {
    var e := ExtName(name);
    if e != "" {
      ExtNameOfPath(name);
      ToLowerAfterDot(e);
      ToLowerSuffix(name, e);
      assert Extension(name) == ToLower(e)[1..];
      assert ToLower(e) == "." + ToLower(e)[1..];
    }
  }

  /** The MIME type and the encoding a raw text or buffer upload gets when
      none is given. */
  const DefaultMimeType := "text/plain"
  const DefaultEncoding := "utf8"

  /** A header value of the file (its MIME type or encoding): raw input
      without a usable value gets `fallback`; a part keeps what it was given. */
  function RawDefault(source: Source, given: Option<string>, fallback: string): (r: Option<string>)
    requires fallback != ""
    ensures !source.PartStream? ==> r.Some? && r.value != ""
    ensures !source.PartStream? && (given.None? || given.value == "") ==> r == Some(fallback)
    ensures given.Some? && given.value != "" ==> r == given
    ensures source.PartStream? ==> r == given
  {
    if !source.PartStream? && (given.None? || given.value == "") then Some(fallback)
    else given
  }

  /** The storage key before slashes are collapsed: timestamp, `_`, digest and
      salt; then `/name` unless the name is the default `file`; then
      `.extension` unless that text already occurs. */
  function RawKey(name: string, extension: string, seed: KeySeed): string {
    var base := Decimal(seed.now) + "_" + seed.digest + seed.salt;
    var named := if name != "" && name != "file" then base + "/" + name else base;
    if extension != "" && !Contains(named, "." + extension) then named + "." + extension else named
  }

  /** The storage key: the raw key with every run of slashes collapsed to one. */
  function DeriveKey(name: string, extension: string, seed: KeySeed): (r: string)
    ensures |r| > 0
  {
    CollapseSlashes(RawKey(name, extension, seed))
  }

  /** The raw key contains `.extension` when the extension is non-empty. */
  lemma RawKeyHasExtension(name: string, extension: string, seed: KeySeed)
    requires extension != ""
    ensures exists i :: OccursAt(RawKey(name, extension, seed), "." + extension, i)
  {
    var base := Decimal(seed.now) + "_" + seed.digest + seed.salt;
    var named := if name != "" && name != "file" then base + "/" + name else base;
    var dotted := "." + extension;
    if Contains(named, dotted) {
      var i :| 0 <= i <= |named| - |dotted| && OccursAt(named, dotted, i);
      assert RawKey(name, extension, seed) == named;
      assert OccursAt(RawKey(name, extension, seed), dotted, i);
    } else {
      OccursAtEnd(named, dotted);
      assert RawKey(name, extension, seed) == named + dotted;
    }
  }

  /** The key starts with a digit of the timestamp, has no double slash, and
      contains `.extension` whenever the extension is non-empty. */
  lemma {:induction false} DeriveKeyShape(name: string, seed: KeySeed)
    ensures |DeriveKey(name, Extension(name), seed)| > 0
    ensures IsDigit(DeriveKey(name, Extension(name), seed)[0])
    ensures NoDoubleSlash(DeriveKey(name, Extension(name), seed))
    ensures Extension(name) != "" ==> Contains(DeriveKey(name, Extension(name), seed), "." + Extension(name))
  {
    DeriveKeyStart(name, Extension(name), seed);
    if Extension(name) != "" {
      DeriveKeyKeepsExtension(name, seed);
    }
  }

  /** The key starts with the timestamp's first digit and has no double slash. */
  lemma DeriveKeyStart(name: string, extension: string, seed: KeySeed)
    ensures |DeriveKey(name, extension, seed)| > 0
    ensures IsDigit(DeriveKey(name, extension, seed)[0])
    ensures NoDoubleSlash(DeriveKey(name, extension, seed))
  {
    var raw := RawKey(name, extension, seed);
    assert raw[0] == Decimal(seed.now)[0];
    CollapseSlashesHead(raw);
    CollapseSlashesNoDouble(raw);
  }

  /** The collapse keeps the `.` plus extension that the raw key contains. */
  lemma DeriveKeyKeepsExtension(name: string, seed: KeySeed)
    requires Extension(name) != ""
    ensures Contains(DeriveKey(name, Extension(name), seed), "." + Extension(name))
  {
    var extension := Extension(name);
    var raw := RawKey(name, extension, seed);
    ExtensionShape(name);
    var dotted := "." + extension;
    assert SlashFree(dotted) by {
      forall j | 0 <= j < |dotted| ensures dotted[j] != '/' {
        if j > 0 { assert dotted[j] == extension[j - 1]; }
      }
    }
    RawKeyHasExtension(name, extension, seed);
    var i :| OccursAt(raw, dotted, i);
    CollapseSlashesKeepsSubstring(raw, dotted, i);
  }

  // ---------------------------------------------------------------------
  // Folder and full key

  /** `setFolder`: drop one leading slash, then collapse runs of slashes. */
  function NormalizeFolder(f: string): (r: string)
    ensures |r| <= |f|
  {
    CollapseSlashes(if |f| > 0 && f[0] == '/' then f[1..] else f)
  }

  /** A normalised folder has no double slash, and it still starts with a slash
      exactly when the argument started with two. */
  lemma {:induction false} NormalizeFolderShape(f: string)
    ensures NoDoubleSlash(NormalizeFolder(f))
    ensures StartsWith(NormalizeFolder(f), "/") <==> StartsWith(f, "//")
  {
    var g := if |f| > 0 && f[0] == '/' then f[1..] else f;
    CollapseSlashesNoDouble(g);
    CollapseSlashesHead(g);
    if StartsWith(f, "//") {
      assert g[0] == '/';
    } else if |g| > 0 {
      assert g[0] != '/';
    }
  }

  /** `getKey()`: the folder, a slash unless the folder already ends in one,
      then the key; just the key when no (or an empty) folder is set. */
  function FullKey(folder: Option<string>, key: string): (r: string)
    ensures folder.None? || folder.value == "" ==> r == key
    ensures folder.Some? && folder.value != "" && EndsWith(folder.value, "/") ==> r == folder.value + key
    ensures folder.Some? && folder.value != "" && !EndsWith(folder.value, "/") ==> r == folder.value + "/" + key
  {
    var root := if folder.None? || folder.value == "" then ""
                else if EndsWith(folder.value, "/") then folder.value
                else folder.value + "/";
    root + key
  }

  /** The full key of a fresh file whose folder was set through `setFolder` has
      no double slash. */
  lemma {:induction false} FullKeyNormalised(f: Option<string>, name: string, seed: KeySeed)
    ensures NoDoubleSlash(FullKey(if f.Some? then Some(NormalizeFolder(f.value)) else None,
                                  DeriveKey(name, Extension(name), seed)))
  {
    var key := DeriveKey(name, Extension(name), seed);
    DeriveKeyShape(name, seed);
    if f.Some? {
      var folder := NormalizeFolder(f.value);
      NormalizeFolderShape(f.value);
      if folder != "" {
        if EndsWith(folder, "/") {
          NoDoubleSlashConcat(folder, key);
        } else {
          var root := folder + "/";
          NoDoubleSlashConcat(folder, "/");
          NoDoubleSlashConcat(root, key);
        }
      }
    }
  }

  // ---------------------------------------------------------------------
  // The too-large error

  /** What `fileTooLarge(e)` records: the cause when one is given, otherwise
      the default `UPLOAD.FILE_TOO_LARGE` error. */
  function TooLargeError(cause: Option<Error>): (r: Error)
    ensures cause.Some? ==> r == cause.value
    ensures cause.None? ==> r.code == "UPLOAD.FILE_TOO_LARGE"
  {
    if cause.Some? then cause.value else EntityTooLarge
  }

  /** The outcome of a JavaScript expression that may throw. */
  datatype Evaluation<T> = Value(value: T) | TypeErrorThrown

  /** The `ERROR` table this module is initialised with; lib/uploader.js:14
      initialises it with two arguments only, so the table is undefined. */
  const UploaderErrorTable: Option<map<string, Error>> := None

  /** `fileTooLarge(e)` as written: without a cause it reads
      `ERROR.FILE_TOO_LARGE`, which throws when `ERROR` is undefined. */
  function TooLargeErrorAsWritten(cause: Option<Error>, table: Option<map<string, Error>>): (r: Evaluation<Error>)
    ensures cause.Some? ==> r == Value(cause.value)
    ensures cause.None? && table.None? ==> r.TypeErrorThrown?
  {
    if cause.Some? then Value(cause.value)
    else if table.None? then TypeErrorThrown
    else if "FILE_TOO_LARGE" in table.value then Value(table.value["FILE_TOO_LARGE"])
    else Value(EntityTooLarge)
  }

  /** With the table the uploader provides, marking a file too large without a
      cause throws, while the intended behaviour records FILE_TOO_LARGE; with a
      cause, or with a table, both agree. */
  lemma TooLargeAsWrittenThrows()
    ensures TooLargeErrorAsWritten(None, UploaderErrorTable).TypeErrorThrown?
    ensures TooLargeError(None).code == "UPLOAD.FILE_TOO_LARGE"
    ensures forall e :: TooLargeErrorAsWritten(Some(e), UploaderErrorTable) == Value(TooLargeError(Some(e)))
    ensures TooLargeErrorAsWritten(None, Some(map[])) == Value(TooLargeError(None))
  {
  }

  // ---------------------------------------------------------------------
  // Byte counting

  /** Total length of the chunks a part stream has delivered. */
  function TotalLength(chunks: seq<seq<byte>>): nat {
    if |chunks| == 0 then 0 else TotalLength(chunks[..|chunks| - 1]) + |chunks[|chunks| - 1]|
  }

  // ---------------------------------------------------------------------
  // The entity

  class UploadFile {
    /** What the constructor was given. */
    const source: Source
    /** `#stream`: the raw value, or the pass-through the part is piped into. */
    var stream: Option<Source>
    var options: Option<map<string, string>>
    var folder: Option<string>
    var error: Option<Error>
    var name: Option<string>
    var extension: Option<string>
    var key: Option<string>
    var mimeType: Option<string>
    var encoding: Option<string>
    var size: nat
    /** Set by the storage backend that saves the file. */
    var url: Option<string>
    /** The chunks the byte counter has seen, for a part stream. */
    ghost var chunks: seq<seq<byte>>

    /** `size` is the length of raw input (UTF-16 code units for text), or
        the number of bytes counted. */
    ghost predicate Valid()
      reads this
    {
      && (source.RawText? ==> size == Utf16Length(source.text))
      && (source.RawBuffer? ==> size == |source.bytes|)
      && (source.PartStream? ==> size == TotalLength(chunks))
    }

    ghost predicate IsDestroyed()
      reads this
    {
      && stream.None? && options.None? && folder.None?
      && name.None? && key.None? && extension.None? && mimeType.None? && encoding.None?
    }

    /** The state a new file built for a multipart part starts in: the name,
        extension and key derived from the headers, the part's own MIME type
        and encoding, nothing counted yet, and no folder, options, error or
        URL. */
    ghost predicate IsNewPart(fileName: Option<string>, partMimeType: string,
                              partEncoding: Option<string>, seed: KeySeed)
      reads this
    {
      var n := FileName(fileName);
      && Valid() && source == PartStream && stream == Some(PartStream)
      && name == Some(n) && extension == Some(Extension(n))
      && key == Some(DeriveKey(n, Extension(n), seed))
      && mimeType == Some(partMimeType) && encoding == partEncoding
      && size == 0 && chunks == []
      && folder.None? && options.None? && error.None? && url.None?
    }

    /** A part stream's MIME type is required: the constructor calls its
        `toString()`. */
    constructor (source: Source, fileName: Option<string>, mimeType: Option<string>,
                 encoding: Option<string>, seed: KeySeed)
      requires source.PartStream? ==> mimeType.Some?
      ensures Valid()
      ensures this.source == source && stream == Some(source)
      ensures name == Some(FileName(fileName))
      ensures extension == Some(Extension(FileName(fileName)))
      ensures key == Some(DeriveKey(FileName(fileName), Extension(FileName(fileName)), seed))
      ensures this.mimeType == RawDefault(source, mimeType, DefaultMimeType)
      ensures this.encoding == RawDefault(source, encoding, DefaultEncoding)
      ensures source.RawText? ==> size == Utf16Length(source.text)
      ensures source.RawBuffer? ==> size == |source.bytes|
      ensures source.PartStream? ==> size == 0 && chunks == []
      ensures folder.None? && options.None? && error.None? && url.None?
    {
      this.source := source;
      var n := FileName(fileName);
      var ext := Extension(n);
      name := Some(n);
      extension := Some(ext);
      this.mimeType := RawDefault(source, mimeType, DefaultMimeType);
      this.encoding := RawDefault(source, encoding, DefaultEncoding);
      key := Some(DeriveKey(n, ext, seed));
      stream := Some(source);
      options := None;
      folder := None;
      error := None;
      url := None;
      chunks := [];
      match source
      case RawText(t) => size := Utf16Length(t);
      case RawBuffer(b) => size := |b|;
      case PartStream => size := 0;
    }

    /** The byte counter's `data` listener: every chunk adds its length. */
    method OnData(chunk: seq<byte>)
      requires Valid() && source.PartStream?
      modifies this`size, this`chunks
      ensures Valid()
      ensures chunks == old(chunks) + [chunk]
      ensures size == old(size) + |chunk|
    {
      size := size + |chunk|;
      chunks := chunks + [chunk];
      assert chunks[..|chunks| - 1] == old(chunks);
    }

    /** `toJSON()`: the URL, and the size only when it is non-zero. */
    function ToJson(): (r: FileJson)
      reads this
      ensures r.url == url
      ensures r.size.Some? <==> size != 0
      ensures r.size.Some? ==> r.size.value == size
    {
      FileJson(url, if size != 0 then Some(size) else None)
    }

    /** `getStream()`: the held stream, or null when there is none or it is
        the (falsy) empty string. */
    function GetStream(): (r: Option<Source>)
      reads this
      ensures IsDestroyed() ==> r.None?
      ensures r.Some? ==> r == stream
      ensures r.None? ==> stream.None? || stream == Some(RawText(""))
    {
      if stream.None? || stream == Some(RawText("")) then None else stream
    }

    /** `fileTooLarge(e)`: the error slot is set, to the cause or to the
        default too-large error. */
    method FileTooLarge(cause: Option<Error>)
      modifies this`error
      ensures error == Some(TooLargeError(cause))
    {
      error := Some(TooLargeError(cause));
    }

    /** `setFolder(f)`: a non-string is ignored; otherwise the normalised
        folder is stored. */
    method SetFolder(f: Option<string>)
      modifies this`folder
      ensures f.None? ==> folder == old(folder)
      ensures f.Some? ==> folder == Some(NormalizeFolder(f.value))
      ensures f.Some? ==> NoDoubleSlash(folder.value)
    {
      if f.Some? {
        NormalizeFolderShape(f.value);
        folder := Some(NormalizeFolder(f.value));
      }
    }

    /** `setOptions(o)`: only a non-null object replaces the options. */
    method SetOptions(o: Option<map<string, string>>)
      modifies this`options
      ensures o.Some? ==> options == o
      ensures o.None? ==> options == old(options)
    {
      if o.Some? {
        options := o;
      }
    }

    /** The key text as string concatenation sees it: `null` once destroyed. */
    function KeyText(): string
      reads this
    {
      if key.Some? then key.value else "null"
    }

    /** `getKey()`, recomputed from the current folder on every call. */
    function GetKey(): (r: string)
      reads this
      ensures r == FullKey(folder, KeyText())
      ensures EndsWith(r, KeyText())
    {
      FullKey(folder, KeyText())
    }

    /** `destroy()`: the stream, options, folder and header-derived fields are
        cleared; the error slot, size and URL are kept. */
    method Destroy()
      modifies this
      ensures IsDestroyed()
      ensures error == old(error) && size == old(size) && url == old(url) && chunks == old(chunks)
      ensures old(IsDestroyed()) ==> unchanged(this)
    {
      stream := None;
      options := None;
      folder := None;
      name := None;
      key := None;
      extension := None;
      mimeType := None;
      encoding := None;
    }
  }
}
