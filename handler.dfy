/** The upload handler policy (lib/handler.js): the size-string converter, the
    builder setters of `UploadHandler` and its MIME/extension allow-list
    check. */
module Handlers {
  import opened Text
  import opened Storage
  import UploadFiles

  // ---------------------------------------------------------------------
  // Size strings

  const KB: nat := 1024
  const MB: nat := 1024 * KB
  const GB: nat := 1024 * MB
  const TB: nat := 1024 * GB

  /** A value stored in the `limits` table. */
  datatype LimitValue = Num(n: int) | NaN | Str(s: string) | OtherValue

  predicate IsUnit(unit: string) {
    unit == "KB" || unit == "MB" || unit == "GB" || unit == "TB"
  }

  /** The factor an upper-cased unit selects; anything else counts as bytes. */
  function UnitFactor(unit: string): nat {
    if unit == "KB" then KB
    else if unit == "MB" then MB
    else if unit == "GB" then GB
    else if unit == "TB" then TB
    else 1
  }

  /** The last two characters, or the whole of a shorter string. */
  function LastTwo(s: string): (r: string)
    ensures |r| == if |s| >= 2 then 2 else |s|
  {
    if |s| >= 2 then s[|s| - 2..] else s
  }

  /** `str.substr(-2)`, which counts UTF-16 code units: a last character
      outside the Basic Multilingual Plane is two code units on its own, so
      it is the whole suffix; otherwise the last two characters. */
  function LastTwoUnits(s: string): (r: string)
    ensures |r| <= 2 && |r| <= |s|
  {
    if |s| > 0 && IsAstral(s[|s| - 1]) then s[|s| - 1..] else LastTwo(s)
  }

  /** `amount * factor`, where a `NaN` amount stays `NaN`. */
  function Scale(amount: Option<int>, unit: string): LimitValue {
    match amount
    case None => NaN
    case Some(a) => Num(a * UnitFactor(ToUpper(unit)))
  }

  /** `convert(str)` as written: the amount is parsed from the string with the
      FIRST occurrence of its last two code units removed, unit or not. */
  function ConvertAsWritten(str: string): (r: LimitValue)
    ensures r.Num? || r.NaN?
  {
    var s := RemoveSpaces(str);
    var unit := LastTwoUnits(s);
    Scale(ParseInt(RemoveFirst(s, unit)), unit)
  }

  /** `convert(str)` as intended: the first occurrence of the last two
      characters is removed, as written, but only when they name a unit; a
      unit-less string is parsed whole. */
  function Convert(str: string): (r: LimitValue)
    ensures r.Num? || r.NaN?
  {
    var s := RemoveSpaces(str);
    var unit := LastTwo(s);
    if IsUnit(ToUpper(unit)) then Scale(ParseInt(RemoveFirst(s, unit)), unit)
    else Scale(ParseInt(s), unit)
  }

  /** The two versions differ only on a string whose last two characters
      are no unit: with a unit they agree on every input. */
  lemma {:induction false} ConvertAgreesWithUnit(str: string)
    requires IsUnit(ToUpper(LastTwo(RemoveSpaces(str))))
    ensures Convert(str) == ConvertAsWritten(str)
  {
    var s := RemoveSpaces(str);
    var u := LastTwo(s);
    assert |u| == 2;
    UnitEnd(u);
    assert s[|s| - 1] == u[1];
    assert LastTwoUnits(s) == u;
  }

  /** A unit is two letters: neither a digit nor a space. */
  lemma UnitLetters(u: string)
    requires |u| == 2 && IsUnit(ToUpper(u))
    ensures !IsDigit(u[0]) && u[0] != ' ' && u[1] != ' '
  {
    var upper := ToUpper(u);
    assert upper[0] == 'K' || upper[0] == 'M' || upper[0] == 'G' || upper[0] == 'T';
    assert upper[1] == 'B';
    assert upper[0] == UpperChar(u[0]) && upper[1] == UpperChar(u[1]);
  }

  /** Removing the first occurrence of a suffix from a string that never
      holds the suffix's first character, followed by the suffix, leaves
      that string. */
  lemma RemoveUnitAfter(d: string, u: string)
    requires |u| > 0 && forall i | 0 <= i < |d| :: d[i] != u[0]
    ensures RemoveFirst(d + u, u) == d
  {
    var s := d + u;
    assert OccursAt(s, u, |d|) by { assert s[|d|..|d| + |u|] == u; }
    forall j | 0 <= j < |d| ensures !OccursAt(s, u, j) {
      assert s[j] == d[j];
      if j + |u| <= |s| {
        assert s[j..j + |u|][0] == s[j];
      }
    }
    var idx := IndexOfFrom(s, u, 0);
    assert idx == Some(|d|);
    assert s[..|d|] + s[|d| + |u|..] == d;
  }

  /** With a unit in any case, both versions multiply the number by 1024 to
      the unit's power. */
  lemma {:induction false} ConvertWithUnit(d: string, u: string)
    requires |d| > 0 && AllDigits(d) && |u| == 2 && IsUnit(ToUpper(u))
    ensures Convert(d + u) == Num(DigitsValue(d) * UnitFactor(ToUpper(u)))
    ensures ConvertAsWritten(d + u) == Num(DigitsValue(d) * UnitFactor(ToUpper(u)))
  {
    var s := d + u;
    UnitLetters(u);
    UnitEnd(u);
    assert forall i | 0 <= i < |s| :: s[i] != ' ' by {
      forall i | 0 <= i < |s| ensures s[i] != ' ' {
        if i < |d| { assert s[i] == d[i]; } else { assert s[i] == u[i - |d|]; }
      }
    }
    assert RemoveSpaces(s) == s;
    assert LastTwo(s) == u;
    assert LastTwoUnits(s) == u by { assert s[|s| - 1] == u[1]; }
    ParseIntOfDigits(d);
    RemoveUnitAfter(d, u);
  }

  /** Spaces anywhere in a size string do not matter: when the text before
      the unit is digits once its spaces are removed, and the rest is a unit
      once its spaces are removed, both versions give the digits' value
      times the unit's factor (`convert("10 MB")` is 10 MB). */
  lemma {:induction false} ConvertIgnoresSpaces(x: string, y: string)
    requires |RemoveSpaces(x)| > 0 && AllDigits(RemoveSpaces(x))
    requires |RemoveSpaces(y)| == 2 && IsUnit(ToUpper(RemoveSpaces(y)))
    ensures Convert(x + y) == Num(DigitsValue(RemoveSpaces(x)) * UnitFactor(ToUpper(RemoveSpaces(y))))
    ensures ConvertAsWritten(x + y) == Num(DigitsValue(RemoveSpaces(x)) * UnitFactor(ToUpper(RemoveSpaces(y))))
  {
    var d, u := RemoveSpaces(x), RemoveSpaces(y);
    RemoveSpacesConcat(x, y);
    assert RemoveSpaces(d + u) == d + u by {
      assert RemoveSpaces(RemoveSpaces(x + y)) == RemoveSpaces(x + y);
    }
    ConvertWithUnit(d, u);
  }

  /** As written, `substr(-2)` of digits followed by a character outside the
      Basic Multilingual Plane is that character's surrogate pair: removing
      it leaves the digits, and the pair is no unit, so the number of bytes
      is the digits' value (`convert("1😀")` is 1). */
  lemma {:induction false} ConvertAsWrittenAstralSuffix(d: string, c: char)
    requires |d| > 0 && AllDigits(d) && IsAstral(c)
    ensures ConvertAsWritten(d + [c]) == Num(DigitsValue(d))
  {
    var s := d + [c];
    assert forall i | 0 <= i < |s| :: s[i] != ' ' by {
      forall i | 0 <= i < |s| ensures s[i] != ' ' {
        if i < |d| { assert s[i] == d[i]; }
      }
    }
    assert RemoveSpaces(s) == s;
    assert LastTwoUnits(s) == [c];
    assert forall i | 0 <= i < |d| :: d[i] != c by {
      forall i | 0 <= i < |d| ensures d[i] != c { assert IsDigit(d[i]); }
    }
    RemoveUnitAfter(d, [c]);
    ParseIntOfDigits(d);
    assert UnitFactor(ToUpper([c])) == 1 by { assert |ToUpper([c])| == 1; }
  }

  /** Intended: a plain number of bytes converts to itself. */
  lemma {:induction false} ConvertPlainNumber(d: string)
    requires |d| > 0 && AllDigits(d)
    ensures Convert(d) == Num(DigitsValue(d))
  {
    assert RemoveSpaces(d) == d;
    var unit := LastTwo(d);
    assert !IsUnit(ToUpper(unit)) by {
      if |unit| == 2 {
        assert unit[0] == d[|d| - 2];
        assert ToUpper(unit)[0] == UpperChar(unit[0]) == unit[0];
      }
    }
    assert UnitFactor(ToUpper(unit)) == 1;
    ParseIntOfDigits(d);
  }

  /** In "100" the first "00" starts at index 1, so removing it leaves "1". */
  lemma RemoveZerosFromHundred()
    ensures RemoveFirst("100", "00") == "1"
  {
    var s := "100";
    assert !OccursAt(s, "00", 0) by { assert s[0..2][0] == '1'; }
    assert OccursAt(s, "00", 1) by { assert s[1..3] == "00"; }
    assert IndexOfFrom(s, "00", 0) == Some(1);
    assert s[..1] + s[3..] == "1";
  }

  /** "100" denotes one hundred and "1" denotes one. */
  lemma HundredDigits()
    ensures AllDigits("100") && DigitsValue("100") == 100
    ensures ParseInt("1") == Some(1)
  {
    var s := "100";
    assert s[..2] == "10" && s[..2][..1] == "1";
    ParseIntOfDigits("1");
  }

  /** A unit starts with K, M, G or T in either case, which is neither a
      hexadecimal digit nor the `x` of a `0x` prefix. */
  lemma UnitStart(u: string)
    requires |u| == 2 && IsUnit(ToUpper(u))
    ensures !IsHexDigit(u[0]) && u[0] != 'x' && u[0] != 'X'
  {
    assert UpperChar(u[0]) == ToUpper(u)[0];
    UnitLetter(u[0]);
  }

  /** A unit ends in `b` or `B`, a single UTF-16 code unit. */
  lemma UnitEnd(u: string)
    requires |u| == 2 && IsUnit(ToUpper(u))
    ensures !IsAstral(u[1])
  {
    assert UpperChar(u[1]) == ToUpper(u)[1];
    UnitSuffixLetter(u[1]);
  }

  /** A letter that upper-cases to B is `b` or `B`, inside the Basic
      Multilingual Plane. */
  lemma UnitSuffixLetter(c: char)
    requires UpperChar(c) == 'B'
    ensures !IsAstral(c)
  {
    if 'a' <= c <= 'z' {
      assert c == 'b';
    }
  }

  /** A letter that upper-cases to K, M, G or T is one of those letters in
      either case. */
  lemma UnitLetter(c: char)
    requires UpperChar(c) in "KMGT"
    ensures !IsHexDigit(c) && c != 'x' && c != 'X'
  {
    if 'a' <= c <= 'z' {
      assert c == 'k' || c == 'm' || c == 'g' || c == 't';
    }
  }

  /** `parseInt` reads a `0x` prefix, so in both versions a hexadecimal
      amount with a unit converts to its value times the unit's factor. */
  lemma {:induction false} ConvertHexWithUnit(x: char, h: string, u: string)
    requires x == 'x' || x == 'X'
    requires |h| > 0 && AllHexDigits(h) && |u| == 2 && IsUnit(ToUpper(u))
    ensures Convert(['0', x] + h + u) == Num(HexValue(h) * UnitFactor(ToUpper(u)))
    ensures ConvertAsWritten(['0', x] + h + u) == Num(HexValue(h) * UnitFactor(ToUpper(u)))
  {
    var d := ['0', x] + h;
    var s := d + u;
    UnitLetters(u);
    UnitStart(u);
    UnitEnd(u);
    forall i | 0 <= i < |d| ensures d[i] != u[0] && d[i] != ' ' {
      if i >= 2 { assert d[i] == h[i - 2]; }
    }
    assert forall i | 0 <= i < |s| :: s[i] != ' ' by {
      forall i | 0 <= i < |s| ensures s[i] != ' ' {
        if i < |d| { assert s[i] == d[i]; } else { assert s[i] == u[i - |d|]; }
      }
    }
    assert RemoveSpaces(s) == s;
    assert LastTwo(s) == u;
    assert LastTwoUnits(s) == u by { assert s[|s| - 1] == u[1]; }
    ParseIntOfHex(x, h);
    RemoveUnitAfter(d, u);
  }

  /** As written, "100" converts to 1: the first "00" is removed before parsing. */
  lemma ConvertAsWrittenDropsZeros()
    ensures ConvertAsWritten("100") == Num(1)
    ensures Convert("100") == Num(100)
  {
    var s := "100";
    assert RemoveSpaces(s) == s;
    assert LastTwo(s) == "00";
    assert LastTwoUnits(s) == "00";
    RemoveZerosFromHundred();
    HundredDigits();
    assert ToUpper("00") == "00";
    ConvertPlainNumber(s);
  }

  // ---------------------------------------------------------------------
  // Allow-lists

  /** A MIME pattern: a string wrapped into a regular expression, or a
      regular expression given as such (its `test`). */
  datatype MimePattern = FromString(source: string) | RegExp(test: string -> bool)

  /** `pattern.test(mime)`. A pattern built from a string matches where the
      string occurs, which is the regular expression's answer whenever the
      string has no metacharacters. */
  predicate Accepts(p: MimePattern, mime: string) {
    match p
    case FromString(source) => Contains(mime, source)
    case RegExp(test) => test(mime)
  }

  /** An argument of `mimeType(...)`. */
  datatype MimeArg = MimeString(s: string) | MimeRegExp(test: string -> bool) | MimeOther

  /** The patterns `mimeType(...)` appends for its arguments, in order. */
  function MimePatterns(items: seq<MimeArg>): seq<MimePattern> {
    if |items| == 0 then []
    else
      var last := items[|items| - 1];
      MimePatterns(items[..|items| - 1]) +
        (match last
         case MimeString(s) => [FromString(s)]
         case MimeRegExp(t) => [RegExp(t)]
         case MimeOther => [])
  }

  /** An argument of `extension(...)`. */
  datatype ExtArg = ExtString(s: string) | ExtOther

  /** One configured extension: at most one leading dot removed, lower-cased. */
  function NormalizeExtension(s: string): string {
    ToLower(if |s| > 0 && s[0] == '.' then s[1..] else s)
  }

  /** The extensions `extension(...)` appends for its arguments, in order. */
  function Extensions(items: seq<ExtArg>): seq<string> {
    if |items| == 0 then []
    else
      var last := items[|items| - 1];
      Extensions(items[..|items| - 1]) +
        (match last
         case ExtString(s) => [NormalizeExtension(s)]
         case ExtOther => [])
  }

  /** Every configured extension is lower-case, and no more extensions are
      appended than arguments given. */
  lemma {:induction false} ExtensionsShape(items: seq<ExtArg>)
    ensures forall i | 0 <= i < |Extensions(items)| :: IsLower(Extensions(items)[i])
    ensures |Extensions(items)| <= |items|
  {
    if |items| > 0 {
      ExtensionsShape(items[..|items| - 1]);
    }
  }

  /** Appending lower-case extensions to lower-case extensions keeps them
      all lower-case. */
  lemma LowerAppend(a: seq<string>, b: seq<string>)
    requires forall i | 0 <= i < |a| :: IsLower(a[i])
    requires forall i | 0 <= i < |b| :: IsLower(b[i])
    ensures forall i | 0 <= i < |a + b| :: IsLower((a + b)[i])
  {
    forall i | 0 <= i < |a + b| ensures IsLower((a + b)[i]) {
      if i < |a| { assert (a + b)[i] == a[i]; } else { assert (a + b)[i] == b[i - |a|]; }
    }
  }

  /** A configured extension, written with or without its dot, matches a
      file's extension when both agree up to case: the allow-list check is
      case-insensitive. */
  lemma ExtensionMatchIgnoresCase(fileName: string, word: string, dotted: bool)
    requires ExtName(fileName) != ""
    requires ToLower(word) == ToLower(ExtName(fileName)[1..])
    ensures NormalizeExtension(if dotted then "." + word else word) == UploadFiles.Extension(fileName)
  {
    var e := ExtName(fileName);
    UploadFiles.ExtensionShape(fileName);
    if !dotted && |word| > 0 {
      assert LowerChar(word[0]) == ToLower(e[1..])[0] == LowerChar(e[1]);
      assert word[0] != '.';
    }
    if dotted {
      assert ("." + word)[1..] == word;
    }
  }

  /** `mimeTypes` is empty or one of its patterns accepts the MIME type. */
  predicate MimeAllowed(patterns: seq<MimePattern>, mime: string) {
    |patterns| == 0 || exists i | 0 <= i < |patterns| :: Accepts(patterns[i], mime)
  }

  /** `extensions` is empty or contains the file's extension. */
  predicate ExtensionAllowed(extensions: seq<string>, extension: Option<string>) {
    |extensions| == 0 || (extension.Some? && extension.value in extensions)
  }

  /** The MIME type as `RegExp.test` sees it: `null` once the file is destroyed. */
  function MimeText(mimeType: Option<string>): string {
    if mimeType.Some? then mimeType.value else "null"
  }

  // ---------------------------------------------------------------------
  // The policy

  /** How the handler resolves its storage: always the same value, or a
      function of the caller's. */
  datatype ResolverValue = StorageName(name: string) | StorageObject(instance: StorageInstance) | PlainObject
  datatype Resolver = Constant(value: ResolverValue) | UserResolver(id: nat)

  /** An argument of `storage(...)`. */
  datatype StorageArg = ValueArg(value: ResolverValue) | FunctionArg(id: nat) | InvalidArg

  /** An argument pair of `limit(...)`: its first argument ... */
  datatype LimitKey = KeyName(name: string) | KeyObject(entries: map<string, LimitValue>) | KeyOther

  /** An entry of the handler's stack, tagged with its handler type. */
  datatype StackEntry = StackEntry(kind: string, fn: nat)

  const UploadProcess := "upload.process"

  function ProcessEntries(stack: seq<StackEntry>): nat {
    if |stack| == 0 then 0
    else ProcessEntries(stack[..|stack| - 1]) + (if stack[|stack| - 1].kind == UploadProcess then 1 else 0)
  }

  class UploadHandler {
    const name: string
    /** The upload path, registered as the handler's alias. */
    const path: string
    var fieldName: string
    var mimeTypes: seq<MimePattern>
    var extensions: seq<string>
    var uploadFn: Option<nat>
    var storageFn: Option<Resolver>
    var limits: map<string, LimitValue>
    var hasProcessor: bool
    var stack: seq<StackEntry>

    /** Configured extensions are lower-case, and the stack holds an upload
        processor exactly when `hasProcessor` is set, and never two. */
    ghost predicate Valid()
      reads this
    {
      && (forall i | 0 <= i < |extensions| :: IsLower(extensions[i]))
      && (hasProcessor <==> ProcessEntries(stack) == 1)
      && ProcessEntries(stack) <= 1
    }

    constructor (name: string, uploadPath: string, defaults: map<string, LimitValue>)
      ensures Valid()
      ensures this.name == name && path == uploadPath
      ensures fieldName == "asset" && mimeTypes == [] && extensions == []
      ensures uploadFn.None? && storageFn.None? && !hasProcessor && stack == []
      ensures limits == defaults
    {
      this.name := name;
      path := uploadPath;
      fieldName := "asset";
      mimeTypes := [];
      extensions := [];
      uploadFn := None;
      storageFn := None;
      limits := defaults;
      hasProcessor := false;
      stack := [];
    }

    /** `_isFileValid(file)`: both allow-lists accept the file. */
    method IsFileValid(file: UploadFiles.UploadFile) returns (valid: bool)
      ensures valid <==> MimeAllowed(mimeTypes, MimeText(file.mimeType))
                         && ExtensionAllowed(extensions, file.extension)
    {
      var mime := MimeText(file.mimeType);
      var mimeValid := false;
      var extValid := false;
      if |mimeTypes| == 0 {
        mimeValid := true;
      } else {
        var i := 0;
        while i < |mimeTypes|
          invariant 0 <= i <= |mimeTypes|
          invariant !mimeValid
          invariant forall j | 0 <= j < i :: !Accepts(mimeTypes[j], mime)
        {
          if Accepts(mimeTypes[i], mime) {
            mimeValid := true;
            break;
          }
          i := i + 1;
        }
      }
      if |extensions| == 0 {
        extValid := true;
      } else {
        var i := 0;
        while i < |extensions|
          invariant 0 <= i <= |extensions|
          invariant !extValid
          invariant forall j | 0 <= j < i :: file.extension != Some(extensions[j])
        {
          if file.extension == Some(extensions[i]) {
            extValid := true;
            break;
          }
          i := i + 1;
        }
      }
      valid := extValid && mimeValid;
    }

    /** `mimeType(...)`: strings are wrapped into patterns, regular expressions
        kept, anything else skipped, in argument order. */
    method MimeType(items: seq<MimeArg>)
      modifies this`mimeTypes
      ensures mimeTypes == old(mimeTypes) + MimePatterns(items)
    {
      var i := 0;
      while i < |items|
        invariant 0 <= i <= |items|
        invariant mimeTypes == old(mimeTypes) + MimePatterns(items[..i])
      {
        assert items[..i + 1][..i] == items[..i];
        match items[i] {
          case MimeString(s) => mimeTypes := mimeTypes + [FromString(s)];
          case MimeRegExp(t) => mimeTypes := mimeTypes + [RegExp(t)];
          case MimeOther =>
        }
        i := i + 1;
      }
      assert items[..i] == items;
    }

    /** `extension(...)`: every string is appended without its leading dot and
        lower-cased; anything else is skipped. */
    method Extension(items: seq<ExtArg>)
      requires Valid()
      modifies this`extensions
      ensures Valid()
      ensures extensions == old(extensions) + Extensions(items)
    {
      var i := 0;
      while i < |items|
        invariant 0 <= i <= |items|
        invariant extensions == old(extensions) + Extensions(items[..i])
      {
        assert items[..i + 1][..i] == items[..i];
        match items[i] {
          case ExtString(s) => extensions := extensions + [NormalizeExtension(s)];
          case ExtOther =>
        }
        i := i + 1;
      }
      assert items[..i] == items;
      ExtensionsShape(items);
      LowerAppend(old(extensions), Extensions(items));
    }

    /** `field(v)`: only a string changes the accepted field name. */
    method Field(v: Option<string>)
      modifies this`fieldName
      ensures fieldName == if v.Some? then v.value else old(fieldName)
    {
      if v.Some? {
        fieldName := v.value;
      }
    }

    /** `limit(key, value)` sets one entry, converting a size string;
        `limit(object)` merges the object over the limits; any other call
        changes nothing. */
    method Limit(key: LimitKey, value: Option<LimitValue>)
      modifies this`limits
      ensures key.KeyName? && value.Some? ==>
        limits == old(limits)[key.name := match value.value case Str(s) => Convert(s) case v => v]
      ensures key.KeyObject? ==> limits == old(limits) + key.entries
      ensures !key.KeyObject? && !(key.KeyName? && value.Some?) ==> limits == old(limits)
    {
      if key.KeyName? && value.Some? {
        var v := value.value;
        if v.Str? {
          v := Convert(v.s);
        }
        limits := limits[key.name := v];
      } else if key.KeyObject? {
        limits := limits + key.entries;
      }
    }

    /** `storage(v)`: set once. A name or an object becomes a resolver that
        always answers it, a function is kept, anything else is ignored. */
    method Storage(arg: StorageArg)
      modifies this`storageFn
      ensures old(storageFn).Some? ==> storageFn == old(storageFn)
      ensures old(storageFn).None? ==> storageFn == match arg
        case ValueArg(v) => Some(Constant(v))
        case FunctionArg(id) => Some(UserResolver(id))
        case InvalidArg => None
    {
      if storageFn.None? {
        match arg
        case ValueArg(v) => storageFn := Some(Constant(v));
        case FunctionArg(id) => storageFn := Some(UserResolver(id));
        case InvalidArg =>
      }
    }

    /** `upload(fn)`: the first call pushes one upload-process entry; later
        calls change nothing. */
    method Upload(fn: nat)
      requires Valid()
      modifies this`hasProcessor, this`stack
      ensures Valid() && hasProcessor
      ensures old(hasProcessor) ==> stack == old(stack)
      ensures !old(hasProcessor) ==> stack == old(stack) + [StackEntry(UploadProcess, fn)]
    {
      if !hasProcessor {
        hasProcessor := true;
        stack := stack + [StackEntry(UploadProcess, fn)];
        assert stack[..|stack| - 1] == old(stack);
      }
    }
  }
}
