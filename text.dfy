/** String helpers the upload plugin relies on: the slash-collapsing regular
    expression `/\/\/+/g`, `indexOf`, ASCII case mapping, `path.extname`,
    decimal rendering of a timestamp and `parseInt`. */
module Text {

  datatype Option<+T> = None | Some(value: T)

  // ---------------------------------------------------------------------
  // Substrings and prefixes

  predicate StartsWith(s: string, prefix: string) {
    |prefix| <= |s| && s[..|prefix|] == prefix
  }

  predicate EndsWith(s: string, suffix: string) {
    |suffix| <= |s| && s[|s| - |suffix|..] == suffix
  }

  /** `t` occurs in `s` at position `i`. */
  predicate OccursAt(s: string, t: string, i: int) {
    0 <= i && i + |t| <= |s| && s[i..i + |t|] == t
  }

  /** `s.indexOf(t) !== -1`. */
  predicate Contains(s: string, t: string) {
    exists i | 0 <= i <= |s| - |t| :: OccursAt(s, t, i)
  }

  /** No two consecutive slashes. */
  predicate NoDoubleSlash(s: string) {
    forall i | 0 <= i < |s| - 1 :: !(s[i] == '/' && s[i + 1] == '/')
  }

  predicate SlashFree(s: string) {
    forall i | 0 <= i < |s| :: s[i] != '/'
  }

  // ---------------------------------------------------------------------
  // `s.replace(/\/\/+/g, '/')`: every run of two or more slashes becomes one

  function CollapseSlashes(s: string): (r: string)
    ensures |r| <= |s|
    ensures |r| == 0 <==> |s| == 0
  {
    if |s| == 0 then ""
    else if |s| >= 2 && s[0] == '/' && s[1] == '/' then CollapseSlashes(s[1..])
    else [s[0]] + CollapseSlashes(s[1..])
  }

  /** The first character survives collapsing, and an input that does not
      start with a slash yields an output that does not either. */
  lemma {:induction false} CollapseSlashesHead(s: string)
    ensures |CollapseSlashes(s)| == 0 <==> |s| == 0
    ensures |s| > 0 ==> CollapseSlashes(s)[0] == s[0]
  {
    if |s| >= 2 && s[0] == '/' && s[1] == '/' {
      CollapseSlashesHead(s[1..]);
    }
  }

  /** After collapsing, no two slashes are adjacent. */
  lemma {:induction false} CollapseSlashesNoDouble(s: string)
    ensures NoDoubleSlash(CollapseSlashes(s))
  {
    if |s| == 0 {
    } else if |s| >= 2 && s[0] == '/' && s[1] == '/' {
      CollapseSlashesNoDouble(s[1..]);
    } else {
      var rest := CollapseSlashes(s[1..]);
      CollapseSlashesNoDouble(s[1..]);
      CollapseSlashesHead(s[1..]);
      assert CollapseSlashes(s) == [s[0]] + rest;
      forall i | 0 <= i < |[s[0]] + rest| - 1
        ensures !(([s[0]] + rest)[i] == '/' && ([s[0]] + rest)[i + 1] == '/')
      {
        if i > 0 {
          assert ([s[0]] + rest)[i] == rest[i - 1];
        }
      }
    }
  }

  /** A run of slashes keeps exactly one: shortening a run by one slash does
      not change the result, so with `CollapseSlashesFixed` every run of two
      or more becomes a single slash. */
  lemma {:induction false} CollapseSlashesRun(a: string, b: string)
    ensures CollapseSlashes(a + "//" + b) == CollapseSlashes(a + "/" + b)
    decreases |a|
  {
    var s, t := a + "//" + b, a + "/" + b;
    if |a| == 0 {
      assert s == "//" + b && t == "/" + b;
      assert s[1..] == t;
    } else {
      assert s[0] == t[0] == a[0];
      assert s[1] == t[1];
      assert s[1..] == a[1..] + "//" + b;
      assert t[1..] == a[1..] + "/" + b;
      CollapseSlashesRun(a[1..], b);
    }
  }

  /** A string that already has no double slash is left unchanged. */
  lemma {:induction false} CollapseSlashesFixed(s: string)
    requires NoDoubleSlash(s)
    ensures CollapseSlashes(s) == s
  {
    if |s| > 0 {
      assert NoDoubleSlash(s[1..]) by {
        forall i | 0 <= i < |s[1..]| - 1 ensures !(s[1..][i] == '/' && s[1..][i + 1] == '/') {
          assert s[1..][i] == s[i + 1] && s[1..][i + 1] == s[i + 2];
        }
      }
      CollapseSlashesFixed(s[1..]);
    }
  }

  /** A slash-free prefix of the input is a prefix of the output. */
  lemma {:induction false} CollapseSlashesKeepsPrefix(s: string, t: string)
    requires SlashFree(t) && StartsWith(s, t)
    ensures StartsWith(CollapseSlashes(s), t)
  {
    if |t| > 0 {
      assert s[0] == t[0];
      assert StartsWith(s[1..], t[1..]) by {
        assert s[1..][..|t| - 1] == s[..|t|][1..];
      }
      CollapseSlashesKeepsPrefix(s[1..], t[1..]);
      var rest := CollapseSlashes(s[1..]);
      assert CollapseSlashes(s) == [s[0]] + rest;
      assert ([s[0]] + rest)[..|t|] == [s[0]] + rest[..|t| - 1];
      assert t == [t[0]] + t[1..];
    }
  }

  /** An occurrence survives putting one character in front, one place later. */
  lemma OccursAtCons(c: char, r: string, t: string, j: int)
    requires OccursAt(r, t, j)
    ensures OccursAt([c] + r, t, j + 1)
  {
    assert ([c] + r)[j + 1..j + 1 + |t|] == r[j..j + |t|];
  }

  /** The appended text occurs at the end. */
  lemma OccursAtEnd(r: string, t: string)
    ensures OccursAt(r + t, t, |r|)
  {
    assert (r + t)[|r|..|r| + |t|] == t;
  }

  /** Where a slash-free occurrence of `t` at `i` in the input lands in the
      output. */
  lemma {:induction false} CollapseSlashesKeepsOccurrence(s: string, t: string, i: int) returns (j: int)
    requires SlashFree(t) && OccursAt(s, t, i)
    ensures 0 <= j <= i && OccursAt(CollapseSlashes(s), t, j)
  {
    if i == 0 {
      assert s[..|t|] == s[0..|t|];
      CollapseSlashesKeepsPrefix(s, t);
      j := 0;
    } else {
      assert OccursAt(s[1..], t, i - 1) by {
        assert s[1..][i - 1..i - 1 + |t|] == s[i..i + |t|];
      }
      var k := CollapseSlashesKeepsOccurrence(s[1..], t, i - 1);
      if |s| >= 2 && s[0] == '/' && s[1] == '/' {
        j := k;
      } else {
        OccursAtCons(s[0], CollapseSlashes(s[1..]), t, k);
        j := k + 1;
      }
    }
  }

  /** A slash-free substring of the input is a substring of the output. */
  lemma CollapseSlashesKeepsSubstring(s: string, t: string, i: int)
    requires SlashFree(t) && OccursAt(s, t, i)
    ensures Contains(CollapseSlashes(s), t)
  {
    var j := CollapseSlashesKeepsOccurrence(s, t, i);
  }

  /** Concatenating two strings without double slashes creates none, unless a
      slash ends the first and another starts the second. */
  lemma NoDoubleSlashConcat(a: string, b: string)
    requires NoDoubleSlash(a) && NoDoubleSlash(b)
    requires !(|a| > 0 && |b| > 0 && a[|a| - 1] == '/' && b[0] == '/')
    ensures NoDoubleSlash(a + b)
  {
    forall i | 0 <= i < |a + b| - 1 ensures !((a + b)[i] == '/' && (a + b)[i + 1] == '/') {
      if i < |a| - 1 {
        assert (a + b)[i] == a[i] && (a + b)[i + 1] == a[i + 1];
      } else if i == |a| - 1 {
        assert (a + b)[i] == a[i] && (a + b)[i + 1] == b[0];
      } else {
        assert (a + b)[i] == b[i - |a|] && (a + b)[i + 1] == b[i - |a| + 1];
      }
    }
  }

  // ---------------------------------------------------------------------
  // `length` of a JavaScript string

  /** A character outside the Basic Multilingual Plane, which UTF-16 stores
      as a surrogate pair. */
  predicate IsAstral(c: char) {
    c as int >= 0x1_0000
  }

  /** `s.length`: the number of UTF-16 code units, two for each astral
      character and one for every other. */
  function Utf16Length(s: string): (r: nat)
    ensures |s| <= r <= 2 * |s|
    ensures r == |s| <==> forall i | 0 <= i < |s| :: !IsAstral(s[i])
  {
    if |s| == 0 then 0
    else
      var init := s[..|s| - 1];
      assert forall i | 0 <= i < |init| :: init[i] == s[i];
      Utf16Length(init) + (if IsAstral(s[|s| - 1]) then 2 else 1)
  }

  // ---------------------------------------------------------------------
  // ASCII case mapping (`toLowerCase`, `toUpperCase`)

  function LowerChar(c: char): char {
    if 'A' <= c <= 'Z' then (c as int + 32) as char else c
  }

  function UpperChar(c: char): char {
    if 'a' <= c <= 'z' then (c as int - 32) as char else c
  }

  predicate IsLower(s: string) {
    forall i | 0 <= i < |s| :: !('A' <= s[i] <= 'Z')
  }

  function ToLower(s: string): (r: string)
    ensures |r| == |s|
    ensures forall i | 0 <= i < |s| :: r[i] == LowerChar(s[i])
  {
    if |s| == 0 then "" else [LowerChar(s[0])] + ToLower(s[1..])
  }

  function ToUpper(s: string): (r: string)
    ensures |r| == |s|
    ensures forall i | 0 <= i < |s| :: r[i] == UpperChar(s[i])
  {
    if |s| == 0 then "" else [UpperChar(s[0])] + ToUpper(s[1..])
  }

  // ---------------------------------------------------------------------
  // `path.extname` (POSIX)

  /** Index of the last occurrence of `c` in `s`. */
  function LastIndexOf(s: string, c: char): (r: Option<nat>)
    ensures r.Some? ==> r.value < |s| && s[r.value] == c
    ensures r.Some? ==> forall j | r.value < j < |s| :: s[j] != c
    ensures r.None? ==> forall j | 0 <= j < |s| :: s[j] != c
  {
    if |s| == 0 then None
    else if s[|s| - 1] == c then Some(|s| - 1)
    else LastIndexOf(s[..|s| - 1], c)
  }

  /** Lower-casing keeps a suffix a suffix. */
  lemma ToLowerSuffix(s: string, t: string)
    requires EndsWith(s, t)
    ensures EndsWith(ToLower(s), ToLower(t))
  {
    var k := |s| - |t|;
    forall j | 0 <= j < |t| ensures ToLower(s)[k..][j] == ToLower(t)[j] {
      assert s[k + j] == t[j];
    }
  }

  /** A suffix of a suffix is a suffix. */
  lemma EndsWithTrans(p: string, b: string, r: string)
    requires EndsWith(p, b) && EndsWith(b, r)
    ensures EndsWith(p, r)
  {
    assert p[|p| - |r|..] == p[|p| - |b|..][|b| - |r|..];
  }

  /** The last path segment: what follows the last `/`. */
  function BaseName(p: string): (r: string)
    ensures SlashFree(r)
  {
    match LastIndexOf(p, '/')
    case None => p
    case Some(i) => p[i + 1..]
  }

  /** The last segment is what the path ends with, right after a slash when
      it is not the whole path. */
  lemma BaseNameOfPath(p: string)
    ensures EndsWith(p, BaseName(p))
    ensures |BaseName(p)| < |p| ==> p[|p| - |BaseName(p)| - 1] == '/'
  {
    match LastIndexOf(p, '/')
    case None =>
    case Some(i) =>
      assert p[|p| - |p[i + 1..]|..] == p[i + 1..];
  }

  /** A last segment without an extension: no dot after its first character,
      or the segment `..`. */
  predicate NoExtension(b: string) {
    (forall j | 0 < j < |b| :: b[j] != '.') || b == ".."
  }

  /** `path.extname(p)`: from the last dot of the last segment to its end; empty
      when that segment has no dot, its last dot is its first character, or it
      is `..`. */
  function ExtName(p: string): (r: string)
    ensures r == "" || r[0] == '.'
    ensures SlashFree(r)
    ensures forall j | 0 < j < |r| :: r[j] != '.'
  {
    var b := BaseName(p);
    match LastIndexOf(b, '.')
    case None => ""
    case Some(i) => if i == 0 || b == ".." then "" else b[i..]
  }

  /** The extension is empty exactly when the last segment has none, and
      otherwise it is what both that segment and the whole path end with. */
  lemma ExtNameOfPath(p: string)
    ensures ExtName(p) == "" <==> NoExtension(BaseName(p))
    ensures ExtName(p) != "" ==> EndsWith(BaseName(p), ExtName(p)) && EndsWith(p, ExtName(p))
  {
    var b := BaseName(p);
    BaseNameOfPath(p);
    match LastIndexOf(b, '.')
    case None =>
    case Some(i) =>
      if i != 0 && b != ".." {
        var r := b[i..];
        assert ExtName(p) == r;
        assert !NoExtension(b) by { assert b[i] == '.'; }
        assert EndsWith(b, r) by { assert b[|b| - |r|..] == r; }
        EndsWithTrans(p, b, r);
      }
  }

  // ---------------------------------------------------------------------
  // Decimal digits

  predicate IsDigit(c: char) { '0' <= c <= '9' }

  predicate AllDigits(s: string) {
    forall i | 0 <= i < |s| :: IsDigit(s[i])
  }

  function DigitValue(c: char): nat
    requires IsDigit(c)
  {
    c as int - '0' as int
  }

  /** The number a string of decimal digits denotes. */
  function DigitsValue(s: string): nat
    requires AllDigits(s)
  {
    if |s| == 0 then 0 else DigitsValue(s[..|s| - 1]) * 10 + DigitValue(s[|s| - 1])
  }

  /** `String(n)` for a non-negative integer. */
  function Decimal(n: nat): (r: string)
    ensures |r| > 0 && AllDigits(r)
  {
    var last := ['0' + (n % 10) as char];
    if n < 10 then last else Decimal(n / 10) + last
  }

  /** Rendering then reading back a number gives the number. */
  lemma {:induction false} DecimalRoundTrip(n: nat)
    ensures DigitsValue(Decimal(n)) == n
  {
    var r := Decimal(n);
    if n >= 10 {
      DecimalRoundTrip(n / 10);
      assert r[..|r| - 1] == Decimal(n / 10);
    }
  }

  /** The longest prefix of decimal digits. */
  function DigitPrefix(s: string): (r: string)
    ensures AllDigits(r) && StartsWith(s, r)
    ensures |r| < |s| ==> !IsDigit(s[|r|])
  {
    if |s| == 0 || !IsDigit(s[0]) then "" else [s[0]] + DigitPrefix(s[1..])
  }

  lemma {:induction false} DigitPrefixOfDigits(s: string)
    requires AllDigits(s)
    ensures DigitPrefix(s) == s
  {
    if |s| > 0 {
      DigitPrefixOfDigits(s[1..]);
    }
  }

  /** White space and line terminators, which `parseInt` skips in front. */
  predicate IsJsSpace(c: char) {
    || c == '\t' || c == '\n' || c == '\U{B}' || c == '\U{C}' || c == '\r' || c == ' '
    || c == '\U{A0}' || c == '\U{1680}' || ('\U{2000}' <= c <= '\U{200A}')
    || c == '\U{2028}' || c == '\U{2029}' || c == '\U{202F}' || c == '\U{205F}'
    || c == '\U{3000}' || c == '\U{FEFF}'
  }

  /** The string without its leading white space. */
  function TrimStart(s: string): (r: string)
    ensures EndsWith(s, r)
    ensures r == "" || !IsJsSpace(r[0])
    ensures forall i | 0 <= i < |s| - |r| :: IsJsSpace(s[i])
  {
    if |s| > 0 && IsJsSpace(s[0]) then
      var r := TrimStart(s[1..]);
      assert s[|s| - |r|..] == s[1..][|s| - 1 - |r|..];
      r
    else s
  }

  /** A string that starts with no white space is its own trimmed form. */
  lemma TrimStartNoSpace(s: string)
    requires s == "" || !IsJsSpace(s[0]) || IsDigit(s[0])
    ensures TrimStart(s) == s
  {
  }

  /** Leading white space makes no difference to the trimmed string. */
  lemma {:induction false} TrimStartSkips(w: string, s: string)
    requires forall i | 0 <= i < |w| :: IsJsSpace(w[i])
    ensures TrimStart(w + s) == TrimStart(s)
  {
    if |w| > 0 {
      assert IsJsSpace(w[0]);
      assert (w + s)[0] == w[0];
      assert TrimStart(w + s) == TrimStart((w + s)[1..]);
      assert (w + s)[1..] == w[1..] + s;
      assert forall i | 0 <= i < |w[1..]| :: IsJsSpace(w[1..][i]) by {
        forall i | 0 <= i < |w[1..]| ensures IsJsSpace(w[1..][i]) {
          assert w[1..][i] == w[i + 1];
        }
      }
      TrimStartSkips(w[1..], s);
    } else {
      assert w + s == s;
    }
  }

  predicate IsHexDigit(c: char) {
    IsDigit(c) || 'a' <= c <= 'f' || 'A' <= c <= 'F'
  }

  predicate AllHexDigits(s: string) {
    forall i | 0 <= i < |s| :: IsHexDigit(s[i])
  }

  function HexDigitValue(c: char): (r: nat)
    requires IsHexDigit(c)
    ensures r < 16
  {
    if IsDigit(c) then DigitValue(c)
    else if 'a' <= c <= 'f' then c as int - 'a' as int + 10
    else c as int - 'A' as int + 10
  }

  /** The number a string of hexadecimal digits denotes. */
  function HexValue(s: string): nat
    requires AllHexDigits(s)
  {
    if |s| == 0 then 0 else HexValue(s[..|s| - 1]) * 16 + HexDigitValue(s[|s| - 1])
  }

  /** The longest prefix of hexadecimal digits. */
  function HexPrefix(s: string): (r: string)
    ensures AllHexDigits(r) && StartsWith(s, r)
    ensures |r| < |s| ==> !IsHexDigit(s[|r|])
  {
    if |s| == 0 || !IsHexDigit(s[0]) then "" else [s[0]] + HexPrefix(s[1..])
  }

  lemma {:induction false} HexPrefixOfHexDigits(s: string)
    requires AllHexDigits(s)
    ensures HexPrefix(s) == s
  {
    if |s| > 0 {
      HexPrefixOfHexDigits(s[1..]);
    }
  }

  /** A `0x` or `0X` prefix selects base 16. */
  predicate HasHexPrefix(body: string) {
    |body| >= 2 && body[0] == '0' && (body[1] == 'x' || body[1] == 'X')
  }

  /** The magnitude `parseInt` reads after the sign: hexadecimal digits after
      a `0x` prefix, decimal digits otherwise; `None` when there are none. */
  function Magnitude(body: string): (r: Option<nat>)
    ensures r.Some? ==> |body| > 0 && IsDigit(body[0])
  {
    if HasHexPrefix(body) then
      var digits := HexPrefix(body[2..]);
      if digits == "" then None else Some(HexValue(digits))
    else
      var digits := DigitPrefix(body);
      if digits == "" then None else Some(DigitsValue(digits))
  }

  /** What `parseInt` reads once white space is skipped: an optional sign,
      then the magnitude. */
  function ParseSigned(t: string): (r: Option<int>)
    ensures r.Some? ==> (|t| > 0 && IsDigit(t[0])) || (|t| > 1 && IsDigit(t[1]))
  {
    var body := if |t| > 0 && (t[0] == '-' || t[0] == '+') then t[1..] else t;
    match Magnitude(body)
    case None => None
    case Some(m) => Some(if |t| > 0 && t[0] == '-' then 0 - m else m)
  }

  /** `parseInt(s)` without a radix: leading white space is skipped, then an
      optional sign, then the magnitude; `None` stands for `NaN`. */
  function ParseInt(s: string): (r: Option<int>)
    ensures r.Some? ==> exists i | 0 <= i < |s| :: IsDigit(s[i])
  {
    var t := TrimStart(s);
    assert forall i | 0 <= i < |t| :: t[i] == s[|s| - |t| + i] by {
      assert s[|s| - |t|..] == t;
    }
    ParseSigned(t)
  }

  /** A non-empty digit string parses to the number it denotes. */
  lemma ParseIntOfDigits(s: string)
    requires |s| > 0 && AllDigits(s)
    ensures ParseInt(s) == Some(DigitsValue(s))
  {
    TrimStartNoSpace(s);
    SignedOfDigits(s);
  }

  /** A digit string has no sign and no `0x` prefix, so it is read in base 10. */
  lemma SignedOfDigits(s: string)
    requires |s| > 0 && AllDigits(s)
    ensures ParseSigned(s) == Some(DigitsValue(s))
  {
    assert IsDigit(s[0]);
    assert !HasHexPrefix(s) by { if |s| >= 2 { assert IsDigit(s[1]); } }
    DigitPrefixOfDigits(s);
  }

  /** `0x` (or `0X`) then hexadecimal digits parses to the number they denote. */
  lemma ParseIntOfHex(x: char, h: string)
    requires x == 'x' || x == 'X'
    requires |h| > 0 && AllHexDigits(h)
    ensures ParseInt(['0', x] + h) == Some(HexValue(h))
  {
    var s := ['0', x] + h;
    assert s[0] == '0' && s[1] == x && s[2..] == h;
    TrimStartNoSpace(s);
    HexPrefixOfHexDigits(h);
    assert Magnitude(s) == Some(HexValue(h));
    assert ParseSigned(s) == Some(HexValue(h));
  }

  /** Leading white space does not change what `parseInt` reads. */
  lemma ParseIntSkipsSpace(w: string, s: string)
    requires forall i | 0 <= i < |w| :: IsJsSpace(w[i])
    ensures ParseInt(w + s) == ParseInt(s)
  {
    TrimStartSkips(w, s);
  }

  // ---------------------------------------------------------------------
  // `str.replace(/ /g, '')` and `str.replace(t, '')` with a string pattern

  function RemoveSpaces(s: string): (r: string)
    ensures forall i | 0 <= i < |r| :: r[i] != ' '
    ensures (forall i | 0 <= i < |s| :: s[i] != ' ') ==> r == s
  {
    if |s| == 0 then ""
    else if s[0] == ' ' then RemoveSpaces(s[1..])
    else [s[0]] + RemoveSpaces(s[1..])
  }

  /** Space removal works piece by piece, so every other character is kept,
      in its order. */
  lemma {:induction false} RemoveSpacesConcat(a: string, b: string)
    ensures RemoveSpaces(a + b) == RemoveSpaces(a) + RemoveSpaces(b)
    decreases |a|
  {
    if |a| == 0 {
      assert a + b == b;
    } else {
      assert (a + b)[0] == a[0];
      assert (a + b)[1..] == a[1..] + b;
      RemoveSpacesConcat(a[1..], b);
    }
  }

  /** Index of the first occurrence of `t` in `s`, from position `from` on. */
  function IndexOfFrom(s: string, t: string, from: nat): (r: Option<nat>)
    requires from <= |s|
    ensures r.Some? ==> from <= r.value && OccursAt(s, t, r.value)
    ensures r.Some? ==> forall j | from <= j < r.value :: !OccursAt(s, t, j)
    ensures r.None? ==> forall j | from <= j <= |s| :: !OccursAt(s, t, j)
    decreases |s| - from
  {
    if OccursAt(s, t, from) then Some(from)
    else if from == |s| then None
    else IndexOfFrom(s, t, from + 1)
  }

  /** `s.replace(t, '')`: the first occurrence of `t` is removed; without an
      occurrence the string is unchanged. */
  function RemoveFirst(s: string, t: string): (r: string)
    ensures (forall j | 0 <= j <= |s| :: !OccursAt(s, t, j)) ==> r == s
    ensures forall i | OccursAt(s, t, i) && (forall j | 0 <= j < i :: !OccursAt(s, t, j)) ::
      r == s[..i] + s[i + |t|..]
  {
    match IndexOfFrom(s, t, 0)
    case None => s
    case Some(i) => s[..i] + s[i + |t|..]
  }
}
