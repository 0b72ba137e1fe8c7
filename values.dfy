/**
 * The JavaScript values the agent receives in payloads, and the handful of
 * JavaScript conversions it applies to them: truthiness (`!!v`, `a || b`),
 * nullishness (`v ?? d`), `String.prototype.trim` and `toLowerCase`.
 */
module Values {

  /** A JSON value as seen by the agent. `Obj` stands for any object or
      array; the agent only passes it through, so it is carried as the text
      that `String(v)` gives for it. NaN is not representable. */
  datatype Value =
    | Undefined
    | Null
    | Bool(b: bool)
    | Num(n: real)
    | Str(s: string)
    | Obj(text: string)

  /** `!!v` */
  predicate Truthy(v: Value) {
    match v
    case Undefined => false
    case Null => false
    case Bool(b) => b
    case Num(n) => n != 0.0
    case Str(s) => s != ""
    case Obj(_) => true
  }

  /** `v ?? null` */
  function OrNull(v: Value): (r: Value)
    ensures r != Undefined
    ensures v == Undefined ==> r == Null
    ensures v != Undefined ==> r == v
  {
    if v.Undefined? then Null else v
  }

  /** The code points `trim` removes: ECMAScript WhiteSpace and LineTerminator. */
  predicate IsJsSpace(c: char) {
    || c == '\t' || c == '\n' || c == '\U{000B}' || c == '\U{000C}' || c == '\r'
    || c == ' ' || c == '\U{00A0}' || c == '\U{1680}'
    || ('\U{2000}' <= c <= '\U{200A}')
    || c == '\U{2028}' || c == '\U{2029}' || c == '\U{202F}' || c == '\U{205F}'
    || c == '\U{3000}' || c == '\U{FEFF}'
  }

  /** `s.trimStart()`: the longest suffix of `s` that does not start with a space. */
  function TrimStart(s: string): (r: string)
    ensures |r| <= |s| && r == s[|s| - |r|..]
    ensures forall i :: 0 <= i < |s| - |r| ==> IsJsSpace(s[i])
    ensures r != [] ==> !IsJsSpace(r[0])
  {
    if s != [] && IsJsSpace(s[0]) then TrimStart(s[1..]) else s
  }

  /** `s.trimEnd()`: the longest prefix of `s` that does not end with a space. */
  function TrimEnd(s: string): (r: string)
    ensures |r| <= |s| && r == s[..|r|]
    ensures forall i :: |r| <= i < |s| ==> IsJsSpace(s[i])
    ensures r != [] ==> !IsJsSpace(r[|r| - 1])
  {
    if s != [] && IsJsSpace(s[|s| - 1]) then TrimEnd(s[..|s| - 1]) else s
  }

  /** `s.trim()` */
  function Trim(s: string): string {
    TrimEnd(TrimStart(s))
  }

  /** `s.trim().length === 0` */
  predicate IsBlank(s: string) {
    Trim(s) == ""
  }

  /** A string is blank exactly when every character of it is a space. */
  lemma BlankIffAllSpaces(s: string)
    ensures IsBlank(s) <==> forall i :: 0 <= i < |s| ==> IsJsSpace(s[i])
  {
    var t := TrimStart(s);
    var off := |s| - |t|;
    if !IsBlank(s) {
      assert t != [] && t[0] == s[off];
    }
  }

  /** Whether `String(v)` is blank after trimming, for a value that is not
      nullish: the spelling of a boolean or a number is never blank. */
  predicate TextBlank(v: Value) {
    match v
    case Str(s) => IsBlank(s)
    case Obj(t) => IsBlank(t)
    case _ => false
  }

  /** `String(v ?? "").trim().length > 0`: the value names something. */
  predicate HasText(v: Value) {
    !v.Undefined? && !v.Null? && !TextBlank(v)
  }

  /** `s.startsWith(p)` */
  predicate StartsWith(s: string, p: string) {
    |p| <= |s| && s[..|p|] == p
  }

  function LowerChar(c: char): char {
    if 'A' <= c <= 'Z' then (c as int - 'A' as int + 'a' as int) as char else c
  }

  /** `s.toLowerCase()` on the ASCII letters. The only characters outside
      ASCII whose lower case holds an ASCII letter are U+212A (to 'k', a
      letter no type tag contains) and U+0130 (to 'i' followed by the
      non-ASCII U+0307), so for comparing against the lower-case ASCII type
      tags this is the same as the full Unicode mapping. */
  function LowerAscii(s: string): (r: string)
    ensures |r| == |s|
    ensures forall i :: 0 <= i < |s| ==> !('A' <= r[i] <= 'Z')
  {
    if s == [] then [] else [LowerChar(s[0])] + LowerAscii(s[1..])
  }

  /** Lower-casing maps each character on its own: an upper-case ASCII
      letter becomes its lower-case letter and every other character is
      kept. */
  lemma {:induction false} LowerAsciiChars(s: string)
    ensures |LowerAscii(s)| == |s|
    ensures forall i :: 0 <= i < |s| ==> LowerAscii(s)[i] == LowerChar(s[i])
  {
    if s != [] {
      LowerAsciiChars(s[1..]);
      assert forall i :: 0 < i < |s| ==> LowerAscii(s)[i] == LowerAscii(s[1..])[i - 1];
    }
  }

  /** A string with no upper-case ASCII letter is its own lower case. */
  lemma {:induction false} LowerAsciiOfLower(s: string)
    requires forall i :: 0 <= i < |s| ==> !('A' <= s[i] <= 'Z')
    ensures LowerAscii(s) == s
  {
    if s != [] {
      LowerAsciiOfLower(s[1..]);
    }
  }

  /** Lower-casing twice is lower-casing once. */
  lemma {:induction false} LowerAsciiIdempotent(s: string)
    ensures LowerAscii(LowerAscii(s)) == LowerAscii(s)
  {
    if s != [] {
      LowerAsciiIdempotent(s[1..]);
      assert LowerAscii(s)[1..] == LowerAscii(s[1..]);
    }
  }
}
