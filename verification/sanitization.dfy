/**
 * Input sanitising and validation (src/utils/sanitization.ts): trimming and
 * HTML-entity escaping of user input, the email, password and one-time-code
 * checks, and the field-by-field sanitiser applied to request bodies.
 * The `validator` library's `isEmail` and `isNumeric` are parameters.
 */
module Sanitization {
  import opened Wrappers
  import opened Strings
  import opened Json

  /** The characters the sanitiser replaces with HTML entities. */
  predicate IsSpecial(c: char) {
    c == '<' || c == '>' || c == '"' || c == '\'' || c == '&'
  }

  /** The entity that replaces one character; every other character stands for itself. */
  function Entity(c: char): (r: string)
    ensures IsSpecial(c) ==> |r| >= 4 && r[0] == '&'
    ensures !IsSpecial(c) ==> r == [c]
  {
    match c
    case '<' => "&lt;"
    case '>' => "&gt;"
    case '"' => "&quot;"
    case '\'' => "&#x27;"
    case '&' => "&amp;"
    case _ => [c]
  }

  /** `s.replace(/[<>"'&]/g, ...)`: each character replaced by its entity, left to right. */
  function EscapeHtml(s: string): (r: string)
    ensures |r| >= |s|
    ensures forall i :: 0 <= i < |r| ==> r[i] != '<' && r[i] != '>' && r[i] != '"' && r[i] != '\''
    decreases |s|
  {
    if s == [] then "" else Entity(s[0]) + EscapeHtml(s[1..])
  }

  /** `sanitizeInput`: trim, then escape. */
  function SanitizeInput(input: string): string {
    EscapeHtml(Trim(input))
  }

  /** Decoding of the five entities the sanitiser produces; the partner used to state that escaping loses nothing. */
  function Unescape(s: string): string
    decreases |s|
  {
    if s == [] then ""
    else if StartsWith(s, "&lt;") then "<" + Unescape(s[4..])
    else if StartsWith(s, "&gt;") then ">" + Unescape(s[4..])
    else if StartsWith(s, "&quot;") then "\"" + Unescape(s[6..])
    else if StartsWith(s, "&#x27;") then "'" + Unescape(s[6..])
    else if StartsWith(s, "&amp;") then "&" + Unescape(s[5..])
    else [s[0]] + Unescape(s[1..])
  }

  /** Decoding one entity that stands at the front of `e`, given its second character. */
  lemma UnescapeFront(e: string, entity: string, c: char, t: string)
    requires entity in {"&lt;", "&gt;", "&quot;", "&#x27;", "&amp;"}
    requires e == entity + t
    requires c == (if entity == "&lt;" then '<' else if entity == "&gt;" then '>'
                   else if entity == "&quot;" then '"' else if entity == "&#x27;" then '\'' else '&')
    ensures Unescape(e) == [c] + Unescape(t)
  {
    assert e[..|entity|] == entity && e[|entity|..] == t;
    assert e[1] == entity[1];
    assert e[0] == '&';
  }

  lemma UnescapeEntity(c: char, t: string)
    ensures Unescape(Entity(c) + t) == [c] + Unescape(t)
  {
    match c
    case '<' => UnescapeFront("&lt;" + t, "&lt;", c, t);
    case '>' => UnescapeFront("&gt;" + t, "&gt;", c, t);
    case '"' => UnescapeFront("&quot;" + t, "&quot;", c, t);
    case '\'' => UnescapeFront("&#x27;" + t, "&#x27;", c, t);
    case '&' => UnescapeFront("&amp;" + t, "&amp;", c, t);
    case _ =>
      var e := [c] + t;
      assert e[0] == c && e[1..] == t;
      assert !StartsWith(e, "&lt;") && !StartsWith(e, "&gt;") && !StartsWith(e, "&quot;");
      assert !StartsWith(e, "&#x27;") && !StartsWith(e, "&amp;");
  }

  /** Escaping is lossless: decoding the escaped text gives back the original. */
  lemma {:induction false} UnescapeEscapeHtml(s: string)
    ensures Unescape(EscapeHtml(s)) == s
    decreases |s|
  {
    if s != [] {
      UnescapeEntity(s[0], EscapeHtml(s[1..]));
      UnescapeEscapeHtml(s[1..]);
    }
  }

  /** What `sanitizeInput` keeps of its input is exactly the trimmed text. */
  lemma SanitizeInputDecodes(input: string)
    ensures Unescape(SanitizeInput(input)) == Trim(input)
  {
    UnescapeEscapeHtml(Trim(input));
  }

  /** Text with none of the five characters is left as it is. */
  lemma {:induction false} EscapeHtmlPlain(s: string)
    requires forall i :: 0 <= i < |s| ==> !IsSpecial(s[i])
    ensures EscapeHtml(s) == s
    decreases |s|
  {
    if s != [] {
      EscapeHtmlPlain(s[1..]);
    }
  }

  /** The sanitised text never carries a raw `<`, `>`, `"` or `'`, and is never shorter than the trimmed input. */
  lemma SanitizeInputSafe(input: string)
    ensures var r := SanitizeInput(input);
      && |r| >= |Trim(input)|
      && forall i :: 0 <= i < |r| ==> r[i] !in {'<', '>', '"', '\''}
  {
  }

  /** Escaping makes text longer by at least three characters for each special character it holds; one is enough here. */
  lemma {:induction false} EscapeHtmlGrows(s: string, i: nat)
    requires i < |s| && IsSpecial(s[i])
    ensures |EscapeHtml(s)| >= |s| + 3
    decreases |s|
  {
    if i > 0 {
      EscapeHtmlGrows(s[1..], i - 1);
    }
  }

  /** Escaping lengthens text at most six times over, the length of the longest entity. */
  lemma {:induction false} EscapeHtmlBound(s: string)
    ensures |EscapeHtml(s)| <= 6 * |s|
    decreases |s|
  {
    if s != [] {
      EscapeHtmlBound(s[1..]);
      assert |Entity(s[0])| <= 6;
    }
  }

  /** Two inputs sanitise to the same text exactly when they agree once trimmed. */
  lemma SanitizeInputSame(a: string, b: string)
    ensures SanitizeInput(a) == SanitizeInput(b) <==> Trim(a) == Trim(b)
  {
    SanitizeInputDecodes(a);
    SanitizeInputDecodes(b);
  }

  /** `validateEmail`: the library verdict, and at most 254 characters. */
  function ValidateEmail(email: string, isEmail: string -> bool): (ok: bool)
    ensures |email| > 254 ==> !ok
    ensures ok ==> isEmail(email)
    ensures isEmail(email) && |email| <= 254 ==> ok
  {
    isEmail(email) && |email| <= 254
  }

  const PasswordTooShort := "Password must be at least 8 characters long"
  const PasswordTooLong := "Password must be less than 128 characters"

  datatype PasswordCheck = PasswordCheck(isValid: bool, message: Option<string>)

  /** `validatePassword`: the length bounds, with the message for the bound that fails. */
  function ValidatePassword(password: string): (r: PasswordCheck)
    ensures r.isValid <==> 8 <= |password| <= 128
    ensures r.isValid <==> r.message.None?
    ensures |password| < 8 ==> r.message == Some(PasswordTooShort)
    ensures |password| > 128 ==> r.message == Some(PasswordTooLong)
  {
    if |password| < 8 then PasswordCheck(false, Some(PasswordTooShort))
    else if |password| > 128 then PasswordCheck(false, Some(PasswordTooLong))
    else PasswordCheck(true, None)
  }

  /** `validateOTP`: the library says numeric, and exactly six characters. */
  function ValidateOtp(otp: string, isNumeric: string -> bool): (ok: bool)
    ensures ok ==> |otp| == 6 && isNumeric(otp)
    ensures |otp| == 6 && isNumeric(otp) ==> ok
  {
    isNumeric(otp) && |otp| == 6
  }

  /** One value of a form: strings are sanitised, everything else (arrays, numbers, ...) passes through. */
  function SanitizeValue(v: Json): Json {
    if v.JStr? then JStr(SanitizeInput(v.s)) else v
  }

  /** The object `sanitizeFormData` builds: the same keys in the same order, each value through `SanitizeValue`. */
  function SanitizeFields(data: seq<(string, Json)>): (r: seq<(string, Json)>)
    ensures |r| == |data|
    ensures forall i :: 0 <= i < |data| ==> r[i].0 == data[i].0
    ensures forall i :: 0 <= i < |data| ==>
      r[i].1 == (if data[i].1.JStr? then JStr(SanitizeInput(data[i].1.s)) else data[i].1)
    decreases |data|
  {
    if data == [] then []
    else [(data[0].0, SanitizeValue(data[0].1))] + SanitizeFields(data[1..])
  }

  /** Reading a key of the sanitised object reads the sanitised value of that key. */
  lemma {:induction false} LookupSanitized(data: seq<(string, Json)>, key: string)
    ensures Lookup(SanitizeFields(data), key) ==
      (if Lookup(data, key).Some? then Some(SanitizeValue(Lookup(data, key).value)) else None)
    decreases |data|
  {
    if data != [] {
      LookupSanitized(data[1..], key);
      assert SanitizeFields(data)[1..] == SanitizeFields(data[1..]);
    }
  }

  /** The sanitised object has exactly the keys of the input. */
  lemma SanitizeKeys(data: seq<(string, Json)>)
    ensures Keys(SanitizeFields(data)) == Keys(data)
  {
  }

  /** `sanitizeFormData`: a fresh object filled key by key in one pass over the entries. */
  method SanitizeFormData(data: seq<(string, Json)>) returns (sanitized: seq<(string, Json)>)
    ensures sanitized == SanitizeFields(data)
  {
    sanitized := [];
    var i := 0;
    while i < |data|
      invariant 0 <= i <= |data|
      invariant |sanitized| == i
      invariant forall j :: 0 <= j < i ==> sanitized[j] == (data[j].0, SanitizeValue(data[j].1))
    {
      var (key, value) := data[i];
      if value.JStr? {
        sanitized := sanitized + [(key, JStr(SanitizeInput(value.s)))];
      } else {
        sanitized := sanitized + [(key, value)];
      }
      i := i + 1;
    }
  }
}
