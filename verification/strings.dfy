/**
 * The JavaScript string operations the dashboard relies on, over `seq<char>`:
 * `trim`, `includes`, `startsWith`, `split` on one separator character,
 * `join`, and the digit filter `replace(/\D/g, '')`.
 * A `char` here stands for one UTF-16 code unit of a JavaScript string.
 */
module Strings {

  /** ECMAScript WhiteSpace and LineTerminator code points: what `trim` removes. */
  predicate IsWhitespace(c: char) {
    || c == '\t' || c == '\n' || c == '\r' || c == ' '
    || c == '\U{000B}' || c == '\U{000C}' || c == '\U{00A0}' || c == '\U{1680}'
    || ('\U{2000}' <= c <= '\U{200A}')
    || c == '\U{2028}' || c == '\U{2029}' || c == '\U{202F}' || c == '\U{205F}'
    || c == '\U{3000}' || c == '\U{FEFF}'
  }

  /** `[0-9]`, the class `\d` of a JavaScript regular expression without the `u` flag. */
  predicate IsDigit(c: char) {
    '0' <= c <= '9'
  }

  /** The first index at or after `i` whose character is not whitespace, or `|s|`. */
  function SkipWhitespace(s: string, i: nat): (k: nat)
    requires i <= |s|
    ensures i <= k <= |s|
    ensures forall j :: i <= j < k ==> IsWhitespace(s[j])
    ensures k < |s| ==> !IsWhitespace(s[k])
    decreases |s| - i
  {
    if i < |s| && IsWhitespace(s[i]) then SkipWhitespace(s, i + 1) else i
  }

  /** The index just past the last character of `s[lo..j]` that is not whitespace, or `lo`. */
  function BackWhitespace(s: string, lo: nat, j: nat): (k: nat)
    requires lo <= j <= |s|
    ensures lo <= k <= j
    ensures forall m :: k <= m < j ==> IsWhitespace(s[m])
    ensures k > lo ==> !IsWhitespace(s[k - 1])
    decreases j
  {
    if j > lo && IsWhitespace(s[j - 1]) then BackWhitespace(s, lo, j - 1) else j
  }

  /** `r` occurs in `s` starting at index `k`. */
  predicate OccursAt(s: string, r: string, k: int) {
    0 <= k <= |s| - |r| && s[k..k + |r|] == r
  }

  /** All characters of `s` are whitespace. */
  predicate Blank(s: string) {
    forall i :: 0 <= i < |s| ==> IsWhitespace(s[i])
  }

  /** `String.prototype.trim`: the slice of `s` left once surrounding whitespace is removed. */
  function Trim(s: string): (r: string)
    ensures r != [] ==> !IsWhitespace(r[0]) && !IsWhitespace(r[|r| - 1])
    ensures OccursAt(s, r, SkipWhitespace(s, 0))
    ensures r == [] <==> Blank(s)
  {
    var a := SkipWhitespace(s, 0);
    var b := BackWhitespace(s, a, |s|);
    s[a..b]
  }

  /** Trimming finds the one slice between whitespace margins that starts and ends with a non-whitespace character. */
  lemma TrimOf(s: string, front: string, r: string, back: string)
    requires s == front + r + back && Blank(front) && Blank(back)
    requires r == [] || (!IsWhitespace(r[0]) && !IsWhitespace(r[|r| - 1]))
    ensures Trim(s) == r
  {
    if r != [] {
      var a := SkipWhitespace(s, 0);
      assert s[|front|] == r[0];
      forall j | 0 <= j < |front| ensures IsWhitespace(s[j]) {
        assert s[j] == front[j];
      }
      assert a == |front|;
      var b := BackWhitespace(s, a, |s|);
      var e := |front| + |r|;
      assert s[e - 1] == r[|r| - 1];
      forall m | e <= m < |s| ensures IsWhitespace(s[m]) {
        assert s[m] == back[m - e];
      }
      assert b == e;
      assert s[a..b] == r;
    } else {
      assert Blank(s) by {
        forall i | 0 <= i < |s| ensures IsWhitespace(s[i]) {
          if i < |front| {
            assert s[i] == front[i];
          } else {
            assert s[i] == back[i - |front|];
          }
        }
      }
    }
  }

  /** A string with no whitespace at either end is its own trim. */
  lemma TrimTrimmed(s: string)
    requires s == [] || (!IsWhitespace(s[0]) && !IsWhitespace(s[|s| - 1]))
    ensures Trim(s) == s
  {
    TrimOf(s, "", s, "");
  }

  /** Trimming twice is trimming once. */
  lemma TrimIdempotent(s: string)
    ensures Trim(Trim(s)) == Trim(s)
  {
    TrimTrimmed(Trim(s));
  }

  /** Whitespace added at the front does not change the trim. */
  lemma TrimLeadingSpace(t: string)
    ensures Trim(" " + t) == Trim(t)
  {
    var a := SkipWhitespace(t, 0);
    var b := BackWhitespace(t, a, |t|);
    TrimMargins(t);
    BlankCons(t[..a]);
    SpaceFront(t, a, b);
    TrimOf(" " + t, " " + t[..a], t[a..b], t[b..]);
  }

  /** What the two scans cut off a string are whitespace margins around its trim. */
  lemma TrimMargins(t: string)
    ensures var a := SkipWhitespace(t, 0);
      Blank(t[..a]) && Blank(t[BackWhitespace(t, a, |t|)..]) && Trim(t) == t[a..BackWhitespace(t, a, |t|)]
  {
    var a := SkipWhitespace(t, 0);
    var b := BackWhitespace(t, a, |t|);
    forall i | 0 <= i < a ensures IsWhitespace(t[..a][i]) {
      assert t[..a][i] == t[i];
    }
    forall i | 0 <= i < |t| - b ensures IsWhitespace(t[b..][i]) {
      assert t[b..][i] == t[b + i];
    }
  }

  lemma BlankCons(front: string)
    requires Blank(front)
    ensures Blank(" " + front)
  {
    forall i | 0 <= i < |front| + 1 ensures IsWhitespace((" " + front)[i]) {
      if i > 0 {
        assert (" " + front)[i] == front[i - 1];
      }
    }
  }

  lemma SpaceFront(t: string, a: nat, b: nat)
    requires a <= b <= |t|
    ensures " " + t == (" " + t[..a]) + t[a..b] + t[b..]
  {
    assert t == t[..a] + t[a..b] + t[b..];
  }

  /** Trimming adds no character. */
  lemma TrimKeepsOut(s: string, c: char)
    ensures c !in s ==> c !in Trim(s)
  {
    var r := Trim(s);
    var k := SkipWhitespace(s, 0);
    if c in r {
      var i :| 0 <= i < |r| && r[i] == c;
      assert s[k + i] == r[i];
    }
  }

  /** `s.startsWith(p)`. */
  predicate StartsWith(s: string, p: string) {
    |p| <= |s| && s[..|p|] == p
  }

  /** `s.includes(t)`. */
  predicate Contains(s: string, t: string)
    decreases |s|
  {
    StartsWith(s, t) || (s != [] && Contains(s[1..], t))
  }

  /** `includes` holds exactly when `t` occurs at some index of `s`. */
  lemma {:induction false} ContainsIff(s: string, t: string)
    ensures Contains(s, t) <==> exists i :: OccursAt(s, t, i)
    decreases |s|
  {
    if s != [] {
      ContainsIff(s[1..], t);
      if Contains(s[1..], t) {
        var i :| OccursAt(s[1..], t, i);
        assert OccursAt(s, t, i + 1);
      }
      if exists i :: OccursAt(s, t, i) {
        var i :| OccursAt(s, t, i);
        if i > 0 {
          assert OccursAt(s[1..], t, i - 1);
        }
      }
    }
    if StartsWith(s, t) {
      assert OccursAt(s, t, 0);
    }
    if s == [] && exists i :: OccursAt(s, t, i) {
      var i :| OccursAt(s, t, i);
      assert StartsWith(s, t);
    }
  }

  /** `parts.join(sep)`. */
  function Join(parts: seq<string>, sep: string): string
    decreases |parts|
  {
    if |parts| == 0 then ""
    else if |parts| == 1 then parts[0]
    else parts[0] + sep + Join(parts[1..], sep)
  }

  /** `s.split(sep)` for a one-character separator: never empty, `""` gives `[""]`. */
  function Split(s: string, sep: char): (r: seq<string>)
    ensures |r| >= 1
    ensures forall k :: 0 <= k < |r| ==> sep !in r[k]
    decreases |s|
  {
    if s == [] then [""]
    else
      var rest := Split(s[1..], sep);
      if s[0] == sep then [""] + rest
      else [[s[0]] + rest[0]] + rest[1..]
  }

  /** Joining the pieces of a split with the separator gives back the string. */
  lemma {:induction false} JoinSplit(s: string, sep: char)
    ensures Join(Split(s, sep), [sep]) == s
    decreases |s|
  {
    if s != [] {
      var rest := Split(s[1..], sep);
      JoinSplit(s[1..], sep);
      if s[0] == sep {
        assert Split(s, sep)[1..] == rest;
      } else {
        var r := Split(s, sep);
        if |rest| == 1 {
          assert r == [[s[0]] + rest[0]];
        } else {
          assert r[1..] == rest[1..];
          assert Join(rest, [sep]) == rest[0] + [sep] + Join(rest[1..], [sep]);
        }
      }
    }
  }

  /** Splitting a join of separator-free pieces gives back the pieces. */
  lemma {:induction false} SplitJoin(parts: seq<string>, sep: char)
    requires |parts| >= 1
    requires forall k :: 0 <= k < |parts| ==> sep !in parts[k]
    ensures Split(Join(parts, [sep]), sep) == parts
    decreases |parts|, |parts[0]|
  {
    var p := parts[0];
    if p == [] {
      if |parts| > 1 {
        assert Join(parts, [sep]) == [sep] + Join(parts[1..], [sep]);
        SplitJoin(parts[1..], sep);
        assert ([sep] + Join(parts[1..], [sep]))[1..] == Join(parts[1..], [sep]);
      }
    } else {
      var tail := [p[1..]] + parts[1..];
      assert tail[1..] == parts[1..];
      assert Join(parts, [sep]) == [p[0]] + Join(tail, [sep]) by {
        if |parts| == 1 {
        } else {
          assert Join(tail, [sep]) == p[1..] + [sep] + Join(parts[1..], [sep]);
        }
      }
      assert p == [p[0]] + p[1..];
      assert sep !in p[1..];
      SplitJoin(tail, sep);
      assert (Join(parts, [sep]))[1..] == Join(tail, [sep]);
      assert (Join(parts, [sep]))[0] == p[0];
    }
  }

  /** `s.replace(/\D/g, '')`: the decimal digits of `s`, in order. */
  function Digits(s: string): (r: string)
    ensures |r| <= |s|
    ensures forall i :: 0 <= i < |r| ==> IsDigit(r[i])
    decreases |s|
  {
    if s == [] then ""
    else if IsDigit(s[0]) then [s[0]] + Digits(s[1..])
    else Digits(s[1..])
  }

  /** The filter works character by character: the digits of a concatenation are the two parts' digits, in order. */
  lemma {:induction false} DigitsAppend(a: string, b: string)
    ensures Digits(a + b) == Digits(a) + Digits(b)
    decreases |a|
  {
    if a != [] {
      assert (a + b)[0] == a[0];
      assert (a + b)[1..] == a[1..] + b;
      DigitsAppend(a[1..], b);
    } else {
      assert a + b == b;
    }
  }

  /** One character is kept when it is a digit and removed otherwise. */
  lemma DigitsOne(c: char)
    ensures Digits([c]) == (if IsDigit(c) then [c] else [])
  {
    assert [c][1..] == [];
  }

  /** A character survives the filter exactly when it is a digit of the input. */
  lemma {:induction false} DigitsMembers(s: string, c: char)
    ensures c in Digits(s) <==> IsDigit(c) && c in s
    decreases |s|
  {
    if s != [] {
      DigitsMembers(s[1..], c);
      assert s == [s[0]] + s[1..];
    }
  }

  /** The digit filter keeps every digit it meets, so a string of digits is its own image. */
  lemma {:induction false} DigitsOfDigits(s: string)
    requires forall i :: 0 <= i < |s| ==> IsDigit(s[i])
    ensures Digits(s) == s
    decreases |s|
  {
    if s != [] {
      DigitsOfDigits(s[1..]);
    }
  }
}
