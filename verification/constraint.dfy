/**
 * The constraint-name capture of src/utils/error-utils.ts: the first match of
 * the regular expression `constraint "(\w+)_(\w+)_key"` in a database error
 * message, with JavaScript's backtracking semantics (leftmost start, then the
 * longest first group). `MatchAt` states declaratively when the pattern matches
 * at a position with given groups; `FirstMatch` computes the match the regular
 * expression engine reports, and its contract says it is that match.
 */
module ConstraintPattern {
  import opened Wrappers
  import opened Strings

  /** `\w` without the `u` flag: `[A-Za-z0-9_]`. */
  predicate IsWord(c: char) {
    ('a' <= c <= 'z') || ('A' <= c <= 'Z') || ('0' <= c <= '9') || c == '_'
  }

  predicate AllWord(s: string) {
    forall k :: 0 <= k < |s| ==> IsWord(s[k])
  }

  /** The literal text in front of the first group. */
  const Opening: string := "constraint \""
  /** The literal text after the second group. */
  const Closing: string := "_key\""

  /** The text the pattern matches when its groups capture `g1` and `g2`. */
  function Matched(g1: string, g2: string): string {
    Opening + g1 + "_" + g2 + Closing
  }

  /** The pattern matches at index `i` of `msg` with first group `g1` and second group `g2`. */
  predicate MatchAt(msg: string, i: int, g1: string, g2: string) {
    |g1| >= 1 && |g2| >= 1 && AllWord(g1) && AllWord(g2) && OccursAt(msg, Matched(g1, g2), i)
  }

  /** A match the engine reports: where it starts and what the two groups captured. */
  datatype Capture = Capture(start: nat, g1: string, g2: string)

  /** The length of the longest run of word characters of `s` starting at `j`. */
  function WordRun(s: string, j: nat): (n: nat)
    requires j <= |s|
    ensures j + n <= |s|
    ensures forall k :: j <= k < j + n ==> IsWord(s[k])
    ensures j + n < |s| ==> !IsWord(s[j + n])
    decreases |s| - j
  {
    if j < |s| && IsWord(s[j]) then 1 + WordRun(s, j + 1) else 0
  }

  /** A run of `n` word characters ended by a non-word character is the longest run. */
  lemma {:induction false} WordRunExact(s: string, j: nat, n: nat)
    requires j + n < |s|
    requires forall k :: j <= k < j + n ==> IsWord(s[k])
    requires !IsWord(s[j + n])
    ensures WordRun(s, j) == n
    decreases n
  {
    if n > 0 {
      WordRunExact(s, j + 1, n - 1);
    }
  }

  /**
   * Where the greedy first group ends: the last `_` of `v` that leaves at least
   * one character on each side, searched from index `hi` downwards.
   */
  function LastSplit(v: string, hi: int): (p: Option<nat>)
    requires hi <= |v| - 2
    ensures p.Some? ==> 1 <= p.value <= hi && v[p.value] == '_'
    ensures p.Some? ==> forall q :: p.value < q <= hi ==> v[q] != '_'
    ensures p.None? ==> forall q :: 1 <= q <= hi ==> v[q] != '_'
    decreases hi
  {
    if hi < 1 then None
    else if v[hi] == '_' then Some(hi)
    else LastSplit(v, hi - 1)
  }

  /** The match of the pattern at index `i`, if there is one, with the longest first group. */
  function MatchFrom(msg: string, i: nat): Option<Capture> {
    if !OccursAt(msg, Opening, i) then None
    else
      var j := i + |Opening|;
      var n := WordRun(msg, j);
      if j + n >= |msg| || msg[j + n] != '"' || n < 7 || msg[j + n - 4..j + n] != "_key" then None
      else
        var v := msg[j..j + n - 4];
        match LastSplit(v, |v| - 2)
        case None => None
        case Some(p) => Some(Capture(i, v[..p], v[p + 1..]))
  }

  /** A reported match at `i` is a match. */
  lemma MatchFromSound(msg: string, i: nat)
    requires MatchFrom(msg, i).Some?
    ensures var c := MatchFrom(msg, i).value;
      c.start == i && MatchAt(msg, i, c.g1, c.g2)
  {
    var j := i + |Opening|;
    var n := WordRun(msg, j);
    var v := msg[j..j + n - 4];
    var p := LastSplit(v, |v| - 2).value;
    RunMatches(msg, i, n, p);
  }

  /** A word run after the opening text, ended by `_key"` and split at an inner `_`, is a match. */
  lemma RunMatches(msg: string, i: nat, n: nat, p: nat)
    requires OccursAt(msg, Opening, i)
    requires i + |Opening| + n < |msg| && msg[i + |Opening| + n] == '"' && n >= 7
    requires forall k :: i + |Opening| <= k < i + |Opening| + n ==> IsWord(msg[k])
    requires msg[i + |Opening| + n - 4..i + |Opening| + n] == "_key"
    requires 1 <= p <= n - 6 && msg[i + |Opening| + p] == '_'
    ensures var v := msg[i + |Opening|..i + |Opening| + n - 4];
      MatchAt(msg, i, v[..p], v[p + 1..])
  {
    var j := i + |Opening|;
    var v := msg[j..j + n - 4];
    var g1, g2 := v[..p], v[p + 1..];
    WordSlice(msg, j, j + p, j + n);
    WordSlice(msg, j + p + 1, j + n - 4, j + n);
    assert g1 == msg[j..j + p];
    assert g2 == msg[j + p + 1..j + n - 4];
    assert v == g1 + "_" + g2;
    assert Matched(g1, g2) == Opening + v + Closing;
    SliceSplit(msg, i, j, j + n - 4, j + n + 1);
    assert msg[j + n - 4..j + n + 1] == Closing;
  }

  /** A slice of a word run is all word characters. */
  lemma WordSlice(s: string, a: nat, b: nat, e: nat)
    requires a <= b <= e <= |s|
    requires forall k :: a <= k < e ==> IsWord(s[k])
    ensures AllWord(s[a..b])
  {
  }

  lemma SliceSplit(s: string, a: nat, b: nat, c: nat, d: nat)
    requires a <= b <= c <= d <= |s|
    ensures s[a..d] == s[a..b] + s[b..c] + s[c..d]
  {
  }

  /** A match at `i` is found at `i`, and its first group is no longer than the one reported. */
  lemma MatchFromComplete(msg: string, i: nat, g1: string, g2: string)
    requires MatchAt(msg, i, g1, g2)
    ensures MatchFrom(msg, i).Some?
    ensures |g1| <= |MatchFrom(msg, i).value.g1|
  {
    var v := g1 + "_" + g2;
    RunOfMatch(msg, i, g1, g2);
    assert v[|g1|] == '_';
    var r := LastSplit(v, |v| - 2);
    assert r.Some? && r.value >= |g1|;
  }

  /** Behind the opening text of a match, the word run is both groups, the `_` between them and `_key`, ended by `"`. */
  lemma RunOfMatch(msg: string, i: nat, g1: string, g2: string)
    requires MatchAt(msg, i, g1, g2)
    ensures var j := i + |Opening|; var n := |g1| + |g2| + 5;
      && OccursAt(msg, Opening, i)
      && WordRun(msg, j) == n && j + n < |msg| && msg[j + n] == '"'
      && msg[j + n - 4..j + n] == "_key" && msg[j..j + n - 4] == g1 + "_" + g2
  {
    ClosingOfMatch(msg, i, g1, g2);
    WordsOfMatch(msg, i, g1, g2);
    WordRunExact(msg, i + |Opening|, |g1| + |g2| + 5);
  }

  /** A match's groups are followed by `_key` and then `"`. */
  lemma ClosingOfMatch(msg: string, i: nat, g1: string, g2: string)
    requires MatchAt(msg, i, g1, g2)
    ensures var j := i + |Opening|; var e := j + |g1| + 1 + |g2|;
      && OccursAt(msg, Opening, i) && e + 4 < |msg|
      && msg[j..e] == g1 + "_" + g2 && msg[e..e + 4] == "_key" && msg[e + 4] == '"'
  {
    var e := i + |Opening| + |g1| + 1 + |g2|;
    MatchPieces(msg, i, g1, g2);
    assert msg[e..e + 5] == Closing;
    assert msg[e..e + 4] == Closing[..4];
    assert msg[e + 4] == Closing[4];
  }

  /** From the end of the opening text up to the closing `"`, a match holds only word characters. */
  lemma WordsOfMatch(msg: string, i: nat, g1: string, g2: string)
    requires MatchAt(msg, i, g1, g2)
    ensures var j := i + |Opening|; var e := j + |g1| + 1 + |g2|;
      e + 4 <= |msg| && forall k :: j <= k < e + 4 ==> IsWord(msg[k])
  {
    var j := i + |Opening|;
    var v := g1 + "_" + g2;
    var e := j + |v|;
    MatchPieces(msg, i, g1, g2);
    forall k | j <= k < e + 4
      ensures IsWord(msg[k])
    {
      if k < e {
        assert msg[k] == msg[j..e][k - j] == v[k - j];
        VWord(g1, g2, k - j);
      } else {
        assert msg[k] == msg[e..e + |Closing|][k - e] == Closing[k - e];
      }
    }
  }

  /** The three pieces of a match: the opening text, the two groups around `_`, the closing text. */
  lemma MatchPieces(msg: string, i: nat, g1: string, g2: string)
    requires MatchAt(msg, i, g1, g2)
    ensures var j := i + |Opening|; var e := j + |g1| + 1 + |g2|;
      && e + |Closing| <= |msg|
      && OccursAt(msg, Opening, i)
      && msg[j..e] == g1 + "_" + g2
      && msg[e..e + |Closing|] == Closing
  {
    var j := i + |Opening|;
    var v := g1 + "_" + g2;
    var e := j + |v|;
    var m := Matched(g1, g2);
    assert m == Opening + v + Closing;
    assert msg[i..e + |Closing|] == m;
    SliceSplit(msg, i, j, e, e + |Closing|);
    assert msg[i..j] == m[..|Opening|];
    assert msg[j..e] == m[|Opening|..|Opening| + |v|];
    assert msg[e..e + |Closing|] == m[|Opening| + |v|..];
  }

  lemma VWord(g1: string, g2: string, d: nat)
    requires AllWord(g1) && AllWord(g2) && d < |g1| + 1 + |g2|
    ensures IsWord((g1 + "_" + g2)[d])
  {
    if d < |g1| {
      assert (g1 + "_" + g2)[d] == g1[d];
    } else if d > |g1| {
      assert (g1 + "_" + g2)[d] == g2[d - |g1| - 1];
    }
  }

  /** The match the engine reports when it starts looking at index `from`. */
  function FirstMatch(msg: string, from: nat): (r: Option<Capture>)
    ensures r.Some? ==> from <= r.value.start && MatchAt(msg, r.value.start, r.value.g1, r.value.g2)
    ensures r.Some? ==> forall k, g1, g2 :: from <= k < r.value.start ==> !MatchAt(msg, k, g1, g2)
    ensures r.Some? ==> forall g1, g2 :: MatchAt(msg, r.value.start, g1, g2) ==> |g1| <= |r.value.g1|
    ensures r.None? ==> forall k, g1, g2 :: from <= k ==> !MatchAt(msg, k, g1, g2)
    decreases |msg| - from
  {
    if from + |Opening| > |msg| then
      NoMatchBeyond(msg, from);
      None
    else
      var here := MatchFrom(msg, from);
      HereFacts(msg, from);
      if here.Some? then here else FirstMatch(msg, from + 1)
  }

  lemma NoMatchBeyond(msg: string, from: nat)
    requires from + |Opening| > |msg|
    ensures forall k, g1, g2 :: from <= k ==> !MatchAt(msg, k, g1, g2)
  {
  }

  lemma HereFacts(msg: string, i: nat)
    ensures MatchFrom(msg, i).Some? ==>
      MatchFrom(msg, i).value.start == i
      && MatchAt(msg, i, MatchFrom(msg, i).value.g1, MatchFrom(msg, i).value.g2)
    ensures MatchFrom(msg, i).Some? ==>
      forall g1, g2 :: MatchAt(msg, i, g1, g2) ==> |g1| <= |MatchFrom(msg, i).value.g1|
    ensures MatchFrom(msg, i).None? ==> forall g1, g2 :: !MatchAt(msg, i, g1, g2)
  {
    if MatchFrom(msg, i).Some? {
      MatchFromSound(msg, i);
    }
    forall g1, g2 | MatchAt(msg, i, g1, g2)
      ensures MatchFrom(msg, i).Some? && |g1| <= |MatchFrom(msg, i).value.g1|
    {
      MatchFromComplete(msg, i, g1, g2);
    }
  }

  /** `msg.match(/constraint "(\w+)_(\w+)_key"/)?.[2]`: the second group of the first match. */
  function ConstraintField(msg: string): (f: Option<string>)
    ensures f.Some? <==> exists k, g1, g2 :: MatchAt(msg, k, g1, g2)
    ensures f.Some? ==> exists k, g1 :: MatchAt(msg, k, g1, f.value)
  {
    var r := FirstMatch(msg, 0);
    if r.Some? then Some(r.value.g2) else None
  }

  /** The usual PostgreSQL unique-violation text for the title column of the blog category table. */
  const ExampleLead: string := "duplicate key value violates unique "
  const ExampleName: string := "blog_categories_title_key\""
  const BlogCategoryDuplicate: string := ExampleLead + Opening + ExampleName

  /** The field reported for that text is `title`. */
  lemma BlogCategoryTitle()
    ensures ConstraintField(BlogCategoryDuplicate) == Some("title")
  {
    ExampleNoEarlyMatch();
    ExampleMatch();
    FirstMatchSkips(BlogCategoryDuplicate, 0, 36);
  }

  lemma ExampleNoEarlyMatch()
    ensures forall k :: 0 <= k < 36 ==> MatchFrom(BlogCategoryDuplicate, k).None?
  {
    var msg := BlogCategoryDuplicate;
    assert forall k :: 0 <= k < 36 ==> ExampleLead[k] != '"';
    assert forall k :: 0 <= k < 11 ==> Opening[k] != '"';
    forall k | 0 <= k < 36
      ensures !OccursAt(msg, Opening, k)
    {
      var q := k + 11;
      if q < 36 {
        assert msg[q] == ExampleLead[q];
      } else {
        assert msg[q] == Opening[q - 36];
      }
      assert Opening[11] == '"';
    }
  }

  lemma ExampleMatch()
    ensures MatchFrom(BlogCategoryDuplicate, 36) == Some(Capture(36, "blog_categories", "title"))
  {
    ExampleRun();
    ExampleSplit();
  }

  /** In the example, the opening text sits at 36 and is followed by a run of 25 word characters ending in `_key`, then `"`. */
  lemma ExampleRun()
    ensures var msg := BlogCategoryDuplicate;
      && OccursAt(msg, Opening, 36) && WordRun(msg, 48) == 25 && |msg| > 73 && msg[73] == '"'
      && msg[69..73] == "_key" && msg[48..69] == "blog_categories_title"
  {
    var msg := BlogCategoryDuplicate;
    assert msg[36..48] == Opening;
    ExampleWords();
    assert msg[73] == '"';
    WordRunExact(msg, 48, 25);
    assert msg[69..73] == "_key";
    assert msg[48..69] == "blog_categories_title";
  }

  lemma ExampleWords()
    ensures forall k :: 48 <= k < 73 ==> IsWord(BlogCategoryDuplicate[k])
  {
    var msg := BlogCategoryDuplicate;
    assert forall k :: 0 <= k < 25 ==> IsWord(ExampleName[k]);
    forall k | 48 <= k < 73
      ensures IsWord(msg[k])
    {
      assert msg[k] == ExampleName[k - 48];
    }
  }

  /** The greedy first group of the example's word run stops at its last inner `_`. */
  lemma ExampleSplit()
    ensures var v := "blog_categories_title";
      LastSplit(v, 19) == Some(15) && v[..15] == "blog_categories" && v[16..] == "title"
  {
    var v := "blog_categories_title";
    assert LastSplit(v, 15) == Some(15);
    assert LastSplit(v, 16) == Some(15);
    assert LastSplit(v, 17) == Some(15);
    assert LastSplit(v, 18) == Some(15);
  }

  /** Starting positions that report nothing are skipped. */
  lemma {:induction false} FirstMatchSkips(msg: string, from: nat, i: nat)
    requires from <= i
    requires forall k :: from <= k < i ==> MatchFrom(msg, k).None?
    ensures from + |Opening| <= |msg| && i + |Opening| <= |msg| ==> FirstMatch(msg, from) == FirstMatch(msg, i)
    decreases i - from
  {
    if from < i && from + |Opening| <= |msg| && i + |Opening| <= |msg| {
      FirstMatchSkips(msg, from + 1, i);
    }
  }
}
