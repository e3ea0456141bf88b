/** Whitespace word splitting as Python's `str.split()` with no separator does it:
    the words of a text are its maximal runs of non-whitespace characters, in order
    (`SplitIsRuns`). */
module Words {

  /** The characters `str.split()` treats as whitespace (those for which `str.isspace()`
      holds): the ASCII controls TAB..CR and FS..US, SPACE, NEL, NO-BREAK SPACE, and the
      Unicode space and line/paragraph separators. */
  predicate IsSpace(c: char) {
    || ('\t' <= c <= '\r')
    || ('\U{1C}' <= c <= '\U{1F}')
    || c == ' '
    || c == '\U{85}'
    || c == '\U{A0}'
    || c == '\U{1680}'
    || ('\U{2000}' <= c <= '\U{200A}')
    || c == '\U{2028}'
    || c == '\U{2029}'
    || c == '\U{202F}'
    || c == '\U{205F}'
    || c == '\U{3000}'
  }

  predicate AllSpace(s: string) {
    forall i :: 0 <= i < |s| ==> IsSpace(s[i])
  }

  /** A word: a non-empty string without whitespace. */
  predicate IsWord(w: string) {
    |w| > 0 && forall i :: 0 <= i < |w| ==> !IsSpace(w[i])
  }

  /** The first index at or after `i` that does not hold whitespace (or `|s|`). */
  function SkipSpaces(s: string, i: nat): (k: nat)
    requires i <= |s|
    ensures i <= k <= |s|
    ensures forall p :: i <= p < k ==> IsSpace(s[p])
    ensures k == |s| || !IsSpace(s[k])
    decreases |s| - i
  {
    if i < |s| && IsSpace(s[i]) then SkipSpaces(s, i + 1) else i
  }

  /** The first index at or after `i` that holds whitespace (or `|s|`). */
  function WordEnd(s: string, i: nat): (k: nat)
    requires i <= |s|
    ensures i <= k <= |s|
    ensures forall p :: i <= p < k ==> !IsSpace(s[p])
    ensures k == |s| || IsSpace(s[k])
    decreases |s| - i
  {
    if i < |s| && !IsSpace(s[i]) then WordEnd(s, i + 1) else i
  }

  /** The words of `s[i..]`, scanning left to right: skip whitespace, take the
      longest run of non-whitespace, repeat until the end of the text. */
  function SplitFrom(s: string, i: nat): (words: seq<string>)
    requires i <= |s|
    ensures forall j :: 0 <= j < |words| ==> IsWord(words[j])
    ensures |words| <= |s| - i
    decreases |s| - i
  {
    var k := SkipSpaces(s, i);
    if k == |s| then []
    else
      var e := WordEnd(s, k);
      [s[k..e]] + SplitFrom(s, e)
  }

  /** `text.split()` */
  function Split(s: string): (words: seq<string>)
    ensures forall j :: 0 <= j < |words| ==> IsWord(words[j])
    ensures words == [] <==> AllSpace(s)
  {
    SplitFrom(s, 0)
  }

  /** `len(text.split())` */
  function WordCount(s: string): (n: nat)
    ensures n <= |s|
    ensures n == 0 <==> AllSpace(s)
  {
    |Split(s)|
  }

  // ---------------------------------------------------------------------------
  // Reference definition: the number of maximal runs of non-whitespace characters,
  // counted as the positions where such a run begins.

  /** Position `i` begins a run: it holds a non-whitespace character that is first in
      the text or follows whitespace. */
  predicate IsWordStart(s: string, i: nat)
    requires i < |s|
  {
    !IsSpace(s[i]) && (i == 0 || IsSpace(s[i - 1]))
  }

  /** The number of run beginnings among positions `i` to `j - 1`. */
  function Starts(s: string, i: nat, j: nat): nat
    requires i <= j <= |s|
    decreases j - i
  {
    if i == j then 0 else (if IsWordStart(s, i) then 1 else 0) + Starts(s, i + 1, j)
  }

  function RunCount(s: string): nat {
    Starts(s, 0, |s|)
  }

  /** Whitespace contributes no run beginning. */
  lemma {:induction false} StartsSkipSpaces(s: string, i: nat, j: nat)
    requires i <= j <= |s|
    requires forall p :: i <= p < j ==> IsSpace(s[p])
    ensures Starts(s, i, |s|) == Starts(s, j, |s|)
    decreases j - i
  {
    if i < j {
      StartsSkipSpaces(s, i + 1, j);
    }
  }

  /** Inside a run of non-whitespace no further run begins. */
  lemma {:induction false} StartsSkipWord(s: string, i: nat, j: nat)
    requires 0 < i <= j <= |s|
    requires forall p :: i - 1 <= p < j ==> !IsSpace(s[p])
    ensures Starts(s, i, |s|) == Starts(s, j, |s|)
    decreases j - i
  {
    if i < j {
      assert !IsSpace(s[i - 1]);
      StartsSkipWord(s, i + 1, j);
    }
  }

  /** `i` does not lie strictly inside a run of non-whitespace. */
  predicate AtBoundary(s: string, i: nat)
    requires i <= |s|
  {
    i == 0 || i == |s| || IsSpace(s[i - 1]) || IsSpace(s[i])
  }

  lemma {:induction false} SplitFromCountsRuns(s: string, i: nat)
    requires i <= |s| && AtBoundary(s, i)
    ensures |SplitFrom(s, i)| == Starts(s, i, |s|)
    decreases |s| - i
  {
    var k := SkipSpaces(s, i);
    StartsSkipSpaces(s, i, k);
    if k < |s| {
      var e := WordEnd(s, k);
      assert IsWordStart(s, k) by {
        if k > i { assert IsSpace(s[k - 1]); }
      }
      StartsSkipWord(s, k + 1, e);
      SplitFromCountsRuns(s, e);
    }
  }

  /** The number of words `str.split()` yields is the number of maximal runs of
      non-whitespace characters. */
  lemma WordCountIsRunCount(s: string)
    ensures WordCount(s) == RunCount(s)
  {
    SplitFromCountsRuns(s, 0);
  }

  // ---------------------------------------------------------------------------
  // Reference definition of the words themselves: at each run beginning, left to
  // right, the run that starts there.

  /** The runs of non-whitespace that begin at positions `i` to `|s| - 1`, in order,
      each taken up to the next whitespace. */
  function RunsFrom(s: string, i: nat): seq<string>
    requires i <= |s|
    decreases |s| - i
  {
    if i == |s| then []
    else (if IsWordStart(s, i) then [s[i..WordEnd(s, i)]] else []) + RunsFrom(s, i + 1)
  }

  lemma {:induction false} RunsSkipSpaces(s: string, i: nat, j: nat)
    requires i <= j <= |s|
    requires forall p :: i <= p < j ==> IsSpace(s[p])
    ensures RunsFrom(s, i) == RunsFrom(s, j)
    decreases j - i
  {
    if i < j {
      RunsSkipSpaces(s, i + 1, j);
    }
  }

  lemma {:induction false} RunsSkipWord(s: string, i: nat, j: nat)
    requires 0 < i <= j <= |s|
    requires forall p :: i - 1 <= p < j ==> !IsSpace(s[p])
    ensures RunsFrom(s, i) == RunsFrom(s, j)
    decreases j - i
  {
    if i < j {
      assert !IsSpace(s[i - 1]);
      RunsSkipWord(s, i + 1, j);
    }
  }

  /** The run beginning at `k` is followed by the runs after its end. */
  lemma RunsAtStart(s: string, k: nat)
    requires k < |s| && IsWordStart(s, k)
    ensures RunsFrom(s, k) == [s[k..WordEnd(s, k)]] + RunsFrom(s, WordEnd(s, k))
  {
    RunsSkipWord(s, k + 1, WordEnd(s, k));
  }

  lemma {:induction false} SplitFromIsRuns(s: string, i: nat)
    requires i <= |s| && AtBoundary(s, i)
    ensures SplitFrom(s, i) == RunsFrom(s, i)
    decreases |s| - i
  {
    var k := SkipSpaces(s, i);
    RunsSkipSpaces(s, i, k);
    if k < |s| {
      var e := WordEnd(s, k);
      assert SplitFrom(s, i) == [s[k..e]] + SplitFrom(s, e);
      assert IsWordStart(s, k) by {
        if k > i { assert IsSpace(s[k - 1]); }
      }
      RunsAtStart(s, k);
      SplitFromIsRuns(s, e);
    }
  }

  /** `str.split()` yields exactly the maximal runs of non-whitespace characters, in
      the order they occur: one word per run beginning, reaching to the next
      whitespace or the end of the text. */
  lemma SplitIsRuns(s: string)
    ensures Split(s) == RunsFrom(s, 0)
  {
    SplitFromIsRuns(s, 0);
  }

  // ---------------------------------------------------------------------------
  // The words hold exactly the non-whitespace characters of the text, in order.

  /** The text with every whitespace character removed. */
  function Squeeze(s: string): string {
    if s == [] then [] else (if IsSpace(s[0]) then [] else [s[0]]) + Squeeze(s[1..])
  }

  function Concat(words: seq<string>): string {
    if words == [] then [] else words[0] + Concat(words[1..])
  }

  lemma {:induction false} SqueezeAppend(a: string, b: string)
    ensures Squeeze(a + b) == Squeeze(a) + Squeeze(b)
  {
    if a != [] {
      assert (a + b)[0] == a[0] && (a + b)[1..] == a[1..] + b;
      SqueezeAppend(a[1..], b);
      var head := if IsSpace(a[0]) then [] else [a[0]];
      assert Squeeze(a + b) == head + (Squeeze(a[1..]) + Squeeze(b));
    } else {
      assert a + b == b;
    }
  }

  lemma {:induction false} SqueezeAllSpace(s: string)
    requires AllSpace(s)
    ensures Squeeze(s) == []
  {
    if s != [] {
      SqueezeAllSpace(s[1..]);
    }
  }

  lemma {:induction false} SqueezeNoSpace(s: string)
    requires forall i :: 0 <= i < |s| ==> !IsSpace(s[i])
    ensures Squeeze(s) == s
  {
    if s != [] {
      SqueezeNoSpace(s[1..]);
    }
  }

  lemma SqueezeSplitAt(s: string, i: nat, k: nat)
    requires i <= k <= |s|
    ensures Squeeze(s[i..]) == Squeeze(s[i..k]) + Squeeze(s[k..])
  {
    assert s[i..] == s[i..k] + s[k..];
    SqueezeAppend(s[i..k], s[k..]);
  }

  lemma ConcatCons(w: string, rest: seq<string>)
    ensures Concat([w] + rest) == w + Concat(rest)
  {
    assert ([w] + rest)[1..] == rest;
  }

  lemma {:induction false} SplitFromKeepsText(s: string, i: nat)
    requires i <= |s|
    ensures Concat(SplitFrom(s, i)) == Squeeze(s[i..])
    decreases |s| - i
  {
    var k := SkipSpaces(s, i);
    SqueezeSplitAt(s, i, k);
    SqueezeAllSpace(s[i..k]);
    if k < |s| {
      var e := WordEnd(s, k);
      SqueezeSplitAt(s, k, e);
      SqueezeNoSpace(s[k..e]);
      SplitFromKeepsText(s, e);
      ConcatCons(s[k..e], SplitFrom(s, e));
    } else {
      assert s[k..] == [];
    }
  }

  /** Joining the words of `s` without separators gives back `s` with its
      whitespace removed: splitting loses only whitespace. */
  lemma SplitKeepsText(s: string)
    ensures Concat(Split(s)) == Squeeze(s)
  {
    SplitFromKeepsText(s, 0);
    assert s[0..] == s;
  }

  // ---------------------------------------------------------------------------
  // How the word count behaves under concatenation.

  lemma {:induction false} StartsSplit(s: string, i: nat, k: nat, j: nat)
    requires i <= k <= j <= |s|
    ensures Starts(s, i, j) == Starts(s, i, k) + Starts(s, k, j)
    decreases k - i
  {
    if i < k {
      StartsSplit(s, i + 1, k, j);
    }
  }

  lemma {:induction false} StartsPrefix(a: string, b: string, i: nat)
    requires i <= |a|
    ensures Starts(a + b, i, |a|) == Starts(a, i, |a|)
    decreases |a| - i
  {
    if i < |a| {
      assert IsWordStart(a + b, i) == IsWordStart(a, i);
      StartsPrefix(a, b, i + 1);
    }
  }

  lemma {:induction false} StartsAfterSpace(a: string, c: char, b: string, i: nat)
    requires IsSpace(c) && i <= |b|
    ensures Starts(a + [c] + b, |a| + 1 + i, |a| + 1 + |b|) == Starts(b, i, |b|)
    decreases |b| - i
  {
    if i < |b| {
      var s := a + [c] + b;
      assert s[|a| + 1 + i] == b[i];
      assert IsSpace(s[|a| + i]) == (i == 0 || IsSpace(b[i - 1]));
      StartsAfterSpace(a, c, b, i + 1);
    }
  }

  /** Appending text never removes a word. */
  lemma WordCountOfAppend(a: string, b: string)
    ensures WordCount(a) <= WordCount(a + b)
  {
    WordCountIsRunCount(a);
    WordCountIsRunCount(a + b);
    StartsSplit(a + b, 0, |a|, |a + b|);
    StartsPrefix(a, b, 0);
  }

  /** Joining two texts with a whitespace character adds their word counts. */
  lemma WordCountOfJoin(a: string, c: char, b: string)
    requires IsSpace(c)
    ensures WordCount(a + [c] + b) == WordCount(a) + WordCount(b)
  {
    var s := a + [c] + b;
    WordCountIsRunCount(a);
    WordCountIsRunCount(b);
    WordCountIsRunCount(s);
    StartsSplit(s, 0, |a|, |s|);
    StartsSplit(s, |a|, |a| + 1, |s|);
    assert s == a + ([c] + b);
    StartsPrefix(a, [c] + b, 0);
    StartsAfterSpace(a, c, b, 0);
  }
}
