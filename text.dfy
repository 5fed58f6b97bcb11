/**
 * String operations the core borrows from its languages' standard libraries:
 * JavaScript's `startsWith`, `indexOf`, `replace(/\s/g, '')`, `trim()` and a
 * case-insensitive regular-expression test, and Python's `str.split()`,
 * `str.split("\n")` and `str.strip()`.
 *
 * Whitespace is one fixed set of six ASCII characters for all of them
 * (see IsSpace); the Unicode breadth of JavaScript `\s` and Python
 * `str.isspace` is not modelled.
 */
module Text {
  import opened Wrappers

  /** Space, tab, line feed, vertical tab, form feed and carriage return. */
  predicate IsSpace(c: char) {
    c == ' ' || c == '\t' || c == '\n' || c == '\U{000B}' || c == '\U{000C}' || c == '\r'
  }

  predicate NoSpace(s: string) {
    forall i :: 0 <= i < |s| ==> !IsSpace(s[i])
  }

  predicate StartsWith(s: string, prefix: string) {
    |prefix| <= |s| && s[..|prefix|] == prefix
  }

  predicate OccursAt(s: string, pat: string, i: nat) {
    i + |pat| <= |s| && s[i..i + |pat|] == pat
  }

  /** `s.indexOf(pat)` / `s.find(pat)`: the leftmost index at which `pat` occurs. */
  function Find(s: string, pat: string): (r: Option<nat>)
    ensures r.Some? ==> OccursAt(s, pat, r.value)
    ensures r.Some? ==> forall j :: 0 <= j < r.value ==> !OccursAt(s, pat, j)
    ensures r.None? ==> forall j :: 0 <= j <= |s| ==> !OccursAt(s, pat, j)
    decreases |s|
  {
    if |s| < |pat| then None
    else if s[..|pat|] == pat then Some(0)
    else
      OccursAtTail(s, pat);
      match Find(s[1..], pat)
      case None => None
      case Some(j) => Some(j + 1)
  }

  lemma OccursAtTail(s: string, pat: string)
    requires |s| > 0
    ensures forall j :: 1 <= j ==> OccursAt(s, pat, j) == OccursAt(s[1..], pat, j - 1)
  {
    forall j | 1 <= j && OccursAt(s[1..], pat, j - 1) ensures OccursAt(s, pat, j) {
      assert s[j..j + |pat|] == s[1..][j - 1..j - 1 + |pat|];
    }
  }

  predicate Contains(s: string, pat: string) {
    Find(s, pat).Some?
  }

  /** `s.replace(/\s/g, '')`: every whitespace character removed. */
  function RemoveSpaces(s: string): (r: string)
    ensures NoSpace(r)
    ensures |r| <= |s|
  {
    if |s| == 0 then ""
    else if IsSpace(s[0]) then RemoveSpaces(s[1..])
    else [s[0]] + RemoveSpaces(s[1..])
  }

  lemma {:induction false} RemoveSpacesOfNoSpace(s: string)
    requires NoSpace(s)
    ensures RemoveSpaces(s) == s
  {
    if |s| > 0 {
      RemoveSpacesOfNoSpace(s[1..]);
    }
  }

  /** A character that is not whitespace survives the removal of whitespace. */
  lemma {:induction false} RemoveSpacesKeeps(s: string, i: nat)
    requires i < |s| && !IsSpace(s[i])
    ensures s[i] in RemoveSpaces(s)
  {
    if i > 0 {
      RemoveSpacesKeeps(s[1..], i - 1);
    }
  }

  /** A string made only of whitespace loses all of it. */
  lemma {:induction false} RemoveSpacesOfBlank(s: string)
    requires forall i :: 0 <= i < |s| ==> IsSpace(s[i])
    ensures RemoveSpaces(s) == ""
  {
    if |s| > 0 {
      RemoveSpacesOfBlank(s[1..]);
    }
  }

  /** Removing whitespace twice is removing it once. */
  lemma RemoveSpacesIdempotent(s: string)
    ensures RemoveSpaces(RemoveSpaces(s)) == RemoveSpaces(s)
  {
    RemoveSpacesOfNoSpace(RemoveSpaces(s));
  }

  lemma {:induction false} RemoveSpacesAppend(a: string, b: string)
    ensures RemoveSpaces(a + b) == RemoveSpaces(a) + RemoveSpaces(b)
  {
    if |a| > 0 {
      assert (a + b)[1..] == a[1..] + b;
      RemoveSpacesAppend(a[1..], b);
    } else {
      assert a + b == b;
    }
  }

  function TrimStart(s: string): (r: string)
    ensures |r| <= |s| && r == s[|s| - |r|..]
    ensures r == "" || !IsSpace(r[0])
    ensures forall i :: 0 <= i < |s| - |r| ==> IsSpace(s[i])
  {
    if |s| > 0 && IsSpace(s[0]) then TrimStart(s[1..]) else s
  }

  function TrimEnd(s: string): (r: string)
    ensures |r| <= |s| && r == s[..|r|]
    ensures r == "" || !IsSpace(r[|r| - 1])
    ensures forall i :: |r| <= i < |s| ==> IsSpace(s[i])
  {
    if |s| > 0 && IsSpace(s[|s| - 1]) then TrimEnd(s[..|s| - 1]) else s
  }

  /**
   * `s.trim()` / `s.strip()`: the slice of `s` left once the whitespace at
   * either end is cut off.
   */
  function Strip(s: string): (r: string)
    ensures r == "" || (!IsSpace(r[0]) && !IsSpace(r[|r| - 1]))
    ensures |r| <= |s|
  {
    var t := TrimStart(s);
    var r := TrimEnd(t);
    assert r != "" ==> r[0] == t[0];
    r
  }

  /** The stripped string is the slice of `s` between two runs of whitespace that are cut off. */
  lemma StripIsSlice(s: string)
    ensures exists i, j :: 0 <= i <= j <= |s| && Strip(s) == s[i..j]
                           && forall k :: 0 <= k < i || j <= k < |s| ==> IsSpace(s[k])
  {
    var t := TrimStart(s);
    var r := TrimEnd(t);
    var i := |s| - |t|;
    var j := i + |r|;
    assert t == s[i..];
    assert r == t[..|r|];
    assert r == s[i..j];
    forall k | j <= k < |s| ensures IsSpace(s[k]) {
      assert s[k] == t[k - i];
    }
    assert Strip(s) == r;
  }

  /** A string strips to nothing exactly when it is all whitespace. */
  lemma StripBlank(s: string)
    ensures Strip(s) == "" <==> forall i :: 0 <= i < |s| ==> IsSpace(s[i])
  {
    var t := TrimStart(s);
    assert t != "" ==> TrimEnd(t) != "" by {
      if t != "" {
        assert !IsSpace(t[0]);
      }
    }
  }

  /** Stripping a string that neither starts nor ends with whitespace changes nothing. */
  lemma StripUnpadded(s: string)
    requires s == "" || (!IsSpace(s[0]) && !IsSpace(s[|s| - 1]))
    ensures Strip(s) == s
  {
  }

  /** `(" " + w).strip()` for a word without surrounding whitespace. */
  lemma StripLeadingSpace(w: string)
    requires w != "" && !IsSpace(w[0]) && !IsSpace(w[|w| - 1])
    ensures Strip(" " + w) == w
  {
    assert (" " + w)[1..] == w;
  }

  function Concat(xs: seq<string>): string {
    if |xs| == 0 then "" else xs[0] + Concat(xs[1..])
  }

  lemma {:induction false} ConcatAppend(xs: seq<string>, ys: seq<string>)
    ensures Concat(xs + ys) == Concat(xs) + Concat(ys)
  {
    if |xs| == 0 {
      assert xs + ys == ys;
    } else {
      assert (xs + ys)[1..] == xs[1..] + ys;
      ConcatAppend(xs[1..], ys);
    }
  }

  /** `sep.join(xs)` */
  function Join(xs: seq<string>, sep: string): string {
    if |xs| == 0 then ""
    else if |xs| == 1 then xs[0]
    else xs[0] + sep + Join(xs[1..], sep)
  }

  /** Python's `str.split()` with no argument: the maximal runs of non-whitespace. */
  function Words(s: string): (ws: seq<string>)
    ensures forall i :: 0 <= i < |ws| ==> ws[i] != "" && NoSpace(ws[i])
  {
    WordsFrom(s, "")
  }

  /** The words of `s`, the first of which continues the word `cur` already begun. */
  function WordsFrom(s: string, cur: string): (ws: seq<string>)
    requires NoSpace(cur)
    ensures forall i :: 0 <= i < |ws| ==> ws[i] != "" && NoSpace(ws[i])
    decreases |s|
  {
    var done := if cur == "" then [] else [cur];
    if |s| == 0 then done
    else if IsSpace(s[0]) then done + WordsFrom(s[1..], "")
    else WordsFrom(s[1..], cur + [s[0]])
  }

  /** The words, laid end to end, are the string with its whitespace removed. */
  lemma {:induction false} WordsFromConcat(s: string, cur: string)
    requires NoSpace(cur)
    ensures Concat(WordsFrom(s, cur)) == cur + RemoveSpaces(s)
    decreases |s|
  {
    var done := if cur == "" then [] else [cur];
    assert Concat(done) == cur;
    if |s| == 0 {
    } else if IsSpace(s[0]) {
      assert WordsFrom(s, cur) == done + WordsFrom(s[1..], "");
      assert RemoveSpaces(s) == RemoveSpaces(s[1..]);
      WordsFromConcat(s[1..], "");
      ConcatAppend(done, WordsFrom(s[1..], ""));
    } else {
      assert WordsFrom(s, cur) == WordsFrom(s[1..], cur + [s[0]]);
      assert RemoveSpaces(s) == [s[0]] + RemoveSpaces(s[1..]);
      WordsFromConcat(s[1..], cur + [s[0]]);
      assert cur + [s[0]] + RemoveSpaces(s[1..]) == cur + ([s[0]] + RemoveSpaces(s[1..]));
    }
  }

  lemma WordsConcat(s: string)
    ensures Concat(Words(s)) == RemoveSpaces(s)
  {
    WordsFromConcat(s, "");
  }

  /** Scanning a run of non-whitespace extends the word begun with it. */
  lemma {:induction false} WordsFromNoSpace(w: string, cur: string)
    requires NoSpace(w) && NoSpace(cur)
    ensures WordsFrom(w, cur) == if cur + w == "" then [] else [cur + w]
    decreases |w|
  {
    if |w| == 0 {
      assert cur + w == cur;
    } else {
      WordsFromNoSpace(w[1..], cur + [w[0]]);
      assert cur + [w[0]] + w[1..] == cur + w;
    }
  }

  /** A non-empty string without whitespace is one word. */
  lemma WordsOfWord(w: string)
    requires w != "" && NoSpace(w)
    ensures Words(w) == [w]
  {
    WordsFromNoSpace(w, "");
    assert "" + w == w;
  }

  /** A whitespace character ends the word before it: the scan after it starts afresh. */
  lemma {:induction false} WordsFromAtSpace(a: string, c: char, b: string, cur: string)
    requires IsSpace(c) && NoSpace(cur)
    ensures WordsFrom(a + [c] + b, cur) == WordsFrom(a, cur) + WordsFrom(b, "")
    decreases |a|
  {
    var s := a + [c] + b;
    if |a| == 0 {
      assert s == [c] + b && s[1..] == b;
    } else {
      assert s[0] == a[0] && s[1..] == a[1..] + [c] + b;
      if IsSpace(a[0]) {
        WordsFromAtSpace(a[1..], c, b, "");
        var done := if cur == "" then [] else [cur];
        assert done + (WordsFrom(a[1..], "") + WordsFrom(b, "")) == (done + WordsFrom(a[1..], "")) + WordsFrom(b, "");
      } else {
        WordsFromAtSpace(a[1..], c, b, cur + [a[0]]);
      }
    }
  }

  /** The words on either side of a whitespace character are the words of the whole. */
  lemma WordsAtSpace(a: string, c: char, b: string)
    requires IsSpace(c)
    ensures Words(a + [c] + b) == Words(a) + Words(b)
  {
    WordsFromAtSpace(a, c, b, "");
  }

  /** Python's `s.split(sep)` for a one-character separator: empty parts are kept. */
  function SplitOn(s: string, sep: char): (parts: seq<string>)
    ensures |parts| >= 1
    ensures forall i :: 0 <= i < |parts| ==> sep !in parts[i]
    decreases |s|
  {
    if |s| == 0 then [""]
    else
      var rest := SplitOn(s[1..], sep);
      if s[0] == sep then [""] + rest
      else [[s[0]] + rest[0]] + rest[1..]
  }

  /** Joining the parts with the separator gives back the string. */
  lemma {:induction false} JoinSplitOn(s: string, sep: char)
    ensures Join(SplitOn(s, sep), [sep]) == s
    decreases |s|
  {
    if |s| > 0 {
      JoinSplitOn(s[1..], sep);
      var rest := SplitOn(s[1..], sep);
      if s[0] == sep {
        assert s == [sep] + s[1..];
      } else if |rest| == 1 {
        assert s == [s[0]] + s[1..];
      } else {
        assert s == [s[0]] + s[1..];
        assert Join(rest, [sep]) == rest[0] + [sep] + Join(rest[1..], [sep]);
      }
    }
  }

  /** ASCII upper-case letters mapped to lower case, everything else kept. */
  function LowerChar(c: char): (r: char) {
    if 'A' <= c <= 'Z' then (c as int + 32) as char else c
  }

  function Lower(s: string): (r: string)
    ensures |r| == |s|
    ensures forall i :: 0 <= i < |s| ==> r[i] == LowerChar(s[i])
  {
    seq(|s|, i requires 0 <= i < |s| => LowerChar(s[i]))
  }

  /** Lowering twice is lowering once. */
  lemma LowerIdempotent(s: string)
    ensures Lower(Lower(s)) == Lower(s)
  {
    forall i | 0 <= i < |s| ensures Lower(Lower(s))[i] == Lower(s)[i] {
      assert Lower(s)[i] == LowerChar(s[i]);
    }
  }

  lemma LowerAppend(a: string, b: string)
    ensures Lower(a + b) == Lower(a) + Lower(b)
  {
  }

  /** A case-insensitive regular-expression test for the literal `pat`, which is in lower case. */
  predicate ContainsIgnoringCase(s: string, pat: string) {
    Contains(Lower(s), pat)
  }

  /** A string that holds `pat` at some position is found to contain it. */
  lemma ContainsAtPosition(a: string, pat: string, b: string)
    ensures Contains(a + pat + b, pat)
  {
    var s := a + pat + b;
    assert OccursAt(s, pat, |a|) by {
      assert s[|a|..|a| + |pat|] == pat;
    }
  }
}
