/** The Python string operations the command loader uses: `str.split()`,
    `' '.join`, `str.split(sep)`, `str.split(sep, 1)`, `startswith`, `replace`. */
module PyStr {

  /** The characters `str.split()` without arguments treats as whitespace
      (those for which Python's `str.isspace` holds). */
  predicate IsSpace(c: char) {
    c == ' ' || ('\t' <= c <= '\r') || ('\U{1c}' <= c <= '\U{1f}')
    || c == '\U{85}' || c == '\U{a0}' || c == '\U{1680}'
    || ('\U{2000}' <= c <= '\U{200a}') || c == '\U{2028}' || c == '\U{2029}'
    || c == '\U{202f}' || c == '\U{205f}' || c == '\U{3000}'
  }

  predicate NoSpace(s: string) {
    forall i :: 0 <= i < |s| ==> !IsSpace(s[i])
  }

  /** A word as `str.split()` produces it: non-empty, no whitespace. */
  predicate IsWord(w: string) {
    w != [] && NoSpace(w)
  }

  function DropSpaces(s: string): (r: string)
    ensures |r| <= |s|
    ensures r != [] ==> !IsSpace(r[0])
  {
    if s != [] && IsSpace(s[0]) then DropSpaces(s[1..]) else s
  }

  /** The longest prefix of `s` without whitespace. */
  function WordPrefix(s: string): (w: string)
    ensures |w| <= |s|
    ensures s != [] && !IsSpace(s[0]) ==> w != []
  {
    if s == [] || IsSpace(s[0]) then [] else [s[0]] + WordPrefix(s[1..])
  }

  /** Python's `str.split()` with no separator. */
  function Words(s: string): (ws: seq<string>)
    decreases |s|
  {
    var t := DropSpaces(s);
    if t == [] then []
    else
      var w := WordPrefix(t);
      [w] + Words(t[|w|..])
  }

  /** Python's `sep.join(parts)`. */
  function Join(parts: seq<string>, sep: string): string {
    if parts == [] then ""
    else if |parts| == 1 then parts[0]
    else parts[0] + sep + Join(parts[1..], sep)
  }

  /** Number of occurrences of the character `c` in `s`. */
  function Count(s: string, c: char): nat {
    if s == [] then 0 else (if s[0] == c then 1 else 0) + Count(s[1..], c)
  }

  /** Python's `s.split(c)` with a one-character separator. */
  function SplitOn(s: string, c: char): (parts: seq<string>)
    ensures |parts| >= 1
  {
    if s == [] then [""]
    else
      var rest := SplitOn(s[1..], c);
      if s[0] == c then [""] + rest else [[s[0]] + rest[0]] + rest[1..]
  }

  /** Python's `s.split(c, 1)`: the parts before and after the first `c`,
      or `[s]` when `c` does not occur. */
  function SplitOnce(s: string, c: char): (parts: seq<string>)
    ensures |parts| == 1 || |parts| == 2
  {
    if s == [] then [""]
    else if s[0] == c then ["", s[1..]]
    else
      var rest := SplitOnce(s[1..], c);
      [[s[0]] + rest[0]] + rest[1..]
  }

  predicate StartsWith(s: string, prefix: string) {
    |prefix| <= |s| && s[..|prefix|] == prefix
  }

  /** Python's `s.replace(pat, rep)`: every non-overlapping occurrence, left to
      right; an empty `pat` inserts `rep` before every character and at the end. */
  function Replace(s: string, pat: string, rep: string): string
    decreases |s|
  {
    if pat == [] then
      (if s == [] then rep else rep + [s[0]] + Replace(s[1..], pat, rep))
    else if |s| < |pat| then s
    else if s[..|pat|] == pat then rep + Replace(s[|pat|..], pat, rep)
    else [s[0]] + Replace(s[1..], pat, rep)
  }

  /** `sub in s` for strings. */
  predicate Occurs(s: string, sub: string)
    decreases |s|
  {
    StartsWith(s, sub) || (s != [] && Occurs(s[1..], sub))
  }

  // ---------------------------------------------------------------------
  // Lemmas

  /** `DropSpaces` removes exactly the leading whitespace. */
  lemma {:induction false} DropSpacesSuffix(s: string)
    ensures var r := DropSpaces(s);
            r == s[|s| - |r|..] && forall i :: 0 <= i < |s| - |r| ==> IsSpace(s[i])
    decreases |s|
  {
    if s != [] && IsSpace(s[0]) {
      DropSpacesSuffix(s[1..]);
    }
  }

  /** `WordPrefix` is a whitespace-free prefix that stops at whitespace or at
      the end of the string. */
  lemma {:induction false} WordPrefixFacts(s: string)
    ensures var w := WordPrefix(s);
            w == s[..|w|] && NoSpace(w) && (|w| < |s| ==> IsSpace(s[|w|]))
    decreases |s|
  {
    if s != [] && !IsSpace(s[0]) {
      WordPrefixFacts(s[1..]);
      var w' := WordPrefix(s[1..]);
      assert WordPrefix(s) == [s[0]] + w';
      assert forall i :: 0 < i < |w'| + 1 ==> ([s[0]] + w')[i] == w'[i - 1];
    }
  }

  /** Every part `str.split()` returns is a word. */
  lemma {:induction false} WordsAreWords(s: string)
    ensures forall i :: 0 <= i < |Words(s)| ==> IsWord(Words(s)[i])
    decreases |s|
  {
    var t := DropSpaces(s);
    if t != [] {
      var w := WordPrefix(t);
      WordPrefixFacts(t);
      WordsAreWords(t[|w|..]);
    }
  }

  lemma {:induction false} WordPrefixOfWord(w: string, rest: string)
    requires IsWord(w)
    requires rest == [] || IsSpace(rest[0])
    ensures WordPrefix(w + rest) == w
    decreases |w|
  {
    assert (w + rest)[0] == w[0];
    assert !IsSpace(w[0]);
    if |w| > 1 {
      assert (w + rest)[1..] == w[1..] + rest;
      assert IsWord(w[1..]) by {
        forall i | 0 <= i < |w[1..]| ensures !IsSpace(w[1..][i]) {
          assert w[1..][i] == w[i + 1];
        }
      }
      WordPrefixOfWord(w[1..], rest);
      HeadTail(w);
    } else {
      assert (w + rest)[1..] == rest;
      assert WordPrefix(rest) == [];
      assert [w[0]] == w;
    }
  }

  lemma WordsOfWordThen(w: string, rest: string)
    requires IsWord(w)
    requires rest == [] || IsSpace(rest[0])
    ensures Words(w + rest) == [w] + Words(rest)
  {
    assert (w + rest)[0] == w[0];
    assert DropSpaces(w + rest) == w + rest;
    WordPrefixOfWord(w, rest);
    assert (w + rest)[|w|..] == rest;
  }

  lemma WordsAfterSpace(c: char, s: string)
    requires IsSpace(c)
    ensures Words([c] + s) == Words(s)
  {
    assert ([c] + s)[1..] == s;
    assert DropSpaces([c] + s) == DropSpaces(s);
  }

  lemma HeadTail<T>(s: seq<T>)
    requires s != []
    ensures [s[0]] + s[1..] == s
  {
  }

  lemma AppendAssoc<T>(x: seq<T>, y: seq<T>, z: seq<T>)
    ensures x + (y + z) == (x + y) + z
  {
  }

  /** Splitting a space-joined list of words gives back the words. */
  lemma {:induction false} WordsOfJoin(ws: seq<string>)
    requires forall i :: 0 <= i < |ws| ==> IsWord(ws[i])
    ensures Words(Join(ws, " ")) == ws
    decreases |ws|
  {
    if |ws| == 1 {
      WordsOfWordThen(ws[0], "");
      assert ws[0] + "" == ws[0];
    } else if |ws| > 1 {
      var j := Join(ws[1..], " ");
      assert Join(ws, " ") == ws[0] + (" " + j);
      assert IsWord(ws[0]);
      WordsOfWordThen(ws[0], " " + j);
      assert " " + j == [' '] + j;
      WordsAfterSpace(' ', j);
      assert forall i :: 0 <= i < |ws[1..]| ==> IsWord(ws[1..][i]) by {
        forall i | 0 <= i < |ws[1..]| ensures IsWord(ws[1..][i]) {
          assert ws[1..][i] == ws[i + 1];
        }
      }
      WordsOfJoin(ws[1..]);
      HeadTail(ws);
    }
  }

  /** `SplitOn` is undone by joining with the separator, and no part
      contains the separator. */
  lemma SplitOnJoin(s: string, c: char)
    ensures Join(SplitOn(s, c), [c]) == s
    ensures forall i :: 0 <= i < |SplitOn(s, c)| ==> c !in SplitOn(s, c)[i]
    ensures |SplitOn(s, c)| == Count(s, c) + 1
  {
    SplitOnJoinBack(s, c);
    SplitOnPartsFree(s, c);
    SplitOnCount(s, c);
  }

  lemma {:induction false} SplitOnJoinBack(s: string, c: char)
    ensures Join(SplitOn(s, c), [c]) == s
  {
    if s != [] {
      SplitOnJoinBack(s[1..], c);
      var rest := SplitOn(s[1..], c);
      if s[0] == c {
        assert SplitOn(s, c) == [""] + rest;
        if |rest| == 1 {
          assert Join([""] + rest, [c]) == "" + [c] + rest[0];
        } else {
          assert Join([""] + rest, [c]) == "" + [c] + Join(rest, [c]);
        }
        assert s == [c] + s[1..];
      } else {
        var parts := [[s[0]] + rest[0]] + rest[1..];
        assert SplitOn(s, c) == parts;
        if |rest| == 1 {
          assert Join(parts, [c]) == [s[0]] + rest[0];
        } else {
          assert Join(rest, [c]) == rest[0] + [c] + Join(rest[1..], [c]);
          assert parts[1..] == rest[1..];
          assert Join(parts, [c]) == ([s[0]] + rest[0]) + [c] + Join(rest[1..], [c]);
        }
        assert s == [s[0]] + s[1..];
      }
    }
  }

  lemma {:induction false} SplitOnPartsFree(s: string, c: char)
    ensures forall i :: 0 <= i < |SplitOn(s, c)| ==> c !in SplitOn(s, c)[i]
  {
    if s != [] {
      SplitOnPartsFree(s[1..], c);
      var rest := SplitOn(s[1..], c);
      if s[0] == c {
        assert SplitOn(s, c) == [""] + rest;
        forall i | 0 < i < |rest| + 1 ensures c !in ([""] + rest)[i] {
          assert ([""] + rest)[i] == rest[i - 1];
        }
      } else {
        var parts := [[s[0]] + rest[0]] + rest[1..];
        assert SplitOn(s, c) == parts;
        forall i | 0 <= i < |parts| ensures c !in parts[i] {
          if i == 0 {
            assert c !in rest[0];
          } else {
            assert parts[i] == rest[i];
          }
        }
      }
    }
  }

  lemma {:induction false} SplitOnCount(s: string, c: char)
    ensures |SplitOn(s, c)| == Count(s, c) + 1
  {
    if s != [] {
      SplitOnCount(s[1..], c);
    }
  }

  /** `s.split(c, 1)` has two parts exactly when `c` occurs, and then they are
      the text before the first `c` and the text after it. */
  lemma {:induction false} SplitOnceParts(s: string, c: char)
    ensures |SplitOnce(s, c)| == 2 <==> c in s
    ensures |SplitOnce(s, c)| == 1 ==> SplitOnce(s, c)[0] == s
    ensures |SplitOnce(s, c)| == 2 ==>
      s == SplitOnce(s, c)[0] + [c] + SplitOnce(s, c)[1] && c !in SplitOnce(s, c)[0]
  {
    if s != [] && s[0] != c {
      SplitOnceParts(s[1..], c);
      assert s == [s[0]] + s[1..];
    }
  }

  /** A string that does not contain `pat` is left unchanged by `replace`. */
  lemma {:induction false} ReplaceAbsent(s: string, pat: string, rep: string)
    requires pat != [] && !Occurs(s, pat)
    ensures Replace(s, pat, rep) == s
    decreases |s|
  {
    if |s| >= |pat| {
      ReplaceAbsent(s[1..], pat, rep);
      assert s == [s[0]] + s[1..];
    }
  }

  /** When `s` starts with a non-empty `pat`, `replace` puts `rep` in its
      place at the front and goes on replacing in the rest. */
  lemma ReplaceLeading(s: string, pat: string, rep: string)
    requires pat != [] && StartsWith(s, pat)
    ensures Replace(s, pat, rep) == rep + Replace(s[|pat|..], pat, rep)
    ensures StartsWith(Replace(s, pat, rep), rep)
  {
    assert s == [] + pat + s[|pat|..];
    ReplaceFirstOccurrence([], pat, s[|pat|..], rep);
    assert (rep + Replace(s[|pat|..], pat, rep))[..|rep|] == rep;
  }

  /** `sep.join(parts)` with at least two parts. */
  lemma JoinCons(p: string, rest: seq<string>, sep: string)
    requires rest != []
    ensures Join([p] + rest, sep) == p + sep + Join(rest, sep)
  {
    assert ([p] + rest)[1..] == rest;
  }

  /** Replacing a one-character pattern rewrites every occurrence: the result
      is the string split at that character and joined with the
      replacement. */
  lemma {:induction false} ReplaceCharIsJoin(s: string, c: char, rep: string)
    ensures Replace(s, [c], rep) == Join(SplitOn(s, c), rep)
    decreases |s|
  {
    if s != [] {
      ReplaceCharIsJoin(s[1..], c, rep);
      if s[0] == c {
        ReplaceCharHit(s, c, rep);
      } else {
        ReplaceCharMiss(s, c, rep);
      }
    }
  }

  lemma ReplaceCharHit(s: string, c: char, rep: string)
    requires s != [] && s[0] == c
    requires Replace(s[1..], [c], rep) == Join(SplitOn(s[1..], c), rep)
    ensures Replace(s, [c], rep) == Join(SplitOn(s, c), rep)
  {
    var rest := SplitOn(s[1..], c);
    assert s[..1] == [c];
    assert Replace(s, [c], rep) == rep + Replace(s[1..], [c], rep);
    JoinCons("", rest, rep);
    assert "" + rep + Join(rest, rep) == rep + Join(rest, rep);
  }

  lemma ReplaceCharMiss(s: string, c: char, rep: string)
    requires s != [] && s[0] != c
    requires Replace(s[1..], [c], rep) == Join(SplitOn(s[1..], c), rep)
    ensures Replace(s, [c], rep) == Join(SplitOn(s, c), rep)
  {
    var rest := SplitOn(s[1..], c);
    assert s[..1] != [c];
    assert Replace(s, [c], rep) == [s[0]] + Join(rest, rep);
    assert SplitOn(s, c) == [[s[0]] + rest[0]] + rest[1..];
    if |rest| == 1 {
      assert Join([[s[0]] + rest[0]] + rest[1..], rep) == [s[0]] + rest[0];
    } else {
      HeadTail(rest);
      JoinCons(rest[0], rest[1..], rep);
      JoinCons([s[0]] + rest[0], rest[1..], rep);
      AppendAssoc([s[0]], rest[0] + rep, Join(rest[1..], rep));
      AppendAssoc([s[0]], rest[0], rep);
    }
  }

  /** Replacement works left to right: when the first occurrence of a
      non-empty pattern starts right after `a`, the text before it is kept,
      the occurrence is rewritten, and replacement goes on after it. */
  lemma {:induction false} ReplaceFirstOccurrence(a: string, pat: string, b: string, rep: string)
    requires pat != []
    requires forall i :: 0 <= i < |a| ==> !StartsWith((a + pat + b)[i..], pat)
    ensures Replace(a + pat + b, pat, rep) == a + rep + Replace(b, pat, rep)
    decreases |a|
  {
    var s := a + pat + b;
    if a == [] {
      assert s == pat + b;
      assert s[..|pat|] == pat && s[|pat|..] == b;
    } else {
      assert !StartsWith(s[0..], pat);
      assert s[0..] == s;
      assert s[1..] == a[1..] + pat + b;
      forall i | 0 <= i < |a[1..]| ensures !StartsWith((a[1..] + pat + b)[i..], pat) {
        assert (a[1..] + pat + b)[i..] == s[i + 1..];
      }
      ReplaceFirstOccurrence(a[1..], pat, b, rep);
      var r := Replace(b, pat, rep);
      assert Replace(s, pat, rep) == [a[0]] + ((a[1..] + rep) + r);
      AppendAssoc([a[0]], a[1..] + rep, r);
      AppendAssoc([a[0]], a[1..], rep);
      HeadTail(a);
    }
  }

  /** `replace` rewrites every occurrence, not only a leading one. */
  lemma ReplaceEveryOccurrence()
    ensures Replace("azure.mgmt#azure.mgmt", "azure.mgmt", "v1") == "v1#v1"
  {
    var s := "azure.mgmt#azure.mgmt";
    assert s[..10] == "azure.mgmt";
    var r := s[10..];
    assert r == "#azure.mgmt";
    assert r[0] == '#';
    assert r[..10] != "azure.mgmt";
    assert r[1..] == "azure.mgmt";
    assert r[1..][10..] == "";
  }
}
