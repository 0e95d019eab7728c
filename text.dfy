/** The Python string operations the pipeline relies on: `str.split()` with
    no argument, `sep.join(...)`, the substring test `needle in hay`,
    `s.replace(pat, "")`, `s.endswith(suffix)` and `str(i)` for an integer. */
module Text {

  /** `c.isspace()`: the characters Python's argument-less `split()` breaks on */
  predicate IsSpace(c: char) {
    || c == ' ' || c == '\t' || c == '\n' || c == '\r'
    || c == '\U{000B}' || c == '\U{000C}'
    || ('\U{001C}' <= c <= '\U{001F}')
    || c == '\U{0085}' || c == '\U{00A0}' || c == '\U{1680}'
    || ('\U{2000}' <= c <= '\U{200A}')
    || c == '\U{2028}' || c == '\U{2029}' || c == '\U{202F}' || c == '\U{205F}' || c == '\U{3000}'
  }

  predicate Blank(t: string) {
    forall i :: 0 <= i < |t| ==> IsSpace(t[i])
  }

  /** a piece `split()` can produce: non-empty and free of whitespace */
  predicate IsWord(w: string) {
    w != [] && forall i :: 0 <= i < |w| ==> !IsSpace(w[i])
  }

  predicate AllWords(ws: seq<string>) {
    forall k :: 0 <= k < |ws| ==> IsWord(ws[k])
  }

  /** length of the run of non-space characters at the front of `t` */
  function WordLen(t: string): (n: nat)
    ensures n <= |t|
    ensures forall i :: 0 <= i < n ==> !IsSpace(t[i])
    ensures n == |t| || IsSpace(t[n])
  {
    if t == [] || IsSpace(t[0]) then 0 else 1 + WordLen(t[1..])
  }

  /** `t.split()`: the maximal runs of non-space characters, in order */
  function Words(t: string): (ws: seq<string>)
    ensures AllWords(ws)
    decreases |t|
  {
    if t == [] then []
    else if IsSpace(t[0]) then Words(t[1..])
    else
      var n := WordLen(t);
      [t[..n]] + Words(t[n..])
  }

  /** `sep.join(ws)` */
  function Join(ws: seq<string>, sep: string): string
  {
    if ws == [] then ""
    else if |ws| == 1 then ws[0]
    else ws[0] + sep + Join(ws[1..], sep)
  }

  /** `t.split()` is empty exactly when `t` is empty or all whitespace */
  lemma {:induction false} WordsEmptyIffBlank(t: string)
    ensures Words(t) == [] <==> Blank(t)
    decreases |t|
  {
    if t != [] {
      WordsEmptyIffBlank(t[1..]);
      if IsSpace(t[0]) {
        assert Blank(t) <==> Blank(t[1..]) by {
          forall i | 0 <= i < |t[1..]| ensures t[1..][i] == t[i + 1] { }
          if Blank(t[1..]) {
            forall i | 0 <= i < |t| ensures IsSpace(t[i]) {
              if i > 0 { assert t[i] == t[1..][i - 1]; }
            }
          }
        }
      }
    }
  }

  lemma {:induction false} WordLenOfWord(w: string, rest: string)
    requires IsWord(w)
    requires rest == [] || IsSpace(rest[0])
    ensures WordLen(w + rest) == |w|
    decreases |w|
  {
    var t := w + rest;
    assert t[0] == w[0];
    if |w| > 1 {
      assert t[1..] == w[1..] + rest;
      assert IsWord(w[1..]) by {
        forall i | 0 <= i < |w[1..]| ensures !IsSpace(w[1..][i]) { assert w[1..][i] == w[i + 1]; }
      }
      WordLenOfWord(w[1..], rest);
    } else {
      assert t[1..] == rest;
    }
  }

  /** a word followed by a space (or nothing) splits off as the first word */
  lemma WordsOfWordThen(w: string, rest: string)
    requires IsWord(w)
    requires rest == [] || IsSpace(rest[0])
    ensures Words(w + rest) == [w] + Words(rest)
  {
    var t := w + rest;
    WordLenOfWord(w, rest);
    assert t[..|w|] == w;
    assert t[|w|..] == rest;
  }

  /** splitting a single-space join of words gives the words back */
  lemma {:induction false} WordsOfJoin(ws: seq<string>)
    requires AllWords(ws)
    ensures Words(Join(ws, " ")) == ws
    decreases |ws|
  {
    if |ws| == 1 {
      WordsOfWordThen(ws[0], "");
      assert ws[0] + "" == ws[0];
    } else if |ws| > 1 {
      var rest := Join(ws[1..], " ");
      var tail := " " + rest;
      assert Join(ws, " ") == ws[0] + tail;
      WordsOfJoin(ws[1..]);
      WordsOfWordThen(ws[0], tail);
      WordsAfterSpace(rest);
      assert ws == [ws[0]] + ws[1..];
    }
  }

  /** a leading space is skipped by `split()` */
  lemma WordsAfterSpace(rest: string)
    ensures Words(" " + rest) == Words(rest)
  {
    var t := " " + rest;
    assert IsSpace(t[0]);
    assert t[1..] == rest;
  }

  /** `s.startswith(p)` */
  predicate StartsWith(s: string, p: string) {
    |p| <= |s| && s[..|p|] == p
  }

  /** `s.endswith(p)` */
  predicate EndsWith(s: string, p: string) {
    |p| <= |s| && s[|s| - |p|..] == p
  }

  /** `needle in hay` for strings: `needle` occurs somewhere in `hay` */
  predicate Contains(hay: string, needle: string)
    decreases |hay|
  {
    StartsWith(hay, needle) || (hay != [] && Contains(hay[1..], needle))
  }

  /** a non-empty needle never occurs in the empty string */
  lemma NothingInEmpty(needle: string)
    requires needle != []
    ensures !Contains("", needle)
  {
  }

  /** text in front of an occurrence keeps it */
  lemma {:induction false} ContainsAfter(p: string, s: string, needle: string)
    requires Contains(s, needle)
    ensures Contains(p + s, needle)
    decreases |p|
  {
    if p != [] {
      assert (p + s)[1..] == p[1..] + s;
      ContainsAfter(p[1..], s, needle);
      assert p + s != [] && Contains((p + s)[1..], needle);
    } else {
      assert p + s == s;
    }
  }

  /** text behind an occurrence keeps it */
  lemma {:induction false} ContainsBefore(s: string, rest: string, needle: string)
    requires Contains(s, needle)
    ensures Contains(s + rest, needle)
    decreases |s|
  {
    if StartsWith(s, needle) {
      assert (s + rest)[..|needle|] == s[..|needle|];
    } else {
      assert (s + rest)[1..] == s[1..] + rest;
      ContainsBefore(s[1..], rest, needle);
    }
  }

  /** `a + b + c` contains `b` */
  lemma ContainsMiddle(a: string, b: string, c: string)
    ensures Contains(a + b + c, b)
  {
    assert StartsWith(b + c, b) by {
      assert (b + c)[..|b|] == b;
    }
    ContainsAfter(a, b + c, b);
    assert a + (b + c) == a + b + c;
  }

  /** where `a + b` occurs, `a` occurs */
  lemma {:induction false} ContainsFront(s: string, a: string, b: string)
    requires Contains(s, a + b)
    ensures Contains(s, a)
    decreases |s|
  {
    if StartsWith(s, a + b) {
      assert s[..|a|] == (a + b)[..|a|] == a;
    } else {
      ContainsFront(s[1..], a, b);
    }
  }

  /** every piece of a join occurs in the joined text */
  lemma {:induction false} JoinContains(ws: seq<string>, sep: string, i: nat)
    requires i < |ws|
    ensures Contains(Join(ws, sep), ws[i])
    decreases i
  {
    if i == 0 {
      if |ws| == 1 {
        ContainsMiddle("", ws[0], "");
        assert "" + ws[0] + "" == ws[0];
      } else {
        ContainsMiddle("", ws[0], sep + Join(ws[1..], sep));
        assert "" + ws[0] + (sep + Join(ws[1..], sep)) == Join(ws, sep);
      }
    } else {
      JoinContains(ws[1..], sep, i - 1);
      ContainsAfter(ws[0] + sep, Join(ws[1..], sep), ws[i]);
    }
  }

  /** `s.replace(pat, "")`: every non-overlapping occurrence of `pat`,
      scanning from the left, removed */
  function RemoveAll(s: string, pat: string): string
    requires pat != []
    decreases |s|
  {
    if s == [] then []
    else if StartsWith(s, pat) then RemoveAll(s[|pat|..], pat)
    else [s[0]] + RemoveAll(s[1..], pat)
  }

  /** every character of an occurring needle occurs in the text */
  lemma {:induction false} ContainsHas(hay: string, needle: string, k: nat)
    requires k < |needle|
    ensures Contains(hay, needle) ==> needle[k] in hay
    decreases |hay|
  {
    if Contains(hay, needle) {
      if StartsWith(hay, needle) {
        assert hay[k] == needle[k];
      } else {
        ContainsHas(hay[1..], needle, k);
        assert needle[k] in hay[1..];
      }
    }
  }

  /** replacing a pattern that does not occur changes nothing */
  lemma {:induction false} RemoveAllAbsent(s: string, pat: string)
    requires pat != []
    requires !Contains(s, pat)
    ensures RemoveAll(s, pat) == s
    decreases |s|
  {
    if s != [] {
      RemoveAllAbsent(s[1..], pat);
      assert s == [s[0]] + s[1..];
    }
  }

  function DigitChar(d: nat): char
    requires d < 10
  {
    "0123456789"[d]
  }

  function NatToDecimal(n: nat): string
    decreases n
  {
    if n < 10 then [DigitChar(n)] else NatToDecimal(n / 10) + [DigitChar(n % 10)]
  }

  /** `str(i)` for a Python int */
  function IntToDecimal(i: int): string
  {
    if i < 0 then "-" + NatToDecimal(-i) else NatToDecimal(i)
  }
}
