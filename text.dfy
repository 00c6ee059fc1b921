/** Python string operations the engines rely on, over `string` (a sequence of `char`):
    `str.isspace`, `str.lower` (ASCII part only), `str.strip`, `str.split()` and `' '.join`. */
module Text {

  /** Python's `str.isspace()`. The same characters are removed by `str.strip()`,
      separate words for `str.split()` and are matched by the regular-expression class `\s`. */
  predicate IsSpace(c: char)
  {
    || c == ' '
    || '\t' <= c <= '\r'
    || '\U{1c}' <= c <= '\U{1f}'
    || c == '\U{85}' || c == '\U{a0}' || c == '\U{1680}'
    || '\U{2000}' <= c <= '\U{200a}'
    || c == '\U{2028}' || c == '\U{2029}' || c == '\U{202f}' || c == '\U{205f}' || c == '\U{3000}'
  }

  /** The characters of the class `[a-z0-9]`. */
  predicate IsLowerAlnum(c: char)
  {
    'a' <= c <= 'z' || '0' <= c <= '9'
  }

  /** `str.lower()` on one character, ASCII letters only. */
  function Lower(c: char): (r: char)
    ensures !('A' <= r <= 'Z')
    ensures !('A' <= c <= 'Z') ==> r == c
  {
    if 'A' <= c <= 'Z' then (c as int - 'A' as int + 'a' as int) as char else c
  }

  /** `str.lower()` on a string: no upper-case ASCII letter is left, and every other character
      stays where it was. */
  function LowerStr(s: string): (r: string)
    ensures |r| == |s|
    ensures forall i :: 0 <= i < |r| ==> !('A' <= r[i] <= 'Z')
    ensures forall i :: 0 <= i < |s| && !('A' <= s[i] <= 'Z') ==> r[i] == s[i]
  {
    seq(|s|, i requires 0 <= i < |s| => Lower(s[i]))
  }

  /** Text without upper-case ASCII letters is left alone by `lower()`. */
  lemma LowerStrUnchanged(s: string)
    requires forall i :: 0 <= i < |s| ==> !('A' <= s[i] <= 'Z')
    ensures LowerStr(s) == s
  {
  }

  /** `str.lstrip()`: the suffix of `s` left after its leading whitespace. */
  function LStrip(s: string): (r: string)
    ensures |r| <= |s| && r == s[|s| - |r|..]
    ensures r == [] || !IsSpace(r[0])
    ensures forall i :: 0 <= i < |s| - |r| ==> IsSpace(s[i])
  {
    if s != [] && IsSpace(s[0]) then LStrip(s[1..]) else s
  }

  /** `str.rstrip()`: the prefix of `s` left after its trailing whitespace. */
  function RStrip(s: string): (r: string)
    ensures |r| <= |s| && r == s[..|r|]
    ensures r == [] || !IsSpace(r[|r| - 1])
    ensures forall i :: |r| <= i < |s| ==> IsSpace(s[i])
  {
    if s != [] && IsSpace(s[|s| - 1]) then RStrip(s[..|s| - 1]) else s
  }

  /** `str.strip()`: a slice of `s` that neither starts nor ends with whitespace. */
  function Strip(s: string): (r: string)
    ensures |r| <= |s|
    ensures r == [] || (!IsSpace(r[0]) && !IsSpace(r[|r| - 1]))
    ensures |r| <= |LStrip(s)| && r == LStrip(s)[..|r|]
  {
    RStrip(LStrip(s))
  }

  /** Text that starts and ends with a non-whitespace character is left alone by `strip()`. */
  lemma StripUnchanged(s: string)
    requires s == [] || (!IsSpace(s[0]) && !IsSpace(s[|s| - 1]))
    ensures Strip(s) == s
  {
  }

  /** A word of `str.split()`: non-empty and free of whitespace. */
  ghost predicate IsWord(w: string)
  {
    w != [] && forall i :: 0 <= i < |w| ==> !IsSpace(w[i])
  }

  /** Length of the run of non-whitespace characters at the front of `s`. */
  function WordLen(s: string): (n: nat)
    ensures n <= |s|
    ensures forall i :: 0 <= i < n ==> !IsSpace(s[i])
    ensures n < |s| ==> IsSpace(s[n])
  {
    if s == [] || IsSpace(s[0]) then 0 else 1 + WordLen(s[1..])
  }

  /** `str.split()` with no separator: the maximal runs of non-whitespace, in order. */
  function Split(s: string): (ws: seq<string>)
    ensures forall w :: w in ws ==> IsWord(w)
    decreases |s|
  {
    if s == [] then []
    else if IsSpace(s[0]) then Split(s[1..])
    else
      var n := WordLen(s);
      [s[..n]] + Split(s[n..])
  }

  /** `s` with every whitespace character removed. */
  function NonSpace(s: string): string
  {
    if s == [] then []
    else (if IsSpace(s[0]) then [] else [s[0]]) + NonSpace(s[1..])
  }

  /** `''.join(ws)`. */
  function Concat(ws: seq<string>): string
  {
    if ws == [] then [] else ws[0] + Concat(ws[1..])
  }

  lemma {:induction false} NonSpaceOfWord(w: string, t: string)
    requires forall i :: 0 <= i < |w| ==> !IsSpace(w[i])
    ensures NonSpace(w + t) == w + NonSpace(t)
  {
    if w != [] {
      assert (w + t)[0] == w[0] && (w + t)[1..] == w[1..] + t;
      NonSpaceOfWord(w[1..], t);
      assert w == [w[0]] + w[1..];
    } else {
      assert w + t == t;
    }
  }

  /** The words of `str.split()` hold every non-whitespace character of `s`, in order: read
      one after the other they spell `s` with its whitespace removed. */
  lemma {:induction false} SplitContent(s: string)
    ensures Concat(Split(s)) == NonSpace(s)
    decreases |s|
  {
    if s == [] {
    } else if IsSpace(s[0]) {
      SplitContent(s[1..]);
    } else {
      var n := WordLen(s);
      SplitContent(s[n..]);
      assert s == s[..n] + s[n..];
      NonSpaceOfWord(s[..n], s[n..]);
      var ws := Split(s);
      assert ws[0] == s[..n] && ws[1..] == Split(s[n..]);
    }
  }

  /** `' '.join(ws)`. */
  function Join(ws: seq<string>): string
  {
    if ws == [] then ""
    else if |ws| == 1 then ws[0]
    else ws[0] + " " + Join(ws[1..])
  }

  /** Every character of a word of `Split(s)` is a character of `s`. */
  lemma {:induction false} SplitChars(s: string)
    ensures forall w, c :: w in Split(s) && c in w ==> c in s
    decreases |s|
  {
    if s == [] {
    } else if IsSpace(s[0]) {
      SplitChars(s[1..]);
    } else {
      var n := WordLen(s);
      SplitChars(s[n..]);
      forall w, c | w in Split(s) && c in w ensures c in s {
        if w == s[..n] {
          assert c in s[..n];
        } else {
          assert w in Split(s[n..]);
          assert c in s[n..];
        }
      }
    }
  }

  lemma {:induction false} WordLenOfWordThenSpace(w: string, t: string)
    requires forall i :: 0 <= i < |w| ==> !IsSpace(w[i])
    requires t == [] || IsSpace(t[0])
    ensures WordLen(w + t) == |w|
    decreases |w|
  {
    if w != [] {
      assert (w + t)[0] == w[0];
      assert (w + t)[1..] == w[1..] + t;
      WordLenOfWordThenSpace(w[1..], t);
    } else {
      assert w + t == t;
    }
  }

  /** A word followed by nothing or by whitespace splits off as the first word. */
  lemma SplitWordThenRest(w: string, t: string)
    requires IsWord(w)
    requires t == [] || IsSpace(t[0])
    ensures Split(w + t) == [w] + Split(t)
  {
    var s := w + t;
    WordLenOfWordThenSpace(w, t);
    assert !IsSpace(s[0]) by { assert s[0] == w[0]; }
    assert s[..|w|] == w;
    assert s[|w|..] == t;
  }

  /** Any whitespace character in front of `t`, not only the space, is dropped by `split()`:
      together with `SplitWordThenRest` this fixes the words of every input. */
  lemma SplitLeadingSpace(c: char, t: string)
    requires IsSpace(c)
    ensures Split([c] + t) == Split(t)
  {
    assert ([c] + t)[1..] == t;
  }

  /** Two words separated by any single whitespace character split into exactly those two words. */
  lemma SplitTwoWords(w1: string, c: char, w2: string)
    requires IsWord(w1) && IsWord(w2) && IsSpace(c)
    ensures Split(w1 + [c] + w2) == [w1, w2]
  {
    assert w1 + [c] + w2 == w1 + ([c] + w2);
    SplitWordThenRest(w1, [c] + w2);
    SplitLeadingSpace(c, w2);
    SplitWordThenRest(w2, "");
    assert w2 + "" == w2;
  }

  /** `str.split()` undoes `' '.join` of words. */
  lemma {:induction false} SplitJoin(ws: seq<string>)
    requires forall w :: w in ws ==> IsWord(w)
    ensures Split(Join(ws)) == ws
  {
    if ws == [] {
    } else if |ws| == 1 {
      SplitWordThenRest(ws[0], "");
      assert ws[0] + "" == ws[0];
    } else {
      var rest := Join(ws[1..]);
      assert Join(ws) == ws[0] + (" " + rest);
      SplitJoin(ws[1..]);
      assert IsWord(ws[0]);
      SplitWordThenRest(ws[0], " " + rest);
      SplitLeadingSpace(' ', rest);
      assert ws == [ws[0]] + ws[1..];
    }
  }

  /** A word made only of the characters `[a-z0-9]`. */
  ghost predicate IsAlnumWord(w: string)
  {
    w != [] && forall i :: 0 <= i < |w| ==> IsLowerAlnum(w[i])
  }

  /** The shape `' '.join(t.split())` gives text over `[a-z0-9\s]`: only `[a-z0-9]` and the
      space, single spaces only, no space at either end. */
  ghost predicate Normalized(p: string)
  {
    && (forall i :: 0 <= i < |p| ==> IsLowerAlnum(p[i]) || p[i] == ' ')
    && (p != [] ==> p[0] != ' ' && p[|p| - 1] != ' ')
    && (forall i :: 0 <= i < |p| - 1 ==> p[i] != ' ' || p[i + 1] != ' ')
  }

  /** Normalized text has no whitespace at either end. */
  lemma NormalizedEdges(p: string)
    requires Normalized(p)
    ensures p == [] || (!IsSpace(p[0]) && !IsSpace(p[|p| - 1]))
  {
    if p != [] {
      var first, last := p[0], p[|p| - 1];
      assert IsLowerAlnum(first) || first == ' ';
      assert IsLowerAlnum(last) || last == ' ';
    }
  }

  /** Joining `[a-z0-9]` words with single spaces gives normalized text. */
  lemma {:induction false} JoinNormalized(ws: seq<string>)
    requires forall w :: w in ws ==> IsAlnumWord(w)
    ensures Normalized(Join(ws))
    ensures ws != [] ==> Join(ws) != []
  {
    if ws == [] {
    } else if |ws| == 1 {
      assert IsAlnumWord(ws[0]);
    } else {
      var a, b := ws[0], Join(ws[1..]);
      JoinNormalized(ws[1..]);
      var p := a + " " + b;
      assert Join(ws) == p;
      assert IsAlnumWord(a);
      forall i | 0 <= i < |p| ensures IsLowerAlnum(p[i]) || p[i] == ' ' {
        if i < |a| { assert p[i] == a[i]; }
        else if i > |a| { assert p[i] == b[i - |a| - 1]; }
      }
      assert p[0] == a[0];
      assert p[|p| - 1] == b[|b| - 1];
      forall i | 0 <= i < |p| - 1 ensures p[i] != ' ' || p[i + 1] != ' ' {
        if i < |a| {
          assert p[i] == a[i];
        } else if i == |a| {
          assert p[i + 1] == b[0];
        } else {
          assert p[i] == b[i - |a| - 1] && p[i + 1] == b[i - |a|];
        }
      }
    }
  }
}
