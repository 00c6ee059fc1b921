/** `clean_text` (app/core/utils.py): lower-case, strip, then delete every character
    outside `[a-zA-Z0-9\s]`. */
module Utils {
  import opened Text

  /** The characters the pattern `[^a-zA-Z0-9\s]` does not match, i.e. the ones it keeps. */
  predicate Kept(c: char)
  {
    'a' <= c <= 'z' || 'A' <= c <= 'Z' || '0' <= c <= '9' || IsSpace(c)
  }

  /** `a` can be obtained from `b` by deleting characters (matched greedily from the left). */
  ghost predicate IsSubsequence(a: string, b: string)
    decreases |b|
  {
    if a == [] then true
    else if b == [] then false
    else if a[0] == b[0] then IsSubsequence(a[1..], b[1..])
    else IsSubsequence(a, b[1..])
  }

  /** `re.sub(r'[^a-zA-Z0-9\s]', '', t)`: every kept character survives as often as it
      occurs, every other one disappears. */
  function DeleteOthers(t: string): (r: string)
    ensures |r| <= |t|
    ensures forall c :: c in r ==> Kept(c) && c in t
    ensures forall c :: multiset(r)[c] == if Kept(c) then multiset(t)[c] else 0
  {
    if t == [] then []
    else
      var rest := DeleteOthers(t[1..]);
      assert t == [t[0]] + t[1..];
      if Kept(t[0]) then [t[0]] + rest else rest
  }

  /** The deletion keeps the order of what it keeps. */
  lemma {:induction false} DeleteOthersSubsequence(t: string)
    ensures IsSubsequence(DeleteOthers(t), t)
  {
    if t != [] {
      DeleteOthersSubsequence(t[1..]);
      var r := DeleteOthers(t);
      if Kept(t[0]) {
        assert r[0] == t[0] && r[1..] == DeleteOthers(t[1..]);
      } else {
        assert r == DeleteOthers(t[1..]);
        assert r != [] ==> r[0] in r;
      }
    }
  }

  /** Text made only of kept characters passes the deletion unchanged. */
  lemma {:induction false} DeleteOthersUnchanged(t: string)
    requires forall i :: 0 <= i < |t| ==> Kept(t[i])
    ensures DeleteOthers(t) == t
  {
    if t != [] {
      DeleteOthersUnchanged(t[1..]);
      assert t == [t[0]] + t[1..];
    }
  }

  lemma StripChars(s: string)
    ensures forall c :: c in Strip(s) ==> c in s
  {
    var l := LStrip(s);
    assert forall c :: c in RStrip(l) ==> c in l;
    assert forall c :: c in l ==> c in s;
  }

  /** `clean_text(text)`. */
  function CleanText(text: string): (r: string)
    ensures forall c :: c in r ==> IsLowerAlnum(c) || IsSpace(c)
    ensures IsSubsequence(r, Strip(LowerStr(text)))
    ensures |r| <= |text|
    ensures forall c :: Kept(c) ==> multiset(r)[c] == multiset(Strip(LowerStr(text)))[c]
    ensures forall c :: !Kept(c) ==> c !in r
  {
    var t := Strip(LowerStr(text));
    StripChars(LowerStr(text));
    DeleteOthersSubsequence(t);
    DeleteOthers(t)
  }

  /** Text that is already lower-case `[a-z0-9]` with whitespace only inside is returned as is. */
  lemma CleanTextUnchanged(s: string)
    requires forall i :: 0 <= i < |s| ==> IsLowerAlnum(s[i]) || IsSpace(s[i])
    requires s == [] || (!IsSpace(s[0]) && !IsSpace(s[|s| - 1]))
    ensures CleanText(s) == s
  {
    assert LowerStr(s) == s;
    StripUnchanged(s);
    DeleteOthersUnchanged(s);
  }

  lemma StripShortens(t: string)
    requires t != [] && (IsSpace(t[0]) || IsSpace(t[|t| - 1]))
    ensures |Strip(t)| < |t|
  {
    var l := LStrip(t);
    if !IsSpace(t[0]) {
      assert l == t;
    }
  }

  lemma CleanTextShortens(r: string)
    requires r != [] && (IsSpace(r[0]) || IsSpace(r[|r| - 1]))
    ensures |CleanText(r)| < |r|
  {
    var t := LowerStr(r);
    assert t[0] == Lower(r[0]) && t[|t| - 1] == Lower(r[|r| - 1]);
    StripShortens(t);
    assert |DeleteOthers(Strip(t))| <= |Strip(t)|;
  }

  /** Applying `clean_text` again changes nothing exactly when the first result has no
      whitespace at either end. */
  lemma CleanTextTwice(s: string)
    ensures var r := CleanText(s);
      CleanText(r) == r <==> (r == [] || (!IsSpace(r[0]) && !IsSpace(r[|r| - 1])))
  {
    CleanTextAgain(CleanText(s));
  }

  /** Text over `[a-z0-9\s]` is a fixed point of `clean_text` exactly when it has no
      whitespace at either end. */
  lemma CleanTextAgain(r: string)
    requires forall c :: c in r ==> IsLowerAlnum(c) || IsSpace(c)
    ensures CleanText(r) == r <==> (r == [] || (!IsSpace(r[0]) && !IsSpace(r[|r| - 1])))
  {
    if r == [] || (!IsSpace(r[0]) && !IsSpace(r[|r| - 1])) {
      assert forall i :: 0 <= i < |r| ==> r[i] in r;
      CleanTextUnchanged(r);
    } else {
      CleanTextShortens(r);
    }
  }

  lemma CleanBangSpace(c: char)
    requires IsLowerAlnum(c)
    ensures Strip(LowerStr(['!', ' ', c])) == ['!', ' ', c]
  {
    var s := ['!', ' ', c];
    LowerStrUnchanged(s);
    assert !IsSpace(s[0]) && !IsSpace(s[2]);
    StripUnchanged(s);
  }

  lemma DeleteBangSpace(c: char)
    requires IsLowerAlnum(c)
    ensures DeleteOthers(['!', ' ', c]) == [' ', c]
  {
    var s, t, u := ['!', ' ', c], [' ', c], [c];
    assert s[1..] == t && t[1..] == u && u[1..] == [];
    assert !Kept(s[0]) && Kept(t[0]) && Kept(u[0]);
    DeleteOthersUnchanged(t);
  }

  lemma LStripSpace(c: char)
    requires !IsSpace(c)
    ensures LStrip([' ', c]) == [c]
  {
    var t, u := [' ', c], [c];
    assert t != [] && IsSpace(t[0]) && t[1..] == u;
    assert LStrip(t) == LStrip(u);
    assert u != [] && !IsSpace(u[0]);
  }

  lemma StripSpace(c: char)
    requires IsLowerAlnum(c)
    ensures Strip(LowerStr([' ', c])) == [c]
  {
    var t, u := [' ', c], [c];
    LowerStrUnchanged(t);
    LStripSpace(c);
    assert RStrip(u) == u;
  }

  lemma CleanSpace(c: char)
    requires IsLowerAlnum(c)
    ensures CleanText([' ', c]) == [c]
  {
    var u := [c];
    StripSpace(c);
    assert Kept(u[0]);
    DeleteOthersUnchanged(u);
    assert CleanText([' ', c]) == DeleteOthers(u);
  }

  lemma CleanBang(c: char)
    requires IsLowerAlnum(c)
    ensures CleanText(['!', ' ', c]) == [' ', c]
  {
    CleanBangSpace(c);
    DeleteBangSpace(c);
  }

  /** `clean_text` is not idempotent: stripping runs before the deletion, so whitespace that
      a deleted character used to shield ends up at the edge of the result. For every lower-case
      letter or digit `c`, `"! c"` cleans to `" c"`, which cleans to `"c"`. */
  lemma CleanTextNotIdempotent(c: char)
    requires IsLowerAlnum(c)
    ensures CleanText(['!', ' ', c]) == [' ', c]
    ensures CleanText(CleanText(['!', ' ', c])) != CleanText(['!', ' ', c])
  {
    CleanBang(c);
    CleanSpace(c);
    assert |[c]| != |[' ', c]|;
  }
}
