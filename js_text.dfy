/**
  String operations of JavaScript that the form controller relies on:
  the whitespace set of String.prototype.trim and trim itself
  (ECMAScript 2023, sections 12.2, 12.3 and 22.1.3.32).
 */
module JsText {

  /** WhiteSpace (section 12.2: TAB, VT, FF, ZWNBSP and every code point of
      Unicode category Zs) and LineTerminator (section 12.3: LF, CR, LS, PS). */
  predicate IsJsWhitespace(c: char) {
    || c == '\t' || c == '\U{000B}' || c == '\U{000C}' || c == '\U{FEFF}'
    || c == ' ' || c == '\U{00A0}' || c == '\U{1680}' || ('\U{2000}' <= c <= '\U{200A}')
    || c == '\U{202F}' || c == '\U{205F}' || c == '\U{3000}'
    || c == '\n' || c == '\r' || c == '\U{2028}' || c == '\U{2029}'
  }

  /** Every character of `s` is whitespace (the empty string included). */
  predicate IsBlank(s: string) {
    forall i :: 0 <= i < |s| ==> IsJsWhitespace(s[i])
  }

  /** `s` neither starts nor ends with whitespace. */
  predicate IsTrimmed(s: string) {
    s != [] ==> !IsJsWhitespace(s[0]) && !IsJsWhitespace(s[|s| - 1])
  }

  /** Removes the leading whitespace of `s`. */
  function TrimStart(s: string): (r: string)
    ensures |r| <= |s|
  {
    if s != [] && IsJsWhitespace(s[0]) then TrimStart(s[1..]) else s
  }

  /** Removes the trailing whitespace of `s`. */
  function TrimEnd(s: string): (r: string)
    ensures |r| <= |s|
  {
    if s != [] && IsJsWhitespace(s[|s| - 1]) then TrimEnd(s[..|s| - 1]) else s
  }

  /** String.prototype.trim. */
  function Trim(s: string): (r: string)
    ensures |r| <= |s|
  {
    TrimEnd(TrimStart(s))
  }

  /** TrimStart leaves the suffix of `s` after its longest blank prefix. */
  lemma {:induction false} TrimStartShape(s: string)
    ensures var r := TrimStart(s);
      r == s[|s| - |r|..] && IsBlank(s[..|s| - |r|]) && (r != [] ==> !IsJsWhitespace(r[0]))
  {
    if s != [] && IsJsWhitespace(s[0]) {
      var r := TrimStart(s[1..]);
      TrimStartShape(s[1..]);
      assert s[..|s| - |r|] == [s[0]] + s[1..][..|s| - 1 - |r|];
    } else {
      assert s[..0] == [];
    }
  }

  /** TrimEnd leaves the prefix of `s` before its longest blank suffix. */
  lemma {:induction false} TrimEndShape(s: string)
    ensures var r := TrimEnd(s);
      r == s[..|r|] && IsBlank(s[|r|..]) && (r != [] ==> !IsJsWhitespace(r[|r| - 1]))
  {
    if s != [] && IsJsWhitespace(s[|s| - 1]) {
      var r := TrimEnd(s[..|s| - 1]);
      TrimEndShape(s[..|s| - 1]);
      assert s[|r|..] == s[..|s| - 1][|r|..] + [s[|s| - 1]];
    } else {
      assert s[|s|..] == [];
    }
  }

  /** Trim's result has no whitespace at either end, and it is empty exactly
      when `s` is blank. */
  lemma TrimShape(s: string)
    ensures IsTrimmed(Trim(s))
    ensures Trim(s) == [] <==> IsBlank(s)
  {
    var t := TrimStart(s);
    var k := |s| - |t|;
    TrimStartShape(s);
    TrimEndShape(t);
    var r := TrimEnd(t);
    if r != [] {
      assert r[0] == t[0] == s[k];
    } else {
      assert t[0..] == t;
      assert s == s[..k] + t;
      BlankConcat(s[..k], t);
    }
  }

  /** Where Trim's result sits in `s`: it starts after the blank prefix. */
  lemma TrimIsInfix(s: string)
    ensures var k := |s| - |TrimStart(s)|;
      k + |Trim(s)| <= |s| && Trim(s) == s[k..k + |Trim(s)|]
      && IsBlank(s[..k]) && IsBlank(s[k + |Trim(s)|..])
  {
    var t := TrimStart(s);
    var k := |s| - |t|;
    var r := TrimEnd(t);
    TrimStartShape(s);
    TrimEndShape(t);
    assert t == s[k..];
    assert r == t[..|r|];
    assert s[k + |r|..] == t[|r|..];
  }

  /** Trim is determined by its shape: any infix of `s` with blank
      surroundings and no whitespace at either end is Trim(s). */
  lemma {:induction false} TrimCharacterized(s: string, i: nat, j: nat)
    requires i <= j <= |s|
    requires IsBlank(s[..i]) && IsBlank(s[j..])
    requires IsTrimmed(s[i..j])
    ensures Trim(s) == s[i..j]
  {
    if i == j {
      assert s == s[..i] + s[j..];
      BlankConcat(s[..i], s[j..]);
      TrimShape(s);
    } else {
      TrimStartCharacterized(s, i);
      var t := s[i..];
      assert t[..j - i] == s[i..j];
      TrimEndCharacterized(t, j - i);
    }
  }

  lemma {:induction false} TrimStartCharacterized(s: string, i: nat)
    requires i < |s| && IsBlank(s[..i]) && !IsJsWhitespace(s[i])
    ensures TrimStart(s) == s[i..]
  {
    if i > 0 {
      assert s[1..][..i - 1] == s[1..i];
      TrimStartCharacterized(s[1..], i - 1);
      assert s[1..][i - 1..] == s[i..];
    }
  }

  lemma {:induction false} TrimEndCharacterized(s: string, j: nat)
    requires 0 < j <= |s| && IsBlank(s[j..]) && !IsJsWhitespace(s[j - 1])
    ensures TrimEnd(s) == s[..j]
  {
    if j < |s| {
      var p := s[..|s| - 1];
      assert p[j..] == s[j..|s| - 1];
      TrimEndCharacterized(p, j);
      assert p[..j] == s[..j];
    }
  }

  /** Trimming an already trimmed string changes nothing. */
  lemma TrimOfTrimmed(s: string)
    requires IsTrimmed(s)
    ensures Trim(s) == s
  {
    assert s[..0] == [] && s[|s|..] == [] && s[0..|s|] == s;
    TrimCharacterized(s, 0, |s|);
  }

  /** Trim is idempotent. */
  lemma TrimIdempotent(s: string)
    ensures Trim(Trim(s)) == Trim(s)
  {
    TrimShape(s);
    TrimOfTrimmed(Trim(s));
  }

  /** Whitespace added in front of a string does not survive Trim. */
  lemma TrimBlankPrefix(w: string, t: string)
    requires IsBlank(w)
    ensures Trim(w + t) == Trim(t)
  {
    TrimStartSkipsBlank(w, t);
  }

  /** Whitespace added after a string does not survive Trim. */
  lemma TrimBlankSuffix(t: string, w: string)
    requires IsBlank(w)
    ensures Trim(t + w) == Trim(t)
  {
    if IsBlank(t) {
      BlankConcat(t, w);
      TrimShape(t);
      TrimShape(t + w);
    } else {
      TrimStartKeepsTail(t, w);
      TrimEndSkipsBlank(TrimStart(t), w);
    }
  }

  lemma {:induction false} TrimStartSkipsBlank(w: string, t: string)
    requires IsBlank(w)
    ensures TrimStart(w + t) == TrimStart(t)
  {
    if w != [] {
      assert IsJsWhitespace((w + t)[0]) && (w + t)[1..] == w[1..] + t;
      assert IsBlank(w[1..]) by {
        forall i | 0 <= i < |w| - 1 ensures IsJsWhitespace(w[1..][i]) { assert w[1..][i] == w[i + 1]; }
      }
      TrimStartSkipsBlank(w[1..], t);
    } else {
      assert w + t == t;
    }
  }

  lemma {:induction false} TrimEndSkipsBlank(t: string, w: string)
    requires IsBlank(w)
    ensures TrimEnd(t + w) == TrimEnd(t)
  {
    if w != [] {
      var p := w[..|w| - 1];
      assert (t + w)[|t + w| - 1] == w[|w| - 1] && (t + w)[..|t + w| - 1] == t + p;
      TrimEndSkipsBlank(t, p);
    } else {
      assert t + w == t;
    }
  }

  lemma {:induction false} TrimStartKeepsTail(t: string, w: string)
    requires !IsBlank(t)
    ensures TrimStart(t + w) == TrimStart(t) + w
  {
    assert (t + w)[0] == t[0];
    if IsJsWhitespace(t[0]) {
      assert (t + w)[1..] == t[1..] + w;
      assert !IsBlank(t[1..]) by {
        var i :| 0 <= i < |t| && !IsJsWhitespace(t[i]);
        assert t[1..][i - 1] == t[i];
      }
      TrimStartKeepsTail(t[1..], w);
    }
  }

  lemma BlankConcat(a: string, b: string)
    requires IsBlank(a) && IsBlank(b)
    ensures IsBlank(a + b)
  {
    forall i | 0 <= i < |a + b| ensures IsJsWhitespace((a + b)[i]) {
      if i >= |a| { assert (a + b)[i] == b[i - |a|]; }
    }
  }

  /** Only a blank string loses everything to TrimStart. */
  lemma EmptyTrimStartIsBlank(s: string)
    ensures TrimStart(s) == [] ==> IsBlank(s)
  {
    TrimStartShape(s);
    assert s[..|s|] == s;
  }

  /** Only a blank string loses everything to TrimEnd. */
  lemma EmptyTrimEndIsBlank(s: string)
    ensures TrimEnd(s) == [] ==> IsBlank(s)
  {
    TrimEndShape(s);
    assert s[0..] == s;
  }

  /** Joining two non-blank strings with a separator and trimming keeps
      everything between the first and the last non-whitespace character. */
  lemma TrimJoin(a: string, sep: string, b: string)
    requires !IsBlank(a) && !IsBlank(b)
    ensures Trim(a + sep + b) == TrimStart(a) + sep + TrimEnd(b)
  {
    var s := a + sep + b;
    var ta, tb := TrimStart(a), TrimEnd(b);
    TrimStartShape(a);
    TrimEndShape(b);
    EmptyTrimStartIsBlank(a);
    EmptyTrimEndIsBlank(b);
    var i, j := |a| - |ta|, |a| + |sep| + |tb|;
    var m := ta + sep + tb;
    assert s[..i] == a[..i];
    assert s[j..] == b[|tb|..];
    assert s[i..j] == m;
    assert m[0] == ta[0] && m[|m| - 1] == tb[|tb| - 1];
    TrimCharacterized(s, i, j);
  }
}
