/** The prompt both text handlers build before calling the completion API:
    `"Receta con " + ctx.message.text.trim()`. */
module Prompt {

  /** The characters `String.prototype.trim` removes: ECMAScript WhiteSpace
      (tab, vertical tab, form feed, space, no-break space, the byte order mark and
      the other space separators of Unicode) and LineTerminator. */
  predicate IsJsWhitespace(c: char) {
    c == '\t' || c == '\U{B}' || c == '\U{C}' || c == ' ' || c == '\U{A0}' || c == '\U{FEFF}'
    || c == '\U{1680}' || ('\U{2000}' <= c <= '\U{200A}') || c == '\U{202F}' || c == '\U{205F}'
    || c == '\U{3000}'
    || c == '\n' || c == '\r' || c == '\U{2028}' || c == '\U{2029}'
  }

  /** `s` with its leading whitespace removed; never longer than `s`. */
  function TrimStart(s: string): (r: string)
    ensures |r| <= |s|
  {
    if s != [] && IsJsWhitespace(s[0]) then TrimStart(s[1..]) else s
  }

  /** `s` with its trailing whitespace removed; never longer than `s`. */
  function TrimEnd(s: string): (r: string)
    ensures |r| <= |s|
  {
    if s != [] && IsJsWhitespace(s[|s| - 1]) then TrimEnd(s[..|s| - 1]) else s
  }

  /** `String.prototype.trim`. */
  function Trim(s: string): (r: string)
    ensures |r| <= |s|
    ensures r == [] || (!IsJsWhitespace(r[0]) && !IsJsWhitespace(r[|r| - 1]))
  {
    TrimStartSpec(s);
    TrimEndSpec(TrimStart(s));
    TrimEnd(TrimStart(s))
  }

  /** Trimming the start leaves a suffix of `s`; everything cut off is whitespace,
      and the suffix does not start with whitespace. */
  lemma {:induction false} TrimStartSpec(s: string)
    ensures |TrimStart(s)| <= |s| && TrimStart(s) == s[|s| - |TrimStart(s)|..]
    ensures forall i :: 0 <= i < |s| - |TrimStart(s)| ==> IsJsWhitespace(s[i])
    ensures TrimStart(s) == [] || !IsJsWhitespace(TrimStart(s)[0])
  {
    if s != [] && IsJsWhitespace(s[0]) {
      var u, r := s[1..], TrimStart(s[1..]);
      TrimStartSpec(u);
      assert u[|u| - |r|..] == s[|s| - |r|..];
      forall i | 1 <= i < |s| - |r|
        ensures IsJsWhitespace(s[i])
      {
        assert s[i] == u[i - 1];
      }
    } else {
      assert s[0..] == s;
    }
  }

  /** Trimming the end leaves a prefix of `s`; everything cut off is whitespace,
      and the prefix does not end with whitespace. */
  lemma {:induction false} TrimEndSpec(s: string)
    ensures |TrimEnd(s)| <= |s| && TrimEnd(s) == s[..|TrimEnd(s)|]
    ensures forall i :: |TrimEnd(s)| <= i < |s| ==> IsJsWhitespace(s[i])
    ensures TrimEnd(s) == [] || !IsJsWhitespace(TrimEnd(s)[|TrimEnd(s)| - 1])
  {
    if s != [] && IsJsWhitespace(s[|s| - 1]) {
      var u, r := s[..|s| - 1], TrimEnd(s[..|s| - 1]);
      TrimEndSpec(u);
      assert u[..|r|] == s[..|r|];
      forall i | |r| <= i < |s| - 1
        ensures IsJsWhitespace(s[i])
      {
        assert s[i] == u[i];
      }
    } else {
      assert s[..|s|] == s;
    }
  }

  /** The trimmed text is the slice `s[i..j]` that is left when the whitespace
      margins are cut off, and it neither starts nor ends with whitespace. */
  lemma {:induction false} TrimIsInnerSlice(s: string)
    ensures var i := |s| - |TrimStart(s)|; var j := i + |Trim(s)|;
      j <= |s| && Trim(s) == s[i..j]
      && (forall k :: 0 <= k < i ==> IsJsWhitespace(s[k]))
      && (forall k :: j <= k < |s| ==> IsJsWhitespace(s[k]))
    ensures Trim(s) == [] || (!IsJsWhitespace(Trim(s)[0]) && !IsJsWhitespace(Trim(s)[|Trim(s)| - 1]))
  {
    var t := TrimStart(s);
    var r := TrimEnd(t);
    TrimStartSpec(s);
    TrimEndSpec(t);
    CutBothEnds(s, t, r);
    if r != [] {
      assert r[0] == t[0];
    }
  }

  /** A prefix `r` of a suffix `t` of `s` is a slice of `s`; what `r` leaves of `t`'s end is `s`'s end. */
  lemma {:induction false} CutBothEnds(s: string, t: string, r: string)
    requires |t| <= |s| && t == s[|s| - |t|..]
    requires |r| <= |t| && r == t[..|r|]
    requires forall m :: |r| <= m < |t| ==> IsJsWhitespace(t[m])
    ensures var i := |s| - |t|; r == s[i..i + |r|]
    ensures forall k :: |s| - |t| + |r| <= k < |s| ==> IsJsWhitespace(s[k])
  {
    var i := |s| - |t|;
    forall k | i + |r| <= k < |s|
      ensures IsJsWhitespace(s[k])
    {
      assert s[k] == t[k - i];
    }
  }

  /** Whitespace in front of a text does not change what trimming leaves. */
  lemma {:induction false} TrimStartSkipsMargin(a: string, t: string)
    requires forall k :: 0 <= k < |a| ==> IsJsWhitespace(a[k])
    ensures TrimStart(a + t) == TrimStart(t)
  {
    if a != [] {
      assert (a + t)[1..] == a[1..] + t;
      TrimStartSkipsMargin(a[1..], t);
    } else {
      assert a + t == t;
    }
  }

  /** Whitespace behind a text does not change what trimming leaves. */
  lemma {:induction false} TrimEndSkipsMargin(t: string, b: string)
    requires forall k :: 0 <= k < |b| ==> IsJsWhitespace(b[k])
    ensures TrimEnd(t + b) == TrimEnd(t)
  {
    if b != [] {
      var b' := b[..|b| - 1];
      assert (t + b)[..|t + b| - 1] == t + b';
      TrimEndSkipsMargin(t, b');
    } else {
      assert t + b == t;
    }
  }

  /** Trimming is idempotent. */
  lemma {:induction false} TrimIdempotent(s: string)
    ensures Trim(Trim(s)) == Trim(s)
  {
    var r := Trim(s);
    TrimIsInnerSlice(s);
    assert TrimStart(r) == r;
    assert TrimEnd(r) == r;
  }

  /** What the user message is prefixed with. */
  const PromptPrefix: string := "Receta con "

  /** The user prompt sent to the completion API. */
  function BuildPrompt(text: string): (p: string)
    ensures |p| >= |PromptPrefix| && p[..|PromptPrefix|] == PromptPrefix
    ensures var rest := p[|PromptPrefix|..];
      rest == [] || (!IsJsWhitespace(rest[0]) && !IsJsWhitespace(rest[|rest| - 1]))
    ensures var i := |text| - |TrimStart(text)|; var rest := p[|PromptPrefix|..];
      i + |rest| <= |text| && rest == text[i..i + |rest|]
      && (forall k :: 0 <= k < i ==> IsJsWhitespace(text[k]))
      && (forall k :: i + |rest| <= k < |text| ==> IsJsWhitespace(text[k]))
  {
    TrimIsInnerSlice(text);
    PromptPrefix + Trim(text)
  }

  /** The prompt does not depend on whitespace around the message text. */
  lemma {:induction false} PromptIgnoresMargins(a: string, t: string, b: string)
    requires forall k :: 0 <= k < |a| ==> IsJsWhitespace(a[k])
    requires forall k :: 0 <= k < |b| ==> IsJsWhitespace(b[k])
    ensures BuildPrompt(a + t + b) == BuildPrompt(t)
  {
    assert a + t + b == a + (t + b);
    TrimStartSkipsMargin(a, t + b);
    TrimStartKeepsTail(t, b);
    TrimEndSkipsMargin(TrimStart(t), b);
    assert Trim(a + t + b) == Trim(t);
  }

  /** Cutting leading whitespace off `t + b` cuts it off `t`, and more only when `t` is all whitespace. */
  lemma {:induction false} TrimStartKeepsTail(t: string, b: string)
    requires forall k :: 0 <= k < |b| ==> IsJsWhitespace(b[k])
    ensures TrimEnd(TrimStart(t + b)) == TrimEnd(TrimStart(t) + b)
  {
    if t == [] {
      TrimStartSkipsMargin(b, []);
      assert b + [] == b;
      assert TrimStart(b) == [];
      TrimEndSkipsMargin([], b);
      assert [] + b == b;
    } else if IsJsWhitespace(t[0]) {
      assert (t + b)[1..] == t[1..] + b;
      TrimStartKeepsTail(t[1..], b);
    } else {
      assert (t + b)[0] == t[0];
    }
  }
}
