/** The MarkdownV2 sanitizer `escapeMarkdownV2` of api/bot.js and index.js.

    Both files implement it as `text.replace(/([<class>])/g, "\\$1")`: a global
    regular-expression replacement whose pattern is a single character class,
    so every character of the input that belongs to the class is replaced by a
    backslash followed by itself, and every other character is kept. The two
    files spell the class differently; `ClassesDenoteSameSet` shows that both
    spellings denote the same 18 characters. */
module MarkdownV2 {
  import opened Wrappers

  /** The three character classes of this model: the one written in api/bot.js, the one
      written in index.js, and the api/bot.js class with the backslash added. */
  datatype CharClass = BotJsClass | IndexJsClass | StrictClass

  /** A character the sanitizer escapes: the class of api/bot.js, in the order written there.
      The backslash is not one of them. */
  predicate IsReserved(c: char) {
    c == '_' || c == '*' || c == '[' || c == ']' || c == '(' || c == ')' || c == '~' || c == '`'
    || c == '>' || c == '#' || c == '+' || c == '=' || c == '|' || c == '{' || c == '}' || c == '.'
    || c == '!' || c == '-'
  }

  /** The class of index.js, in the order written there (`.`, `-` and `!` come in another order). */
  predicate InIndexJsClass(c: char) {
    c == '_' || c == '*' || c == '[' || c == ']' || c == '(' || c == ')' || c == '~' || c == '`'
    || c == '>' || c == '#' || c == '+' || c == '=' || c == '|' || c == '{' || c == '}' || c == '.'
    || c == '-' || c == '!'
  }

  predicate InClass(cls: CharClass, c: char) {
    match cls
    case BotJsClass => IsReserved(c)
    case IndexJsClass => InIndexJsClass(c)
    case StrictClass => IsReserved(c) || c == '\\'
  }

  /** The reserved characters listed one by one. */
  const ReservedList: seq<char> :=
    ['_', '*', '[', ']', '(', ')', '~', '`', '>', '#', '+', '=', '|', '{', '}', '.', '!', '-']

  /** What the replacement writes for one input character. */
  function Unit(cls: CharClass, c: char): seq<char> {
    if InClass(cls, c) then ['\\', c] else [c]
  }

  /** How many characters of `s` belong to the class `cls`. */
  function CountIn(cls: CharClass, s: seq<char>): nat {
    if s == [] then 0 else (if InClass(cls, s[0]) then 1 else 0) + CountIn(cls, s[1..])
  }

  /** `s.replace(/([cls])/g, "\\$1")`: every character of the class gets one backslash in front.
      The output grows by exactly one character per class member in the input. */
  function ClassEscape(cls: CharClass, s: seq<char>): (r: seq<char>)
    ensures |r| == |s| + CountIn(cls, s)
  {
    if s == [] then [] else Unit(cls, s[0]) + ClassEscape(cls, s[1..])
  }

  /** `escapeMarkdownV2` of api/bot.js: one backslash is inserted per
      reserved character. */
  function Escape(s: seq<char>): (r: seq<char>)
    ensures |r| == |s| + CountReserved(s)
  {
    ClassEscape(BotJsClass, s)
  }

  /** `escapeMarkdownV2` of index.js, whose class is spelled in another
      order: it escapes every input as api/bot.js does. */
  function EscapeIndexJs(s: seq<char>): (r: seq<char>)
    ensures r == Escape(s)
  {
    ClassesDenoteSameSet();
    ClassEscapeSameMembers(IndexJsClass, BotJsClass, s);
    ClassEscape(IndexJsClass, s)
  }

  /** The number of reserved characters in `s`. */
  function CountReserved(s: seq<char>): nat {
    CountIn(BotJsClass, s)
  }

  /** Where the output for input position `i` starts: the input before `i`,
      plus one inserted backslash per reserved character before `i`. */
  function Offset(s: seq<char>, i: nat): nat
    requires i <= |s|
  {
    i + CountReserved(s[..i])
  }

  // ---------------------------------------------------------------------------
  // The reserved set

  /** Both spellings of the class denote the same 18 distinct characters. */
  lemma ClassesDenoteSameSet()
    ensures forall c :: InIndexJsClass(c) <==> IsReserved(c)
    ensures forall c :: IsReserved(c) <==> c in ReservedList
    ensures |ReservedList| == 18
    ensures forall i, j :: 0 <= i < j < |ReservedList| ==> ReservedList[i] != ReservedList[j]
    ensures !IsReserved('\\')
  {
  }

  /** The replacement only depends on which characters the class contains. */
  lemma {:induction false} ClassEscapeSameMembers(c1: CharClass, c2: CharClass, s: seq<char>)
    requires forall c :: InClass(c1, c) <==> InClass(c2, c)
    ensures ClassEscape(c1, s) == ClassEscape(c2, s)
  {
    if s != [] {
      ClassEscapeSameMembers(c1, c2, s[1..]);
    }
  }

  // ---------------------------------------------------------------------------
  // Shape of the output

  /** No reserved character is counted exactly when none occurs. */
  lemma {:induction false} CountZeroIff(s: seq<char>)
    ensures CountReserved(s) == 0 <==> forall i :: 0 <= i < |s| ==> !IsReserved(s[i])
  {
    if s != [] {
      CountZeroIff(s[1..]);
      assert forall i :: 1 <= i < |s| ==> s[i] == s[1..][i - 1];
    }
  }

  /** A string is returned unchanged exactly when it holds no reserved character;
      in particular the empty string maps to itself. */
  lemma {:induction false} EscapeIdentityIff(s: seq<char>)
    ensures Escape(s) == s <==> forall i :: 0 <= i < |s| ==> !IsReserved(s[i])
    ensures Escape([]) == []
  {
    CountZeroIff(s);
    if forall i :: 0 <= i < |s| ==> !IsReserved(s[i]) {
      NoReservedUnchanged(s);
    }
  }

  lemma {:induction false} NoReservedUnchanged(s: seq<char>)
    requires forall i :: 0 <= i < |s| ==> !IsReserved(s[i])
    ensures Escape(s) == s
  {
    if s != [] {
      assert forall i :: 0 <= i < |s[1..]| ==> s[1..][i] == s[i + 1];
      NoReservedUnchanged(s[1..]);
      assert s == [s[0]] + s[1..];
    }
  }

  /** Escaping distributes over concatenation: the regular expression is global and matches single characters. */
  lemma {:induction false} EscapeAppend(a: seq<char>, b: seq<char>)
    ensures Escape(a + b) == Escape(a) + Escape(b)
  {
    if a == [] {
      assert a + b == b;
    } else {
      assert (a + b)[0] == a[0];
      assert (a + b)[1..] == a[1..] + b;
      EscapeAppend(a[1..], b);
    }
  }

  /** Counting distributes over concatenation. */
  lemma {:induction false} CountAppend(a: seq<char>, b: seq<char>)
    ensures CountReserved(a + b) == CountReserved(a) + CountReserved(b)
  {
    EscapeAppend(a, b);
  }

  /** The output for input position `i` sits at `Offset(s, i)`: a reserved character is
      preceded by exactly one inserted backslash, any other character (the backslash
      included) is copied as it is, and the pieces follow each other in input order. */
  lemma {:induction false} PositionOfEach(s: seq<char>, i: nat)
    requires i < |s|
    ensures Offset(s, i) < Offset(s, i + 1) <= |Escape(s)|
    ensures IsReserved(s[i]) ==>
      Offset(s, i + 1) == Offset(s, i) + 2 &&
      Escape(s)[Offset(s, i)] == '\\' && Escape(s)[Offset(s, i) + 1] == s[i]
    ensures !IsReserved(s[i]) ==>
      Offset(s, i + 1) == Offset(s, i) + 1 && Escape(s)[Offset(s, i)] == s[i]
  {
    var pre, post := s[..i], s[i + 1..];
    assert s == pre + [s[i]] + post;
    assert s[..i + 1] == pre + [s[i]];
    EscapeAppend(pre + [s[i]], post);
    EscapeAppend(pre, [s[i]]);
    CountAppend(pre, [s[i]]);
    assert Escape([s[i]]) == Unit(BotJsClass, s[i]);
  }

  /** The pieces cover the whole output: the first starts at 0, the last ends at its end. */
  lemma {:induction false} OffsetBounds(s: seq<char>)
    ensures Offset(s, 0) == 0
    ensures Offset(s, |s|) == |Escape(s)|
  {
    assert s[..|s|] == s;
  }

  // ---------------------------------------------------------------------------
  // Escaping twice

  lemma {:induction false} CountOne(c: char)
    ensures CountReserved([c]) == if IsReserved(c) then 1 else 0
    ensures Escape([c]) == Unit(BotJsClass, c)
  {
    assert [c][1..] == [];
    assert CountIn(BotJsClass, [c]) == (if IsReserved(c) then 1 else 0) + CountIn(BotJsClass, []);
  }

  /** The inserted characters are backslashes, which are not reserved, so
      the escaped text holds exactly the reserved characters of the input. */
  lemma {:induction false} CountEscaped(s: seq<char>)
    ensures CountReserved(Escape(s)) == CountReserved(s)
  {
    if s != [] {
      CountEscaped(s[1..]);
      assert Escape(s) == Unit(BotJsClass, s[0]) + Escape(s[1..]);
      CountAppend(Unit(BotJsClass, s[0]), Escape(s[1..]));
      CountOne(s[0]);
      if IsReserved(s[0]) {
        assert ['\\', s[0]] == ['\\'] + [s[0]];
        CountAppend(['\\'], [s[0]]);
        CountOne('\\');
      }
    }
  }

  /** Escaping is idempotent on a string exactly when the string holds no reserved character. */
  lemma {:induction false} EscapeTwiceIff(s: seq<char>)
    ensures Escape(Escape(s)) == Escape(s) <==> forall i :: 0 <= i < |s| ==> !IsReserved(s[i])
  {
    CountEscaped(s);
    CountZeroIff(s);
    CountZeroIff(Escape(s));
    EscapeIdentityIff(Escape(s));
  }

  /** So escaping is not idempotent: `!` becomes `\!`, which becomes `\\!`. */
  lemma EscapeNotIdempotent()
    ensures Escape("!") == "\\!"
    ensures Escape(Escape("!")) == "\\\\!"
    ensures Escape(Escape("!")) != Escape("!")
  {
    assert Escape("\\!") == Escape("\\") + Escape("!") by {
      EscapeAppend("\\", "!");
    }
  }

  /** The ingredients of the `/start` greeting of api/bot.js:20, "lentejas y calabaza",
      written as `lentejas_y_calabaza!`: the underscores
      and the exclamation mark get a backslash, the words are kept. (The words are
      parameters so that the verifier does not unfold the escape on a long literal.) */
  lemma {:induction false} EscapeExample(w1: string, w2: string, w3: string)
    requires w1 == "lentejas" && w2 == "y" && w3 == "calabaza"
    ensures Escape(w1 + "_" + w2 + "_" + w3 + "!") == w1 + "\\_" + w2 + "\\_" + w3 + "\\!"
  {
    CountOne('_');
    CountOne('!');
    NoReservedUnchanged(w1);
    NoReservedUnchanged(w2);
    NoReservedUnchanged(w3);
    EscapeAppend(w1 + "_" + w2 + "_" + w3, "!");
    EscapeAppend(w1 + "_" + w2 + "_", w3);
    EscapeAppend(w1 + "_" + w2, "_");
    EscapeAppend(w1 + "_", w2);
    EscapeAppend(w1, "_");
  }

  // ---------------------------------------------------------------------------
  // Reading the text back as Telegram does

  /** The literal text a MarkdownV2 message shows when it uses no formatting, or None.
      In MarkdownV2 a backslash followed by a character stands for that character;
      a reserved character outside such a pair is markup, not literal text; a lone
      backslash at the end escapes nothing. */
  function ReadBack(m: seq<char>): Option<seq<char>>
    decreases |m|
  {
    if m == [] then Some([])
    else if m[0] == '\\' then
      if |m| == 1 then None else Prepend(m[1], ReadBack(m[2..]))
    else if IsReserved(m[0]) then None
    else Prepend(m[0], ReadBack(m[1..]))
  }

  function Prepend(c: char, o: Option<seq<char>>): Option<seq<char>> {
    match o
    case None => None
    case Some(t) => Some([c] + t)
  }

  /** Reading back never lengthens the input, and an input backslash always costs a character. */
  lemma {:induction false} ReadBackShrinks(x: seq<char>)
    ensures ReadBack(Escape(x)).Some? ==>
      |ReadBack(Escape(x)).value| + (if '\\' in x then 1 else 0) <= |x|
    decreases |x|
  {
    if x != [] {
      var c, rest := x[0], x[1..];
      assert x == [c] + rest;
      assert Escape(x) == Unit(BotJsClass, c) + Escape(rest);
      if IsReserved(c) {
        assert (Unit(BotJsClass, c) + Escape(rest))[2..] == Escape(rest);
        ReadBackShrinks(rest);
      } else if c != '\\' {
        assert (Unit(BotJsClass, c) + Escape(rest))[1..] == Escape(rest);
        ReadBackShrinks(rest);
      } else if rest != [] {
        var d, tail := rest[0], rest[1..];
        assert rest == [d] + tail;
        assert Escape(rest) == Unit(BotJsClass, d) + Escape(tail);
        if IsReserved(d) {
          var m := ['\\', '\\', d] + Escape(tail);
          assert Escape(x) == m;
          assert m[2..] == [d] + Escape(tail);
        } else {
          var m := ['\\', d] + Escape(tail);
          assert Escape(x) == m;
          assert m[2..] == Escape(tail);
          ReadBackShrinks(tail);
        }
      }
    }
  }

  /** Telegram reads the escaped text back as the input exactly when the input holds no
      backslash: an input backslash is never escaped, so it swallows what follows it. */
  lemma {:induction false} EscapeReadsBackIff(s: seq<char>)
    ensures ReadBack(Escape(s)) == Some(s) <==> '\\' !in s
  {
    if '\\' !in s {
      NoBackslashReadsBack(s);
    } else {
      ReadBackShrinks(s);
    }
  }

  lemma {:induction false} NoBackslashReadsBack(s: seq<char>)
    requires '\\' !in s
    ensures ReadBack(Escape(s)) == Some(s)
  {
    if s != [] {
      var c, rest := s[0], s[1..];
      assert s == [c] + rest;
      var m := Unit(BotJsClass, c) + Escape(rest);
      assert Escape(s) == m;
      if IsReserved(c) {
        assert m[2..] == Escape(rest);
      } else {
        assert m[1..] == Escape(rest);
      }
      NoBackslashReadsBack(rest);
    }
  }

  /** Model output holding a backslash before a reserved character is garbled:
      `\!` is sent as `\\!`, which reads as a backslash followed by a bare `!`. */
  lemma BackslashBreaksReadBack()
    ensures Escape("\\!") == "\\\\!"
    ensures ReadBack(Escape("\\!")) == None
  {
    EscapeAppend("\\", "!");
    assert "\\\\!"[2..] == "!";
  }

  /** Escaping that also escapes the backslash. */
  function StrictEscape(s: seq<char>): seq<char> {
    ClassEscape(StrictClass, s)
  }

  /** With the backslash escaped too, Telegram reads every text back unchanged. */
  lemma {:induction false} StrictEscapeReadsBack(s: seq<char>)
    ensures ReadBack(StrictEscape(s)) == Some(s)
  {
    if s != [] {
      var c, rest := s[0], s[1..];
      assert s == [c] + rest;
      var m := Unit(StrictClass, c) + StrictEscape(rest);
      assert StrictEscape(s) == m;
      if InClass(StrictClass, c) {
        assert m[2..] == StrictEscape(rest);
      } else {
        assert m[1..] == StrictEscape(rest);
      }
      StrictEscapeReadsBack(rest);
    }
  }
}
