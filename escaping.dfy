/**
 * How the rubric is kept on one line of the settings file (auto_essay_grader.py:79, 111):
 * saving turns every newline into the two characters `\` `n`; loading turns every `\` `n`
 * back into a newline.
 */
module Escaping {
  import opened Strings

  /** The two-character sequence backslash, `n`. */
  const BackslashN: string := "\\n"

  /** `criteria.replace('\n', '\\n')` in `save_config`. */
  function Escape(s: string): string {
    Replace(s, "\n", BackslashN)
  }

  /** `raw_criteria.replace('\\n', '\n')` in `load_config`. */
  function Unescape(s: string): string {
    Replace(s, BackslashN, "\n")
  }

  function NewlineCount(s: string): nat {
    if s == [] then 0 else (if s[0] == '\n' then 1 else 0) + NewlineCount(s[1..])
  }

  /** How many times backslash-n occurs in `s` (occurrences never overlap). */
  function BackslashNCount(s: string): nat {
    if s == [] then 0
    else (if |s| >= 2 && s[0] == '\\' && s[1] == 'n' then 1 else 0) + BackslashNCount(s[1..])
  }

  // ---------------------------------------------------------------------------
  // one character at a time

  lemma EscapeCons(c: char, t: string)
    ensures Escape([c] + t) == (if c == '\n' then BackslashN else [c]) + Escape(t)
  {
    var s := [c] + t;
    assert s[..1] == [c] && s[1..] == t;
  }

  lemma UnescapeAtBackslashN(t: string)
    ensures Unescape(BackslashN + t) == "\n" + Unescape(t)
  {
    var s := BackslashN + t;
    assert s[..2] == BackslashN && s[2..] == t;
  }

  lemma UnescapeCons(c: char, t: string)
    requires !(c == '\\' && t != [] && t[0] == 'n')
    ensures Unescape([c] + t) == [c] + Unescape(t)
  {
    var s := [c] + t;
    assert s[1..] == t;
    if t != [] {
      assert s[..2] == [c, t[0]];
    }
  }

  lemma EscapeLeadingN(t: string)
    ensures (Escape(t) != [] && Escape(t)[0] == 'n') <==> (t != [] && t[0] == 'n')
  {
    if t != [] {
      EscapeCons(t[0], t[1..]);
      assert [t[0]] + t[1..] == t;
    }
  }

  lemma ContainedInTail(s: string, pat: string)
    requires s != []
    ensures Contains(s[1..], pat) ==> Contains(s, pat)
  {
    if Contains(s[1..], pat) {
      var k :| OccursAt(s[1..], pat, k);
      assert s[k + 1..k + 1 + |pat|] == s[1..][k..k + |pat|];
      assert OccursAt(s, pat, k + 1);
    }
  }

  lemma NewlineCountAppend(a: string, b: string)
    ensures NewlineCount(a + b) == NewlineCount(a) + NewlineCount(b)
  {
    if a == [] {
      assert a + b == b;
    } else {
      assert (a + b)[1..] == a[1..] + b;
      NewlineCountAppend(a[1..], b);
    }
  }

  // ---------------------------------------------------------------------------
  // the properties

  /** The escaped rubric is a single line. */
  lemma {:induction false} EscapeIsOneLine(s: string)
    ensures NewlineCount(Escape(s)) == 0
  {
    if s != [] {
      EscapeCons(s[0], s[1..]);
      assert [s[0]] + s[1..] == s;
      EscapeIsOneLine(s[1..]);
      NewlineCountAppend(if s[0] == '\n' then BackslashN else [s[0]], Escape(s[1..]));
    }
  }

  /** A rubric without a literal backslash-n survives saving and loading. */
  lemma {:induction false} RoundTrip(s: string)
    requires !Contains(s, BackslashN)
    ensures Unescape(Escape(s)) == s
  {
    if s != [] {
      var c, t := s[0], s[1..];
      assert s == [c] + t;
      ContainedInTail(s, BackslashN);
      RoundTrip(t);
      EscapeCons(c, t);
      if c == '\n' {
        UnescapeAtBackslashN(Escape(t));
      } else {
        assert c == '\\' && t != [] && t[0] == 'n' ==> OccursAt(s, BackslashN, 0);
        EscapeLeadingN(t);
        UnescapeCons(c, Escape(t));
      }
    }
  }

  /**
   * Every backslash-n already in the rubric comes back as an extra newline: the restored text
   * has as many newlines as the original had newlines and backslash-n pairs together.
   */
  lemma {:induction false} RoundTripNewlines(s: string)
    ensures NewlineCount(Unescape(Escape(s))) == NewlineCount(s) + BackslashNCount(s)
    decreases |s|
  {
    if s != [] {
      var c, t := s[0], s[1..];
      assert s == [c] + t;
      EscapeCons(c, t);
      if c == '\n' {
        RoundTripNewlines(t);
        UnescapeAtBackslashN(Escape(t));
        NewlineCountAppend("\n", Unescape(Escape(t)));
      } else if c == '\\' && t != [] && t[0] == 'n' {
        var t' := t[1..];
        assert t == ['n'] + t';
        RoundTripNewlines(t');
        EscapeCons('n', t');
        assert Escape(s) == BackslashN + Escape(t');
        UnescapeAtBackslashN(Escape(t'));
        NewlineCountAppend("\n", Unescape(Escape(t')));
        assert BackslashNCount(s) == 1 + BackslashNCount(t);
        assert BackslashNCount(t) == BackslashNCount(t');
      } else {
        RoundTripNewlines(t);
        EscapeLeadingN(t);
        UnescapeCons(c, Escape(t));
        NewlineCountAppend([c], Unescape(Escape(t)));
      }
    }
  }

  lemma {:induction false} BackslashNCounted(s: string, k: nat)
    requires OccursAt(s, BackslashN, k)
    ensures BackslashNCount(s) > 0
    decreases k
  {
    if k == 0 {
      assert s[..2] == BackslashN;
    } else {
      assert s[1..][k - 1..k + 1] == s[k..k + 2];
      BackslashNCounted(s[1..], k - 1);
    }
  }

  /** The round trip restores the rubric exactly when it contains no backslash-n. */
  lemma RoundTripIff(s: string)
    ensures Unescape(Escape(s)) == s <==> !Contains(s, BackslashN)
  {
    if Contains(s, BackslashN) {
      var k :| OccursAt(s, BackslashN, k);
      BackslashNCounted(s, k);
      RoundTripNewlines(s);
    } else {
      RoundTrip(s);
    }
  }

  /** A rubric typed with a literal backslash-n comes back with a real newline in its place. */
  lemma LiteralBackslashNBecomesNewline()
    ensures Unescape(Escape("a\\nb")) == "a\nb"
  {
    EscapeCons('a', "\\nb");
    EscapeCons('\\', "nb");
    EscapeCons('n', "b");
    EscapeCons('b', "");
    assert Escape("a\\nb") == "a\\nb";
    UnescapeCons('a', "\\nb");
    UnescapeAtBackslashN("b");
    UnescapeCons('b', "");
  }
}
