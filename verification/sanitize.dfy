/** Escaping of the OCR engine's output before it is shown as HTML: every
    `<` becomes `\lt ` and every `>` becomes `\gt `, done as two successive
    `str.replace` passes. */
module Sanitize {

  const LessThan: string := "\\lt "
  const GreaterThan: string := "\\gt "

  /** Number of occurrences of `c` in `s`. */
  function Count(s: string, c: char): (n: nat)
    ensures n <= |s|
    ensures n == 0 <==> c !in s
  {
    if |s| == 0 then 0
    else (if s[0] == c then 1 else 0) + Count(s[1..], c)
  }

  /** Python's `s.replace(c, t)` for a one-character pattern `c`. */
  function Replace(s: string, c: char, t: string): (r: string)
    ensures c !in t ==> c !in r
  {
    if |s| == 0 then ""
    else (if s[0] == c then t else [s[0]]) + Replace(s[1..], c, t)
  }

  /** Each occurrence of `c` grows the string by `|t| - 1` characters. */
  lemma {:induction false} ReplaceLength(s: string, c: char, t: string)
    ensures |Replace(s, c, t)| == |s| + (|t| - 1) * Count(s, c)
  {
    if |s| > 0 {
      var rest := Replace(s[1..], c, t);
      var k := Count(s[1..], c);
      ReplaceLength(s[1..], c, t);
      assert |rest| == |s| - 1 + (|t| - 1) * k;
      if s[0] == c {
        assert Replace(s, c, t) == t + rest;
        assert Count(s, c) == k + 1;
        MulSucc(|t| - 1, k);
      } else {
        assert Replace(s, c, t) == [s[0]] + rest;
        assert Count(s, c) == k;
      }
    }
  }

  lemma MulSucc(a: int, k: int)
    ensures a * (k + 1) == a * k + a
  {
  }

  /** Characters other than `c` that the replacement does not introduce are
      present afterwards exactly when they were present before. */
  lemma {:induction false} ReplaceKeepsOthers(s: string, c: char, t: string, d: char)
    requires d != c && d !in t
    ensures d in Replace(s, c, t) <==> d in s
  {
    if |s| > 0 {
      ReplaceKeepsOthers(s[1..], c, t, d);
      assert d in s <==> d == s[0] || d in s[1..];
    }
  }

  /** The two passes of the worker thread, in the order it applies them.
      Neither replacement holds an angle bracket, so none is left. */
  function Escape(s: string): (r: string)
    ensures '<' !in r && '>' !in r
  {
    var once := Replace(s, '<', LessThan);
    ReplaceKeepsOthers(once, '>', GreaterThan, '<');
    Replace(once, '>', GreaterThan)
  }

  /** The escape of one character. */
  function EscapeChar(ch: char): string {
    if ch == '<' then LessThan else if ch == '>' then GreaterThan else [ch]
  }

  /** Escaping as a single character-wise map. */
  function EscapeMap(s: string): string {
    if |s| == 0 then "" else EscapeChar(s[0]) + EscapeMap(s[1..])
  }

  lemma {:induction false} ReplaceAppend(a: string, b: string, c: char, t: string)
    ensures Replace(a + b, c, t) == Replace(a, c, t) + Replace(b, c, t)
  {
    if |a| == 0 {
      assert a + b == b;
    } else {
      assert (a + b)[1..] == a[1..] + b;
      ReplaceAppend(a[1..], b, c, t);
    }
  }

  lemma {:induction false} ReplaceIdentity(s: string, c: char, t: string)
    requires c !in s
    ensures Replace(s, c, t) == s
  {
    if |s| > 0 {
      ReplaceIdentity(s[1..], c, t);
      assert s == [s[0]] + s[1..];
    }
  }

  /** Because `\lt ` holds no `>`, the two replace passes equal one
      character-wise map. */
  lemma {:induction false} TwoPassesAreOneMap(s: string)
    ensures Escape(s) == EscapeMap(s)
  {
    if |s| > 0 {
      var head := if s[0] == '<' then LessThan else [s[0]];
      calc {
        Escape(s);
        Replace(head + Replace(s[1..], '<', LessThan), '>', GreaterThan);
        { ReplaceAppend(head, Replace(s[1..], '<', LessThan), '>', GreaterThan); }
        Replace(head, '>', GreaterThan) + Escape(s[1..]);
        { TwoPassesAreOneMap(s[1..]); }
        Replace(head, '>', GreaterThan) + EscapeMap(s[1..]);
        { assert Replace(head, '>', GreaterThan) == EscapeChar(s[0]) by {
            if s[0] == '<' { ReplaceIdentity(LessThan, '>', GreaterThan); }
          } }
        EscapeMap(s);
      }
    }
  }

  /** The escaped prediction contains neither angle bracket and grows by
      three characters per bracket. */
  lemma EscapeProperties(s: string)
    ensures '<' !in Escape(s) && '>' !in Escape(s)
    ensures |Escape(s)| == |s| + 3 * (Count(s, '<') + Count(s, '>'))
  {
    var once := Replace(s, '<', LessThan);
    var twice := Replace(once, '>', GreaterThan);
    assert twice == Escape(s);
    assert '<' !in GreaterThan && '<' !in once;
    ReplaceKeepsOthers(once, '>', GreaterThan, '<');
    var lt, gt := Count(s, '<'), Count(s, '>');
    assert |LessThan| == 4 && |GreaterThan| == 4;
    ReplaceLength(s, '<', LessThan);
    assert |once| == |s| + 3 * lt;
    ReplaceKeepsCount(s, '<', LessThan, '>');
    assert Count(once, '>') == gt;
    ReplaceLength(once, '>', GreaterThan);
    assert |twice| == |once| + 3 * gt;
  }

  lemma {:induction false} ReplaceKeepsCount(s: string, c: char, t: string, d: char)
    requires d != c && d !in t
    ensures Count(Replace(s, c, t), d) == Count(s, d)
  {
    if |s| > 0 {
      var head := if s[0] == c then t else [s[0]];
      ReplaceKeepsCount(s[1..], c, t, d);
      CountAppend(head, Replace(s[1..], c, t), d);
      if s[0] == c {
        assert Count(head, d) == 0;
      } else {
        assert head[1..] == "";
      }
    }
  }

  lemma {:induction false} CountAppend(a: string, b: string, d: char)
    ensures Count(a + b, d) == Count(a, d) + Count(b, d)
  {
    if |a| == 0 {
      assert a + b == b;
    } else {
      assert (a + b)[1..] == a[1..] + b;
      CountAppend(a[1..], b, d);
    }
  }

  /** A prediction without angle brackets is passed through unchanged. */
  lemma EscapeIdentity(s: string)
    requires '<' !in s && '>' !in s
    ensures Escape(s) == s
  {
    ReplaceIdentity(s, '<', LessThan);
    ReplaceIdentity(s, '>', GreaterThan);
  }

  /** Escaping twice is escaping once. */
  lemma EscapeIdempotent(s: string)
    ensures Escape(Escape(s)) == Escape(s)
  {
    EscapeProperties(s);
    EscapeIdentity(Escape(s));
  }

  /** `x<5>y` is shown as `x\lt 5\gt y`. */
  lemma EscapeExample()
    ensures Escape("x<5>y") == "x\\lt 5\\gt y"
  {
    TwoPassesAreOneMap("x<5>y");
    EscapeMapExample();
  }

  lemma EscapeMapExample()
    ensures EscapeMap("x<5>y") == "x\\lt 5\\gt y"
  {
    var s := "x<5>y";
    assert s[1..] == "<5>y" && s[2..] == "5>y" && s[3..] == ">y" && s[4..] == "y";
    assert EscapeMap("y") == "y";
    assert EscapeMap(">y") == GreaterThan + "y";
    assert EscapeMap("5>y") == "5" + GreaterThan + "y";
    assert EscapeMap("<5>y") == LessThan + "5" + GreaterThan + "y";
    assert EscapeMap(s) == "x" + LessThan + "5" + GreaterThan + "y";
  }
}
