/** The pieces of Python's text handling the history log relies on:
    `readlines` on a file's contents, `str.split()` with no separator,
    `" ".join`, `"".join`, `list(s)` on a string, negative list indexing,
    and `str`/`int` on integers. */
module Text {
  import opened Wrappers

  // ---------------------------------------------------------------------
  // Lines

  /** `"".join(ss)`. */
  function Concat(ss: seq<string>): string
  {
    if ss == [] then [] else ss[0] + Concat(ss[1..])
  }

  /** `readlines()` on a file holding t: every line keeps its newline, and a
      final piece with no newline is a line of its own. */
  function Lines(t: string): seq<string>
  {
    if t == [] then []
    else
      var rest := Lines(t[1..]);
      if t[0] == '\n' || rest == [] then [[t[0]]] + rest
      else [[t[0]] + rest[0]] + rest[1..]
  }

  /** Joined again, the lines of a text give the text back. */
  lemma {:induction false} LinesConcat(t: string)
    ensures Concat(Lines(t)) == t
  {
    if t != [] {
      LinesConcat(t[1..]);
      var rest := Lines(t[1..]);
      if t[0] != '\n' && rest != [] {
        var first := [t[0]] + rest[0];
        assert Lines(t) == [first] + rest[1..];
        assert Concat(Lines(t)) == first + Concat(rest[1..]);
        assert Concat(rest) == rest[0] + Concat(rest[1..]);
      }
    }
  }

  /** Every line ends in a newline, except possibly the last, which is not
      empty; no line holds a newline before its end. */
  lemma {:induction false} LinesEndings(t: string)
    ensures forall i :: 0 <= i < |Lines(t)| ==> Lines(t)[i] != []
    ensures forall i :: 0 <= i < |Lines(t)| - 1 ==> Lines(t)[i][|Lines(t)[i]| - 1] == '\n'
    ensures forall i, k :: 0 <= i < |Lines(t)| && 0 <= k < |Lines(t)[i]| - 1 ==> Lines(t)[i][k] != '\n'
  {
    if t != [] {
      LinesEndings(t[1..]);
      var rest := Lines(t[1..]);
      var ls := Lines(t);
      if t[0] == '\n' || rest == [] {
        assert ls == [[t[0]]] + rest;
        assert forall i :: 1 <= i < |ls| ==> ls[i] == rest[i - 1];
      } else {
        var first := [t[0]] + rest[0];
        assert ls == [first] + rest[1..];
        assert forall i :: 1 <= i < |ls| ==> ls[i] == rest[i];
        assert forall k :: 1 <= k < |first| ==> first[k] == rest[0][k - 1];
      }
    }
  }

  /** A line ending in a newline, followed by anything, is read back as that line first. */
  lemma {:induction false} LinesCons(l: string, rest: string)
    requires '\n' !in l
    ensures Lines(l + "\n" + rest) == [l + "\n"] + Lines(rest)
  {
    var t := l + "\n" + rest;
    if l == [] {
      assert t == "\n" + rest && t[1..] == rest;
    } else {
      assert t[1..] == l[1..] + "\n" + rest;
      assert '\n' !in l[1..] by {
        forall k | 0 <= k < |l[1..]| ensures l[1..][k] != '\n' {
          assert l[1..][k] == l[k + 1];
        }
      }
      LinesCons(l[1..], rest);
      assert [l[0]] + (l[1..] + "\n") == l + "\n";
    }
  }

  /** A line as `readlines` returns it when more follows: it ends in its only newline. */
  predicate ProperLine(l: string)
  {
    l != [] && l[|l| - 1] == '\n' && '\n' !in l[..|l| - 1]
  }

  /** A proper line followed by anything is read back as that line first. */
  lemma {:induction false} LinesPrepend(l: string, more: string)
    requires ProperLine(l)
    ensures Lines(l + more) == [l] + Lines(more)
  {
    var body := l[..|l| - 1];
    assert body + "\n" == l;
    LinesCons(body, more);
  }

  /** One proper line more in front: the step of `LinesOfLines`. */
  lemma {:induction false} LinesOfLinesStep(l: string, ls: seq<string>, tail: string)
    requires ProperLine(l)
    requires Lines(Concat(ls) + tail) == ls + Lines(tail)
    ensures Lines(Concat([l] + ls) + tail) == ([l] + ls) + Lines(tail)
  {
    var more := Concat(ls) + tail;
    ConcatConsTail(l, ls, tail);
    LinesPrepend(l, more);
    assert [l] + (ls + Lines(tail)) == ([l] + ls) + Lines(tail);
  }

  /** Proper lines joined, followed by anything, are read back as those lines first. */
  lemma {:induction false} LinesOfLines(ls: seq<string>, tail: string)
    requires forall i :: 0 <= i < |ls| ==> ProperLine(ls[i])
    ensures Lines(Concat(ls) + tail) == ls + Lines(tail)
  {
    if ls == [] {
      assert Concat(ls) + tail == tail;
      assert ls + Lines(tail) == Lines(tail);
    } else {
      LinesOfLines(ls[1..], tail);
      LinesOfLinesStep(ls[0], ls[1..], tail);
      assert [ls[0]] + ls[1..] == ls;
    }
  }

  /** Joining one string more in front adds it at the start. */
  lemma {:induction false} ConcatCons(s: string, ss: seq<string>)
    ensures Concat([s] + ss) == s + Concat(ss)
  {
    assert ([s] + ss)[0] == s && ([s] + ss)[1..] == ss;
  }

  /** The join of one string more in front, followed by a tail. */
  lemma {:induction false} ConcatConsTail(s: string, ss: seq<string>, tail: string)
    ensures Concat([s] + ss) + tail == s + (Concat(ss) + tail)
  {
    ConcatCons(s, ss);
  }

  /** Joining one string more adds it at the end. */
  lemma {:induction false} ConcatSnoc(ss: seq<string>, s: string)
    ensures Concat(ss + [s]) == Concat(ss) + s
  {
    if ss == [] {
      assert ss + [s] == [s];
      assert [s][1..] == [];
    } else {
      assert (ss + [s])[0] == ss[0] && (ss + [s])[1..] == ss[1..] + [s];
      ConcatSnoc(ss[1..], s);
    }
  }

  /** A non-empty text with no newline is a single line. */
  lemma {:induction false} LinesLast(l: string)
    requires l != [] && '\n' !in l
    ensures Lines(l) == [l]
  {
    if |l| > 1 {
      assert '\n' !in l[1..] by {
        forall k | 0 <= k < |l[1..]| ensures l[1..][k] != '\n' {
          assert l[1..][k] == l[k + 1];
        }
      }
      LinesLast(l[1..]);
      assert [l[0]] + l[1..] == l;
    } else {
      assert l[1..] == [] && [l[0]] == l;
    }
  }

  /** `list(s)`: the one-character strings of s. */
  function Chars(s: string): (cs: seq<string>)
    ensures |cs| == |s|
    ensures forall i :: 0 <= i < |s| ==> cs[i] == [s[i]]
  {
    seq(|s|, i requires 0 <= i < |s| => [s[i]])
  }

  /** Splitting the join of one-character strings gives them back. */
  lemma {:induction false} CharsConcat(ms: seq<string>)
    requires forall i :: 0 <= i < |ms| ==> |ms[i]| == 1
    ensures |Concat(ms)| == |ms|
    ensures Chars(Concat(ms)) == ms
  {
    if ms != [] {
      CharsConcat(ms[1..]);
      var c := Concat(ms);
      assert c == ms[0] + Concat(ms[1..]);
      forall i | 0 <= i < |ms| ensures Chars(c)[i] == ms[i] {
        if i > 0 {
          assert c[i] == Concat(ms[1..])[i - 1];
          assert Chars(Concat(ms[1..]))[i - 1] == ms[1..][i - 1];
        } else {
          assert ms[0] == [ms[0][0]];
        }
      }
    }
  }

  /** The join of strings with no newline holds no newline. */
  lemma {:induction false} ConcatNoNewline(ms: seq<string>)
    requires forall i :: 0 <= i < |ms| ==> '\n' !in ms[i]
    ensures '\n' !in Concat(ms)
  {
    if ms != [] {
      assert '\n' !in ms[0];
      ConcatNoNewline(ms[1..]);
    }
  }

  /** `s[i]` on a Python list: a negative index counts from the end; anything
      outside both ranges is an IndexError. */
  function PyIndex<T>(s: seq<T>, i: int): Option<T>
  {
    if 0 <= i < |s| then Some(s[i])
    else if -|s| <= i < 0 then Some(s[|s| + i])
    else None
  }

  /** Every element has exactly two indices: its position, and its position
      minus the length; no other index reaches it. */
  lemma PyIndexFromEnd<T>(s: seq<T>, i: int)
    ensures 0 <= i < |s| ==> PyIndex(s, i - |s|) == PyIndex(s, i)
    ensures PyIndex(s, i).Some? <==> -|s| <= i < |s|
    ensures PyIndex(s, i).Some? ==> PyIndex(s, i).value == s[i % |s|]
  {
  }

  // ---------------------------------------------------------------------
  // Words

  /** The characters `str.split()` splits on (those for which `str.isspace` holds). */
  predicate IsSpace(c: char)
  {
    var n := c as int;
    n == 32 || 9 <= n <= 13 || 28 <= n <= 31 || n == 0x85 || n == 0xA0 || n == 0x1680
    || 0x2000 <= n <= 0x200A || n == 0x2028 || n == 0x2029 || n == 0x202F || n == 0x205F
    || n == 0x3000
  }

  /** Text free of whitespace. */
  predicate Solid(w: string)
  {
    forall k :: 0 <= k < |w| ==> !IsSpace(w[k])
  }

  /** The longest prefix of s holding no whitespace. */
  function Word(s: string): (w: string)
    ensures |w| <= |s|
    ensures s != [] && !IsSpace(s[0]) ==> w != []
  {
    if s == [] || IsSpace(s[0]) then [] else [s[0]] + Word(s[1..])
  }

  /** `s.split()`: the maximal runs of non-whitespace, in order. */
  function Split(s: string): seq<string>
    decreases |s|
  {
    if s == [] then []
    else if IsSpace(s[0]) then Split(s[1..])
    else
      var w := Word(s);
      [w] + Split(s[|w|..])
  }

  /** `" ".join(ws)`. */
  function JoinSpaces(ws: seq<string>): string
  {
    if ws == [] then [] else if |ws| == 1 then ws[0] else ws[0] + " " + JoinSpaces(ws[1..])
  }

  /** A solid word followed by whitespace or by nothing is the word `split` finds first. */
  lemma {:induction false} WordOf(w: string, t: string)
    requires Solid(w) && (t == [] || IsSpace(t[0]))
    ensures Word(w + t) == w
  {
    if w != [] {
      assert (w + t)[1..] == w[1..] + t;
      WordOf(w[1..], t);
      assert [w[0]] + w[1..] == w;
    }
  }

  /** A solid word followed by whitespace or by nothing is split off first. */
  lemma {:induction false} SplitWord(w: string, t: string)
    requires w != [] && Solid(w) && (t == [] || IsSpace(t[0]))
    ensures Split(w + t) == [w] + Split(t)
  {
    var s := w + t;
    assert s[0] == w[0];
    WordOf(w, t);
    assert s[|w|..] == t;
  }

  /** Leading whitespace does not change the split. */
  lemma {:induction false} SplitSpace(c: char, t: string)
    requires IsSpace(c)
    ensures Split([c] + t) == Split(t)
  {
    assert ([c] + t)[1..] == t;
  }

  /** One word more in front of a join: the step of `SplitJoin`. */
  lemma {:induction false} SplitJoinStep(w: string, rest: seq<string>, tail: string)
    requires w != [] && Solid(w) && rest != []
    requires Split(JoinSpaces(rest) + tail) == rest + Split(tail)
    ensures Split(JoinSpaces([w] + rest) + tail) == ([w] + rest) + Split(tail)
  {
    var ws := [w] + rest;
    var more := JoinSpaces(rest) + tail;
    assert ws[0] == w && ws[1..] == rest;
    assert JoinSpaces(ws) + tail == w + ([' '] + more);
    SplitWord(w, [' '] + more);
    SplitSpace(' ', more);
  }

  /** Splitting words joined by single spaces gives the words back. */
  lemma {:induction false} SplitJoin(ws: seq<string>, tail: string)
    requires forall i :: 0 <= i < |ws| ==> ws[i] != [] && Solid(ws[i])
    requires tail == [] || IsSpace(tail[0])
    ensures Split(JoinSpaces(ws) + tail) == ws + Split(tail)
  {
    if ws == [] {
      assert JoinSpaces(ws) + tail == tail;
      assert ws + Split(tail) == Split(tail);
    } else if |ws| == 1 {
      assert JoinSpaces(ws) + tail == ws[0] + tail;
      SplitWord(ws[0], tail);
      assert ws == [ws[0]];
    } else {
      SplitJoin(ws[1..], tail);
      SplitJoinStep(ws[0], ws[1..], tail);
      assert [ws[0]] + ws[1..] == ws;
    }
  }

  /** Words joined by single spaces hold no newline when the words hold none. */
  lemma {:induction false} JoinNoNewline(ws: seq<string>)
    requires forall i :: 0 <= i < |ws| ==> '\n' !in ws[i]
    ensures '\n' !in JoinSpaces(ws)
  {
    if |ws| > 1 {
      assert '\n' !in ws[0];
      JoinNoNewline(ws[1..]);
    }
  }

  // ---------------------------------------------------------------------
  // Integers

  /** The ASCII digits `int()` accepts. */
  predicate IsDigit(c: char)
  {
    '0' <= c <= '9'
  }

  predicate AllDigits(s: string)
  {
    forall k :: 0 <= k < |s| ==> IsDigit(s[k])
  }

  function DigitChar(d: int): char
    requires 0 <= d < 10
  {
    (('0' as int) + d) as char
  }

  /** The value of a run of decimal digits. */
  function DigitsValue(s: string): nat
    requires AllDigits(s)
  {
    if s == [] then 0 else DigitsValue(s[..|s| - 1]) * 10 + (s[|s| - 1] as int - '0' as int)
  }

  /** `str(n)` for a natural number. */
  function NatToString(n: nat): (s: string)
    ensures s != [] && AllDigits(s)
  {
    if n < 10 then [DigitChar(n)] else NatToString(n / 10) + [DigitChar(n % 10)]
  }

  /** `str(x)` for an integer: a minus sign before the digits of a negative number. */
  function IntToString(x: int): (s: string)
    ensures s != [] && Solid(s) && '\n' !in s
  {
    if x < 0 then "-" + NatToString(-x) else NatToString(x)
  }

  /** `int(s)` on a whitespace-free token: an optional sign and one or more
      decimal digits; anything else is a ValueError. */
  function ParseInt(s: string): (r: Option<int>)
    ensures r.Some? ==> s != []
  {
    if s != [] && (s[0] == '-' || s[0] == '+') then
      var d := s[1..];
      if d != [] && AllDigits(d) then
        var v: int := DigitsValue(d);
        Some(if s[0] == '-' then -v else v)
      else None
    else if s != [] && AllDigits(s) then Some(DigitsValue(s))
    else None
  }

  /** Reading back the digits of n gives n. */
  lemma {:induction false} NatRoundTrip(n: nat)
    ensures DigitsValue(NatToString(n)) == n
  {
    if n >= 10 {
      var s := NatToString(n);
      assert s[..|s| - 1] == NatToString(n / 10);
      NatRoundTrip(n / 10);
    }
  }

  /** `int()` on a minus sign and digits. */
  lemma {:induction false} ParseNegative(d: string)
    requires d != [] && AllDigits(d)
    ensures ParseInt("-" + d) == Some(-(DigitsValue(d) as int))
  {
    assert ("-" + d)[0] == '-' && ("-" + d)[1..] == d;
  }

  /** `int()` on digits alone. */
  lemma {:induction false} ParseDigits(d: string)
    requires d != [] && AllDigits(d)
    ensures ParseInt(d) == Some(DigitsValue(d))
  {
    assert IsDigit(d[0]);
  }

  /** `int(str(x)) == x`. */
  lemma {:induction false} IntRoundTrip(x: int)
    ensures ParseInt(IntToString(x)) == Some(x)
  {
    if x < 0 {
      NatRoundTrip(-x);
      ParseNegative(NatToString(-x));
    } else {
      NatRoundTrip(x);
      ParseDigits(NatToString(x));
    }
  }
}
