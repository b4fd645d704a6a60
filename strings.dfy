/**
  The pieces of Python 2's `str` behaviour that the date utilities rely on: bytewise
  ordering (used by `list.sort`), decimal digits, and `str.split`. A Python 2 `str` is a
  byte string, and each Dafny `char` here stands for one of its bytes, so `|s|` is
  `len(s)` counted in bytes.
 */
module Strings {

  /** Python 2's `a <= b` on byte strings: compare bytes left to right; a prefix is smaller. */
  predicate LexLe(a: string, b: string)
  {
    if |a| == 0 then true
    else if |b| == 0 then false
    else if a[0] != b[0] then a[0] < b[0]
    else LexLe(a[1..], b[1..])
  }

  lemma {:induction false} LexLeRefl(a: string)
    ensures LexLe(a, a)
  {
    if |a| > 0 {
      LexLeRefl(a[1..]);
    }
  }

  lemma {:induction false} LexLeTotal(a: string, b: string)
    ensures LexLe(a, b) || LexLe(b, a)
  {
    if |a| > 0 && |b| > 0 && a[0] == b[0] {
      LexLeTotal(a[1..], b[1..]);
    }
  }

  lemma {:induction false} LexLeAntisymmetric(a: string, b: string)
    requires LexLe(a, b) && LexLe(b, a)
    ensures a == b
  {
    if |a| > 0 && |b| > 0 {
      LexLeAntisymmetric(a[1..], b[1..]);
      assert a == [a[0]] + a[1..];
      assert b == [b[0]] + b[1..];
    }
  }

  lemma {:induction false} LexLeTransitive(a: string, b: string, c: string)
    requires LexLe(a, b) && LexLe(b, c)
    ensures LexLe(a, c)
  {
    if |a| > 0 && |b| > 0 && |c| > 0 && a[0] == b[0] && b[0] == c[0] {
      LexLeTransitive(a[1..], b[1..], c[1..]);
    }
  }

  /** Comparing two strings of equal length that end in one more character each. */
  lemma {:induction false} LexLeSnoc(a: string, b: string, x: char, y: char)
    requires |a| == |b|
    ensures LexLe(a + [x], b + [y]) <==> (a != b && LexLe(a, b)) || (a == b && x <= y)
  {
    if |a| == 0 {
      assert a + [x] == [x] && b + [y] == [y];
      assert ([x])[1..] == [];
    } else {
      assert (a + [x])[1..] == a[1..] + [x];
      assert (b + [y])[1..] == b[1..] + [y];
      LexLeSnoc(a[1..], b[1..], x, y);
      if a[0] == b[0] {
        assert a[1..] == b[1..] <==> a == b by {
          assert a == [a[0]] + a[1..];
          assert b == [b[0]] + b[1..];
        }
      }
    }
  }

  predicate IsDigit(c: char)
  {
    '0' <= c <= '9'
  }

  predicate AllDigits(s: string)
  {
    forall i :: 0 <= i < |s| ==> IsDigit(s[i])
  }

  function DigitValue(c: char): int
  {
    c as int - '0' as int
  }

  function Pow10(n: nat): (p: nat)
    ensures p >= 1
  {
    if n == 0 then 1 else 10 * Pow10(n - 1)
  }

  /** The decimal number a digit string spells, most significant digit first. */
  function Value(s: string): int
  {
    if |s| == 0 then 0 else Value(s[..|s| - 1]) * 10 + DigitValue(s[|s| - 1])
  }

  /** The `w`-digit, zero-padded decimal spelling of `n` (its low `w` digits). */
  function Pad(n: nat, w: nat): (s: string)
    ensures |s| == w && AllDigits(s)
  {
    if w == 0 then "" else Pad(n / 10, w - 1) + [(48 + n % 10) as char]
  }

  /** A digit string is read back by `Pad`, and its value has at most `|s|` digits. */
  lemma {:induction false} PadValue(s: string)
    requires AllDigits(s)
    ensures 0 <= Value(s) < Pow10(|s|)
    ensures Pad(Value(s), |s|) == s
  {
    if |s| > 0 {
      var init := s[..|s| - 1];
      assert AllDigits(init);
      PadValue(init);
      var v, d := Value(s), DigitValue(s[|s| - 1]);
      assert 0 <= d <= 9;
      assert v == Value(init) * 10 + d;
      assert v / 10 == Value(init) && v % 10 == d;
      assert (48 + d) as char == s[|s| - 1];
      assert Pad(v, |s|) == Pad(Value(init), |init|) + [s[|s| - 1]];
      assert s == init + [s[|s| - 1]];
    }
  }

  /** `Pad` spells a number that fits in `w` digits exactly. */
  lemma {:induction false} ValuePad(n: nat, w: nat)
    requires n < Pow10(w)
    ensures Value(Pad(n, w)) == n
  {
    if w > 0 {
      ValuePad(n / 10, w - 1);
      var p := Pad(n, w);
      assert p[..|p| - 1] == Pad(n / 10, w - 1);
    }
  }

  /** The value of a concatenation: the left part shifted by the right part's length. */
  lemma {:induction false} ValueConcat(a: string, b: string)
    ensures Value(a + b) == Value(a) * Pow10(|b|) + Value(b)
  {
    if |b| == 0 {
      assert a + b == a;
    } else {
      var b' := b[..|b| - 1];
      assert (a + b)[..|a + b| - 1] == a + b';
      ValueConcat(a, b');
      calc {
        Value(a + b);
        Value(a + b') * 10 + DigitValue(b[|b| - 1]);
        (Value(a) * Pow10(|b'|) + Value(b')) * 10 + DigitValue(b[|b| - 1]);
        Value(a) * (Pow10(|b'|) * 10) + (Value(b') * 10 + DigitValue(b[|b| - 1]));
        Value(a) * Pow10(|b|) + Value(b);
      }
    }
  }

  /** On digit strings of one length, Python's string order is numeric order. */
  lemma {:induction false} LexLeIsNumeric(a: string, b: string)
    requires |a| == |b| && AllDigits(a) && AllDigits(b)
    ensures LexLe(a, b) <==> Value(a) <= Value(b)
    decreases |a|
  {
    if |a| > 0 {
      var n := |a| - 1;
      var a', b' := a[..n], b[..n];
      assert AllDigits(a') && AllDigits(b');
      assert a == a' + [a[n]] && b == b' + [b[n]];
      LexLeSnoc(a', b', a[n], b[n]);
      LexLeIsNumeric(a', b');
      LexLeIsNumeric(b', a');
      if a' == b' {
      } else if LexLe(a', b') {
        assert Value(a') != Value(b') by {
          if Value(a') == Value(b') { LexLeAntisymmetric(a', b'); }
        }
      } else {
        LexLeTotal(a', b');
      }
    }
  }

  /**
    Python's `s.split(sep)`: the maximal pieces of `s` between occurrences of `sep`;
    there is always at least one piece, and none contains `sep`.
   */
  function Split(s: string, sep: char): (pieces: seq<string>)
    ensures |pieces| >= 1
    ensures forall i :: 0 <= i < |pieces| ==> sep !in pieces[i]
    ensures |pieces| >= 2 <==> sep in s
  {
    if |s| == 0 then [""]
    else
      var rest := Split(s[1..], sep);
      if s[0] == sep then [""] + rest
      else [[s[0]] + rest[0]] + rest[1..]
  }

  /** Python's `sep.join(pieces)`. */
  function Join(pieces: seq<string>, sep: char): string
    requires |pieces| >= 1
  {
    if |pieces| == 1 then pieces[0] else pieces[0] + [sep] + Join(pieces[1..], sep)
  }

  /** Splitting loses nothing: joining the pieces back gives the original string. */
  lemma {:induction false} JoinSplit(s: string, sep: char)
    ensures Join(Split(s, sep), sep) == s
  {
    if |s| > 0 {
      JoinSplit(s[1..], sep);
      var rest := Split(s[1..], sep);
      if s[0] == sep {
        assert ([""] + rest)[1..] == rest;
      } else {
        var p := [[s[0]] + rest[0]] + rest[1..];
        assert p[1..] == rest[1..];
        if |rest| > 1 {
          assert Join(rest, sep) == rest[0] + [sep] + Join(rest[1..], sep);
        }
        assert s == [s[0]] + s[1..];
      }
    }
  }

  /** Splitting undoes joining, when no piece contains the separator. */
  lemma {:induction false} SplitJoin(pieces: seq<string>, sep: char)
    requires |pieces| >= 1
    requires forall i :: 0 <= i < |pieces| ==> sep !in pieces[i]
    ensures Split(Join(pieces, sep), sep) == pieces
  {
    if |pieces| == 1 {
      SplitNoSep(pieces[0], sep);
    } else {
      SplitJoin(pieces[1..], sep);
      SplitPrefix(pieces[0], Join(pieces[1..], sep), sep);
    }
  }

  lemma {:induction false} SplitNoSep(s: string, sep: char)
    requires sep !in s
    ensures Split(s, sep) == [s]
  {
    if |s| > 0 {
      SplitNoSep(s[1..], sep);
      assert s == [s[0]] + s[1..];
    }
  }

  /** A separator-free head in front of a separator becomes its own first piece. */
  lemma {:induction false} SplitPrefix(head: string, tail: string, sep: char)
    requires sep !in head
    ensures Split(head + [sep] + tail, sep) == [head] + Split(tail, sep)
  {
    var s := head + [sep] + tail;
    if |head| == 0 {
      assert s == [sep] + tail;
      assert s[1..] == tail;
    } else {
      assert s[1..] == head[1..] + [sep] + tail;
      SplitPrefix(head[1..], tail, sep);
      assert head == [head[0]] + head[1..];
    }
  }
}
