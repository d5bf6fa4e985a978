/** String helpers with Python's meaning: `str.endswith`, `sep.join`,
    `str.split` on one character, and `str` of a non-negative int. */
module Text {

  /** `s.endswith(suffix)`: s is some text followed by suffix. */
  predicate EndsWith(s: string, suffix: string): (b: bool)
    ensures b <==> |suffix| <= |s| && s == s[..|s| - |suffix|] + suffix
  {
    |suffix| <= |s| && s[|s| - |suffix|..] == suffix
  }

  /** Text followed by a suffix ends with it. */
  lemma {:induction false} EndsWithAppend(front: string, suffix: string)
    ensures EndsWith(front + suffix, suffix)
  {
    var s := front + suffix;
    assert s[|s| - |suffix|..] == suffix;
  }

  /** `sep.join(parts)`. */
  function Join(parts: seq<string>, sep: char): string
    requires |parts| >= 1
  {
    if |parts| == 1 then parts[0]
    else Join(parts[..|parts| - 1], sep) + [sep] + parts[|parts| - 1]
  }

  /** A join begins with the first part and ends with the last. */
  lemma {:induction false} JoinEnds(parts: seq<string>, sep: char)
    requires |parts| >= 1
    ensures var s := Join(parts, sep);
      && |parts[0]| <= |s| && s[..|parts[0]|] == parts[0]
      && EndsWith(s, parts[|parts| - 1])
  {
    var s := Join(parts, sep);
    var last := parts[|parts| - 1];
    if |parts| > 1 {
      var front := parts[..|parts| - 1];
      JoinEnds(front, sep);
      var j := Join(front, sep);
      assert s == j + [sep] + last;
      assert s[..|parts[0]|] == j[..|front[0]|];
    }
    assert s[|s| - |last|..] == last;
  }

  function Last(parts: seq<string>): string
    requires |parts| >= 1
  {
    parts[|parts| - 1]
  }

  /** `s.split(sep)`: the pieces between occurrences of sep, built one
      character at a time: a sep starts a new, empty piece, any other
      character extends the last piece. */
  function Split(s: string, sep: char): (parts: seq<string>)
    ensures |parts| >= 1
  {
    if s == [] then [[]]
    else
      var init := Split(s[..|s| - 1], sep);
      var c := s[|s| - 1];
      if c == sep then init + [[]]
      else init[..|init| - 1] + [Last(init) + [c]]
  }

  /** No piece of a split contains sep. */
  lemma {:induction false} SplitPiecesFree(s: string, sep: char)
    ensures forall k :: 0 <= k < |Split(s, sep)| ==> sep !in Split(s, sep)[k]
  {
    if s != [] {
      SplitPiecesFree(s[..|s| - 1], sep);
    }
  }

  lemma {:induction false} JoinSnoc(front: seq<string>, x: string, sep: char)
    requires |front| >= 1
    ensures Join(front + [x], sep) == Join(front, sep) + [sep] + x
  {
    assert (front + [x])[..|front|] == front;
  }

  /** Adding a character to the last piece adds it to the join. */
  lemma {:induction false} JoinExtendLast(front: seq<string>, x: string, c: char, sep: char)
    ensures Join(front + [x + [c]], sep) == Join(front + [x], sep) + [c]
  {
    if front == [] {
      assert front + [x + [c]] == [x + [c]];
      assert front + [x] == [x];
    } else {
      JoinSnoc(front, x + [c], sep);
      JoinSnoc(front, x, sep);
    }
  }

  /** Joining the pieces of a split with sep gives the string back. */
  lemma {:induction false} JoinSplit(s: string, sep: char)
    ensures Join(Split(s, sep), sep) == s
  {
    if s != [] {
      var front := s[..|s| - 1];
      var c := s[|s| - 1];
      var init := Split(front, sep);
      JoinSplit(front, sep);
      assert s == front + [c];
      if c == sep {
        JoinSnoc(init, [], sep);
      } else {
        var m := |init|;
        assert init == init[..m - 1] + [Last(init)];
        JoinExtendLast(init[..m - 1], Last(init), c, sep);
      }
    }
  }

  /** Appending sep-free text extends the last piece only. */
  lemma {:induction false} SplitAppendFree(a: string, y: string, sep: char)
    requires sep !in y
    ensures var p := Split(a, sep);
      Split(a + y, sep) == p[..|p| - 1] + [Last(p) + y]
  {
    if y != [] {
      var y' := y[..|y| - 1];
      SplitAppendFree(a, y', sep);
      assert (a + y)[..|a + y| - 1] == a + y';
      var p := Split(a, sep);
      assert Last(p) + y' + [y[|y| - 1]] == Last(p) + y;
    } else {
      var p := Split(a, sep);
      assert a + y == a;
      assert p == p[..|p| - 1] + [Last(p)];
      assert Last(p) + y == Last(p);
    }
  }

  /** A trailing sep opens a new, empty piece. */
  lemma {:induction false} SplitSnocSep(a: string, sep: char)
    ensures Split(a + [sep], sep) == Split(a, sep) + [[]]
  {
    assert (a + [sep])[..|a|] == a;
  }

  /** Splitting a join of sep-free pieces gives the pieces back. */
  lemma {:induction false} SplitJoin(parts: seq<string>, sep: char)
    requires |parts| >= 1
    requires forall k :: 0 <= k < |parts| ==> sep !in parts[k]
    ensures Split(Join(parts, sep), sep) == parts
  {
    var y := Last(parts);
    if |parts| == 1 {
      SplitAppendFree([], y, sep);
      assert [] + y == y;
    } else {
      var front := parts[..|parts| - 1];
      assert parts == front + [y];
      SplitJoin(front, sep);
      JoinSnoc(front, y, sep);
      var j := Join(front, sep) + [sep];
      SplitSnocSep(Join(front, sep), sep);
      SplitAppendFree(j, y, sep);
      EmptyThenPiece(front, y);
    }
  }

  lemma {:induction false} EmptyThenPiece(front: seq<string>, y: string)
    ensures var p := front + [[]]; p[..|p| - 1] + [Last(p) + y] == front + [y]
  {
    var p := front + [[]];
    assert p[..|p| - 1] == front;
    assert Last(p) + y == y;
  }

  /** The last piece of a split is the text after the last sep: a
      sep-free suffix of s preceded by sep, or all of s if sep is absent. */
  lemma {:induction false} LastPiece(s: string, sep: char)
    ensures var t := Last(Split(s, sep));
      && |t| <= |s| && s[|s| - |t|..] == t && sep !in t
      && (sep in s ==> |t| < |s| && s[|s| - |t| - 1] == sep)
      && (sep !in s ==> t == s)
  {
    if s != [] {
      var front := s[..|s| - 1];
      LastPiece(front, sep);
      var c := s[|s| - 1];
      var t0 := Last(Split(front, sep));
      if c != sep {
        assert Last(Split(s, sep)) == t0 + [c];
        assert s == front + [c];
        if sep in s {
          assert sep in front;
        }
      }
    }
  }

  predicate IsDigit(c: char)
  {
    '0' <= c <= '9'
  }

  predicate AllDigits(s: string)
  {
    forall k :: 0 <= k < |s| ==> IsDigit(s[k])
  }

  function DigitChar(d: nat): (c: char)
    requires d < 10
    ensures IsDigit(c) && c as int - '0' as int == d
  {
    ('0' as int + d) as char
  }

  /** `str(n)`: decimal digits, most significant first, no leading zero. */
  function Decimal(n: nat): (s: string)
    ensures 1 <= |s| && AllDigits(s)
    ensures 1 < |s| ==> s[0] != '0'
    ensures n < 10 <==> |s| == 1
  {
    if n < 10 then [DigitChar(n)]
    else Decimal(n / 10) + [DigitChar(n % 10)]
  }

  /** `int(s)` on a string of digits. */
  function ParseDecimal(s: string): nat
    requires AllDigits(s)
  {
    if s == [] then 0
    else 10 * ParseDecimal(s[..|s| - 1]) + (s[|s| - 1] as int - '0' as int)
  }

  /** Reading back what `str` wrote gives the number. */
  lemma {:induction false} DecimalRoundTrip(n: nat)
    ensures ParseDecimal(Decimal(n)) == n
  {
    var s := Decimal(n);
    if n >= 10 {
      DecimalRoundTrip(n / 10);
      assert s[..|s| - 1] == Decimal(n / 10);
    }
  }

  /** Different numbers are written differently. */
  lemma {:induction false} DecimalInjective(m: nat, n: nat)
    requires Decimal(m) == Decimal(n)
    ensures m == n
  {
    DecimalRoundTrip(m);
    DecimalRoundTrip(n);
  }
}
