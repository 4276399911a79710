/** The few Python `str` operations the core relies on: `split` on one
    character, `join`, and `strip()` with no argument. */
module PyStrings {

  /** Number of occurrences of `c` in `s`. */
  function Occurrences(s: string, c: char): nat
  {
    if s == [] then 0 else (if s[0] == c then 1 else 0) + Occurrences(s[1..], c)
  }

  lemma {:induction false} OccurrencesZero(s: string, c: char)
    ensures Occurrences(s, c) == 0 <==> c !in s
  {
    if s != [] {
      OccurrencesZero(s[1..], c);
      assert s == [s[0]] + s[1..];
    }
  }

  /** Python's `s.split(c)`: the maximal pieces between occurrences of `c`. */
  function Split(s: string, c: char): (parts: seq<string>)
    ensures |parts| >= 1
  {
    if s == [] then [""]
    else
      var rest := Split(s[1..], c);
      if s[0] == c then [""] + rest else [[s[0]] + rest[0]] + rest[1..]
  }

  /** Python's `c.join(parts)`. */
  function Join(parts: seq<string>, c: char): string
    requires |parts| >= 1
  {
    if |parts| == 1 then parts[0] else parts[0] + [c] + Join(parts[1..], c)
  }

  /** Joining the pieces of a split gives back the string. */
  lemma {:induction false} JoinSplit(s: string, c: char)
    ensures Join(Split(s, c), c) == s
  {
    if s != [] {
      var rest := Split(s[1..], c);
      JoinSplit(s[1..], c);
      if s[0] == c {
        assert ([""] + rest)[1..] == rest;
      } else {
        var parts := [[s[0]] + rest[0]] + rest[1..];
        if |rest| > 1 {
          assert parts[1..] == rest[1..];
          assert Join(rest, c) == rest[0] + [c] + Join(rest[1..], c);
        }
      }
    }
  }

  /** No piece of a split contains the separator. */
  lemma {:induction false} SplitPiecesFree(s: string, c: char)
    ensures forall i :: 0 <= i < |Split(s, c)| ==> c !in Split(s, c)[i]
  {
    if s != [] {
      SplitPiecesFree(s[1..], c);
    }
  }

  /** A split yields one piece more than there are separators. */
  lemma {:induction false} SplitCount(s: string, c: char)
    ensures |Split(s, c)| == Occurrences(s, c) + 1
  {
    if s != [] {
      SplitCount(s[1..], c);
    }
  }

  /** The last piece is what `Join` appends after the final separator. */
  lemma {:induction false} JoinLast(parts: seq<string>, c: char)
    requires |parts| > 1
    ensures Join(parts, c) == Join(parts[..|parts| - 1], c) + [c] + parts[|parts| - 1]
  {
    if |parts| > 2 {
      JoinLast(parts[1..], c);
      assert parts[1..][..|parts| - 2] == parts[..|parts| - 1][1..];
    }
  }

  /** Splitting a text free of `c` gives that text alone. */
  lemma {:induction false} SplitFree(s: string, c: char)
    requires c !in s
    ensures Split(s, c) == [s]
  {
    if s != [] {
      SplitFree(s[1..], c);
      assert [s[0]] + s[1..] == s;
    }
  }

  /** A head free of `c`, followed by `c`, splits off as one piece. */
  lemma {:induction false} SplitAfterFree(a: string, b: string, c: char)
    requires c !in a
    ensures Split(a + [c] + b, c) == [a] + Split(b, c)
  {
    if a != [] {
      assert (a + [c] + b)[1..] == a[1..] + [c] + b;
      assert (a + [c] + b)[0] == a[0];
      SplitAfterFree(a[1..], b, c);
      assert [a[0]] + a[1..] == a;
    } else {
      assert a + [c] + b == [c] + b;
    }
  }

  /** The text after the last `c` in `s`, or `s` itself when `c` does not
      occur: Python's `s.split(c)[-1]`. */
  function AfterLast(s: string, c: char): string
  {
    var parts := Split(s, c);
    parts[|parts| - 1]
  }

  /** The text before the first `c` in `s`: Python's `s.split(c)[0]`. */
  function BeforeFirst(s: string, c: char): string
  {
    Split(s, c)[0]
  }

  /** `AfterLast` is the separator-free tail of `s`, preceded by `c` when `c` occurs. */
  lemma AfterLastSpec(s: string, c: char)
    ensures var r := AfterLast(s, c);
      && c !in r
      && |r| <= |s| && r == s[|s| - |r|..]
      && (c in s ==> |r| < |s| && s[|s| - |r| - 1] == c)
      && (c !in s ==> r == s)
  {
    var parts := Split(s, c);
    var r := parts[|parts| - 1];
    SplitPiecesFree(s, c);
    JoinSplit(s, c);
    SplitCount(s, c);
    OccurrencesZero(s, c);
    if |parts| > 1 {
      JoinLast(parts, c);
      var front := Join(parts[..|parts| - 1], c);
      assert s == front + [c] + r;
      assert s[|s| - |r|..] == r;
      assert s[|s| - |r| - 1] == c;
    }
  }

  /** `BeforeFirst` is the separator-free head of `s`, followed by `c` when `c` occurs. */
  lemma BeforeFirstSpec(s: string, c: char)
    ensures var r := BeforeFirst(s, c);
      && c !in r
      && |r| <= |s| && r == s[..|r|]
      && (c in s ==> |r| < |s| && s[|r|] == c)
      && (c !in s ==> r == s)
  {
    var parts := Split(s, c);
    SplitPiecesFree(s, c);
    JoinSplit(s, c);
    SplitCount(s, c);
    OccurrencesZero(s, c);
    if |parts| > 1 {
      assert s == parts[0] + [c] + Join(parts[1..], c);
      assert s[..|parts[0]|] == parts[0];
    }
  }

  /** The second piece of a split sits between the first and the second `c`. */
  lemma SecondPieceSpec(s: string, c: char)
    requires |Split(s, c)| > 1
    ensures var parts := Split(s, c);
      && c !in parts[1]
      && |parts[0]| + 1 + |parts[1]| <= |s|
      && s[..|parts[0]| + 1 + |parts[1]|] == parts[0] + [c] + parts[1]
      && (|parts| > 2 ==> |parts[0]| + 1 + |parts[1]| < |s| && s[|parts[0]| + 1 + |parts[1]|] == c)
      && (|parts| == 2 ==> |parts[0]| + 1 + |parts[1]| == |s|)
  {
    var parts := Split(s, c);
    SplitPiecesFree(s, c);
    JoinSplit(s, c);
    assert s == parts[0] + [c] + Join(parts[1..], c);
    var tail := parts[1..];
    if |tail| > 1 {
      assert Join(tail, c) == tail[0] + [c] + Join(tail[1..], c);
      assert s == (parts[0] + [c] + parts[1]) + [c] + Join(tail[1..], c);
    }
  }

  /** Python's `str.isspace()` for one character: the Unicode whitespace set. */
  predicate IsSpace(ch: char)
  {
    var n := ch as int;
    || 9 <= n <= 13 || 28 <= n <= 32 || n == 0x85 || n == 0xA0 || n == 0x1680
    || 0x2000 <= n <= 0x200A || n == 0x2028 || n == 0x2029 || n == 0x202F
    || n == 0x205F || n == 0x3000
  }

  /** `s` with its leading whitespace removed. */
  function StripStart(s: string): (r: string)
    ensures |r| <= |s| && r == s[|s| - |r|..]
    ensures forall i :: 0 <= i < |s| - |r| ==> IsSpace(s[i])
    ensures r != [] ==> !IsSpace(r[0])
  {
    if s != [] && IsSpace(s[0]) then StripStart(s[1..]) else s
  }

  /** `s` with its trailing whitespace removed. */
  function StripEnd(s: string): (r: string)
    ensures |r| <= |s| && r == s[..|r|]
    ensures forall i :: |r| <= i < |s| ==> IsSpace(s[i])
    ensures r != [] ==> !IsSpace(r[|r| - 1])
  {
    if s != [] && IsSpace(s[|s| - 1]) then StripEnd(s[..|s| - 1]) else s
  }

  /** Python's `s.strip()`: the result neither starts nor ends with whitespace. */
  function Strip(s: string): (r: string)
    ensures |r| <= |s|
    ensures r != [] ==> !IsSpace(r[0]) && !IsSpace(r[|r| - 1])
  {
    StripEnd(StripStart(s))
  }

  /** `strip()` removes whitespace at the two ends and nothing else: the
      result is a slice of `s`, and everything before and after it is
      whitespace. */
  lemma StripSpec(s: string)
    ensures exists i, j ::
      && 0 <= i <= j <= |s| && Strip(s) == s[i..j]
      && (forall m :: 0 <= m < i ==> IsSpace(s[m]))
      && (forall m :: j <= m < |s| ==> IsSpace(s[m]))
  {
    var t := StripStart(s);
    var r := StripEnd(t);
    var i := |s| - |t|;
    var j := i + |r|;
    assert t == s[i..];
    assert r == s[i..j];
    assert forall m :: j <= m < |s| ==> s[m] == t[m - i];
  }

}
