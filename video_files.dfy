/** The ordering `get_video_files` in posture.py puts on the videos of a
    folder: the `*.mp4` matches then the `*.avi` matches, sorted (stably) by
    the integer value of the first run of digits anywhere in the full path.
    The directory listing itself is left out: the two glob results are given. */
module VideoFiles {
  import opened Base

  /** A decimal digit; the regular expression's `\d` on ASCII. */
  predicate IsDigit(ch: char)
  {
    '0' <= ch <= '9'
  }

  /** The value of one digit. */
  function DigitValue(ch: char): nat
    requires IsDigit(ch)
  {
    (ch as int) - ('0' as int)
  }

  /** Where `re.search(r'\d+', s)` starts: the first digit, or `|s|` when none. */
  function FirstDigitIndex(s: string): (i: nat)
    ensures i <= |s|
    ensures forall j :: 0 <= j < i ==> !IsDigit(s[j])
    ensures i < |s| ==> IsDigit(s[i])
  {
    if s == [] || IsDigit(s[0]) then 0 else 1 + FirstDigitIndex(s[1..])
  }

  /** The longest run of digits at the start of `s`: what the greedy `\d+` takes. */
  function LeadingDigits(s: string): (r: string)
    ensures |r| <= |s| && r == s[..|r|]
    ensures forall j :: 0 <= j < |r| ==> IsDigit(r[j])
    ensures |r| < |s| ==> !IsDigit(s[|r|])
  {
    if s != [] && IsDigit(s[0]) then [s[0]] + LeadingDigits(s[1..]) else []
  }

  /** `int(ds)` for a run of digits, leading zeros included. */
  function DigitsValue(ds: string): nat
    requires forall j :: 0 <= j < |ds| ==> IsDigit(ds[j])
  {
    if ds == [] then 0
    else
      var n := |ds| - 1;
      DigitsValue(ds[..n]) * 10 + DigitValue(ds[n])
  }

  /** The decimal numeral of `n`, without leading zeros. */
  function Decimal(n: nat): (ds: string)
    ensures |ds| >= 1 && forall j :: 0 <= j < |ds| ==> IsDigit(ds[j])
  {
    var d := ['0' + ((n % 10) as char)];
    if n < 10 then d else Decimal(n / 10) + d
  }

  /** `int` reads back the numeral of every natural number. */
  lemma {:induction false} DecimalRoundTrip(n: nat)
    ensures DigitsValue(Decimal(n)) == n
  {
    var ds := Decimal(n);
    var m := |ds| - 1;
    if n >= 10 {
      DecimalRoundTrip(n / 10);
      assert ds[..m] == Decimal(n / 10);
    }
  }

  /** `int(re.search(r'\d+', path).group())`, or `None` where `re.search`
      finds nothing and `.group()` raises `AttributeError`. */
  function FirstNumber(path: string): Option<nat>
  {
    var i := FirstDigitIndex(path);
    if i == |path| then None else Some(DigitsValue(LeadingDigits(path[i..])))
  }

  /** The digit-free head of a path does not move the number that follows it. */
  lemma {:induction false} FirstDigitAfterPrefix(pre: string, rest: string)
    requires forall j :: 0 <= j < |pre| ==> !IsDigit(pre[j])
    ensures FirstDigitIndex(pre + rest) == |pre| + FirstDigitIndex(rest)
  {
    if pre != [] {
      assert (pre + rest)[1..] == pre[1..] + rest;
      FirstDigitAfterPrefix(pre[1..], rest);
    } else {
      assert pre + rest == rest;
    }
  }

  /** A run of digits followed by a non-digit is taken whole. */
  lemma {:induction false} LeadingRun(ds: string, post: string)
    requires forall j :: 0 <= j < |ds| ==> IsDigit(ds[j])
    requires post == [] || !IsDigit(post[0])
    ensures LeadingDigits(ds + post) == ds
  {
    if ds != [] {
      assert (ds + post)[1..] == ds[1..] + post;
      LeadingRun(ds[1..], post);
      assert [ds[0]] + ds[1..] == ds;
    } else {
      assert ds + post == post;
    }
  }

  /** The key of `pre + ds + post` is the value of `ds` when `pre` has no digit
      and `post` does not continue the run. */
  lemma NumberAfterPrefix(pre: string, ds: string, post: string)
    requires forall j :: 0 <= j < |pre| ==> !IsDigit(pre[j])
    requires |ds| >= 1 && forall j :: 0 <= j < |ds| ==> IsDigit(ds[j])
    requires post == [] || !IsDigit(post[0])
    ensures FirstNumber(pre + ds + post) == Some(DigitsValue(ds))
  {
    var p := pre + ds + post;
    assert p == pre + (ds + post);
    FirstDigitAfterPrefix(pre, ds + post);
    assert (ds + post)[0] == ds[0];
    assert p[|pre|..] == ds + post;
    LeadingRun(ds, post);
  }

  /** In particular a path numbered `n` after a digit-free head has key `n`. */
  lemma NumberedPath(pre: string, n: nat, post: string)
    requires forall j :: 0 <= j < |pre| ==> !IsDigit(pre[j])
    requires post == [] || !IsDigit(post[0])
    ensures FirstNumber(pre + Decimal(n) + post) == Some(n)
  {
    NumberAfterPrefix(pre, Decimal(n), post);
    DecimalRoundTrip(n);
  }

  /** A run that ends inside `a` is not extended by what follows `a`. */
  lemma {:induction false} LeadingDigitsStopInside(a: string, b: string)
    requires exists j :: 0 <= j < |a| && !IsDigit(a[j])
    ensures LeadingDigits(a + b) == LeadingDigits(a)
  {
    if IsDigit(a[0]) {
      assert (a + b)[1..] == a[1..] + b;
      var j :| 0 <= j < |a| && !IsDigit(a[j]);
      assert j > 0 && !IsDigit(a[1..][j - 1]);
      LeadingDigitsStopInside(a[1..], b);
    }
  }

  /** The first digit of a head that has one is the first digit of the path. */
  lemma {:induction false} FirstDigitInside(a: string, b: string)
    requires exists j :: 0 <= j < |a| && IsDigit(a[j])
    ensures FirstDigitIndex(a + b) == FirstDigitIndex(a) < |a|
  {
    if !IsDigit(a[0]) {
      assert (a + b)[1..] == a[1..] + b;
      var j :| 0 <= j < |a| && IsDigit(a[j]);
      assert j > 0 && IsDigit(a[1..][j - 1]);
      FirstDigitInside(a[1..], b);
    }
  }

  /** Every path under a folder whose name holds a digit, and that ends in a
      non-digit such as `/`, has the folder's number as its key. */
  lemma FolderNumberDecides(folder: string, rest: string)
    requires exists j :: 0 <= j < |folder| && IsDigit(folder[j])
    requires |folder| > 0 && !IsDigit(folder[|folder| - 1])
    ensures FirstNumber(folder + rest) == FirstNumber(folder) && FirstNumber(folder).Some?
  {
    FirstDigitInside(folder, rest);
    var i := FirstDigitIndex(folder);
    assert (folder + rest)[i..] == folder[i..] + rest;
    assert !IsDigit(folder[i..][|folder| - 1 - i]);
    LeadingDigitsStopInside(folder[i..], rest);
  }

  /** The sort key of a path that has one; the sort below is only applied to
      lists in which every path has one. */
  function Rank(path: string): nat
  {
    match FirstNumber(path)
    case Some(k) => k
    case None => 0
  }

  /** `x` placed before the first element whose key is not below its own. */
  function InsertByKey(x: string, sorted: seq<string>): seq<string>
  {
    if sorted == [] || Rank(x) <= Rank(sorted[0]) then [x] + sorted
    else [sorted[0]] + InsertByKey(x, sorted[1..])
  }

  /** `list.sort(key=...)`: a stable sort by key. */
  function SortByKey(s: seq<string>): seq<string>
  {
    if s == [] then [] else InsertByKey(s[0], SortByKey(s[1..]))
  }

  predicate SortedByKey(s: seq<string>)
  {
    forall i, j :: 0 <= i < j < |s| ==> Rank(s[i]) <= Rank(s[j])
  }

  /** The elements of `s` with key `k`, in their order in `s`. */
  function WithKey(s: seq<string>, k: nat): seq<string>
  {
    if s == [] then []
    else (if Rank(s[0]) == k then [s[0]] else []) + WithKey(s[1..], k)
  }

  /** Inserting keeps every element and adds `x`. */
  lemma {:induction false} InsertByKeyPerm(x: string, sorted: seq<string>)
    ensures multiset(InsertByKey(x, sorted)) == multiset([x]) + multiset(sorted)
  {
    if !(sorted == [] || Rank(x) <= Rank(sorted[0])) {
      InsertByKeyPerm(x, sorted[1..]);
      assert sorted == [sorted[0]] + sorted[1..];
    }
  }

  /** A bound below `x` and below every element stays below every element
      after the insertion. */
  lemma {:induction false} InsertByKeyBound(x: string, sorted: seq<string>, bound: nat)
    requires bound <= Rank(x)
    requires forall i :: 0 <= i < |sorted| ==> bound <= Rank(sorted[i])
    ensures forall i :: 0 <= i < |InsertByKey(x, sorted)| ==> bound <= Rank(InsertByKey(x, sorted)[i])
  {
    if !(sorted == [] || Rank(x) <= Rank(sorted[0])) {
      InsertByKeyBound(x, sorted[1..], bound);
    }
  }

  /** Inserting into a sorted list keeps it sorted. */
  lemma {:induction false} InsertByKeySorted(x: string, sorted: seq<string>)
    requires SortedByKey(sorted)
    ensures SortedByKey(InsertByKey(x, sorted))
  {
    if !(sorted == [] || Rank(x) <= Rank(sorted[0])) {
      var tail := sorted[1..];
      InsertByKeySorted(x, tail);
      InsertByKeyBound(x, tail, Rank(sorted[0]));
    }
  }

  /** `x` goes before every element of its own key, so the elements of each
      key keep their order with `x` first. */
  lemma {:induction false} InsertByKeyStable(x: string, sorted: seq<string>, k: nat)
    ensures WithKey(InsertByKey(x, sorted), k) == WithKey([x], k) + WithKey(sorted, k)
  {
    var r := InsertByKey(x, sorted);
    assert [x][1..] == [];
    if sorted == [] || Rank(x) <= Rank(sorted[0]) {
      assert r[1..] == sorted;
    } else {
      var tail := sorted[1..];
      InsertByKeyStable(x, tail, k);
      assert r[1..] == InsertByKey(x, tail);
      if Rank(x) == k {
        assert Rank(sorted[0]) != k;
      }
    }
  }

  /** The sort orders by key, keeps every path, and keeps the original order
      of the paths that share a key. */
  lemma {:induction false} SortByKeySpec(s: seq<string>)
    ensures SortedByKey(SortByKey(s))
    ensures multiset(SortByKey(s)) == multiset(s)
    ensures forall k :: WithKey(SortByKey(s), k) == WithKey(s, k)
  {
    if s != [] {
      SortByKeySpec(s[1..]);
      InsertByKeySorted(s[0], SortByKey(s[1..]));
      InsertByKeyPerm(s[0], SortByKey(s[1..]));
      assert s == [s[0]] + s[1..];
      forall k ensures WithKey(SortByKey(s), k) == WithKey(s, k) {
        InsertByKeyStable(s[0], SortByKey(s[1..]), k);
        assert WithKey([s[0]], k) == (if Rank(s[0]) == k then [s[0]] else []) by {
          assert [s[0]][1..] == [];
        }
      }
    }
  }

  /** Choosing the elements of one key distributes over concatenation. */
  lemma {:induction false} WithKeyConcat(a: seq<string>, b: seq<string>, k: nat)
    ensures WithKey(a + b, k) == WithKey(a, k) + WithKey(b, k)
  {
    if a != [] {
      assert (a + b)[1..] == a[1..] + b;
      WithKeyConcat(a[1..], b, k);
    } else {
      assert a + b == b;
    }
  }

  /** Where the paths all share one key the sort leaves the list as it is. */
  lemma {:induction false} SortOneKey(s: seq<string>, k: nat)
    requires forall i :: 0 <= i < |s| ==> Rank(s[i]) == k
    ensures SortByKey(s) == s
  {
    if s != [] {
      SortOneKey(s[1..], k);
      assert [s[0]] + s[1..] == s;
    }
  }

  /** `re.search(...).group()` fails on a path without a digit. */
  datatype SortError = NoNumber(path: string)

  /** The first path, in list order, that has no number: the one whose key
      raises first. */
  function FirstUnnumbered(s: seq<string>): (r: Option<string>)
    ensures r.None? <==> forall i :: 0 <= i < |s| ==> FirstNumber(s[i]).Some?
    ensures r.Some? ==> r.value in s && FirstNumber(r.value).None?
  {
    if s == [] then None
    else if FirstNumber(s[0]).None? then Some(s[0])
    else FirstUnnumbered(s[1..])
  }

  /** The path found is the one at the first index without a number: every
      path before it has one. */
  lemma {:induction false} FirstUnnumberedAt(s: seq<string>, i: nat)
    requires i < |s| && FirstNumber(s[i]).None?
    requires forall j :: 0 <= j < i ==> FirstNumber(s[j]).Some?
    ensures FirstUnnumbered(s) == Some(s[i])
  {
    if i > 0 {
      FirstUnnumberedAt(s[1..], i - 1);
    }
  }

  /** `get_video_files` on the two glob results. */
  function GetVideoFiles(mp4s: seq<string>, avis: seq<string>): Result<seq<string>, SortError>
  {
    var files := mp4s + avis;
    match FirstUnnumbered(files)
    case Some(p) => Err(NoNumber(p))
    case None => Ok(SortByKey(files))
  }

  /** The result is an error exactly when a path has no digit; otherwise it is
      the two lists merged, ordered by key, with equal keys in glob order and
      the `*.mp4` matches before the `*.avi` matches. */
  lemma GetVideoFilesSpec(mp4s: seq<string>, avis: seq<string>)
    ensures GetVideoFiles(mp4s, avis).Err? <==> exists p :: p in mp4s + avis && FirstNumber(p).None?
    ensures GetVideoFiles(mp4s, avis).Ok? ==>
      var r := GetVideoFiles(mp4s, avis).value;
      && SortedByKey(r)
      && multiset(r) == multiset(mp4s) + multiset(avis)
      && forall k :: WithKey(r, k) == WithKey(mp4s, k) + WithKey(avis, k)
  {
    var files := mp4s + avis;
    SortByKeySpec(files);
    forall k ensures WithKey(files, k) == WithKey(mp4s, k) + WithKey(avis, k) {
      WithKeyConcat(mp4s, avis, k);
    }
    if FirstUnnumbered(files).None? {
      forall p | p in files ensures FirstNumber(p).Some? {
        var i :| 0 <= i < |files| && files[i] == p;
      }
    }
  }

  /** Because the key is read from the full path, a folder whose name holds
      a number gives every video the same key, and the result is the glob
      order unchanged. */
  lemma FolderNumberKeepsGlobOrder(folder: string, mp4s: seq<string>, avis: seq<string>)
    requires exists j :: 0 <= j < |folder| && IsDigit(folder[j])
    requires |folder| > 0 && !IsDigit(folder[|folder| - 1])
    requires forall i :: 0 <= i < |mp4s + avis| ==>
      |folder| <= |(mp4s + avis)[i]| && (mp4s + avis)[i][..|folder|] == folder
    ensures GetVideoFiles(mp4s, avis) == Ok(mp4s + avis)
  {
    var files := mp4s + avis;
    forall i | 0 <= i < |files| ensures FirstNumber(files[i]) == FirstNumber(folder) {
      var p := files[i];
      assert p == folder + p[|folder|..];
      FolderNumberDecides(folder, p[|folder|..]);
    }
    FolderNumberDecides(folder, []);
    SortOneKey(files, FirstNumber(folder).value);
  }
}
