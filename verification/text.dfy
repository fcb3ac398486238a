// Strings as the Go code compares and sorts them. A string is a sequence of
// characters; on ASCII text this is also a sequence of bytes.
module Text {

  // strings.Compare(a, b) < 0
  predicate Less(a: string, b: string)
    decreases |a|
  {
    if |b| == 0 then false
    else if |a| == 0 then true
    else if a[0] != b[0] then a[0] < b[0]
    else Less(a[1..], b[1..])
  }

  lemma {:induction false} LessIrreflexive(a: string)
    ensures !Less(a, a)
    decreases |a|
  {
    if |a| > 0 {
      LessIrreflexive(a[1..]);
    }
  }

  lemma {:induction false} LessTransitive(a: string, b: string, c: string)
    requires Less(a, b) && Less(b, c)
    ensures Less(a, c)
    decreases |a|
  {
    if |a| > 0 && a[0] == b[0] == c[0] {
      LessTransitive(a[1..], b[1..], c[1..]);
    }
  }

  lemma {:induction false} LessTrichotomy(a: string, b: string)
    ensures a == b || Less(a, b) || Less(b, a)
    ensures !(Less(a, b) && Less(b, a))
    ensures a == b ==> !Less(a, b)
    decreases |a|
  {
    if |a| > 0 && |b| > 0 && a[0] == b[0] {
      LessTrichotomy(a[1..], b[1..]);
      assert a == [a[0]] + a[1..] && b == [b[0]] + b[1..];
    }
  }

  // It is the lexicographic order.
  lemma {:induction false} LessMeans(a: string, b: string)
    ensures Less(a, b) <==> exists k: nat :: FirstDifference(a, b, k) && (k == |a| || a[k] < b[k])
    decreases |a|
  {
    if |a| > 0 && |b| > 0 && a[0] == b[0] {
      LessMeans(a[1..], b[1..]);
      if k: nat :| FirstDifference(a[1..], b[1..], k) && (k == |a[1..]| || a[1..][k] < b[1..][k]) {
        assert a[..k + 1] == [a[0]] + a[1..][..k] && b[..k + 1] == [b[0]] + b[1..][..k];
        assert FirstDifference(a, b, k + 1);
      }
      if k: nat :| FirstDifference(a, b, k) && (k == |a| || a[k] < b[k]) {
        assert k > 0 && a[1..][..k - 1] == a[..k][1..] && b[1..][..k - 1] == b[..k][1..];
        assert FirstDifference(a[1..], b[1..], k - 1);
      }
    } else if Less(a, b) {
      assert a[..0] == b[..0] && FirstDifference(a, b, 0);
    } else if k: nat :| FirstDifference(a, b, k) && (k == |a| || a[k] < b[k]) {
      assert k > 0 ==> a[..k][0] == b[..k][0];
    }
  }

  ghost predicate FirstDifference(a: string, b: string, k: nat) {
    k <= |a| && k < |b| && a[..k] == b[..k] && (k < |a| ==> a[k] != b[k])
  }

  // The order used by slices.Sort on strings: ascending, duplicates allowed.
  ghost predicate Sorted(s: seq<string>) {
    forall i, j :: 0 <= i < j < |s| ==> !Less(s[j], s[i])
  }

  function Insert(x: string, s: seq<string>): (r: seq<string>)
    ensures multiset(r) == multiset{x} + multiset(s)
    ensures |r| == |s| + 1
  {
    if s == [] then [x]
    else
      assert s == [s[0]] + s[1..];
      if Less(s[0], x) then [s[0]] + Insert(x, s[1..])
      else [x] + s
  }

  // slices.Sort
  function Sort(s: seq<string>): (r: seq<string>)
    ensures multiset(r) == multiset(s)
    ensures |r| == |s|
  {
    if s == [] then []
    else
      assert s == [s[0]] + s[1..];
      Insert(s[0], Sort(s[1..]))
  }

  lemma {:induction false} InsertSorted(x: string, s: seq<string>)
    requires Sorted(s)
    ensures Sorted(Insert(x, s))
  {
    if s != [] {
      var r := Insert(x, s);
      if Less(s[0], x) {
        InsertSorted(x, s[1..]);
        forall j | 0 < j < |r| ensures !Less(r[j], r[0]) {
          var t := Insert(x, s[1..]);
          assert r[j] == t[j - 1] && t[j - 1] in multiset(t);
          assert r[j] == x || r[j] in s[1..];
          LessTrichotomy(s[0], x);
        }
      } else {
        LessTrichotomy(s[0], x);
        forall j | 0 < j < |r| ensures !Less(r[j], r[0]) {
          if Less(s[j - 1], x) {
            if j - 1 > 0 {
              LessTrichotomy(s[j - 1], s[0]);
              if s[0] != x { LessTransitive(s[j - 1], x, s[0]); }
            }
            assert false;
          }
        }
      }
    }
  }

  lemma {:induction false} SortSorts(s: seq<string>)
    ensures Sorted(Sort(s))
  {
    if s != [] {
      SortSorts(s[1..]);
      InsertSorted(s[0], Sort(s[1..]));
    }
  }

  lemma SortKeeps(s: seq<string>)
    ensures forall x :: x in Sort(s) <==> x in s
  {
    forall x ensures x in Sort(s) <==> x in s {
      assert x in multiset(Sort(s)) <==> x in multiset(s);
    }
  }

  // Sorted without repetition
  ghost predicate Ascending(s: seq<string>) {
    forall i, j :: 0 <= i < j < |s| ==> Less(s[i], s[j])
  }

  lemma {:induction false} AscendingIsUnique(a: seq<string>, b: seq<string>)
    requires Ascending(a) && Ascending(b) && forall x :: x in a <==> x in b
    ensures a == b
  {
    NonEmptyToo(a, b);
    NonEmptyToo(b, a);
    if a != [] {
      LeastComesFirst(a, b[0]);
      LeastComesFirst(b, a[0]);
      LessTrichotomy(a[0], b[0]);
      assert a == [a[0]] + a[1..] && b == [b[0]] + b[1..];
      forall x ensures x in a[1..] <==> x in b[1..] {
        LessIrreflexive(x);
        assert x in a <==> x in b;
      }
      AscendingIsUnique(a[1..], b[1..]);
    }
  }

  lemma NonEmptyToo(a: seq<string>, b: seq<string>)
    requires forall x :: x in a ==> x in b
    ensures a != [] ==> b != []
  {
    if a != [] { assert a[0] in b; }
  }

  lemma LeastComesFirst(a: seq<string>, x: string)
    requires Ascending(a) && x in a
    ensures x == a[0] || Less(a[0], x)
  {
    var i :| 0 <= i < |a| && a[i] == x;
  }

  lemma SortedDistinctIsAscending(s: seq<string>)
    requires Sorted(s) && forall i, j :: 0 <= i < j < |s| ==> s[i] != s[j]
    ensures Ascending(s)
  {
    forall i, j | 0 <= i < j < |s| ensures Less(s[i], s[j]) {
      LessTrichotomy(s[i], s[j]);
    }
  }

  lemma {:induction false} CountAtMostOnce<T>(s: seq<T>, x: T)
    requires forall i, j :: 0 <= i < j < |s| ==> s[i] != s[j]
    ensures multiset(s)[x] <= 1
  {
    if s != [] {
      assert s == [s[0]] + s[1..];
      CountAtMostOnce(s[1..], x);
      assert s[0] == x ==> x !in s[1..];
    }
  }

  lemma CountTwice<T>(s: seq<T>, i: int, j: int)
    requires 0 <= i < j < |s| && s[i] == s[j]
    ensures multiset(s)[s[i]] >= 2
  {
    assert s == s[..j] + s[j..];
    assert s[..j][i] in multiset(s[..j]) && s[j..][0] in multiset(s[j..]);
  }

  lemma DistinctByCounts<T>(r: seq<T>, s: seq<T>)
    requires multiset(r) == multiset(s)
    requires forall i, j :: 0 <= i < j < |s| ==> s[i] != s[j]
    ensures forall i, j :: 0 <= i < j < |r| ==> r[i] != r[j]
  {
    forall i, j | 0 <= i < j < |r| ensures r[i] != r[j] {
      CountAtMostOnce(s, r[i]);
      if r[i] == r[j] { CountTwice(r, i, j); }
    }
  }

  // ------------------------------------------------------------- ASCII text

  predicate IsAscii(s: string) {
    forall i :: 0 <= i < |s| ==> s[i] < '\U{80}'
  }

  // unicode.IsSpace on ASCII
  predicate IsSpace(c: char) {
    c == ' ' || '\U{09}' <= c <= '\U{0D}'
  }

  predicate IsBlank(c: char) {
    c == ' '
  }

  function TrimLeft(s: string, cut: char -> bool): string {
    if s != "" && cut(s[0]) then TrimLeft(s[1..], cut) else s
  }

  function TrimRight(s: string, cut: char -> bool): string {
    if s != "" && cut(s[|s| - 1]) then TrimRight(s[..|s| - 1], cut) else s
  }

  function Trim(s: string, cut: char -> bool): string {
    TrimRight(TrimLeft(s, cut), cut)
  }

  // strings.TrimSpace; SQL TRIM removes blanks only.
  function TrimSpace(s: string): string {
    Trim(s, IsSpace)
  }

  function LowerChar(c: char): char {
    if 'A' <= c <= 'Z' then c + ' ' else c
  }

  // strings.ToLower on ASCII
  function Lower(s: string): (r: string)
    ensures |r| == |s| && forall i :: 0 <= i < |s| ==> r[i] == LowerChar(s[i])
  {
    if s == "" then "" else [LowerChar(s[0])] + Lower(s[1..])
  }

  // s[lo..hi] is what remains of s when cut characters go from both ends.
  ghost predicate TrimsTo(s: string, cut: char -> bool, lo: nat, hi: nat) {
    && lo <= hi <= |s|
    && (forall i :: 0 <= i < lo ==> cut(s[i]))
    && (forall i :: hi <= i < |s| ==> cut(s[i]))
    && (lo < hi ==> !cut(s[lo]) && !cut(s[hi - 1]))
  }

  lemma {:induction false} TrimLeftCuts(s: string, cut: char -> bool) returns (lo: nat)
    ensures lo <= |s| && TrimLeft(s, cut) == s[lo..]
    ensures forall i :: 0 <= i < lo ==> cut(s[i])
    ensures lo < |s| ==> !cut(s[lo])
  {
    lo := 0;
    if s != "" && cut(s[0]) {
      var rest := TrimLeftCuts(s[1..], cut);
      lo := rest + 1;
      assert s[1..][rest..] == s[lo..];
      assert forall i :: 0 < i < lo ==> s[i] == s[1..][i - 1];
    } else {
      assert s[0..] == s;
    }
  }

  lemma {:induction false} TrimRightCuts(s: string, cut: char -> bool) returns (hi: nat)
    ensures hi <= |s| && TrimRight(s, cut) == s[..hi]
    ensures forall i :: hi <= i < |s| ==> cut(s[i])
    ensures hi > 0 ==> !cut(s[hi - 1])
  {
    hi := |s|;
    if s != "" && cut(s[|s| - 1]) {
      hi := TrimRightCuts(s[..|s| - 1], cut);
      assert s[..|s| - 1][..hi] == s[..hi];
    } else {
      assert s[..hi] == s;
    }
  }

  lemma TrimCuts(s: string, cut: char -> bool) returns (lo: nat, hi: nat)
    ensures TrimsTo(s, cut, lo, hi) && Trim(s, cut) == s[lo..hi]
  {
    lo := TrimLeftCuts(s, cut);
    var n := TrimRightCuts(s[lo..], cut);
    hi := lo + n;
    assert s[lo..][..n] == s[lo..hi];
    assert forall i :: lo <= i < |s| ==> s[i] == s[lo..][i - lo];
  }

  lemma LowerOfLower(s: string)
    ensures Lower(Lower(s)) == Lower(s)
  {
  }

  lemma TrimNothing(s: string)
    requires s == "" || (!IsSpace(s[0]) && !IsSpace(s[|s| - 1]))
    ensures TrimSpace(s) == s
  {
    var lo, hi := TrimCuts(s, IsSpace);
    assert s != "" ==> lo == 0 && hi == |s|;
  }

  // What is cut off is white space, and nothing of it is left at either end.
  lemma TrimSpaceMeans(s: string) returns (lo: nat, hi: nat)
    ensures lo <= hi <= |s| && TrimSpace(s) == s[lo..hi]
    ensures forall i :: 0 <= i < |s| && !(lo <= i < hi) ==> s[i] in " \t\n\U{0B}\U{0C}\r"
    ensures lo < hi ==> s[lo] !in " \t\n\U{0B}\U{0C}\r" && s[hi - 1] !in " \t\n\U{0B}\U{0C}\r"
  {
    lo, hi := TrimCuts(s, IsSpace);
  }

  // The code points from 65 to 90 are the capital letters; the small ones are 32
  // further on.
  lemma LowerMeans(s: string, i: nat)
    requires i < |s|
    ensures Lower(s)[i] as int == if 65 <= s[i] as int <= 90 then s[i] as int + 32 else s[i] as int
  {
  }
}
