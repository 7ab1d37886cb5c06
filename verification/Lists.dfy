/** Facts about sequences of any type, stated once so that proofs need not look inside the elements. */
module Lists {

  /** `part` occurs somewhere in `s`. */
  predicate Contains<T(==)>(s: seq<T>, part: seq<T>) {
    part <= s || (s != [] && Contains(s[1..], part))
  }

  /** What is left of `s` without the elements at its start that are blank. */
  function StripLeft<T>(s: seq<T>, blank: T -> bool): seq<T> {
    if s != [] && blank(s[0]) then StripLeft(s[1..], blank) else s
  }

  function StripRight<T>(s: seq<T>, blank: T -> bool): seq<T> {
    if s != [] && blank(s[|s| - 1]) then StripRight(s[..|s| - 1], blank) else s
  }

  function Strip<T>(s: seq<T>, blank: T -> bool): seq<T> {
    StripRight(StripLeft(s, blank), blank)
  }

  lemma {:induction false} LeftKeeps<T>(s: seq<T>, blank: T -> bool, x: T)
    requires x in s && !blank(x)
    ensures x in StripLeft(s, blank)
  {
    if blank(s[0]) {
      LeftKeeps(s[1..], blank, x);
    }
  }

  lemma {:induction false} RightKeeps<T>(s: seq<T>, blank: T -> bool, x: T)
    requires x in s && !blank(x)
    ensures x in StripRight(s, blank)
  {
    var last := |s| - 1;
    if blank(s[last]) {
      AllButLast(s);
      RightKeeps(s[..last], blank, x);
    }
  }

  /** Stripping loses no element that is not blank. */
  lemma StripKeeps<T>(s: seq<T>, blank: T -> bool, x: T)
    requires x in s && !blank(x)
    ensures x in Strip(s, blank)
  {
    LeftKeeps(s, blank, x);
    RightKeeps(StripLeft(s, blank), blank, x);
  }

  predicate AllBlank<T>(s: seq<T>, blank: T -> bool) {
    forall i | 0 <= i < |s| :: blank(s[i])
  }

  lemma {:induction false} LeftParts<T>(s: seq<T>, blank: T -> bool) returns (n: nat)
    ensures n <= |s| && StripLeft(s, blank) == s[n..] && AllBlank(s[..n], blank)
    ensures n < |s| ==> !blank(s[n])
  {
    n := 0;
    if s != [] && blank(s[0]) {
      n := LeftParts(s[1..], blank);
      n := n + 1;
    }
  }

  lemma {:induction false} RightParts<T>(s: seq<T>, blank: T -> bool) returns (n: nat)
    ensures n <= |s| && StripRight(s, blank) == s[..n] && AllBlank(s[n..], blank)
    ensures n > 0 ==> !blank(s[n - 1])
  {
    n := |s|;
    if s != [] && blank(s[|s| - 1]) {
      var rest := s[..|s| - 1];
      n := RightParts(rest, blank);
      assert rest[..n] == s[..n];
      forall i | n <= i < |s|
        ensures blank(s[i])
      {
        assert i < |s| - 1 ==> s[i] == rest[n..][i - n];
      }
    }
  }

  /** Stripping takes off exactly the blank elements at both ends. */
  lemma {:induction false} StripParts<T>(s: seq<T>, blank: T -> bool) returns (m: nat, n: nat)
    ensures m <= n <= |s| && Strip(s, blank) == s[m..n] && AllBlank(s[..m], blank) && AllBlank(s[n..], blank)
    ensures m < n ==> !blank(s[m]) && !blank(s[n - 1])
  {
    m := LeftParts(s, blank);
    var k := RightParts(s[m..], blank);
    n := m + k;
    assert s[m..][..k] == s[m..n] && s[m..][k..] == s[n..];
  }

  lemma Regroup<T>(a: seq<T>, b: seq<T>, c: seq<T>)
    ensures a + b + c == a + (b + c)
  {
  }

  lemma RegroupFour<T>(a: seq<T>, b: seq<T>, c: seq<T>, d: seq<T>)
    ensures a + b + c + d == a + (b + c + d)
  {
  }

  lemma NothingMore<T>(s: seq<T>)
    ensures s + [] == s
  {
  }

  lemma NothingBefore<T>(s: seq<T>)
    ensures [] + s == s
  {
  }

  lemma TwoMore<T>(s: seq<T>, t: seq<T>, a: T, b: T)
    ensures s + t + [a] + [b] == s + (t + [a, b])
  {
  }

  lemma FirstAndRest<T>(s: seq<T>)
    requires s != []
    ensures [s[0]] + s[1..] == s
  {
  }

  lemma AllButLast<T>(s: seq<T>)
    requires s != []
    ensures s[..|s| - 1] + [s[|s| - 1]] == s
  {
  }

  lemma FourInOrder<T>(a: T, b: T, c: T, d: T)
    ensures [a, b] + [c] + [d] == [a, b, c, d]
    ensures [] + [a] + [b] + [c] + [d] == [a, b, c, d]
  {
  }

  // ----- increasing lists -----

  predicate Ordered(order: seq<int>) {
    forall i, j | 0 <= i < j < |order| :: order[i] < order[j]
  }

  lemma {:induction false} LeastFirst(least: int, order: seq<int>)
    requires Ordered(order) && forall k | 0 <= k < |order| :: least < order[k]
    ensures Ordered([least] + order)
  {
  }

  predicate SameElements(a: seq<int>, b: seq<int>) {
    (forall i | 0 <= i < |a| :: a[i] in b) && forall i | 0 <= i < |b| :: b[i] in a
  }

  lemma {:induction false} OrderIsUnique(a: seq<int>, b: seq<int>)
    requires Ordered(a) && Ordered(b) && SameElements(a, b)
    ensures a == b
  {
    assert (a != [] ==> a[0] in b) && (b != [] ==> b[0] in a);
    if a != [] && b != [] {
      SameLeast(a, b);
      RestOfOrder(a, b);
      RestOfOrder(b, a);
      OrderIsUnique(a[1..], b[1..]);
      FirstAndRest(a);
      FirstAndRest(b);
    }
  }

  lemma {:induction false} SameLeast(a: seq<int>, b: seq<int>)
    requires Ordered(a) && Ordered(b) && a != [] && b != [] && SameElements(a, b)
    ensures a[0] == b[0]
  {
    assert b[0] in a && a[0] in b;
  }

  lemma {:induction false} RestOfOrder(a: seq<int>, b: seq<int>)
    requires Ordered(a) && a != [] && b != [] && a[0] == b[0] && forall i | 0 <= i < |a| :: a[i] in b
    ensures forall i | 0 <= i < |a[1..]| :: a[1..][i] in b[1..]
  {
    forall i | 0 <= i < |a[1..]|
      ensures a[1..][i] in b[1..]
    {
      assert a[i + 1] in b && a[i + 1] != b[0];
    }
  }
}
