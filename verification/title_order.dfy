/** Ordering by title. Rust's `String::cmp` compares the UTF-8 bytes
    lexicographically, which orders strings exactly as comparing their
    characters lexicographically does; `sort_by` with a title comparator is
    modelled by a stable insertion sort. */
module TitleOrder {

  datatype Ordering = Less | Equal | Greater

  /** `String::cmp`: lexicographic comparison, a proper prefix first. */
  function CompareStrings(a: string, b: string): (o: Ordering)
    ensures o == Equal <==> a == b
  {
    if |a| == 0 then (if |b| == 0 then Equal else Less)
    else if |b| == 0 then Greater
    else if a[0] < b[0] then Less
    else if a[0] > b[0] then Greater
    else
      assert a == [a[0]] + a[1..] && b == [b[0]] + b[1..];
      CompareStrings(a[1..], b[1..])
  }

  /** `a` may be placed before `b`. */
  predicate TitleLe(a: string, b: string) {
    CompareStrings(a, b) != Greater
  }

  /** Swapping the operands swaps `Less` and `Greater`. */
  lemma {:induction false} CompareAntisymmetric(a: string, b: string)
    ensures CompareStrings(a, b) == Less <==> CompareStrings(b, a) == Greater
  {
    if |a| != 0 && |b| != 0 && a[0] == b[0] {
      CompareAntisymmetric(a[1..], b[1..]);
    }
  }

  /** `a` comes strictly before `b` in dictionary order, stated without
      recursion: `a` is a proper prefix of `b`, or the two first differ at a
      position where `a` has the smaller character. */
  ghost predicate LexLess(a: string, b: string) {
    || (|a| < |b| && a == b[..|a|])
    || exists i :: 0 <= i < |a| && i < |b| && a[..i] == b[..i] && a[i] < b[i]
  }

  /** `CompareStrings` answers `Less` exactly in dictionary order. */
  lemma {:induction false} CompareStringsIsLexicographic(a: string, b: string)
    ensures CompareStrings(a, b) == Less <==> LexLess(a, b)
  {
    if |a| == 0 {
      assert |b| > 0 ==> a == b[..|a|];
    } else if |b| == 0 {
    } else if a[0] < b[0] {
      assert a[..0] == b[..0];
    } else if a[0] > b[0] {
      // No common prefix longer than zero, and the first characters are not in order.
      assert |a| <= |b| ==> b[..|a|][0] == b[0];
      forall i | 0 < i <= |a| && i <= |b|
        ensures a[..i] != b[..i]
      {
        assert a[..i][0] == a[0] && b[..i][0] == b[0];
      }
    } else {
      CompareStringsIsLexicographic(a[1..], b[1..]);
      LexLessOfTails(a, b);
    }
  }

  /** Past an equal first character, dictionary order is decided by the tails. */
  lemma LexLessOfTails(a: string, b: string)
    requires |a| > 0 && |b| > 0 && a[0] == b[0]
    ensures LexLess(a, b) <==> LexLess(a[1..], b[1..])
  {
    if LexLess(a, b) {
      LexLessDropHead(a, b);
    }
    if LexLess(a[1..], b[1..]) {
      LexLessAddHead(a, b);
    }
  }

  lemma LexLessDropHead(a: string, b: string)
    requires |a| > 0 && |b| > 0 && a[0] == b[0] && LexLess(a, b)
    ensures LexLess(a[1..], b[1..])
  {
    var a', b' := a[1..], b[1..];
    if |a| < |b| && a == b[..|a|] {
      assert a' == b'[..|a'|];
    } else {
      var i :| 0 <= i < |a| && i < |b| && a[..i] == b[..i] && a[i] < b[i];
      assert i != 0;
      assert a'[..i - 1] == a[..i][1..];
      assert b'[..i - 1] == b[..i][1..];
      assert a'[i - 1] < b'[i - 1];
    }
  }

  lemma LexLessAddHead(a: string, b: string)
    requires |a| > 0 && |b| > 0 && a[0] == b[0] && LexLess(a[1..], b[1..])
    ensures LexLess(a, b)
  {
    var a', b' := a[1..], b[1..];
    if |a'| < |b'| && a' == b'[..|a'|] {
      assert a == [a[0]] + a';
      assert b[..|a|] == [b[0]] + b'[..|a'|];
    } else {
      var i :| 0 <= i < |a'| && i < |b'| && a'[..i] == b'[..i] && a'[i] < b'[i];
      assert a[..i + 1] == [a[0]] + a'[..i];
      assert b[..i + 1] == [b[0]] + b'[..i];
      assert a[i + 1] == a'[i] && b[i + 1] == b'[i];
    }
  }

  /** Dictionary order puts a longer title first when it is smaller at the
      first difference: "AA" sorts before "B". */
  lemma DictionaryOrderExample()
    ensures CompareStrings("AA", "B") == Less
    ensures CompareStrings("A", "AA") == Less
  {
  }

  /** Any two titles can be placed in some order. */
  lemma TitleLeTotal(a: string, b: string)
    ensures TitleLe(a, b) || TitleLe(b, a)
  {
    CompareAntisymmetric(a, b);
  }

  lemma {:induction false} TitleLeTransitive(a: string, b: string, c: string)
    requires TitleLe(a, b) && TitleLe(b, c)
    ensures TitleLe(a, c)
  {
    if |a| != 0 && |b| != 0 && |c| != 0 && a[0] == b[0] && b[0] == c[0] {
      TitleLeTransitive(a[1..], b[1..], c[1..]);
    }
  }

  /** The elements are in non-decreasing title order. */
  predicate SortedByTitle<T>(s: seq<T>, title: T -> string) {
    forall i, j :: 0 <= i < j < |s| ==> TitleLe(title(s[i]), title(s[j]))
  }

  /** Put `x` in front of the first element whose title it does not exceed. */
  function InsertByTitle<T>(x: T, s: seq<T>, title: T -> string): (r: seq<T>)
    requires SortedByTitle(s, title)
    ensures SortedByTitle(r, title)
    ensures multiset(r) == multiset(s) + multiset{x}
  {
    if |s| == 0 then [x]
    else if TitleLe(title(x), title(s[0])) then
      InsertFront(x, s, title);
      [x] + s
    else
      var rest := InsertByTitle(x, s[1..], title);
      InsertBehind(x, s, rest, title);
      [s[0]] + rest
  }

  /** Inserting in front of a sorted sequence whose head is not smaller keeps it sorted. */
  lemma InsertFront<T>(x: T, s: seq<T>, title: T -> string)
    requires SortedByTitle(s, title)
    requires |s| > 0 && TitleLe(title(x), title(s[0]))
    ensures SortedByTitle([x] + s, title)
  {
    forall j | 0 < j < |s|
      ensures TitleLe(title(x), title(s[j]))
    {
      TitleLeTransitive(title(x), title(s[0]), title(s[j]));
    }
  }

  /** The head of `s` may precede the sorted insertion of `x` into the tail. */
  lemma InsertBehind<T>(x: T, s: seq<T>, rest: seq<T>, title: T -> string)
    requires SortedByTitle(s, title)
    requires |s| > 0 && !TitleLe(title(x), title(s[0]))
    requires SortedByTitle(rest, title)
    requires multiset(rest) == multiset(s[1..]) + multiset{x}
    ensures SortedByTitle([s[0]] + rest, title)
    ensures multiset([s[0]] + rest) == multiset(s) + multiset{x}
  {
    TitleLeTotal(title(x), title(s[0]));
    forall j | 0 <= j < |rest|
      ensures TitleLe(title(s[0]), title(rest[j]))
    {
      assert rest[j] in multiset(rest);
      if rest[j] != x {
        assert rest[j] in multiset(s[1..]);
        var k :| 0 <= k < |s[1..]| && s[1..][k] == rest[j];
        assert s[k + 1] == rest[j];
      }
    }
    assert s == [s[0]] + s[1..];
  }

  /** `sort_by` on titles: a sorted permutation of the input. */
  function SortByTitle<T>(s: seq<T>, title: T -> string): (r: seq<T>)
    ensures SortedByTitle(r, title)
    ensures multiset(r) == multiset(s)
  {
    if |s| == 0 then []
    else
      assert s == [s[0]] + s[1..];
      InsertByTitle(s[0], SortByTitle(s[1..], title), title)
  }
}
