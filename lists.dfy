/** The parts of `java.util.List` the game uses, on sequences. */
module Lists {

  /** No element occurs twice. */
  ghost predicate Distinct<T>(s: seq<T>) {
    forall i, j :: 0 <= i < j < |s| ==> s[i] != s[j]
  }

  /** `indexOf`: the position of the first occurrence of `x`, or -1 when there is none. */
  function IndexOf<T(==)>(s: seq<T>, x: T): (r: int)
    ensures -1 <= r < |s|
    ensures r == -1 <==> x !in s
    ensures 0 <= r ==> s[r] == x && x !in s[..r]
  {
    if s == [] then -1
    else if s[0] == x then 0
    else
      var k := IndexOf(s[1..], x);
      assert s[1..][..if k < 0 then 0 else k] == s[1..1 + (if k < 0 then 0 else k)];
      if k == -1 then -1 else k + 1
  }

  /** Five pairwise different values make a sequence without duplicates. */
  lemma DistinctFive<T>(a: T, b: T, c: T, d: T, e: T)
    requires a != b && a != c && a != d && a != e && b != c && b != d && b != e && c != d && c != e && d != e
    ensures Distinct([a, b, c, d, e])
  {
  }

  /** In a sequence without duplicates the first occurrence of an element is its only one. */
  lemma {:induction false} IndexOfDistinct<T>(s: seq<T>, i: int)
    requires Distinct(s) && 0 <= i < |s|
    ensures IndexOf(s, s[i]) == i
  {
    if i > 0 {
      var rest := s[1..];
      assert rest[i - 1] == s[i];
      assert Distinct(rest) by {
        forall a, b | 0 <= a < b < |rest| ensures rest[a] != rest[b] {
          assert rest[a] == s[a + 1] && rest[b] == s[b + 1];
        }
      }
      IndexOfDistinct(rest, i - 1);
    }
  }

  /** `if (!list.contains(x)) list.add(x)`. */
  function AddIfAbsent<T(==)>(s: seq<T>, x: T): (r: seq<T>)
    ensures x in r
    ensures forall y :: y in s ==> y in r
    ensures forall y :: y in r ==> y in s || y == x
    ensures Distinct(s) ==> Distinct(r)
    ensures x in s ==> r == s
  {
    if x in s then s else s + [x]
  }

  /** `list.remove(x)`: finds the first occurrence of `x` and removes it at that position; no change when absent. */
  function RemoveFirst<T(==)>(s: seq<T>, x: T): (r: seq<T>)
    ensures x !in s ==> r == s
    ensures x in s ==> |r| == |s| - 1
    ensures forall y :: y in r ==> y in s
    ensures forall y :: y in s && y != x ==> y in r
    ensures Distinct(s) ==> Distinct(r) && x !in r
  {
    if x !in s then s
    else
      var k := IndexOf(s, x);
      var r := s[..k] + s[k + 1..];
      assert forall j :: 0 <= j < |r| ==> r[j] == s[if j < k then j else j + 1];
      assert forall j :: 0 <= j < |s| && j != k ==> s[j] == r[if j < k then j else j - 1];
      r
  }

  /** `remove` keeps every other element in its order: the result is the list with one position cut out. */
  lemma RemoveFirstCutsFirstOccurrence<T>(s: seq<T>, x: T)
    requires x in s
    ensures var k := IndexOf(s, x); RemoveFirst(s, x) == s[..k] + s[k + 1..] && s[k] == x && x !in s[..k]
  {
  }

  /** Taking an element out again after adding it when it was absent restores the list. */
  lemma RemoveAfterAdd<T>(s: seq<T>, x: T)
    requires x !in s
    ensures RemoveFirst(AddIfAbsent(s, x), x) == s
  {
    var t := s + [x];
    assert forall j :: 0 <= j < |s| ==> t[j] == s[j];
    assert IndexOf(t, x) == |s|;
    assert t[..|s|] == s;
  }

  /** Element counts of a sequence without duplicates are at most one, and conversely. */
  lemma {:induction false} DistinctIffSingleCounts<T>(s: seq<T>)
    ensures Distinct(s) <==> forall x :: multiset(s)[x] <= 1
  {
    if s == [] {
    } else {
      var rest := s[1..];
      assert s == [s[0]] + rest;
      DistinctIffSingleCounts(rest);
      if Distinct(s) {
        assert Distinct(rest) by {
          forall i, j | 0 <= i < j < |rest| ensures rest[i] != rest[j] {
            assert rest[i] == s[i + 1] && rest[j] == s[j + 1];
          }
        }
        assert s[0] !in rest by {
          assert forall j :: 0 <= j < |rest| ==> rest[j] == s[j + 1];
        }
        forall x ensures multiset(s)[x] <= 1 {
          assert multiset(s)[x] == multiset([s[0]])[x] + multiset(rest)[x];
        }
      } else {
        var i, j :| 0 <= i < j < |s| && s[i] == s[j];
        var x := s[i];
        if i == 0 {
          assert rest[j - 1] == x;
          assert multiset(rest)[x] >= 1;
          assert multiset(s)[x] == multiset([s[0]])[x] + multiset(rest)[x];
        } else {
          assert rest[i - 1] == x && rest[j - 1] == x;
          assert !Distinct(rest);
          var y :| multiset(rest)[y] > 1;
          assert multiset(s)[y] == multiset([s[0]])[y] + multiset(rest)[y];
        }
      }
    }
  }

  /** A rearrangement of a sequence without duplicates has none either. */
  lemma PermutationKeepsDistinct<T>(s: seq<T>, t: seq<T>)
    requires multiset(s) == multiset(t) && Distinct(t)
    ensures Distinct(s)
  {
    DistinctIffSingleCounts(t);
    DistinctIffSingleCounts(s);
  }
}
