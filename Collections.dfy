/** Facts about sequences and finite sets used by the counting proofs. */
module Collections {

  /** No element occurs twice in `s`. */
  ghost predicate NoDup<T>(s: seq<T>) {
    forall i, j :: 0 <= i < j < |s| ==> s[i] != s[j]
  }

  /** The set of elements of a sequence (Python's `set(s)`). */
  function Elements<T(==)>(s: seq<T>): set<T> {
    set x | x in s
  }

  /** A duplicate-free sequence has as many distinct elements as it is long. */
  lemma {:induction false} DistinctCard<T>(s: seq<T>)
    requires NoDup(s)
    ensures |Elements(s)| == |s|
  {
    if s != [] {
      var t := s[1..];
      assert NoDup(t) by {
        forall i, j | 0 <= i < j < |t| ensures t[i] != t[j] {
          assert t[i] == s[i + 1] && t[j] == s[j + 1];
        }
      }
      DistinctCard(t);
      assert Elements(s) == Elements(t) + {s[0]};
      assert s[0] !in Elements(t);
    }
  }

  /** A sequence never has more distinct elements than it is long. */
  lemma {:induction false} CardAtMostLength<T>(s: seq<T>)
    ensures |Elements(s)| <= |s|
  {
    if s != [] {
      CardAtMostLength(s[1..]);
      assert Elements(s) == Elements(s[1..]) + {s[0]};
    }
  }

  /** A sequence with a repeated element has strictly fewer distinct elements than positions. */
  lemma {:induction false} RepeatShrinks<T>(s: seq<T>)
    requires !NoDup(s)
    ensures |Elements(s)| < |s|
  {
    var t := s[1..];
    assert Elements(s) == Elements(t) + {s[0]};
    if s[0] in t {
      assert Elements(s) == Elements(t);
      CardAtMostLength(t);
    } else {
      assert !NoDup(t) by {
        var i, j :| 0 <= i < j < |s| && s[i] == s[j];
        assert i != 0;
        assert t[i - 1] == t[j - 1];
      }
      RepeatShrinks(t);
    }
  }

  /** Concatenating two duplicate-free sequences with no common element gives a duplicate-free sequence. */
  lemma NoDupConcat<T>(a: seq<T>, b: seq<T>)
    requires NoDup(a) && NoDup(b)
    requires forall x :: x in a ==> x !in b
    ensures NoDup(a + b)
  {
    var c := a + b;
    forall i, j | 0 <= i < j < |c| ensures c[i] != c[j] {
      if j < |a| {
        assert c[i] == a[i] && c[j] == a[j];
      } else if i >= |a| {
        assert c[i] == b[i - |a|] && c[j] == b[j - |a|];
      } else {
        assert c[i] == a[i] && a[i] in a;
        assert c[j] == b[j - |a|] && b[j - |a|] in b;
      }
    }
  }

  /** The image of a finite set under a function defined on it. */
  ghost function Image<A, B>(s: set<A>, f: A --> B): set<B>
    requires forall a :: a in s ==> f.requires(a)
  {
    set a | a in s :: f(a)
  }

  /** The image of a finite set under a function has at most as many elements as the set. */
  lemma {:induction false} ImageCardAtMost<A, B>(s: set<A>, f: A --> B)
    requires forall a :: a in s ==> f.requires(a)
    ensures |Image(s, f)| <= |s|
  {
    if s != {} {
      var a :| a in s;
      var rest := s - {a};
      ImageCardAtMost(rest, f);
      assert Image(s, f) == Image(rest, f) + {f(a)};
    }
  }

  /** If two distinct elements have the same image, the image is strictly smaller than the set. */
  lemma ImageCardBelow<A, B>(s: set<A>, f: A --> B, a: A, b: A)
    requires forall x :: x in s ==> f.requires(x)
    requires a in s && b in s && a != b && f(a) == f(b)
    ensures |Image(s, f)| < |s|
  {
    var rest := s - {a};
    assert Image(s, f) == Image(rest, f) by {
      assert f(a) == f(b) && b in rest;
    }
    ImageCardAtMost(rest, f);
  }

  /** The lists of `lists` concatenated in order. */
  function Flatten<T>(lists: seq<seq<T>>): seq<T> {
    if lists == [] then [] else Flatten(lists[..|lists| - 1]) + lists[|lists| - 1]
  }

  /** An element is in the concatenation exactly when it is in one of the lists. */
  lemma {:induction false} FlattenMembers<T>(lists: seq<seq<T>>)
    ensures forall x :: x in Flatten(lists) <==> exists k :: 0 <= k < |lists| && x in lists[k]
  {
    if lists != [] {
      var init, last := lists[..|lists| - 1], lists[|lists| - 1];
      FlattenMembers(init);
      forall x ensures x in Flatten(lists) <==> exists k :: 0 <= k < |lists| && x in lists[k] {
        if x in Flatten(init) {
          var k :| 0 <= k < |init| && x in init[k];
          assert lists[k] == init[k];
        } else if x in last {
          assert x in lists[|lists| - 1];
        }
        if exists k :: 0 <= k < |lists| && x in lists[k] {
          var k :| 0 <= k < |lists| && x in lists[k];
          if k < |init| {
            assert x in init[k];
          }
        }
      }
    }
  }

  /** An element of one of the lists is in their concatenation. */
  lemma FlattenHas<T>(lists: seq<seq<T>>, k: int, x: T)
    requires 0 <= k < |lists| && x in lists[k]
    ensures x in Flatten(lists)
  {
    FlattenMembers(lists);
  }

  /** An element of the concatenation comes from one of the lists. */
  lemma FlattenSource<T>(lists: seq<seq<T>>, x: T) returns (k: int)
    requires x in Flatten(lists)
    ensures 0 <= k < |lists| && x in lists[k]
  {
    FlattenMembers(lists);
    k :| 0 <= k < |lists| && x in lists[k];
  }

  /** One more list extends the concatenation of a prefix by that list. */
  lemma FlattenStep<T>(lists: seq<seq<T>>, k: nat)
    requires k < |lists|
    ensures Flatten(lists[..k + 1]) == Flatten(lists[..k]) + lists[k]
  {
    assert lists[..k + 1][..k] == lists[..k];
  }

  /** Concatenating lists of length `m` each gives `m` times as many elements. */
  lemma {:induction false} FlattenLength<T>(lists: seq<seq<T>>, m: nat)
    requires forall k :: 0 <= k < |lists| ==> |lists[k]| == m
    ensures |Flatten(lists)| == m * |lists|
  {
    if lists != [] {
      FlattenLength(lists[..|lists| - 1], m);
      assert m * |lists| == m * (|lists| - 1) + m;
    }
  }

  /** A subset of a finite set is no larger than the set. */
  lemma {:induction false} SubsetCard<T>(a: set<T>, b: set<T>)
    requires a <= b
    ensures |a| <= |b|
  {
    if a != {} {
      var x :| x in a;
      SubsetCard(a - {x}, b - {x});
    }
  }

  /** A subset as large as the finite set that holds it is that set. */
  lemma SubsetOfSameSize<T>(a: set<T>, b: set<T>)
    requires a <= b && |a| == |b|
    ensures a == b
  {
    var d := b - a;
    assert |b| == |a| + |d| by {
      assert a * d == {} && a + d == b;
    }
  }
}
