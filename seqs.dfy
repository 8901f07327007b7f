/**
 * The JavaScript array operations the board engine relies on, stated on
 * Dafny sequences: `filter(x => x !== v)`, `indexOf`, `includes`,
 * `splice(start, 0, v)`, `slice(0, n)` and the notion of an order-preserving
 * subsequence used to describe `filter` in general.
 */
module Seqs {

  /** No element occurs twice. */
  ghost predicate NoDup<T>(s: seq<T>)
  {
    forall i, j :: 0 <= i < j < |s| ==> s[i] != s[j]
  }

  /** `s.filter(x => x !== v)`: every copy of `v` removed, the rest in order. */
  function Without<T(==,!new)>(s: seq<T>, v: T): (r: seq<T>)
    ensures forall x :: x in r <==> x in s && x != v
    ensures IsSubsequence(r, s)
    ensures multiset(r) == multiset(s)[v := 0]
    ensures v in s <==> |r| < |s|
    ensures |r| <= |s|
  {
    if s == [] then []
    else
      var rest := Without(s[1..], v);
      assert s == [s[0]] + s[1..];
      if s[0] == v then
        assert rest != [] ==> rest[0] in rest;
        rest
      else
        assert ([s[0]] + rest)[1..] == rest;
        [s[0]] + rest
  }

  lemma {:induction false} WithoutNotIn<T(!new)>(s: seq<T>, v: T)
    requires v !in s
    ensures Without(s, v) == s
  {
    if s != [] {
      WithoutNotIn(s[1..], v);
    }
  }

  /** Filtering out an element just put in front of a list that lacks it gives the list back. */
  lemma WithoutPrepended<T(!new)>(s: seq<T>, v: T)
    requires v !in s
    ensures Without([v] + s, v) == s
  {
    assert ([v] + s)[1..] == s;
    WithoutNotIn(s, v);
  }

  lemma {:induction false} WithoutConcat<T(!new)>(a: seq<T>, b: seq<T>, v: T)
    ensures Without(a + b, v) == Without(a, v) + Without(b, v)
  {
    if a == [] {
      assert a + b == b;
    } else {
      assert (a + b)[1..] == a[1..] + b;
      WithoutConcat(a[1..], b, v);
    }
  }

  /** Filtering with the same predicate twice is filtering once. */
  lemma WithoutIdempotent<T(!new)>(s: seq<T>, v: T)
    ensures Without(Without(s, v), v) == Without(s, v)
  {
    WithoutNotIn(Without(s, v), v);
  }

  lemma {:induction false} WithoutNoDup<T(!new)>(s: seq<T>, v: T)
    requires NoDup(s)
    ensures NoDup(Without(s, v))
  {
    if s != [] {
      assert NoDup(s[1..]) by {
        forall i, j | 0 <= i < j < |s[1..]| ensures s[1..][i] != s[1..][j] {
          assert s[1..][i] == s[i + 1] && s[1..][j] == s[j + 1];
        }
      }
      WithoutNoDup(s[1..], v);
      if s[0] != v {
        assert s[0] !in s[1..] by {
          forall k | 0 <= k < |s[1..]| ensures s[1..][k] != s[0] {
            assert s[1..][k] == s[k + 1];
          }
        }
        var t := Without(s[1..], v);
        assert s[0] !in t;
        assert NoDup([s[0]] + t) by {
          forall i, j | 0 <= i < j < |[s[0]] + t| ensures ([s[0]] + t)[i] != ([s[0]] + t)[j] {
            if i == 0 {
              assert ([s[0]] + t)[j] == t[j - 1];
            } else {
              assert ([s[0]] + t)[i] == t[i - 1] && ([s[0]] + t)[j] == t[j - 1];
            }
          }
        }
      }
    }
  }

  /** `s.indexOf(v)`: the first position of `v`, or -1 when it is absent. */
  function IndexOf<T(==)>(s: seq<T>, v: T): (i: int)
    ensures -1 <= i < |s|
    ensures i == -1 <==> v !in s
    ensures 0 <= i ==> s[i] == v && v !in s[..i]
  {
    if s == [] then -1
    else if s[0] == v then 0
    else
      var j := IndexOf(s[1..], v);
      if j == -1 then -1
      else
        assert s[..j + 1] == [s[0]] + s[1..][..j];
        j + 1
  }

  /**
   * The position at which `splice(start, 0, v)` inserts into an array of
   * length `len`: a negative `start` counts back from the end (floored at 0),
   * and one past the end means the end.
   */
  function SpliceStart(start: int, len: nat): (k: nat)
    ensures k <= len
    ensures 0 <= start <= len ==> k == start
    ensures start > len ==> k == len
    ensures -(len as int) <= start < 0 ==> k == len + start
    ensures start < -(len as int) ==> k == 0
  {
    if start < 0 then (if len + start < 0 then 0 else len + start)
    else if start > len then len
    else start
  }

  /** The array after `splice(k, 0, v)`, once `k` is a valid position. */
  function InsertAt<T(!new)>(s: seq<T>, k: nat, v: T): (r: seq<T>)
    requires k <= |s|
    ensures |r| == |s| + 1
    ensures r[k] == v
    ensures forall i :: 0 <= i < k ==> r[i] == s[i]
    ensures forall i :: k < i < |r| ==> r[i] == s[i - 1]
    ensures forall x :: x in r <==> x == v || x in s
  {
    assert s == s[..k] + s[k..];
    s[..k] + ([v] + s[k..])
  }

  /** Inserting `v` and then filtering `v` out gives the filtered original. */
  lemma WithoutInsertAt<T(!new)>(s: seq<T>, k: nat, v: T)
    requires k <= |s|
    ensures Without(InsertAt(s, k, v), v) == Without(s, v)
  {
    assert s == s[..k] + s[k..];
    WithoutBetween(s[..k], s[k..], v);
  }

  lemma WithoutBetween<T(!new)>(p: seq<T>, q: seq<T>, v: T)
    ensures Without(p + ([v] + q), v) == Without(p + q, v)
  {
    WithoutConcat(p, [v] + q, v);
    assert ([v] + q)[1..] == q;
    WithoutConcat(p, q, v);
  }

  /** Splicing in at the front prepends. */
  lemma InsertAtFront<T(!new)>(s: seq<T>, v: T)
    ensures InsertAt(s, 0, v) == [v] + s
  {
    assert s[..0] == [] && s[0..] == s;
  }

  /** Splicing in at the end appends. */
  lemma InsertAtEnd<T(!new)>(s: seq<T>, v: T)
    ensures InsertAt(s, |s|, v) == s + [v]
  {
    assert s[..|s|] == s && s[|s|..] == [];
  }

  lemma InsertAtNoDup<T(!new)>(s: seq<T>, k: nat, v: T)
    requires k <= |s| && NoDup(s) && v !in s
    ensures NoDup(InsertAt(s, k, v))
  {
    var r := InsertAt(s, k, v);
    forall i, j | 0 <= i < j < |r| ensures r[i] != r[j] {
      if j < k {
        assert r[i] == s[i] && r[j] == s[j];
      } else if j == k {
        assert r[i] == s[i];
      } else if i < k {
        assert r[i] == s[i] && r[j] == s[j - 1];
      } else if i == k {
        assert r[j] == s[j - 1];
      } else {
        assert r[i] == s[i - 1] && r[j] == s[j - 1];
      }
    }
  }

  /** `s.slice(0, n)`: the first `n` elements, or all of them when there are fewer. */
  function Take<T>(s: seq<T>, n: nat): (r: seq<T>)
    ensures |r| == if |s| < n then |s| else n
    ensures forall i :: 0 <= i < |r| ==> r[i] == s[i]
  {
    if |s| <= n then s else s[..n]
  }

  /** Cutting a longer sequence first does not change a later, shorter cut of its extension. */
  lemma TakeAbsorbs<T>(a: seq<T>, b: seq<T>, n: nat)
    ensures Take(a + Take(b, n), n) == Take(a + b, n)
  {
    var l, r := Take(a + Take(b, n), n), Take(a + b, n);
    assert |l| == |r|;
    forall i | 0 <= i < |l| ensures l[i] == r[i] {
      if i >= |a| {
        assert (a + Take(b, n))[i] == Take(b, n)[i - |a|];
      }
    }
  }

  /** The sequence read back to front. */
  function Reverse<T>(s: seq<T>): (r: seq<T>)
    ensures |r| == |s|
    ensures forall i :: 0 <= i < |s| ==> r[i] == s[|s| - 1 - i]
  {
    if s == [] then [] else Reverse(s[1..]) + [s[0]]
  }

  /** The first element of a sequence is the last of its reverse. */
  lemma ReverseCons<T>(x: T, s: seq<T>)
    ensures Reverse([x] + s) == Reverse(s) + [x]
  {
    assert ([x] + s)[1..] == s;
  }

  /** `r` is `s` with some elements dropped and the rest kept in order. */
  predicate IsSubsequence<T(==)>(r: seq<T>, s: seq<T>)
    decreases |s|
  {
    if r == [] then true
    else if s == [] then false
    else if r[0] == s[0] then IsSubsequence(r[1..], s[1..])
    else IsSubsequence(r, s[1..])
  }

  lemma {:induction false} IsSubsequenceRefl<T>(s: seq<T>)
    ensures IsSubsequence(s, s)
  {
    if s != [] {
      IsSubsequenceRefl(s[1..]);
    }
  }
}
