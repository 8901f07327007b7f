/**
 * The JavaScript string operations the board uses: `trim`, `toLowerCase`
 * (on ASCII letters only), `includes` and `Array.prototype.join`.
 */
module Text {

  /** The characters `String.prototype.trim` strips: WhiteSpace (with every Zs space) and LineTerminator. */
  predicate IsJsWhitespace(c: char)
  {
    c == '\t' || c == '\n' || c == '\U{000B}' || c == '\U{000C}' || c == '\r' || c == ' '
    || c == '\U{00A0}' || c == '\U{1680}' || ('\U{2000}' <= c <= '\U{200A}')
    || c == '\U{2028}' || c == '\U{2029}' || c == '\U{202F}' || c == '\U{205F}'
    || c == '\U{3000}' || c == '\U{FEFF}'
  }

  /** Every character is stripped by `trim`. */
  predicate IsBlank(s: string)
  {
    forall i :: 0 <= i < |s| ==> IsJsWhitespace(s[i])
  }

  predicate StartsWith(s: string, p: string)
  {
    |p| <= |s| && s[..|p|] == p
  }

  predicate EndsWith(s: string, q: string)
  {
    |q| <= |s| && s[|s| - |q|..] == q
  }

  /** A text made of three parts starts with the first and ends with the last. */
  lemma Framed(p: string, m: string, q: string)
    ensures StartsWith(p + m + q, p) && EndsWith(p + m + q, q)
  {
    assert (p + m + q)[..|p|] == p;
    assert (p + m + q)[|p + m + q| - |q|..] == q;
  }

  /** `t` sits in `s` starting at position `i`. */
  predicate OccursAt(s: string, t: string, i: int)
  {
    0 <= i && i + |t| <= |s| && s[i..i + |t|] == t
  }

  /** The position of the first character at or after `i` that trim keeps, or the end. */
  function TrimStartAt(s: string, i: nat): (k: nat)
    requires i <= |s|
    ensures i <= k <= |s|
    ensures k < |s| ==> !IsJsWhitespace(s[k])
    ensures forall j :: i <= j < k ==> IsJsWhitespace(s[j])
    decreases |s| - i
  {
    if i == |s| || !IsJsWhitespace(s[i]) then i else TrimStartAt(s, i + 1)
  }

  /** The end of `s[a..j]` once its trailing whitespace is dropped. */
  function TrimEndAt(s: string, a: nat, j: nat): (b: nat)
    requires a <= j <= |s|
    ensures a <= b <= j
    ensures a < b ==> !IsJsWhitespace(s[b - 1])
    ensures forall m :: b <= m < j ==> IsJsWhitespace(s[m])
    decreases j
  {
    if j == a || !IsJsWhitespace(s[j - 1]) then j else TrimEndAt(s, a, j - 1)
  }

  /** `s.trim()`: the middle of `s` between its leading and trailing whitespace. */
  function Trim(s: string): (r: string)
    ensures exists a :: OccursAt(s, r, a) && IsBlank(s[..a]) && IsBlank(s[a + |r|..])
    ensures r == [] <==> IsBlank(s)
    ensures r != [] ==> !IsJsWhitespace(r[0]) && !IsJsWhitespace(r[|r| - 1])
  {
    var a := TrimStartAt(s, 0);
    var b := TrimEndAt(s, a, |s|);
    assert OccursAt(s, s[a..b], a) && IsBlank(s[..a]) && IsBlank(s[b..]);
    assert a == b ==> IsBlank(s);
    s[a..b]
  }

  /** ASCII lower-casing of one character. */
  function LowerChar(c: char): (d: char)
    ensures 'A' <= c <= 'Z' ==> 'a' <= d <= 'z'
    ensures !('A' <= c <= 'Z') ==> d == c
  {
    if 'A' <= c <= 'Z' then (c as int + 32) as char else c
  }

  /** `s.toLowerCase()`, restricted to ASCII letters. */
  function ToLower(s: string): (r: string)
    ensures |r| == |s|
    ensures forall i :: 0 <= i < |s| ==> r[i] == LowerChar(s[i])
  {
    seq(|s|, i requires 0 <= i < |s| => LowerChar(s[i]))
  }

  /** `s.includes(t)`: `t` occurs somewhere in `s` as a contiguous substring. */
  function Includes(s: string, t: string): (b: bool)
    ensures b <==> exists i :: OccursAt(s, t, i)
    decreases |s|
  {
    if |t| <= |s| && s[..|t|] == t then
      assert OccursAt(s, t, 0);
      true
    else if s == [] then false
    else
      OccursShift(s, t);
      Includes(s[1..], t)
  }

  /** Text found in `u` is found in `p + u`, moved along by the length of `p`. */
  lemma OccursAfter(p: string, u: string, t: string, k: int)
    requires OccursAt(u, t, k)
    ensures OccursAt(p + u, t, |p| + k)
  {
    assert (p + u)[|p| + k..|p| + k + |t|] == u[k..k + |t|];
  }

  /** Dropping the first character moves every later occurrence one place to the left. */
  lemma OccursShift(s: string, t: string)
    requires s != [] && !OccursAt(s, t, 0)
    ensures (exists i :: OccursAt(s[1..], t, i)) <==> (exists i :: OccursAt(s, t, i))
  {
    if i :| OccursAt(s[1..], t, i) {
      assert s[1..][i..i + |t|] == s[i + 1..i + 1 + |t|];
      assert OccursAt(s, t, i + 1);
    }
    if i :| OccursAt(s, t, i) {
      assert s[1..][i - 1..i - 1 + |t|] == s[i..i + |t|];
      assert OccursAt(s[1..], t, i - 1);
    }
  }

  /** `xs.join(sep)`. */
  function Join(xs: seq<string>, sep: string): string
  {
    if xs == [] then ""
    else if |xs| == 1 then xs[0]
    else xs[0] + sep + Join(xs[1..], sep)
  }

  /** Joining one more piece adds the separator and the piece at the end. */
  lemma {:induction false} JoinAppend(xs: seq<string>, y: string, sep: string)
    requires xs != []
    ensures Join(xs + [y], sep) == Join(xs, sep) + sep + y
  {
    if |xs| == 1 {
      assert xs + [y] == [xs[0], y];
      assert [xs[0], y][1..] == [y];
    } else {
      assert (xs + [y])[1..] == xs[1..] + [y];
      JoinAppend(xs[1..], y, sep);
    }
  }

  /** Where piece `i` starts in `Join(xs, sep)`: the pieces before it and one separator after each. */
  function JoinOffset(xs: seq<string>, sep: string, i: nat): nat
    requires i <= |xs|
  {
    SumLengths(xs[..i]) + i * |sep|
  }

  /**
   * Every piece sits in the joined text at its offset, followed by the
   * separator when another piece comes after it, and that next piece
   * starts right after the separator: the pieces appear in order.
   */
  lemma {:induction false} JoinPlaces(xs: seq<string>, sep: string, i: nat)
    requires i < |xs|
    ensures OccursAt(Join(xs, sep), xs[i], JoinOffset(xs, sep, i))
    ensures i + 1 < |xs| ==> OccursAt(Join(xs, sep), sep, JoinOffset(xs, sep, i) + |xs[i]|)
    ensures i + 1 < |xs| ==> JoinOffset(xs, sep, i + 1) == JoinOffset(xs, sep, i) + |xs[i]| + |sep|
  {
    JoinOffsetNext(xs, sep, i);
    if |xs| == 1 {
      assert xs[..0] == [];
      assert Join(xs, sep)[0..|xs[0]|] == xs[0];
    } else {
      var head, tail := xs[0] + sep, Join(xs[1..], sep);
      assert Join(xs, sep) == head + tail;
      if i == 0 {
        assert xs[..0] == [];
        assert (head + tail)[0..|xs[0]|] == xs[0];
        assert (head + tail)[|xs[0]|..|xs[0]| + |sep|] == sep;
      } else {
        JoinPlaces(xs[1..], sep, i - 1);
        assert xs[..i][1..] == xs[1..][..i - 1];
        assert JoinOffset(xs, sep, i) == |head| + JoinOffset(xs[1..], sep, i - 1);
        OccursAfter(head, tail, xs[i], JoinOffset(xs[1..], sep, i - 1));
        if i + 1 < |xs| {
          OccursAfter(head, tail, sep, JoinOffset(xs[1..], sep, i - 1) + |xs[i]|);
        }
      }
    }
  }

  /** The next piece starts one piece and one separator further on. */
  lemma JoinOffsetNext(xs: seq<string>, sep: string, i: nat)
    requires i < |xs|
    ensures JoinOffset(xs, sep, i + 1) == JoinOffset(xs, sep, i) + |xs[i]| + |sep|
  {
    assert xs[..i + 1] == xs[..i] + [xs[i]];
    SumLengthsAppend(xs[..i], xs[i]);
    assert (i + 1) * |sep| == i * |sep| + |sep|;
  }

  /**
   * From position `k` on, `t` holds the pieces in order: each piece at its
   * offset, the separator after every piece but the last, and each next
   * piece right after that separator.
   */
  predicate ListsInOrder(t: string, k: int, xs: seq<string>, sep: string)
  {
    && (forall i :: 0 <= i < |xs| ==> OccursAt(t, xs[i], k + JoinOffset(xs, sep, i)))
    && (forall i :: 0 <= i < |xs| - 1 ==>
          OccursAt(t, sep, k + JoinOffset(xs, sep, i) + |xs[i]|)
          && JoinOffset(xs, sep, i + 1) == JoinOffset(xs, sep, i) + |xs[i]| + |sep|)
  }

  /** A joined text after a fixed head: the head first, then the pieces in order, the last one at the end. */
  lemma JoinAfterHead(head: string, xs: seq<string>, sep: string)
    ensures var t := head + Join(xs, sep);
      && StartsWith(t, head)
      && ListsInOrder(t, |head|, xs, sep)
      && (xs != [] ==> EndsWith(t, xs[|xs| - 1]))
  {
    var t := head + Join(xs, sep);
    assert t[..|head|] == head;
    forall i | 0 <= i < |xs|
      ensures OccursAt(t, xs[i], |head| + JoinOffset(xs, sep, i))
    {
      JoinPlaces(xs, sep, i);
      OccursAfter(head, Join(xs, sep), xs[i], JoinOffset(xs, sep, i));
    }
    forall i | 0 <= i < |xs| - 1
      ensures OccursAt(t, sep, |head| + JoinOffset(xs, sep, i) + |xs[i]|)
      ensures JoinOffset(xs, sep, i + 1) == JoinOffset(xs, sep, i) + |xs[i]| + |sep|
    {
      JoinPlaces(xs, sep, i);
      OccursAfter(head, Join(xs, sep), sep, JoinOffset(xs, sep, i) + |xs[i]|);
    }
    if xs != [] {
      JoinEndsWithLast(xs, sep);
      EndsAfter(head, Join(xs, sep), xs[|xs| - 1]);
    }
  }

  /** The joined text ends right after its last piece: its length is that piece's offset plus its length. */
  lemma {:induction false} JoinLength(xs: seq<string>, sep: string)
    requires xs != []
    ensures |Join(xs, sep)| == JoinOffset(xs, sep, |xs| - 1) + |xs[|xs| - 1]|
  {
    var n := |xs| - 1;
    if n == 0 {
      assert xs[..0] == [];
    } else {
      assert xs == xs[..n] + [xs[n]];
      JoinAppend(xs[..n], xs[n], sep);
      JoinLength(xs[..n], sep);
      assert xs[..n][..n - 1] == xs[..n - 1];
      JoinOffsetNext(xs, sep, n - 1);
    }
  }

  /** The joined text ends with the last piece. */
  lemma JoinEndsWithLast(xs: seq<string>, sep: string)
    requires xs != []
    ensures EndsWith(Join(xs, sep), xs[|xs| - 1])
  {
    var n := |xs| - 1;
    if n > 0 {
      assert xs == xs[..n] + [xs[n]];
      JoinAppend(xs[..n], xs[n], sep);
      EndsAfter(Join(xs[..n], sep) + sep, xs[n], xs[n]);
    }
  }

  /** A text keeps its ending when something is put before it. */
  lemma EndsAfter(p: string, u: string, q: string)
    requires EndsWith(u, q)
    ensures EndsWith(p + u, q)
  {
    assert (p + u)[|p + u| - |q|..] == u[|u| - |q|..];
  }

  lemma {:induction false} SumLengthsAppend(xs: seq<string>, y: string)
    ensures SumLengths(xs + [y]) == SumLengths(xs) + |y|
  {
    if xs == [] {
      assert [] + [y] == [y];
    } else {
      assert (xs + [y])[1..] == xs[1..] + [y];
      SumLengthsAppend(xs[1..], y);
    }
  }

  function SumLengths(xs: seq<string>): nat
  {
    if xs == [] then 0 else |xs[0]| + SumLengths(xs[1..])
  }
}
