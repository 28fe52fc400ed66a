// Shared vocabulary of the task-manager backend: the response envelope every
// service returns, C# integer behaviour, LINQ paging and the string helpers
// the token checks use.
module Common {

  datatype Option<T> = None | Some(value: T)

  /** ReturnResponse: a success flag, an HTTP status code, a message and an optional payload. */
  datatype Response<T> = Response(status: bool, code: int, message: string, data: Option<T>)

  /** PagedResponse: a ReturnResponse extended with the page metadata a listing reports. */
  datatype Paged<T> = Paged(status: bool, code: int, message: string, data: Option<T>,
                            pageNumber: int, pageSize: int, totalRecords: int)

  /** A response without payload. */
  function Fail<T>(code: int, message: string): (r: Response<T>)
    ensures !r.status && r.code == code && r.data.None?
  {
    Response(false, code, message, None)
  }

  // ---------------------------------------------------------------------------
  // C# 32-bit integers

  const TwoTo32: int := 0x1_0000_0000
  const Int32Min: int := -0x8000_0000
  const Int32Max: int := 0x7FFF_FFFF

  /** The range of a C# `int`. */
  newtype int32 = x: int | -0x8000_0000 <= x < 0x8000_0000

  /** Unchecked C# `int` arithmetic: the two's complement value congruent to x modulo 2^32. */
  function Wrap32(x: int): (r: int)
    ensures Int32Min <= r <= Int32Max
    ensures (x - r) % TwoTo32 == 0
    ensures Int32Min <= x <= Int32Max ==> r == x
  {
    var m := x % TwoTo32;
    if m > Int32Max then m - TwoTo32 else m
  }

  /** C# integer division, which truncates toward zero (Dafny's `/` is Euclidean). */
  function TruncDiv(a: int, b: int): (q: int)
    requires b > 0
    ensures a >= 0 ==> 0 <= a - q * b < b
    ensures a < 0 ==> -b < a - q * b <= 0
    ensures a >= 0 ==> 0 <= q <= a
    ensures a < 0 ==> a <= q <= 0
  {
    if a >= 0 then Quot(a, b) as int else -(Quot(-a, b) as int)
  }

  /** The quotient of a non-negative number, by repeated subtraction. */
  function Quot(a: nat, b: int): (q: nat)
    requires b > 0
    ensures q * b <= a < q * b + b
    ensures q <= a
  {
    if a < b then 0 else 1 + Quot(a - b, b)
  }

  // ---------------------------------------------------------------------------
  // LINQ paging (Enumerable.Skip / Enumerable.Take: a count below zero acts as zero)

  function Skip<T>(s: seq<T>, n: int): (r: seq<T>)
    ensures |r| == if n <= 0 then |s| else if n >= |s| then 0 else |s| - n
    ensures forall i :: 0 <= i < |r| ==> r[i] == s[|s| - |r| + i]
  {
    if n <= 0 then s else if n >= |s| then [] else s[n..]
  }

  function Take<T>(s: seq<T>, n: int): (r: seq<T>)
    ensures |r| == if n <= 0 then 0 else if n >= |s| then |s| else n
    ensures forall i :: 0 <= i < |r| ==> r[i] == s[i]
  {
    if n <= 0 then [] else if n >= |s| then s else s[..n]
  }

  // ---------------------------------------------------------------------------
  // Where

  /** Enumerable.Where: the elements satisfying p, in order. */
  function Filter<T(!new)>(s: seq<T>, p: T -> bool): (r: seq<T>)
    ensures |r| <= |s|
    ensures forall x :: x in r <==> x in s && p(x)
    ensures forall i :: 0 <= i < |r| ==> p(r[i])
  {
    if |s| == 0 then []
    else if p(s[0]) then [s[0]] + Filter(s[1..], p)
    else Filter(s[1..], p)
  }

  /** A relation that holds between every element and each later one still holds after
      filtering (filtering keeps the order). */
  lemma {:induction false} FilterPairwise<T(!new)>(s: seq<T>, p: T -> bool, rel: (T, T) -> bool)
    requires forall i, j :: 0 <= i < j < |s| ==> rel(s[i], s[j])
    ensures forall i, j :: 0 <= i < j < |Filter(s, p)| ==> rel(Filter(s, p)[i], Filter(s, p)[j])
    decreases |s|
  {
    if |s| > 0 {
      var t := Filter(s[1..], p);
      FilterPairwise(s[1..], p, rel);
      if p(s[0]) {
        var r := [s[0]] + t;
        assert Filter(s, p) == r;
        forall i, j | 0 <= i < j < |r|
          ensures rel(r[i], r[j])
        {
          assert r[j] == t[j - 1] && t[j - 1] in s[1..];
          var k :| 0 <= k < |s[1..]| && s[1..][k] == t[j - 1];
          assert s[k + 1] == r[j];
          if i > 0 {
            assert r[i] == t[i - 1];
            assert rel(t[i - 1], t[j - 1]);
          } else {
            assert r[i] == s[0];
            assert rel(s[0], s[k + 1]);
          }
        }
      } else {
        assert Filter(s, p) == t;
      }
    }
  }

  // ---------------------------------------------------------------------------
  // Strings

  /** char.IsWhiteSpace: the Unicode space separators, line and paragraph separators and the
      control characters U+0009..U+000D and U+0085. */
  predicate IsWhiteSpace(c: char)
  {
    c == ' ' || ('\t' <= c <= '\r') || c == '\U{85}' || c == '\U{A0}' || c == '\U{1680}'
    || ('\U{2000}' <= c <= '\U{200A}') || c == '\U{2028}' || c == '\U{2029}' || c == '\U{202F}'
    || c == '\U{205F}' || c == '\U{3000}'
  }

  /** string.IsNullOrWhiteSpace; a missing header arrives as the empty string. */
  predicate IsBlank(s: string)
  {
    forall i :: 0 <= i < |s| ==> IsWhiteSpace(s[i])
  }

  /** `pat` occurs in `s` starting at position i. */
  predicate OccursAt(pat: string, s: string, i: int)
  {
    0 <= i && i + |pat| <= |s| && s[i..i + |pat|] == pat
  }

  predicate Occurs(pat: string, s: string)
  {
    exists i :: 0 <= i <= |s| && OccursAt(pat, s, i)
  }

  /** string.Replace(pat, ""): ordinal, left to right, each match removed and the scan resumed
      after it. */
  function RemoveAll(s: string, pat: string): (r: string)
    requires |pat| > 0
    ensures |r| <= |s|
    decreases |s|
  {
    if |s| < |pat| then s
    else if s[..|pat|] == pat then RemoveAll(s[|pat|..], pat)
    else [s[0]] + RemoveAll(s[1..], pat)
  }

  /** The scheme prefix the services strip from the Authorization header. */
  const Bearer: string := "Bearer "

  /** Removing a pattern from a string that does not contain it changes nothing. */
  lemma {:induction false} RemoveAllAbsent(s: string, pat: string)
    requires |pat| > 0 && !Occurs(pat, s)
    ensures RemoveAll(s, pat) == s
    decreases |s|
  {
    if |s| < |pat| {
    } else {
      assert !OccursAt(pat, s, 0);
      assert s[..|pat|] != pat;
      forall i | 0 <= i <= |s| - 1
        ensures !OccursAt(pat, s[1..], i)
      {
        if i + |pat| <= |s| - 1 {
          assert s[1..][i..i + |pat|] == s[i + 1..i + 1 + |pat|];
          assert !OccursAt(pat, s, i + 1);
        }
      }
      RemoveAllAbsent(s[1..], pat);
    }
  }

  /** The result is shorter exactly when the pattern occurs: every scan that meets an occurrence
      removes at least that one or an overlapping earlier one. */
  lemma {:induction false} RemoveAllShrinksIffOccurs(s: string, pat: string)
    requires |pat| > 0
    ensures |RemoveAll(s, pat)| < |s| <==> Occurs(pat, s)
    decreases |s|
  {
    if !Occurs(pat, s) {
      RemoveAllAbsent(s, pat);
    } else if s[..|pat|] != pat {
      var i :| 0 <= i <= |s| && OccursAt(pat, s, i);
      assert i != 0;
      assert s[1..][i - 1..i - 1 + |pat|] == s[i..i + |pat|];
      assert OccursAt(pat, s[1..], i - 1);
      RemoveAllShrinksIffOccurs(s[1..], pat);
    }
  }

  /** A leading occurrence of the pattern is removed. */
  lemma RemoveAllPrefix(pat: string, t: string)
    requires |pat| > 0
    ensures RemoveAll(pat + t, pat) == RemoveAll(t, pat)
  {
    assert (pat + t)[..|pat|] == pat;
    assert (pat + t)[|pat|..] == t;
  }

  /** "Bearer " followed by a token that does not contain it strips back to the token. */
  lemma StripBearer(t: string)
    requires !Occurs(Bearer, t)
    ensures RemoveAll(Bearer + t, Bearer) == t
    ensures RemoveAll(t, Bearer) == t
  {
    RemoveAllPrefix(Bearer, t);
    RemoveAllAbsent(t, Bearer);
  }

  /** Removal is not idempotent: deleting an inner match can join its neighbours into a new one. */
  lemma RemoveAllCanLeaveBearer()
    ensures RemoveAll("BBearer earer ", Bearer) == Bearer
  {
    var s := "BBearer earer ";
    assert s[..7][1] != Bearer[1];
    assert s[1..][..7] == Bearer;
    assert s[1..][7..] == "earer ";
    assert RemoveAll("earer ", Bearer) == "earer ";
  }
}
