/** Counting, removing and filtering in sequences. */
module Sequences {

  function Count<T(==)>(s: seq<T>, t: T): nat {
    if s == [] then 0 else (if s[0] == t then 1 else 0) + Count(s[1..], t)
  }

  lemma {:induction false} CountJoin<T>(a: seq<T>, b: seq<T>, t: T)
    ensures Count(a + b, t) == Count(a, t) + Count(b, t)
    decreases |a|
  {
    if a == [] {
      assert a + b == b;
    } else {
      CountJoin(a[1..], b, t);
      assert (a + b)[1..] == a[1..] + b;
    }
  }

  lemma {:induction false} CountZero<T>(s: seq<T>, t: T)
    ensures Count(s, t) == 0 <==> t !in s
    decreases |s|
  {
    if s != [] {
      CountZero(s[1..], t);
    }
  }

  /** `erase(find(begin, end, t))`: without the first occurrence, if there is one. */
  function RemoveFirst<T(==)>(s: seq<T>, t: T): seq<T> {
    if s == [] then []
    else if s[0] == t then s[1..]
    else [s[0]] + RemoveFirst(s[1..], t)
  }

  lemma {:induction false} RemoveFirstCount<T>(s: seq<T>, t: T, u: T)
    ensures Count(RemoveFirst(s, t), u) == if u == t && t in s then Count(s, u) - 1 else Count(s, u)
    decreases |s|
  {
    CountZero(s, t);
    if s != [] && s[0] != t {
      RemoveFirstCount(s[1..], t, u);
      assert RemoveFirst(s, t)[1..] == RemoveFirst(s[1..], t);
    }
  }

  lemma {:induction false} RemoveFirstAt<T>(s: seq<T>, i: nat)
    requires i < |s| && s[i] !in s[..i]
    ensures RemoveFirst(s, s[i]) == s[..i] + s[i + 1..]
    decreases i
  {
    if i > 0 {
      assert s[0] in s[..i];
      assert s[1..][..i - 1] == s[1..i];
      forall k | 0 <= k < i - 1 ensures s[1..][k] != s[1..][i - 1] {
        assert s[1..][k] == s[..i][k + 1];
      }
      RemoveFirstAt(s[1..], i - 1);
      assert s[..i] + s[i + 1..] == [s[0]] + (s[1..][..i - 1] + s[1..][i..]);
    }
  }

  lemma {:induction false} RemoveFirstAbsent<T>(s: seq<T>, t: T)
    requires t !in s
    ensures RemoveFirst(s, t) == s
    decreases |s|
  {
    if s != [] {
      RemoveFirstAbsent(s[1..], t);
    }
  }

  /** All occurrences of `t` taken out. */
  function Without<T(==)>(s: seq<T>, t: T): seq<T> {
    if s == [] then []
    else if s[0] == t then Without(s[1..], t)
    else [s[0]] + Without(s[1..], t)
  }

  lemma {:induction false} WithoutAfterRemove<T>(s: seq<T>, t: T)
    ensures Without(RemoveFirst(s, t), t) == Without(s, t)
    decreases |s|
  {
    if s != [] && s[0] != t {
      WithoutAfterRemove(s[1..], t);
      assert RemoveFirst(s, t)[1..] == RemoveFirst(s[1..], t);
    }
  }

  lemma {:induction false} WithoutAbsent<T>(s: seq<T>, t: T)
    requires t !in s
    ensures Without(s, t) == s
    decreases |s|
  {
    if s != [] {
      WithoutAbsent(s[1..], t);
    }
  }

  lemma {:induction false} RemoveUndoesAppend<T>(s: seq<T>, t: T)
    requires t !in s
    ensures RemoveFirst(s + [t], t) == s
    decreases |s|
  {
    if s != [] {
      RemoveUndoesAppend(s[1..], t);
      assert (s + [t])[1..] == s[1..] + [t];
    }
  }

  lemma {:induction false} WithoutCount<T>(s: seq<T>, t: T, u: T)
    ensures Count(Without(s, t), u) == if u == t then 0 else Count(s, u)
    decreases |s|
  {
    if s != [] {
      WithoutCount(s[1..], t, u);
      if s[0] != t {
        assert Without(s, t)[1..] == Without(s[1..], t);
      }
    }
  }

  lemma {:induction false} WithoutWithin<T>(s: seq<T>, t: T)
    ensures forall u | u in Without(s, t) :: u in s
    decreases |s|
  {
    if s != [] {
      WithoutWithin(s[1..], t);
    }
  }

  lemma {:induction false} WithoutTwice<T>(s: seq<T>, t: T, u: T)
    ensures Without(Without(s, t), u) == Without(Without(s, u), t)
    ensures Without(Without(s, t), t) == Without(s, t)
    decreases |s|
  {
    if s != [] {
      WithoutTwice(s[1..], t, u);
      if s[0] != t {
        assert Without(s, t)[1..] == Without(s[1..], t);
      }
      if s[0] != u {
        assert Without(s, u)[1..] == Without(s[1..], u);
      }
    }
  }

  lemma {:induction false} WithoutSnoc<T>(s: seq<T>, x: T, t: T)
    ensures Without(s + [x], t) == Without(s, t) + (if x == t then [] else [x])
    decreases |s|
  {
    if s != [] {
      WithoutSnoc(s[1..], x, t);
      assert (s + [x])[1..] == s[1..] + [x];
    }
  }

  /** The elements in the order of their first occurrence. */
  function Firsts<T(==)>(s: seq<T>): seq<T> {
    if s == [] then [] else [s[0]] + Without(Firsts(s[1..]), s[0])
  }

  lemma {:induction false} FirstsWithin<T>(s: seq<T>, t: T)
    ensures t in Firsts(s) <==> t in s
    decreases |s|
  {
    if s != [] {
      FirstsWithin(s[1..], t);
      CountZero(Firsts(s[1..]), t);
      CountZero(Without(Firsts(s[1..]), s[0]), t);
      WithoutCount(Firsts(s[1..]), s[0], t);
    }
  }

  lemma {:induction false} FirstsSnoc<T>(s: seq<T>, x: T)
    ensures Firsts(s + [x]) == Firsts(s) + (if x in s then [] else [x])
    decreases |s|
  {
    if s == [] {
      assert ([] + [x])[1..] == [];
    } else {
      FirstsSnoc(s[1..], x);
      assert (s + [x])[1..] == s[1..] + [x];
      var rest := Without(Firsts(s[1..]), s[0]);
      assert Firsts(s + [x]) == [s[0]] + Without(Firsts(s[1..] + [x]), s[0]);
      assert x in s <==> x == s[0] || x in s[1..];
      if x in s[1..] {
        assert Firsts(s[1..] + [x]) == Firsts(s[1..]);
      } else {
        WithoutSnoc(Firsts(s[1..]), x, s[0]);
        assert [s[0]] + (rest + [x]) == ([s[0]] + rest) + [x];
      }
    }
  }

  function Repeat<T>(t: T, n: nat): (r: seq<T>)
    ensures |r| == n && forall i | 0 <= i < n :: r[i] == t
  {
    seq(n, _ => t)
  }

  lemma {:induction false} RepeatCount<T>(t: T, n: nat, u: T)
    ensures Count(Repeat(t, n), u) == if u == t then n else 0
  {
    if n > 0 {
      RepeatCount(t, n - 1, u);
      assert Repeat(t, n)[1..] == Repeat(t, n - 1);
    }
  }
}
