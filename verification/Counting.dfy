/** How many elements of a sequence satisfy a predicate: threads at a program point, mostly. */
module Counting {
  function Bit(b: bool): nat { if b then 1 else 0 }

  function Count<T>(f: T -> bool, s: seq<T>): (n: nat)
    ensures n <= |s|
  {
    if s == [] then 0 else Bit(f(s[0])) + Count(f, s[1..])
  }

  lemma {:induction false} CountUpdate<T>(f: T -> bool, s: seq<T>, i: nat, x: T)
    requires i < |s|
    ensures Count(f, s[i := x]) + Bit(f(s[i])) == Count(f, s) + Bit(f(x))
    decreases |s|
  {
    if i > 0 {
      assert s[i := x][1..] == s[1..][i - 1 := x];
      CountUpdate(f, s[1..], i - 1, x);
    } else {
      assert s[i := x][1..] == s[1..];
    }
  }

  lemma {:induction false} CountSome<T>(f: T -> bool, s: seq<T>)
    ensures Count(f, s) > 0 <==> exists i :: 0 <= i < |s| && f(s[i])
    decreases |s|
  {
    if s != [] {
      CountSome(f, s[1..]);
      if Count(f, s[1..]) > 0 {
        var i :| 0 <= i < |s[1..]| && f(s[1..][i]);
        assert f(s[i + 1]);
      }
      forall i | 0 <= i < |s| && f(s[i]) ensures Count(f, s) > 0 {
        if i > 0 { assert s[1..][i - 1] == s[i]; }
      }
    }
  }

  lemma {:induction false} CountAll<T>(f: T -> bool, g: T -> bool, s: seq<T>, t: seq<T>)
    requires |s| == |t| && forall i :: 0 <= i < |s| ==> f(s[i]) == g(t[i])
    ensures Count(f, s) == Count(g, t)
    decreases |s|
  {
    if s != [] { CountAll(f, g, s[1..], t[1..]); }
  }

  /** Two elements count as two. */
  lemma {:induction false} OnlyOne<T>(f: T -> bool, s: seq<T>, i: nat, j: nat)
    requires i < |s| && j < |s| && i != j && f(s[i]) && f(s[j])
    ensures Count(f, s) >= 2
    decreases |s|
  {
    CountSome(f, s[1..]);
    if i == 0 {
      assert s[1..][j - 1] == s[j];
    } else if j == 0 {
      assert s[1..][i - 1] == s[i];
    } else {
      OnlyOne(f, s[1..], i - 1, j - 1);
    }
  }

  lemma {:induction false} CountConcat<T>(f: T -> bool, s: seq<T>, t: seq<T>)
    ensures Count(f, s + t) == Count(f, s) + Count(f, t)
    decreases |s|
  {
    if s == [] {
      assert s + t == t;
    } else {
      assert (s + t)[1..] == s[1..] + t;
      CountConcat(f, s[1..], t);
    }
  }

  function Total<T>(f: T -> nat, s: seq<T>): nat {
    if s == [] then 0 else f(s[0]) + Total(f, s[1..])
  }

  lemma {:induction false} TotalUpdate<T>(f: T -> nat, s: seq<T>, i: nat, x: T)
    requires i < |s|
    ensures Total(f, s[i := x]) + f(s[i]) == Total(f, s) + f(x)
    decreases |s|
  {
    if i > 0 {
      assert s[i := x][1..] == s[1..][i - 1 := x];
      TotalUpdate(f, s[1..], i - 1, x);
    } else {
      assert s[i := x][1..] == s[1..];
    }
  }
}
