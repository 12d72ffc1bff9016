/** How many elements of a sequence have a property. */
module Counting {

  function Count<T>(s: seq<T>, p: T -> bool): nat {
    if s == [] then 0 else (if p(s[0]) then 1 else 0) + Count(s[1..], p)
  }

  lemma {:induction false} CountUpdate<T>(s: seq<T>, i: nat, x: T, p: T -> bool)
    requires i < |s|
    ensures Count(s[i := x], p) == Count(s, p) - (if p(s[i]) then 1 else 0) + (if p(x) then 1 else 0)
  {
    if i > 0 {
      assert s[i := x][1..] == s[1..][i - 1 := x];
      CountUpdate(s[1..], i - 1, x, p);
    } else {
      assert s[0 := x][1..] == s[1..];
    }
  }

  lemma {:induction false} CountAppend<T>(s: seq<T>, x: T, p: T -> bool)
    ensures Count(s + [x], p) == Count(s, p) + (if p(x) then 1 else 0)
  {
    if s == [] {
      assert Count([x][1..], p) == 0;
    } else {
      assert (s + [x])[1..] == s[1..] + [x];
      CountAppend(s[1..], x, p);
    }
  }

  /** Sequences that agree on the property have as many elements with it. */
  lemma {:induction false} CountAlike<T>(s: seq<T>, t: seq<T>, p: T -> bool)
    requires |s| == |t| && forall i :: 0 <= i < |s| ==> p(s[i]) == p(t[i])
    ensures Count(s, p) == Count(t, p)
  {
    if s != [] {
      CountAlike(s[1..], t[1..], p);
    }
  }

  lemma {:induction false} CountNone<T>(s: seq<T>, p: T -> bool)
    ensures Count(s, p) == 0 <==> forall i :: 0 <= i < |s| ==> !p(s[i])
    ensures Count(s, p) <= |s|
  {
    if s != [] {
      CountNone(s[1..], p);
      assert forall i :: 1 <= i < |s| ==> s[i] == s[1..][i - 1];
    }
  }

  /** Two properties that exclude each other share out what a third one covers. */
  lemma {:induction false} CountDisjoint<T>(s: seq<T>, p: T -> bool, q: T -> bool, r: T -> bool)
    requires forall i :: 0 <= i < |s| ==> !(p(s[i]) && q(s[i])) && (p(s[i]) || q(s[i]) ==> r(s[i]))
    ensures Count(s, p) + Count(s, q) <= Count(s, r)
  {
    if s != [] {
      CountDisjoint(s[1..], p, q, r);
    }
  }
}
