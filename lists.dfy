/** List transforms shared by the server and the client: removing every occurrence of
    an id (`list.filter(id => id !== x)`) and toggling an id (filter when present,
    `push` otherwise). */
module Lists {

  /** The number of occurrences of `x` in `s`. */
  function Count<T(==)>(s: seq<T>, x: T): (n: nat)
    ensures n <= |s|
    ensures n == 0 <==> x !in s
  {
    if s == [] then 0 else (if s[0] == x then 1 else 0) + Count(s[1..], x)
  }

  /** `s.filter(y => y !== x)`: every occurrence of `x` removed, the rest in order. */
  function RemoveAll<T(==)>(s: seq<T>, x: T): (r: seq<T>)
    ensures x !in r
    ensures forall i :: 0 <= i < |r| ==> r[i] in s
    ensures forall i :: 0 <= i < |s| && s[i] != x ==> s[i] in r
    ensures |r| == |s| - Count(s, x)
  {
    if s == [] then []
    else if s[0] == x then RemoveAll(s[1..], x)
    else [s[0]] + RemoveAll(s[1..], x)
  }

  /** Removing an id that does not occur changes nothing. */
  lemma {:induction false} RemoveAllAbsent<T>(s: seq<T>, x: T)
    requires x !in s
    ensures RemoveAll(s, x) == s
  {
    if s != [] {
      RemoveAllAbsent(s[1..], x);
    }
  }

  /** Removal distributes over concatenation. */
  lemma {:induction false} RemoveAllAppend<T>(s: seq<T>, t: seq<T>, x: T)
    ensures RemoveAll(s + t, x) == RemoveAll(s, x) + RemoveAll(t, x)
  {
    if s == [] {
      assert s + t == t;
    } else {
      assert (s + t)[0] == s[0];
      assert (s + t)[1..] == s[1..] + t;
      RemoveAllAppend(s[1..], t, x);
      if s[0] != x {
        assert [s[0]] + (RemoveAll(s[1..], x) + RemoveAll(t, x)) == [s[0]] + RemoveAll(s[1..], x) + RemoveAll(t, x);
      }
    }
  }

  /** Removing twice is removing once. */
  lemma RemoveAllIdempotent<T>(s: seq<T>, x: T)
    ensures RemoveAll(RemoveAll(s, x), x) == RemoveAll(s, x)
  {
    RemoveAllAbsent(RemoveAll(s, x), x);
  }

  /** The like toggle: drop every occurrence when present, append once otherwise. */
  function Toggle<T(==)>(s: seq<T>, x: T): (r: seq<T>)
    ensures x in r <==> x !in s
    ensures x !in s ==> Count(r, x) == 1
    ensures RemoveAll(r, x) == RemoveAll(s, x)
    ensures x in s ==> r == RemoveAll(s, x)
    ensures x !in s ==> r == s + [x]
  {
    if x in s then
      RemoveAllIdempotent(s, x);
      RemoveAll(s, x)
    else
      RemoveAllAppend(s, [x], x);
      RemoveAllAbsent(s, x);
      CountAppend(s, [x], x);
      s + [x]
  }

  lemma {:induction false} CountAppend<T>(s: seq<T>, t: seq<T>, x: T)
    ensures Count(s + t, x) == Count(s, x) + Count(t, x)
  {
    if s == [] {
      assert s + t == t;
    } else {
      assert (s + t)[1..] == s[1..] + t;
      CountAppend(s[1..], t, x);
    }
  }

  /** Toggling an id that was absent, twice, gives back the original list. */
  lemma ToggleTwiceWhenAbsent<T>(s: seq<T>, x: T)
    requires x !in s
    ensures Toggle(Toggle(s, x), x) == s
  {
    RemoveAllAppend(s, [x], x);
    RemoveAllAbsent(s, x);
  }

  /** Toggling twice leaves the id present exactly once, after the others, and the
      others in their original order. */
  lemma ToggleTwice<T>(s: seq<T>, x: T)
    ensures Toggle(Toggle(s, x), x) == (if x in s then RemoveAll(s, x) + [x] else s)
  {
    if x !in s {
      ToggleTwiceWhenAbsent(s, x);
    }
  }

  /** `limit(n)`: the first `n` elements, or all of them when there are fewer. */
  function Take<T>(s: seq<T>, n: nat): (r: seq<T>)
    ensures |r| == if n <= |s| then n else |s|
    ensures forall i :: 0 <= i < |r| ==> r[i] == s[i]
  {
    if n <= |s| then s[..n] else s
  }

  /** Taking one more from a list with one more in front. */
  lemma TakeCons<T>(x: T, s: seq<T>, n: nat)
    ensures Take([x] + s, n + 1) == [x] + Take(s, n)
  {
    if n <= |s| {
      assert ([x] + s)[..n + 1] == [x] + s[..n];
    }
  }

  /** The sequence back to front, as `sort({ createdAt: -1 })` gives a chronological one. */
  function Reverse<T>(s: seq<T>): (r: seq<T>)
    ensures |r| == |s|
    ensures forall i :: 0 <= i < |s| ==> r[i] == s[|s| - 1 - i]
  {
    if s == [] then [] else Reverse(s[1..]) + [s[0]]
  }

  /** Reversing keeps exactly the same elements. */
  lemma ReverseMembers<T>(s: seq<T>)
    ensures forall x :: x in Reverse(s) <==> x in s
  {
    var r := Reverse(s);
    forall x | x in s
      ensures x in r
    {
      var i :| 0 <= i < |s| && s[i] == x;
      assert r[|s| - 1 - i] == x;
    }
  }

  /** `xs.map(f)`. */
  function Map<A, B>(f: A -> B, xs: seq<A>): (r: seq<B>)
    ensures |r| == |xs|
    ensures forall i :: 0 <= i < |xs| ==> r[i] == f(xs[i])
  {
    seq(|xs|, i requires 0 <= i < |xs| => f(xs[i]))
  }

  /** Mapping over two lists one after the other. */
  lemma MapAppend<A, B>(f: A -> B, xs: seq<A>, ys: seq<A>)
    ensures Map(f, xs + ys) == Map(f, xs) + Map(f, ys)
  {
    var all := Map(f, xs + ys);
    forall i | 0 <= i < |all|
      ensures all[i] == (Map(f, xs) + Map(f, ys))[i]
    {
      if i >= |xs| {
        assert (xs + ys)[i] == ys[i - |xs|];
      } else {
        assert (xs + ys)[i] == xs[i];
      }
    }
  }

  /** Mapping over a list with one more element in front. */
  lemma MapCons<A, B>(f: A -> B, x: A, xs: seq<A>)
    ensures Map(f, [x] + xs) == [f(x)] + Map(f, xs)
  {
    var all := Map(f, [x] + xs);
    forall i | 0 <= i < |all|
      ensures all[i] == ([f(x)] + Map(f, xs))[i]
    {
      if i > 0 {
        assert ([x] + xs)[i] == xs[i - 1];
      }
    }
  }
}
