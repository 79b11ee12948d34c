/** Small datatypes and counting facts shared by the models. */
module Basics {

  datatype Option<+T> = None | Some(value: T)

  /** What an awaited Graph call ends with. */
  datatype Outcome<+T> = Ok(value: T) | Raised(error: Exn)

  /** The exception classes the request handler tells apart. */
  datatype Exn = TimeoutError | GraphAuthError | GraphError | OtherError

  /** How many elements of `s` satisfy `p`. */
  function Count<T>(p: T -> bool, s: seq<T>): nat {
    if s == [] then 0 else (if p(s[0]) then 1 else 0) + Count(p, s[1..])
  }

  lemma {:induction false} CountConcat<T>(p: T -> bool, a: seq<T>, b: seq<T>)
    ensures Count(p, a + b) == Count(p, a) + Count(p, b)
  {
    if a == [] {
      assert a + b == b;
    } else {
      assert (a + b)[1..] == a[1..] + b;
      CountConcat(p, a[1..], b);
    }
  }

  lemma CountSnoc<T>(p: T -> bool, a: seq<T>, x: T)
    ensures Count(p, a + [x]) == Count(p, a) + if p(x) then 1 else 0
  {
    CountConcat(p, a, [x]);
    assert [x][1..] == [];
  }

  /** Counting does not see the order of the elements. */
  lemma {:induction false} CountPermutation<T>(p: T -> bool, a: seq<T>, b: seq<T>)
    requires multiset(a) == multiset(b)
    ensures Count(p, a) == Count(p, b)
    decreases |a|
  {
    if a == [] {
      assert |multiset(b)| == |b|;
    } else {
      assert a[0] in multiset(b);
      var i :| 0 <= i < |b| && b[i] == a[0];
      var rest := b[..i] + b[i + 1..];
      assert a == [a[0]] + a[1..];
      assert b == b[..i] + [b[i]] + b[i + 1..];
      assert multiset(rest) == multiset(b) - multiset{a[0]};
      assert multiset(a[1..]) == multiset(a) - multiset{a[0]};
      CountPermutation(p, a[1..], rest);
      CountConcat(p, b[..i], b[i + 1..]);
      CountConcat(p, b[..i] + [b[i]], b[i + 1..]);
      CountSnoc(p, b[..i], b[i]);
    }
  }

  /** Updating one slot changes the count by that slot alone. */
  lemma CountUpdate<T>(p: T -> bool, s: seq<T>, i: nat, x: T)
    requires i < |s|
    ensures Count(p, s[i := x]) + (if p(s[i]) then 1 else 0) == Count(p, s) + if p(x) then 1 else 0
  {
    assert s == s[..i] + [s[i]] + s[i + 1..];
    assert s[i := x] == s[..i] + [x] + s[i + 1..];
    CountConcat(p, s[..i] + [s[i]], s[i + 1..]);
    CountConcat(p, s[..i] + [x], s[i + 1..]);
    CountSnoc(p, s[..i], s[i]);
    CountSnoc(p, s[..i], x);
  }

  lemma {:induction false} CountImplies<T(!new)>(p: T -> bool, q: T -> bool, s: seq<T>)
    requires forall x :: p(x) ==> q(x)
    ensures Count(p, s) <= Count(q, s) <= |s|
  {
    if s != [] {
      CountImplies(p, q, s[1..]);
    }
  }

  /** Where in `s` the elements are that satisfy `p`. */
  ghost function Places<T>(p: T -> bool, s: seq<T>): set<nat> {
    set i: nat | i < |s| && p(s[i])
  }

  /** Counting is the number of places. */
  lemma {:induction false} CountPlaces<T>(p: T -> bool, s: seq<T>)
    ensures Count(p, s) == |Places(p, s)|
  {
    if s == [] {
      assert Places(p, s) == {};
    } else {
      var n := |s| - 1;
      CountPlaces(p, s[..n]);
      CountSnoc(p, s[..n], s[n]);
      assert s == s[..n] + [s[n]];
      assert Places(p, s) == Places(p, s[..n]) + if p(s[n]) then {n} else {};
    }
  }

  /** What `f` makes of each element, one after the other. */
  ghost function Flat<T, U>(f: T -> seq<U>, s: seq<T>): seq<U> {
    if s == [] then [] else f(s[0]) + Flat(f, s[1..])
  }

  lemma {:induction false} FlatSnoc<T, U>(f: T -> seq<U>, s: seq<T>, x: T)
    ensures Flat(f, s + [x]) == Flat(f, s) + f(x)
  {
    if s == [] {
      assert [x][1..] == [] && [] + [x] == [x] && f(x) + [] == f(x) == [] + f(x);
    } else {
      assert (s + [x])[1..] == s[1..] + [x];
      FlatSnoc(f, s[1..], x);
      assert f(s[0]) + (Flat(f, s[1..]) + f(x)) == f(s[0]) + Flat(f, s[1..]) + f(x);
    }
  }
}
