/** Small shared vocabulary: optional values, results, and flattening a
    function over a sequence, which is what a nest of loops that push onto one
    array computes. */
module Common {

  datatype Option<+T> = None | Some(value: T)

  datatype Result<+T, +E> = Success(value: T) | Failure(error: E)

  /** The concatenation of `f` over the first `n` elements of `s`, in order: one
      more element at each turn of a loop over `s`. */
  function FlatMapTo<A, B>(f: A -> seq<B>, s: seq<A>, n: nat): seq<B>
    requires n <= |s|
  {
    if n == 0 then [] else FlatMapTo(f, s, n - 1) + f(s[n - 1])
  }

  /** Always true. In several modules a predicate or a result that stands for a
      large definition is stated "by name": under a quantifier over one number
      `n` that only a mention of `Turns(n)` instantiates. The meaning is that of
      the definition; a proof that mentions `Turns` (most often by calling a
      lemma `...Means` or `...Is` beside the predicate) looks inside, and every
      other proof hands the name on without the verifier unfolding it. */
  ghost predicate Turns(n: nat) {
    true
  }

  ghost predicate IsFlattened<A(!new), B(!new)>(f: A -> seq<B>, s: seq<A>, r: seq<B>) {
    forall n: nat {:trigger Turns(n)} :: Turns(n) && n == |s| ==> r == FlatMapTo(f, s, n)
  }

  /** The concatenation of `f` over all of `s`. */
  ghost function FlatMap<A(!new), B(!new)>(f: A -> seq<B>, s: seq<A>): seq<B> {
    assert IsFlattened(f, s, FlatMapTo(f, s, |s|));
    var r: seq<B> :| IsFlattened(f, s, r);
    r
  }

  lemma FlatMapIs<A(!new), B(!new)>(f: A -> seq<B>, s: seq<A>)
    ensures FlatMap(f, s) == FlatMapTo(f, s, |s|)
  {
    assert Turns(|s|);
  }

  /** The same, pushed onto what an array already holds: the invariant of an
      inner loop. */
  function Pushed<A, B>(base: seq<B>, f: A -> seq<B>, s: seq<A>, n: nat): seq<B>
    requires n <= |s|
  {
    if n == 0 then base else Pushed(base, f, s, n - 1) + f(s[n - 1])
  }

  lemma {:induction false} PushedIsAppended<A, B>(base: seq<B>, f: A -> seq<B>, s: seq<A>, n: nat)
    requires n <= |s|
    ensures Pushed(base, f, s, n) == base + FlatMapTo(f, s, n)
  {
    if n > 0 {
      PushedIsAppended(base, f, s, n - 1);
    }
  }

  /** Every element of the result comes from some element of `s`. */
  lemma {:induction false} FlatMapFrom<A, B>(f: A -> seq<B>, s: seq<A>, n: nat, y: B) returns (x: A)
    requires n <= |s| && y in FlatMapTo(f, s, n)
    ensures x in s && y in f(x)
  {
    if y in f(s[n - 1]) {
      x := s[n - 1];
    } else {
      x := FlatMapFrom(f, s, n - 1, y);
    }
  }

  /** And every element of `f(x)` arrives there. */
  lemma {:induction false} FlatMapHas<A, B>(f: A -> seq<B>, s: seq<A>, n: nat, i: nat, y: B)
    requires i < n <= |s| && y in f(s[i])
    ensures y in FlatMapTo(f, s, n)
  {
    if i < n - 1 {
      FlatMapHas(f, s, n - 1, i, y);
    }
  }

  /** The source of an element of a flattened sequence. */
  lemma FlatMapSource<A(!new), B(!new)>(f: A -> seq<B>, s: seq<A>, y: B) returns (x: A)
    requires y in FlatMap(f, s)
    ensures x in s && y in f(x)
  {
    FlatMapIs(f, s);
    x := FlatMapFrom(f, s, |s|, y);
  }

  lemma FlatMapReaches<A(!new), B(!new)>(f: A -> seq<B>, s: seq<A>, x: A, y: B)
    requires x in s && y in f(x)
    ensures y in FlatMap(f, s)
  {
    var i :| 0 <= i < |s| && s[i] == x;
    FlatMapIs(f, s);
    FlatMapHas(f, s, |s|, i, y);
  }

  /** The elements of `s` that satisfy `p`, in order. */
  function Filter<A(!new)>(p: A -> bool, s: seq<A>): (r: seq<A>)
    ensures forall x :: x in r <==> x in s && p(x)
  {
    if s == [] then []
    else
      var rest := Filter(p, s[..|s| - 1]);
      if p(s[|s| - 1]) then rest + [s[|s| - 1]] else rest
  }

  /** The order of texts: by code point, a prefix first. */
  predicate TextBelow(a: string, b: string) {
    if a == "" then b != ""
    else if b == "" then false
    else if a[0] == b[0] then TextBelow(a[1..], b[1..])
    else a[0] < b[0]
  }

  lemma {:induction false} TextBelowIsTotal(a: string, b: string)
    ensures a == b || TextBelow(a, b) || TextBelow(b, a)
    ensures !(TextBelow(a, b) && TextBelow(b, a))
  {
    if a != "" && b != "" {
      TextBelowIsTotal(a[1..], b[1..]);
    }
  }

  lemma {:induction false} TextBelowIsTransitive(a: string, b: string, c: string)
    requires TextBelow(a, b) && TextBelow(b, c)
    ensures TextBelow(a, c)
  {
    if a != "" && a[0] == b[0] && b[0] == c[0] {
      TextBelowIsTransitive(a[1..], b[1..], c[1..]);
    }
  }

  predicate TextAtMost(a: string, b: string) {
    a == b || TextBelow(a, b)
  }

  lemma TextAtMostIsOrder(a: string, b: string, c: string)
    ensures TextAtMost(a, b) || TextAtMost(b, a)
    ensures TextAtMost(a, b) && TextAtMost(b, a) ==> a == b
    ensures TextAtMost(a, b) && TextAtMost(b, c) ==> TextAtMost(a, c)
  {
    TextBelowIsTotal(a, b);
    if TextBelow(a, b) && TextBelow(b, c) {
      TextBelowIsTransitive(a, b, c);
    }
  }

  lemma FilterOfOne<A(!new)>(p: A -> bool, s: seq<A>, x: A)
    ensures Filter(p, s + [x]) == if p(x) then Filter(p, s) + [x] else Filter(p, s)
  {
    assert (s + [x])[..|s|] == s;
  }

  lemma {:induction false} FilterAppends<A(!new)>(p: A -> bool, s: seq<A>, t: seq<A>)
    ensures Filter(p, s + t) == Filter(p, s) + Filter(p, t)
  {
    if t == [] {
      assert s + t == s;
    } else {
      var before, x := t[..|t| - 1], t[|t| - 1];
      FilterAppends(p, s, before);
      assert t == before + [x];
      FilterAppendsOne(p, s, before, x);
    }
  }

  lemma FilterAppendsOne<A(!new)>(p: A -> bool, s: seq<A>, t: seq<A>, x: A)
    requires Filter(p, s + t) == Filter(p, s) + Filter(p, t)
    ensures Filter(p, s + (t + [x])) == Filter(p, s) + Filter(p, t + [x])
  {
    FilterOfOne(p, t, x);
    FilterOfOne(p, s + t, x);
    AppendAssociates(s, t, [x]);
    AppendAssociates(Filter(p, s), Filter(p, t), [x]);
  }

  lemma AppendAssociates<T>(x: seq<T>, y: seq<T>, z: seq<T>)
    ensures (x + y) + z == x + (y + z)
  {
  }

  /** A non-empty set has an element of greatest measure. */
  lemma {:induction false} MaximumExists<A>(s: set<A>, measure: A -> int) returns (m: A)
    requires s != {}
    ensures m in s && forall x :: x in s ==> measure(x) <= measure(m)
  {
    var y :| y in s;
    var rest := s - {y};
    assert forall x :: x in s ==> x == y || x in rest;
    if rest == {} {
      m := y;
    } else {
      var k := MaximumExists(rest, measure);
      m := if measure(y) <= measure(k) then k else y;
    }
  }
}
