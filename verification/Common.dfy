/** Shared vocabulary: optional values, results and two facts about sequences. */
module Common {
  datatype Option<+T> = None | Some(value: T) {
    function GetOr(default: T): T {
      match this
      case Some(v) => v
      case None => default
    }
  }

  datatype Result<+T, +E> = Ok(value: T) | Err(error: E)

  /** The elements of `s` that satisfy `p`, in order (`Array.filter`). */
  function Filter<T>(s: seq<T>, p: T -> bool): seq<T> {
    if s == [] then [] else (if p(s[0]) then [s[0]] else []) + Filter(s[1..], p)
  }

  lemma {:induction false} FilterAppend<T>(s: seq<T>, t: seq<T>, p: T -> bool)
    ensures Filter(s + t, p) == Filter(s, p) + Filter(t, p)
  {
    if s == [] {
      assert s + t == t;
    } else {
      assert (s + t)[1..] == s[1..] + t && (s + t)[0] == s[0];
      FilterAppend(s[1..], t, p);
      var head := if p(s[0]) then [s[0]] else [];
      assert head + (Filter(s[1..], p) + Filter(t, p)) == (head + Filter(s[1..], p)) + Filter(t, p);
    }
  }

  lemma {:induction false} FilterMember<T>(s: seq<T>, p: T -> bool, x: T)
    ensures x in Filter(s, p) <==> x in s && p(x)
  {
    if s != [] {
      assert x in s <==> x == s[0] || x in s[1..];
      FilterMember(s[1..], p, x);
    }
  }

  /** The places of the elements that satisfy `p`. */
  ghost function Places<T>(s: seq<T>, p: T -> bool): set<nat> { set i: nat | i < |s| && p(s[i]) }

  lemma {:induction false} PlacesSnoc<T>(s: seq<T>, x: T, p: T -> bool)
    ensures |Places(s + [x], p)| == |Places(s, p)| + (if p(x) then 1 else 0)
  {
    assert Places(s + [x], p) == Places(s, p) + (if p(x) then {|s|} else {});
  }

  lemma {:induction false} NoPlaces<T>(p: T -> bool)
    ensures |Places([], p)| == 0
  {
    assert Places([], p) == {};
  }

  lemma {:induction false} FilterPlaces<T>(s: seq<T>, p: T -> bool)
    ensures |Filter(s, p)| == |Places(s, p)|
  {
    if s == [] {
      NoPlaces(p);
    } else {
      var front, last := s[..|s| - 1], s[|s| - 1];
      assert s == front + [last];
      FilterPlaces(front, p);
      FilterAppend(front, [last], p);
      assert [last][1..] == [];
      PlacesSnoc(front, last, p);
    }
  }

  /** Two sets that correspond one to one are equally large. */
  lemma {:induction false} SameSize<A, B>(a: set<A>, b: set<B>, f: map<A, B>)
    requires f.Keys == a && f.Values == b
    requires forall x, y :: x in a && y in a && f[x] == f[y] ==> x == y
    ensures |a| == |b|
  {
    if a == {} {
      assert b == {};
    } else {
      var x :| x in a;
      var g := map y | y in a && y != x :: f[y];
      assert g.Values == b - {f[x]} by {
        forall v ensures v in g.Values <==> v in b - {f[x]} {
          if v in b - {f[x]} {
            var y :| y in f && f[y] == v;
            assert y in g && g[y] == v;
          }
        }
      }
      SameSize(a - {x}, b - {f[x]}, g);
    }
  }

  /** The concatenation of a sequence of sequences. */
  function Flatten<T>(parts: seq<seq<T>>): seq<T> {
    if parts == [] then [] else parts[0] + Flatten(parts[1..])
  }

  lemma {:induction false} FlattenAppend<T>(a: seq<seq<T>>, b: seq<seq<T>>)
    ensures Flatten(a + b) == Flatten(a) + Flatten(b)
  {
    if a == [] {
      assert a + b == b;
    } else {
      assert (a + b)[1..] == a[1..] + b;
      FlattenAppend(a[1..], b);
    }
  }

  lemma {:induction false} FlattenSnoc<T>(a: seq<seq<T>>, x: seq<T>)
    ensures Flatten(a + [x]) == Flatten(a) + x
  {
    FlattenAppend(a, [x]);
    assert Flatten([x]) == x + Flatten([x][1..]);
  }

  /** The left fold of `step` over `es`, last element outermost. */
  function Fold<S, E>(init: S, step: (S, E) -> S, es: seq<E>): S {
    if es == [] then init else step(Fold(init, step, es[..|es| - 1]), es[|es| - 1])
  }

  lemma {:induction false} FoldSnoc<S, E>(init: S, step: (S, E) -> S, es: seq<E>, e: E)
    ensures Fold(init, step, es + [e]) == step(Fold(init, step, es), e)
  {
    assert (es + [e])[..|es|] == es;
  }

  lemma {:induction false} FoldConcat<S, E>(init: S, step: (S, E) -> S, a: seq<E>, b: seq<E>)
    ensures Fold(init, step, a + b) == Fold(Fold(init, step, a), step, b)
  {
    if b == [] {
      assert a + b == a;
    } else {
      var front := b[..|b| - 1];
      assert (a + b)[..|a + b| - 1] == a + front;
      FoldConcat(init, step, a, front);
    }
  }
}
