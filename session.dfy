/** The session's list of analysed products and `remover_produtos`, which
    deletes the selected positions from it one at a time, largest first. */
module Session {
  import opened Report

  // ---------------------------------------------------------------- the survivors

  /** The elements of `s` whose positions, counting the first as `at`, are not
      in `gone`, in their order. */
  function KeepFrom<T>(s: seq<T>, gone: set<nat>, at: nat): seq<T>
    decreases |s|
  {
    if |s| == 0 then [] else (if at in gone then [] else [s[0]]) + KeepFrom(s[1..], gone, at + 1)
  }

  /** What is left of `s` once the positions in `gone` are removed. */
  function Survivors<T>(s: seq<T>, gone: set<nat>): seq<T> {
    KeepFrom(s, gone, 0)
  }

  lemma {:induction false} KeepConcat<T>(s: seq<T>, t: seq<T>, gone: set<nat>, at: nat)
    ensures KeepFrom(s + t, gone, at) == KeepFrom(s, gone, at) + KeepFrom(t, gone, at + |s|)
    decreases |s|
  {
    if |s| > 0 {
      assert (s + t)[1..] == s[1..] + t;
      KeepConcat(s[1..], t, gone, at + 1);
    } else {
      assert s + t == t;
    }
  }

  /** Only the positions the sequence covers matter. */
  lemma {:induction false} KeepSame<T>(s: seq<T>, g1: set<nat>, g2: set<nat>, at: nat)
    requires forall j :: at <= j < at + |s| ==> (j in g1 <==> j in g2)
    ensures KeepFrom(s, g1, at) == KeepFrom(s, g2, at)
    decreases |s|
  {
    if |s| > 0 {
      KeepSame(s[1..], g1, g2, at + 1);
    }
  }

  /** Nothing is removed where no position is gone. */
  lemma {:induction false} KeepAll<T>(s: seq<T>, gone: set<nat>, at: nat)
    requires forall j :: at <= j < at + |s| ==> j !in gone
    ensures KeepFrom(s, gone, at) == s
    decreases |s|
  {
    if |s| > 0 {
      KeepAll(s[1..], gone, at + 1);
    }
  }

  /** The survivors of `done` around a position `i` below all of `done`:
      everything up to `i` is kept, and removing `i` as well keeps the rest. */
  lemma SurvivorsAround<T>(s: seq<T>, done: set<nat>, i: nat)
    requires i < |s|
    requires forall d :: d in done ==> i < d
    ensures Survivors(s, done) == s[..i] + ([s[i]] + KeepFrom(s[i + 1..], done, i + 1))
    ensures Survivors(s, done + {i}) == s[..i] + KeepFrom(s[i + 1..], done, i + 1)
  {
    var rest := s[i + 1..];
    var u := [s[i]] + rest;
    var k := KeepFrom(rest, done, i + 1);
    assert s == s[..i] + u;
    assert [s[i]][1..] == [];
    assert Survivors(s, done) == s[..i] + KeepFrom(u, done, i) by {
      KeepConcat(s[..i], u, done, 0);
      KeepAll(s[..i], done, 0);
    }
    assert KeepFrom(u, done, i) == [s[i]] + k by {
      KeepConcat([s[i]], rest, done, i);
    }
    assert Survivors(s, done + {i}) == s[..i] + KeepFrom(u, done + {i}, i) by {
      KeepConcat(s[..i], u, done + {i}, 0);
      KeepAll(s[..i], done + {i}, 0);
    }
    assert KeepFrom(u, done + {i}, i) == k by {
      KeepConcat([s[i]], rest, done + {i}, i);
      KeepSame(rest, done, done + {i}, i + 1);
    }
  }

  /** Removing position `i` from the survivors of `done`, when every position
      of `done` lies above `i`, gives the survivors of `done` and `i`: `i` is
      still where it was, and the positions below it are untouched. */
  lemma DeleteBelow<T>(s: seq<T>, done: set<nat>, i: nat)
    requires i < |s|
    requires forall d :: d in done ==> i < d
    ensures var r := Survivors(s, done);
            && i < |r| && r[..i] == s[..i] && r[i] == s[i]
            && Survivors(s, done + {i}) == r[..i] + r[i + 1..]
  {
    SurvivorsAround(s, done, i);
    var k := KeepFrom(s[i + 1..], done, i + 1);
    var r := s[..i] + ([s[i]] + k);
    assert r[..i] == s[..i] && r[i + 1..] == k;
  }

  /** One deletion of the loop in `remover_produtos`. */
  lemma DeleteStep<T>(s: seq<T>, done: set<nat>, i: nat, current: seq<T>)
    requires i < |s| && current == Survivors(s, done)
    requires forall d :: d in done ==> i < d
    ensures i < |current| && current[..i] + current[i + 1..] == Survivors(s, done + {i})
  {
    DeleteBelow(s, done, i);
  }

  /** The least element of a finite non-empty set of positions. */
  lemma Least(g: set<nat>) returns (m: nat)
    requires g != {}
    ensures m in g && forall d :: d in g ==> m <= d
    decreases |g|
  {
    var x :| x in g;
    var rest := g - {x};
    assert forall d :: d in g ==> d == x || d in rest;
    m := x;
    if rest != {} {
      var lo := Least(rest);
      if lo < x {
        m := lo;
      }
    }
  }

  /** The largest element of a finite non-empty set of positions. */
  lemma Largest(g: set<nat>) returns (m: nat)
    requires g != {}
    ensures m in g && forall d :: d in g ==> d <= m
    decreases |g|
  {
    var x :| x in g;
    var rest := g - {x};
    assert forall d :: d in g ==> d == x || d in rest;
    m := x;
    if rest != {} {
      var hi := Largest(rest);
      if x < hi {
        m := hi;
      }
    }
  }

  /** The list shrinks by exactly the number of positions removed. */
  lemma SurvivorsLength<T>(s: seq<T>, gone: set<nat>)
    requires forall d :: d in gone ==> d < |s|
    ensures |Survivors(s, gone)| == |s| - |gone|
    decreases |gone|
  {
    if gone == {} {
      KeepAll(s, gone, 0);
    } else {
      var m := Least(gone);
      var above := gone - {m};
      assert forall d :: d in above ==> m < d;
      SurvivorsLength(s, above);
      DeleteBelow(s, above, m);
      assert above + {m} == gone;
    }
  }

  /** An element survives exactly when it sits at a position not removed. */
  lemma {:induction false} KeepMember<T>(s: seq<T>, gone: set<nat>, at: nat, x: T)
    ensures x in KeepFrom(s, gone, at) <==> exists i :: 0 <= i < |s| && at + i !in gone && s[i] == x
    decreases |s|
  {
    if |s| > 0 {
      KeepMember(s[1..], gone, at + 1, x);
      if exists i :: 0 <= i < |s| && at + i !in gone && s[i] == x {
        var i :| 0 <= i < |s| && at + i !in gone && s[i] == x;
        if i > 0 {
          assert s[1..][i - 1] == x;
        }
      }
      if exists i :: 0 <= i < |s[1..]| && at + 1 + i !in gone && s[1..][i] == x {
        var i :| 0 <= i < |s[1..]| && at + 1 + i !in gone && s[1..][i] == x;
        assert s[i + 1] == x;
      }
    }
  }

  lemma SurvivorsMember<T>(s: seq<T>, gone: set<nat>, x: T)
    ensures x in Survivors(s, gone) <==> exists i :: 0 <= i < |s| && i !in gone && s[i] == x
  {
    KeepMember(s, gone, 0, x);
  }

  /** Two surviving elements keep their relative order. */
  lemma SurvivorsOrder<T>(s: seq<T>, gone: set<nat>, i: nat, j: nat)
    requires i < j < |s| && i !in gone && j !in gone
    ensures exists p, q :: 0 <= p < q < |Survivors(s, gone)|
                           && Survivors(s, gone)[p] == s[i] && Survivors(s, gone)[q] == s[j]
  {
    var a, b, c := s[..i], s[i..j], s[j..];
    assert s == a + (b + c);
    KeepConcat(a, b + c, gone, 0);
    KeepConcat(b, c, gone, i);
    assert b == [s[i]] + b[1..];
    KeepConcat([s[i]], b[1..], gone, i);
    assert c == [s[j]] + c[1..];
    KeepConcat([s[j]], c[1..], gone, j);
    assert [s[i]][1..] == [] && [s[j]][1..] == [];
    var ka, kb, kc := KeepFrom(a, gone, 0), KeepFrom(b[1..], gone, i + 1), KeepFrom(c[1..], gone, j + 1);
    var r := Survivors(s, gone);
    assert r == ka + (([s[i]] + kb) + ([s[j]] + kc));
    var p, q := |ka|, |ka| + 1 + |kb|;
    assert r[p] == s[i] && r[q] == s[j];
  }

  predicate Separated(low: set<nat>, high: set<nat>) {
    forall r, d :: r in low && d in high ==> r < d
  }

  // ---------------------------------------------------------------- the session's list

  /** `st.session_state.produtos`. */
  class ProductList {
    var products: seq<Product>

    constructor()
      ensures products == []
    {
      products := [];
    }

    /** `remover_produtos`: with nothing selected it only warns; otherwise it
        deletes the selected positions, largest first, so that every deletion
        leaves the positions still to be deleted where they were. */
    method RemoveProducts(selected: set<nat>) returns (warned: bool)
      requires forall d :: d in selected ==> d < |products|
      modifies this
      ensures warned <==> selected == {}
      ensures products == Survivors(old(products), selected)
      ensures |products| == |old(products)| - |selected|
    {
      ghost var original := products;
      SurvivorsLength(original, selected);
      if selected == {} {
        KeepAll(products, selected, 0);
        return true;
      }
      var remaining := selected;
      ghost var done: set<nat> := {};
      KeepAll(products, done, 0);
      while remaining != {}
        invariant remaining + done == selected && remaining * done == {}
        invariant Separated(remaining, done)
        invariant products == Survivors(original, done)
        decreases |remaining|
      {
        ghost var top := Largest(remaining);
        var i :| i in remaining && forall d :: d in remaining ==> d <= i;
        DeleteStep(original, done, i, products);
        products := products[..i] + products[i + 1..];
        remaining := remaining - {i};
        done := done + {i};
      }
      assert done == selected;
      warned := false;
    }
  }
}
