/** What several parts of the program share. */
module Wrappers {
  datatype Option<+T> = None | Some(value: T)
}

module Sequences {
  lemma Assoc<T>(a: seq<T>, b: seq<T>, c: seq<T>) ensures a + b + c == a + (b + c) {}

  /** `out` is those elements of `all` that satisfy `f`, in order: `at` says where each was. */
  ghost predicate PickedAt<T(!new)>(f: T -> bool, all: seq<T>, out: seq<T>, at: seq<nat>) {
    && |at| == |out| && Ascend(at)
    && (forall k | 0 <= k < |at| :: at[k] < |all| && out[k] == all[at[k]])
    && (forall i | 0 <= i < |all| :: f(all[i]) <==> i in at)
  }

  predicate Ascend(at: seq<nat>) { forall k, m | 0 <= k < m < |at| :: at[k] < at[m] }

  ghost predicate Picks<T(!new)>(f: T -> bool, all: seq<T>, out: seq<T>) { exists at :: PickedAt(f, all, out, at) }

  lemma PicksNone<T(!new)>(f: T -> bool)
    ensures Picks(f, [], [])
  {
    assert PickedAt(f, [], [], []);
  }

  lemma PicksNext<T(!new)>(f: T -> bool, all: seq<T>, out: seq<T>, x: T)
    requires Picks(f, all, out)
    ensures Picks(f, all + [x], out + if f(x) then [x] else [])
  {
    var at: seq<nat> :| PickedAt(f, all, out, at);
    if f(x) {
      var more: seq<nat> := at + [|all|];
      assert forall i :: i in more <==> i in at || i == |all|;
      assert PickedAt(f, all + [x], out + [x], more);
    } else {
      assert |all| !in at;
      assert PickedAt(f, all + [x], out, at) && out + [] == out;
    }
  }

  lemma PicksSame<T(!new)>(f: T -> bool, g: T -> bool, all: seq<T>, out: seq<T>)
    requires Picks(f, all, out) && forall i | 0 <= i < |all| :: f(all[i]) == g(all[i])
    ensures Picks(g, all, out)
  {
    var at: seq<nat> :| PickedAt(f, all, out, at);
    assert PickedAt(g, all, out, at);
  }

  /** The same places with one more element before them. */
  lemma Shifted(at: seq<nat>) returns (later: seq<nat>)
    ensures |later| == |at| && (Ascend(at) ==> Ascend(later)) && 0 !in later
    ensures forall k | 0 <= k < |at| :: later[k] == at[k] + 1
    ensures forall i: nat :: i + 1 in later <==> i in at
  {
    later := seq(|at|, k requires 0 <= k < |at| => at[k] + 1);
    forall i: nat ensures i + 1 in later <==> i in at {
      if k :| 0 <= k < |at| && at[k] == i { assert later[k] == i + 1; }
    }
  }

  lemma PicksFirst<T(!new)>(f: T -> bool, x: T, all: seq<T>, out: seq<T>)
    requires Picks(f, all, out)
    ensures Picks(f, [x] + all, (if f(x) then [x] else []) + out)
  {
    var at: seq<nat> :| PickedAt(f, all, out, at);
    var later := Shifted(at);
    if f(x) { FirstIn(f, x, all, out, at, later); } else { FirstOut(f, x, all, out, at, later); }
  }

  lemma FirstOut<T(!new)>(f: T -> bool, x: T, all: seq<T>, out: seq<T>, at: seq<nat>, later: seq<nat>)
    requires PickedAt(f, all, out, at) && !f(x) && |later| == |at| && Ascend(later) && 0 !in later
    requires forall k | 0 <= k < |at| :: later[k] == at[k] + 1
    requires forall i: nat :: i + 1 in later <==> i in at
    ensures Picks(f, [x] + all, [] + out)
  {
    var whole := [x] + all;
    assert [] + out == out;
    forall i | 0 <= i < |whole| ensures f(whole[i]) <==> i in later {
      if i > 0 { assert i - 1 in at <==> (i - 1) + 1 in later; }
    }
    assert PickedAt(f, whole, out, later);
  }

  lemma FirstIn<T(!new)>(f: T -> bool, x: T, all: seq<T>, out: seq<T>, at: seq<nat>, later: seq<nat>)
    requires PickedAt(f, all, out, at) && f(x) && |later| == |at| && Ascend(later) && 0 !in later
    requires forall k | 0 <= k < |at| :: later[k] == at[k] + 1
    requires forall i: nat :: i + 1 in later <==> i in at
    ensures Picks(f, [x] + all, [x] + out)
  {
    var whole, more: seq<nat> := [x] + all, [0] + later;
    forall k | 0 <= k < |more| ensures more[k] < |whole| && ([x] + out)[k] == whole[more[k]] {
      if k > 0 { assert more[k] == later[k - 1]; }
    }
    forall i | 0 <= i < |whole| ensures f(whole[i]) <==> i in more {
      InCons(0, later, i);
      if i > 0 { assert i - 1 in at <==> (i - 1) + 1 in later; }
    }
    AscendCons(later);
    assert PickedAt(f, whole, [x] + out, more);
  }

  lemma InCons<T>(x: T, s: seq<T>, y: T) ensures y in [x] + s <==> y == x || y in s {}

  lemma AscendCons(later: seq<nat>)
    requires Ascend(later) && 0 !in later
    ensures Ascend([0] + later)
  {
    var more: seq<nat> := [0] + later;
    forall k, m | 0 <= k < m < |more| ensures more[k] < more[m] {
      assert more[m] == later[m - 1] && later[m - 1] in later;
      if k > 0 { assert more[k] == later[k - 1]; }
    }
  }
}

module Exponents {
  function Pow2(k: nat): nat { if k == 0 then 1 else 2 * Pow2(k - 1) }

  function Pow256(n: nat): (p: nat)
    ensures p > 0
  {
    if n == 0 then 1 else 256 * Pow256(n - 1)
  }
}

/** The types of columns and the comparisons of SQL (src/record.hpp, src/ast.hpp). */
module SqlTypes {
  datatype ColType = Int64 | Int32 | Bool | Text | Double

  datatype Op = Eq | Ne | Lt | Le | Gt | Ge
}
