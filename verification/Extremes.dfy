/** What the members of a set of transactions that raise a scope, or lower it, come to. */
module Extremes {
  import opened RemoteGl

  function Raising(lines: seq<Line>, txns: set<nat>, scope: Scope): set<nat> {
    set t | t in txns && Net(lines, Of({t}, scope)) > 0.0
  }

  function Lowering(lines: seq<Line>, txns: set<nat>, scope: Scope): set<nat> {
    set t | t in txns && Net(lines, Of({t}, scope)) < 0.0
  }

  lemma {:induction false} NoneRaises(lines: seq<Line>, txns: set<nat>, scope: Scope)
    requires Raising(lines, txns, scope) == {}
    ensures Net(lines, Of(txns, scope)) <= 0.0
    decreases |txns|
  {
    if txns == {} {
      OfNone(lines, scope);
    } else {
      var t :| t in txns;
      assert t !in Raising(lines, txns, scope);
      assert Raising(lines, txns - {t}, scope) <= Raising(lines, txns, scope);
      NoneRaises(lines, txns - {t}, scope);
      OfSplit(lines, {t}, txns - {t}, scope);
      assert {t} + (txns - {t}) == txns;
    }
  }

  lemma {:induction false} NoneLowers(lines: seq<Line>, txns: set<nat>, scope: Scope)
    requires Lowering(lines, txns, scope) == {}
    ensures Net(lines, Of(txns, scope)) >= 0.0
    decreases |txns|
  {
    if txns == {} {
      OfNone(lines, scope);
    } else {
      var t :| t in txns;
      assert t !in Lowering(lines, txns, scope);
      assert Lowering(lines, txns - {t}, scope) <= Lowering(lines, txns, scope);
      NoneLowers(lines, txns - {t}, scope);
      OfSplit(lines, {t}, txns - {t}, scope);
      assert {t} + (txns - {t}) == txns;
    }
  }

  /** No choice among them comes to more than those that raise, or to less than those that lower. */
  lemma Between(lines: seq<Line>, txns: set<nat>, some: set<nat>, scope: Scope)
    requires some <= txns
    ensures Net(lines, Of(Lowering(lines, txns, scope), scope)) <= Net(lines, Of(some, scope))
    ensures Net(lines, Of(some, scope)) <= Net(lines, Of(Raising(lines, txns, scope), scope))
  {
    AtMost(lines, some, Raising(lines, txns, scope), scope);
    AtLeast(lines, some, Lowering(lines, txns, scope), scope);
  }

  lemma AtMost(lines: seq<Line>, some: set<nat>, raising: set<nat>, scope: Scope)
    requires forall t :: t in some && Net(lines, Of({t}, scope)) > 0.0 ==> t in raising
    requires forall t :: t in raising ==> Net(lines, Of({t}, scope)) > 0.0
    ensures Net(lines, Of(some, scope)) <= Net(lines, Of(raising, scope))
  {
    OfSplit(lines, some * raising, some - raising, scope);
    OfSplit(lines, some * raising, raising - some, scope);
    assert some * raising + (some - raising) == some && some * raising + (raising - some) == raising;
    assert Raising(lines, some - raising, scope) == {} && Lowering(lines, raising - some, scope) == {};
    NoneRaises(lines, some - raising, scope);
    NoneLowers(lines, raising - some, scope);
  }

  lemma AtLeast(lines: seq<Line>, some: set<nat>, lowering: set<nat>, scope: Scope)
    requires forall t :: t in some && Net(lines, Of({t}, scope)) < 0.0 ==> t in lowering
    requires forall t :: t in lowering ==> Net(lines, Of({t}, scope)) < 0.0
    ensures Net(lines, Of(some, scope)) >= Net(lines, Of(lowering, scope))
  {
    OfSplit(lines, some * lowering, some - lowering, scope);
    OfSplit(lines, some * lowering, lowering - some, scope);
    assert some * lowering + (some - lowering) == some && some * lowering + (lowering - some) == lowering;
    assert Lowering(lines, some - lowering, scope) == {} && Raising(lines, lowering - some, scope) == {};
    NoneLowers(lines, some - lowering, scope);
    NoneRaises(lines, lowering - some, scope);
  }
}
