/** Where a step function can lead from one state. */
module Reach {
  function RunOn<S, A>(step: (S, A) -> S, s: S, more: seq<A>): S {
    if more == [] then s else step(RunOn(step, s, more[..|more| - 1]), more[|more| - 1])
  }

  lemma RunOnSnoc<S, A>(step: (S, A) -> S, s: S, more: seq<A>, a: A)
    ensures RunOn(step, s, more + [a]) == step(RunOn(step, s, more), a)
  {
    assert (more + [a])[..|more|] == more;
  }

  lemma {:induction false} RunOnJoins<S, A>(step: (S, A) -> S, s: S, first: seq<A>, second: seq<A>)
    ensures RunOn(step, s, first + second) == RunOn(step, RunOn(step, s, first), second)
  {
    if second == [] {
      assert first + second == first;
    } else {
      var front := second[..|second| - 1];
      RunOnJoins(step, s, first, front);
      RunOnSnoc(step, s, first + front, second[|second| - 1]);
      assert first + second == first + front + [second[|second| - 1]];
    }
  }

  /** Some actions lead from one state on to the other. */
  ghost predicate LeadsTo<S, A(!new)>(step: (S, A) -> S, s: S, s': S) {
    exists more :: RunOn(step, s, more) == s'
  }

  lemma LeadsNowhere<S, A(!new)>(step: (S, A) -> S, s: S)
    ensures LeadsTo(step, s, s)
  {
    assert RunOn(step, s, []) == s;
  }

  lemma StepLeads<S, A(!new)>(step: (S, A) -> S, s: S, a: A)
    ensures LeadsTo(step, s, step(s, a))
  {
    assert [a][..0] == [];
    assert RunOn(step, s, [a]) == step(s, a);
  }

  lemma LeadsJoin<S, A(!new)>(step: (S, A) -> S, s: S, s1: S, s2: S)
    requires LeadsTo(step, s, s1) && LeadsTo(step, s1, s2)
    ensures LeadsTo(step, s, s2)
  {
    var first :| RunOn(step, s, first) == s1;
    var second :| RunOn(step, s1, second) == s2;
    RunOnJoins(step, s, first, second);
  }
}
