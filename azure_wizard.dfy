/** The wizard runner `AzureWizard<T>` (ui/src/wizard/AzureWizard.ts): a
    prompt phase that runs the prompt steps in order, prompting each sub-wizard
    a step exposes as soon as it is exposed, and an execute phase that runs the
    sub-wizards found so far and then the execute steps. The context `T` is
    threaded through the steps and held by the wizard between calls. */
module Wizard {
  import opened Wrappers

  /** A prompt step, seen only through what the runner uses of it: its class
      name, its `prompt` (the context it returns, `None` when it throws), and
      its `subWizard` property as read once `prompt` has returned, written as a
      function of the context `prompt` returned. */
  datatype PromptStep<!T(!new)> = PromptStep(
    name: string,
    prompt: T -> Option<T>,
    subWizard: T -> Option<AzureWizard<T>>)

  /** An execute step: its class name and its `execute` (`None` when it throws). */
  datatype ExecuteStep<!T(!new)> = ExecuteStep(name: string, execute: T -> Option<T>)

  /** What a call leaves behind, in order. A sub-wizard's call appears as one
      event holding that call's own trace. */
  datatype Event<T(!new)> =
    | LastStepAttempted(tag: string)          // a write to `properties.lastStepAttempted`
    | PromptInvoked(step: string, input: T)   // `step.prompt(input, ui)` is called
    | ExecuteInvoked(step: string, input: T)  // `step.execute(input, outputChannel)` is called
    | SubWizardPrompted(wizard: AzureWizard<T>, trace: seq<Event<T>>)
    | SubWizardExecuted(wizard: AzureWizard<T>, trace: seq<Event<T>>)
    | OutputShown                             // `outputChannel.show(true)`

  /** How a sub-wizard's call ended (`ok` is false when it threw) and its
      trace; for a call that was made, `origin` records what it started from. */
  datatype SubRun<T(!new)> = SubRun(ok: bool, trace: seq<Event<T>>, origin: Option<Origin<T>>)

  /** The context and `subWizards` list a sub-wizard held when it was called,
      how the calls on its own sub-wizards went, and what it held afterwards. */
  datatype Origin<T(!new)> = Origin(context: T, subWizards: seq<AzureWizard<T>>, subs: seq<SubRun<T>>, end: Held<T>)

  /** The state a wizard holds between calls: its context and `subWizards`. */
  datatype Held<T(!new)> = Held(context: T, subWizards: seq<AzureWizard<T>>)

  /** A call a phase made on one of the wizard's sub-wizards. */
  datatype Visit<T(!new)> = Visit(wizard: AzureWizard<T>, sub: SubRun<T>)

  /** A wizard's state part-way through a call: the context it holds, its
      `subWizards` list, the trace so far, and whether nothing has thrown. */
  datatype Run<T(!new)> = Run(context: T, subWizards: seq<AzureWizard<T>>, trace: seq<Event<T>>, ok: bool)

  /** All the objects the wizards in `ws` are made of. */
  ghost function ReprUnion<T(!new)>(ws: set<AzureWizard<T>>): (r: set<object>)
    ensures forall w :: w in ws ==> w.Repr <= r
  {
    set w, o | w in ws && o in w.Repr :: o
  }

  /** Stand-ins for the outcomes of sub-wizards a phase never reached. */
  function Unvisited<T(!new)>(n: nat): (r: seq<SubRun<T>>)
    ensures |r| == n
  {
    seq(n, _ => SubRun(true, [], None))
  }

  // ---------------------------------------------------------------------------
  // The specification of the two phases, as left folds over the steps
  // ---------------------------------------------------------------------------

  /** One turn of the prompt loop (lines 25-31): record the step's tag, call
      its prompt on the held context and hold what it returns; when the step
      then exposes a sub-wizard, append it and prompt it (with outcome `sub`). */
  function PromptTurn<T(!new)>(step: PromptStep<T>, before: Run<T>, sub: SubRun<T>): Run<T> {
    var tried := before.trace + [LastStepAttempted("prompt-" + step.name), PromptInvoked(step.name, before.context)];
    match step.prompt(before.context)
    case None => Run(before.context, before.subWizards, tried, false)
    case Some(next) =>
      match step.subWizard(next)
      case None => Run(next, before.subWizards, tried, true)
      case Some(w) => Run(next, before.subWizards + [w], tried + [SubWizardPrompted(w, sub.trace)], sub.ok)
  }

  /** The prompt loop (lines 24-32) over `steps` from the state `init`;
      `subs[i]` is the outcome of the sub-wizard step `i` exposes, if any.
      Once something has thrown, the remaining turns change nothing. */
  function PromptRun<T(!new)>(steps: seq<PromptStep<T>>, init: Run<T>, subs: seq<SubRun<T>>): Run<T>
    requires |subs| == |steps|
    decreases |steps|
  {
    if steps == [] then init
    else
      var n := |steps| - 1;
      var before := PromptRun(steps[..n], init, subs[..n]);
      if before.ok then PromptTurn(steps[n], before, subs[n]) else before
  }

  /** The first loop of `execute` (lines 40-42): the sub-wizards' `execute`
      in order, the outcome of the `i`th being `subs[i]`. */
  function SubExecuteRun<T(!new)>(wizards: seq<AzureWizard<T>>, init: Run<T>, subs: seq<SubRun<T>>): Run<T>
    requires |subs| == |wizards|
    decreases |wizards|
  {
    if wizards == [] then init
    else
      var n := |wizards| - 1;
      var before := SubExecuteRun(wizards[..n], init, subs[..n]);
      if before.ok then
        Run(before.context, before.subWizards, before.trace + [SubWizardExecuted(wizards[n], subs[n].trace)], subs[n].ok)
      else before
  }

  /** One turn of the second loop of `execute` (lines 45-46): record the
      step's tag, call its `execute` on the held context and hold the result. */
  function ExecuteTurn<T(!new)>(step: ExecuteStep<T>, before: Run<T>): Run<T> {
    var tried := before.trace + [LastStepAttempted("execute-" + step.name), ExecuteInvoked(step.name, before.context)];
    match step.execute(before.context)
    case None => Run(before.context, before.subWizards, tried, false)
    case Some(next) => Run(next, before.subWizards, tried, true)
  }

  /** The second loop of `execute` (lines 44-47) from the state `init`. */
  function ExecuteStepsRun<T(!new)>(steps: seq<ExecuteStep<T>>, init: Run<T>): Run<T>
    decreases |steps|
  {
    if steps == [] then init
    else
      var n := |steps| - 1;
      var before := ExecuteStepsRun(steps[..n], init);
      if before.ok then ExecuteTurn(steps[n], before) else before
  }

  /** `execute` (lines 37-50) on a wizard holding `start` and `subWizards`:
      show the output channel, run the sub-wizards, then the own steps. */
  function ExecuteRun<T(!new)>(subWizards: seq<AzureWizard<T>>, subs: seq<SubRun<T>>, steps: seq<ExecuteStep<T>>, start: T): Run<T>
    requires |subs| == |subWizards|
  {
    ExecuteStepsRun(steps, SubExecuteRun(subWizards, Run(start, subWizards, [OutputShown], true), subs))
  }

  // ---------------------------------------------------------------------------
  // Which recorded sub-wizard outcomes are real calls
  // ---------------------------------------------------------------------------

  /** `sub` is what `w.prompt` did: from the recorded start, `w`'s prompt steps
      ran as `PromptRun` says and left `w` holding the recorded end, and every
      sub-wizard prompted on the way did the same. */
  ghost predicate PromptedBy<T(!new)>(w: AzureWizard<T>, sub: SubRun<T>)
    decreases w.depth, 2
  {
    && sub.origin.Some?
    && var o := sub.origin.value;
       var init := Run(o.context, o.subWizards, [], true);
       && |o.subs| == |w.promptSteps|
       && PromptRun(w.promptSteps, init, o.subs).trace == sub.trace
       && PromptRun(w.promptSteps, init, o.subs).ok == sub.ok
       && o.end == Held(PromptRun(w.promptSteps, init, o.subs).context, PromptRun(w.promptSteps, init, o.subs).subWizards)
       && PromptSubsReal(w, w.promptSteps, init, o.subs)
  }

  /** Each turn of `w`'s prompt loop over `steps` that was reached and exposed
      a sub-wizard has as its outcome in `subs` a real prompt of that
      sub-wizard. */
  ghost predicate PromptSubsReal<T(!new)>(w: AzureWizard<T>, steps: seq<PromptStep<T>>, init: Run<T>, subs: seq<SubRun<T>>)
    requires |subs| == |steps|
    decreases w.depth, 1
  {
    forall j :: 0 <= j < |steps| && PromptRun(steps[..j], init, subs[..j]).ok
                ==> PromptTurnReal(w, steps[j], PromptRun(steps[..j], init, subs[..j]), subs[j])
  }

  /** When `step` exposes a sub-wizard of `w` from `before`, `sub` is a real
      prompt of it. */
  ghost predicate PromptTurnReal<T(!new)>(w: AzureWizard<T>, step: PromptStep<T>, before: Run<T>, sub: SubRun<T>)
    decreases w.depth, 0
  {
    match step.prompt(before.context)
    case None => true
    case Some(next) =>
      match step.subWizard(next)
      case None => true
      case Some(v) => v.depth < w.depth && PromptedBy(v, sub)
  }

  /** `sub` is what `w.execute` did: from the recorded start, `w` ran as
      `ExecuteRun` says and was left holding the recorded end, and every
      sub-wizard executed on the way did the same. */
  ghost predicate ExecutedBy<T(!new)>(w: AzureWizard<T>, sub: SubRun<T>)
    decreases w.depth, 2
  {
    && sub.origin.Some?
    && var o := sub.origin.value;
       && |o.subs| == |o.subWizards|
       && ExecuteRun(o.subWizards, o.subs, w.executeSteps, o.context).trace == sub.trace
       && ExecuteRun(o.subWizards, o.subs, w.executeSteps, o.context).ok == sub.ok
       && o.end == Held(ExecuteRun(o.subWizards, o.subs, w.executeSteps, o.context).context, o.subWizards)
       && ExecuteSubsReal(w, o.subWizards, Run(o.context, o.subWizards, [OutputShown], true), o.subs)
  }

  /** Each sub-wizard of `w` that the loop over `wizards` reached has as its
      outcome in `subs` a real execute of it. */
  ghost predicate ExecuteSubsReal<T(!new)>(w: AzureWizard<T>, wizards: seq<AzureWizard<T>>, init: Run<T>, subs: seq<SubRun<T>>)
    requires |subs| == |wizards|
    decreases w.depth, 1
  {
    forall j :: 0 <= j < |wizards| && SubExecuteRun(wizards[..j], init, subs[..j]).ok
                ==> wizards[j].depth < w.depth && ExecutedBy(wizards[j], subs[j])
  }

  /** The value `lastStepAttempted` has after the writes recorded in `trace`,
      starting from `before`. */
  function LastTag<T(!new)>(trace: seq<Event<T>>, before: string): string
    decreases trace
  {
    if trace == [] then before
    else
      var sofar := LastTag(trace[..|trace| - 1], before);
      match trace[|trace| - 1]
      case LastStepAttempted(tag) => tag
      case SubWizardPrompted(_, sub) => LastTag(sub, sofar)
      case SubWizardExecuted(_, sub) => LastTag(sub, sofar)
      case _ => sofar
  }

  // ---------------------------------------------------------------------------
  // Which sub-wizards a phase calls, and the states they go through
  // ---------------------------------------------------------------------------

  /** The sub-wizard call one prompt turn makes: on the sub-wizard the step
      exposes, if its `prompt` returned and it exposes one. */
  function TurnVisits<T(!new)>(step: PromptStep<T>, before: Run<T>, sub: SubRun<T>): seq<Visit<T>> {
    match step.prompt(before.context)
    case None => []
    case Some(next) =>
      match step.subWizard(next)
      case None => []
      case Some(w) => [Visit(w, sub)]
  }

  /** The sub-wizard calls of the prompt loop over `steps`, in order: those of
      the turns reached before anything threw. */
  function PromptVisits<T(!new)>(steps: seq<PromptStep<T>>, init: Run<T>, subs: seq<SubRun<T>>): seq<Visit<T>>
    requires |subs| == |steps|
    decreases |steps|
  {
    if steps == [] then []
    else
      var n := |steps| - 1;
      var before := PromptRun(steps[..n], init, subs[..n]);
      PromptVisits(steps[..n], init, subs[..n]) + if before.ok then TurnVisits(steps[n], before, subs[n]) else []
  }

  /** The sub-wizard calls of the first loop of `execute`, in order: one per
      sub-wizard reached before one threw. */
  function ExecuteVisits<T(!new)>(wizards: seq<AzureWizard<T>>, init: Run<T>, subs: seq<SubRun<T>>): seq<Visit<T>>
    requires |subs| == |wizards|
    decreases |wizards|
  {
    if wizards == [] then []
    else
      var n := |wizards| - 1;
      var before := SubExecuteRun(wizards[..n], init, subs[..n]);
      ExecuteVisits(wizards[..n], init, subs[..n]) + if before.ok then [Visit(wizards[n], subs[n])] else []
  }

  /** The wizards `visits` calls. */
  ghost function Visited<T(!new)>(visits: seq<Visit<T>>): set<AzureWizard<T>> {
    set k | 0 <= k < |visits| :: visits[k].wizard
  }

  /** What `v` holds after the calls in `visits`, having held `h` before them:
      what its last call left, or `h` when none was on `v`. */
  function HeldAfter<T(!new)>(visits: seq<Visit<T>>, v: AzureWizard<T>, h: Held<T>): Held<T>
    decreases |visits|
  {
    if visits == [] then h
    else
      var n := |visits| - 1;
      if visits[n].wizard == v && visits[n].sub.origin.Some? then visits[n].sub.origin.value.end
      else HeldAfter(visits[..n], v, h)
  }

  /** Each call on `v` in `visits` started from what `v` held at that point:
      `h` for the first, and what the one before left for the others. */
  ghost predicate Chained<T(!new)>(visits: seq<Visit<T>>, v: AzureWizard<T>, h: Held<T>) {
    forall j :: 0 <= j < |visits| && visits[j].wizard == v ==>
      && visits[j].sub.origin.Some?
      && Held(visits[j].sub.origin.value.context, visits[j].sub.origin.value.subWizards) == HeldAfter(visits[..j], v, h)
  }

  /** The wizards in `before` went through `visits` from the states `before`
      records to those `after` records. */
  ghost predicate StatesChain<T(!new)>(before: map<AzureWizard<T>, Held<T>>, visits: seq<Visit<T>>, after: map<AzureWizard<T>, Held<T>>) {
    && before.Keys == after.Keys
    && forall v :: v in before ==> Chained(visits, v, before[v]) && after[v] == HeldAfter(visits, v, before[v])
  }

  // ---------------------------------------------------------------------------
  // The runner
  // ---------------------------------------------------------------------------

  /** The action context's `properties` bag, reduced to the field the runner
      writes. */
  class ActionContext {
    var lastStepAttempted: string

    constructor ()
      ensures lastStepAttempted == ""
    {
      lastStepAttempted := "";
    }
  }

  class AzureWizard<T(!new)> {
    const promptSteps: seq<PromptStep<T>>
    const executeSteps: seq<ExecuteStep<T>>
    var subWizards: seq<AzureWizard<T>>
    var context: T

    /** The sub-wizards the prompt steps may expose, the objects this wizard
        and they are made of, and a bound on how deeply they nest. */
    ghost const offered: set<AzureWizard<T>>
    ghost const Repr: set<object>
    ghost const depth: nat

    /** The fixed shape: the offered sub-wizards are nested strictly below this
        one, own disjoint parts of it, and include every sub-wizard a prompt
        step can expose. */
    ghost predicate Shaped() {
      && this in Repr
      && (forall w :: w in offered ==> w in w.Repr && w.Repr <= Repr && this !in w.Repr && w.depth < depth)
      && (forall w, w' :: w in offered && w' in offered && w != w' ==> w.Repr !! w'.Repr)
      && (forall i, c :: 0 <= i < |promptSteps| && promptSteps[i].subWizard(c).Some?
                         ==> promptSteps[i].subWizard(c).value in offered)
    }

    ghost predicate Valid()
      reads this, Repr
      decreases depth, 1
    {
      && Shaped()
      && (forall w :: w in subWizards ==> w in offered)
      && OfferedValid()
    }

    /** Every offered sub-wizard is valid; this reads none of this wizard's
        own fields. */
    ghost predicate OfferedValid()
      reads Repr - {this}
      decreases depth, 0
    {
      Shaped() && forall w :: w in offered ==> w.Valid()
    }

    /** What each sub-wizard this one offers holds now. */
    ghost function HeldNow(): (r: map<AzureWizard<T>, Held<T>>)
      reads offered
      ensures r.Keys == offered
    {
      map v | v in offered :: Held(v.context, v.subWizards)
    }

    constructor (promptSteps: seq<PromptStep<T>>, executeSteps: seq<ExecuteStep<T>>, wizardContext: T,
                 ghost offered: set<AzureWizard<T>>, ghost depth: nat)
      requires forall w :: w in offered ==> w.Valid() && w.depth < depth
      requires forall w, w' :: w in offered && w' in offered && w != w' ==> w.Repr !! w'.Repr
      requires forall i, c :: 0 <= i < |promptSteps| && promptSteps[i].subWizard(c).Some?
                              ==> promptSteps[i].subWizard(c).value in offered
      ensures Valid()
      ensures this.promptSteps == promptSteps && this.executeSteps == executeSteps
      ensures context == wizardContext && subWizards == []
    {
      this.promptSteps := promptSteps;
      this.executeSteps := executeSteps;
      context := wizardContext;
      subWizards := [];
      this.offered := offered;
      this.depth := depth;
      Repr := {this} + ReprUnion(offered);
      new;
      forall w | w in offered
        ensures w in w.Repr && w.Repr <= Repr && this !in w.Repr
      {
        assert w.Shaped();
      }
      assert Shaped();
    }

    /** `prompt` (lines 23-35): the new context, `subWizards` and trace are
        those `PromptRun` gives, where `subs` are real prompts of the
        sub-wizards the steps exposed. Those prompts are the calls
        `PromptVisits` lists: each starts from what its sub-wizard held, and
        each sub-wizard ends holding what its last prompt left; no other
        sub-wizard is touched. */
    method Prompt(ac: ActionContext) returns (ok: bool, result: T, ghost trace: seq<Event<T>>, ghost subs: seq<SubRun<T>>)
      requires Valid() && ac !in Repr
      modifies Repr, ac
      ensures Valid()
      ensures |subs| == |promptSteps|
      ensures PromptRun(promptSteps, Run(old(context), old(subWizards), [], true), subs) == Run(context, subWizards, trace, ok)
      ensures PromptSubsReal(this, promptSteps, Run(old(context), old(subWizards), [], true), subs)
      ensures ok ==> result == context
      ensures ac.lastStepAttempted == LastTag(trace, old(ac.lastStepAttempted))
      ensures var visits := PromptVisits(promptSteps, Run(old(context), old(subWizards), [], true), subs);
              && StatesChain(old(HeldNow()), visits, HeldNow())
              && forall v :: v in offered && v !in Visited(visits) ==> unchanged(v.Repr)
      decreases depth, 4
    {
      ghost var init, tag0, h0 := Run(old(context), old(subWizards), [], true), ac.lastStepAttempted, HeldNow();
      ok, result, trace, subs := true, context, [], [];
      var i := 0;
      while i < |promptSteps|
        invariant 0 <= i <= |promptSteps| && |subs| == i
        invariant Valid()
        invariant PromptRun(promptSteps[..i], init, subs) == Run(context, subWizards, trace, true)
        invariant PromptSubsReal(this, promptSteps[..i], init, subs)
        invariant ac.lastStepAttempted == LastTag(trace, tag0)
        invariant StatesChain(h0, PromptVisits(promptSteps[..i], init, subs), HeldNow())
        invariant forall v :: v in offered && v !in Visited(PromptVisits(promptSteps[..i], init, subs)) ==> unchanged(v.Repr)
      {
        ok, trace, subs := PromptTurnAt(i, ac, init, subs, trace, tag0, h0);
        if !ok {
          return;
        }
        i := i + 1;
      }
      assert promptSteps[..i] == promptSteps;
      assert PromptSubsReal(this, promptSteps, init, subs);
      result := context;
    }

    /** One turn of the prompt loop (lines 25-31), continuing the fold over
        the first `i` steps: the fold over the first `i + 1` steps gives the
        new state, and any sub-wizard prompted is prompted for real, from
        where the calls so far left it. When the turn throws, `subs` is padded
        out to a run of all the steps. */
    method PromptTurnAt(i: nat, ac: ActionContext, ghost init: Run<T>, ghost subs0: seq<SubRun<T>>,
                        ghost trace0: seq<Event<T>>, ghost tag0: string, ghost h0: map<AzureWizard<T>, Held<T>>)
      returns (ok: bool, ghost trace: seq<Event<T>>, ghost subs: seq<SubRun<T>>)
      requires Valid() && ac !in Repr && i < |promptSteps|
      requires |subs0| == i && PromptRun(promptSteps[..i], init, subs0) == Run(context, subWizards, trace0, true)
      requires PromptSubsReal(this, promptSteps[..i], init, subs0)
      requires ac.lastStepAttempted == LastTag(trace0, tag0)
      requires StatesChain(h0, PromptVisits(promptSteps[..i], init, subs0), HeldNow())
      modifies Repr, ac
      ensures Valid()
      ensures ok ==> |subs| == i + 1 && PromptRun(promptSteps[..i + 1], init, subs) == Run(context, subWizards, trace, true)
                     && PromptSubsReal(this, promptSteps[..i + 1], init, subs)
      ensures !ok ==> |subs| == |promptSteps| && PromptRun(promptSteps, init, subs) == Run(context, subWizards, trace, false)
                      && PromptSubsReal(this, promptSteps, init, subs)
      ensures ac.lastStepAttempted == LastTag(trace, tag0)
      ensures var visits := if ok then PromptVisits(promptSteps[..i + 1], init, subs) else PromptVisits(promptSteps, init, subs);
              && StatesChain(h0, visits, HeldNow())
              && Visited(PromptVisits(promptSteps[..i], init, subs0)) <= Visited(visits)
              && forall v :: v in offered && v !in Visited(visits) ==> unchanged(v.Repr)
      decreases depth, 3
    {
      ghost var before, h1 := Run(context, subWizards, trace0, true), HeldNow();
      ghost var sub;
      ok, trace, sub := PromptStepAt(i, ac, trace0, tag0);
      PromptTurnFolds(this, promptSteps, init, subs0, sub, before);
      PromptTurnVisits(promptSteps, init, subs0, sub, before);
      subs := Advanced(subs0, sub, ok, |promptSteps|);
      ghost var visits0, added := PromptVisits(promptSteps[..i], init, subs0), TurnVisits(promptSteps[i], before, sub);
      StatesChainAppend(h0, visits0, h1, added, HeldNow());
      VisitedAppend(visits0, added);
      assert promptSteps[..|promptSteps|] == promptSteps;
    }

    /** The body of the prompt loop (lines 25-31): record the step as the
        last attempted, run its `prompt`, and prompt the sub-wizard it
        exposes; the new state is the one `PromptTurn` gives, and only that
        sub-wizard changes. */
    method PromptStepAt(i: nat, ac: ActionContext, ghost trace0: seq<Event<T>>, ghost tag0: string)
      returns (ok: bool, ghost trace: seq<Event<T>>, ghost sub: SubRun<T>)
      requires Valid() && ac !in Repr && i < |promptSteps|
      requires ac.lastStepAttempted == LastTag(trace0, tag0)
      modifies Repr, ac
      ensures Valid()
      ensures PromptTurn(promptSteps[i], Run(old(context), old(subWizards), trace0, true), sub) == Run(context, subWizards, trace, ok)
      ensures PromptTurnReal(this, promptSteps[i], Run(old(context), old(subWizards), trace0, true), sub)
      ensures ac.lastStepAttempted == LastTag(trace, tag0)
      ensures var visits := TurnVisits(promptSteps[i], Run(old(context), old(subWizards), trace0, true), sub);
              && StatesChain(old(HeldNow()), visits, HeldNow())
              && forall v :: v in offered && v !in Visited(visits) ==> unchanged(v.Repr)
      decreases depth, 2
    {
      ghost var h, before := HeldNow(), Run(context, subWizards, trace0, true);
      var step := promptSteps[i];
      ac.lastStepAttempted := "prompt-" + step.name;
      LastTagAfterTag(trace0, "prompt-" + step.name, PromptInvoked(step.name, context), tag0);
      trace := trace0 + [LastStepAttempted("prompt-" + step.name), PromptInvoked(step.name, context)];
      sub := SubRun(true, [], None);
      var next := step.prompt(context);
      if next.None? {
        ok := false;
        assert TurnVisits(step, before, sub) == [];
        assert HeldNow() == h;
        StatesChainEmpty(h);
        return;
      }
      context := next.value;
      assert HeldNow() == h;
      ok, trace, sub := ExposeAt(i, ac, before, tag0);
    }

    /** Lines 28-31, once the `i`th step's `prompt` has returned from the
        state `before`: prompt the sub-wizard the step exposes, if any. The new
        state is the one `PromptTurn` gives, and only that sub-wizard
        changes. */
    method ExposeAt(i: nat, ac: ActionContext, ghost before: Run<T>, ghost tag0: string)
      returns (ok: bool, ghost trace: seq<Event<T>>, ghost sub: SubRun<T>)
      requires Valid() && ac !in Repr && i < |promptSteps|
      requires before.ok && before.subWizards == subWizards && promptSteps[i].prompt(before.context) == Some(context)
      requires ac.lastStepAttempted == LastTag(before.trace + [LastStepAttempted("prompt-" + promptSteps[i].name),
                                                               PromptInvoked(promptSteps[i].name, before.context)], tag0)
      modifies Repr, ac
      ensures Valid()
      ensures PromptTurn(promptSteps[i], before, sub) == Run(context, subWizards, trace, ok)
      ensures PromptTurnReal(this, promptSteps[i], before, sub)
      ensures ac.lastStepAttempted == LastTag(trace, tag0)
      ensures var visits := TurnVisits(promptSteps[i], before, sub);
              && StatesChain(old(HeldNow()), visits, HeldNow())
              && forall v :: v in offered && v !in Visited(visits) ==> unchanged(v.Repr)
      decreases depth, 1
    {
      var step := promptSteps[i];
      trace := before.trace + [LastStepAttempted("prompt-" + step.name), PromptInvoked(step.name, before.context)];
      ok, sub := true, SubRun(true, [], None);
      var exposed := step.subWizard(context);
      if exposed.None? {
        assert TurnVisits(step, before, sub) == [];
        StatesChainEmpty(HeldNow());
        return;
      }
      var w := exposed.value;
      ok, sub := PushAndPrompt(w, ac);
      assert TurnVisits(step, before, sub) == [Visit(w, sub)];
      LastTagAfterSub(trace, SubWizardPrompted(w, sub.trace), tag0);
      trace := trace + [SubWizardPrompted(w, sub.trace)];
    }

    /** Lines 29-30: append a sub-wizard this one offers to `subWizards` and
        prompt it. `sub` is that prompt: `w` goes from the state it held to the
        one `PromptRun` gives over its own steps. Nothing else of this wizard
        and no other sub-wizard changes. */
    method PushAndPrompt(w: AzureWizard<T>, ac: ActionContext) returns (ok: bool, ghost sub: SubRun<T>)
      requires Valid() && w in offered && ac !in Repr
      modifies Repr, ac
      ensures Valid() && subWizards == old(subWizards) + [w] && context == old(context)
      ensures sub.ok == ok && PromptedBy(w, sub)
      ensures sub.origin == Some(Origin(old(w.context), old(w.subWizards), sub.origin.value.subs, Held(w.context, w.subWizards)))
      ensures PromptRun(w.promptSteps, Run(old(w.context), old(w.subWizards), [], true), sub.origin.value.subs)
              == Run(w.context, w.subWizards, sub.trace, ok)
      ensures ac.lastStepAttempted == LastTag(sub.trace, old(ac.lastStepAttempted))
      ensures StatesChain(old(HeldNow()), [Visit(w, sub)], HeldNow())
      ensures forall v :: v in offered && v != w ==> unchanged(v.Repr)
      decreases depth, 0
    {
      ghost var h := HeldNow();
      subWizards := subWizards + [w];
      ghost var start := Run(w.context, w.subWizards, [], true);
      var result;
      ghost var trace, subs;
      ok, result, trace, subs := w.Prompt(ac);
      sub := SubRun(ok, trace, Some(Origin(start.context, start.subWizards, subs, Held(w.context, w.subWizards))));
      forall v | v in offered && v != w
        ensures v.Valid() && unchanged(v.Repr) && HeldNow()[v] == h[v]
      {
        assert v.Repr !! w.Repr;
      }
      StatesChainOne(h, w, sub, HeldNow());
    }

    /** `execute` (lines 37-51): the new context and the trace are those
        `ExecuteRun` gives, where `subs` are real executes of the sub-wizards
        in the list. Those executes are the calls `ExecuteVisits` lists: each
        starts from what its sub-wizard held, and each sub-wizard ends holding
        what its last execute left; no other sub-wizard is touched. */
    method Execute(ac: ActionContext) returns (ok: bool, result: T, ghost trace: seq<Event<T>>, ghost subs: seq<SubRun<T>>)
      requires Valid() && ac !in Repr
      modifies Repr, ac
      ensures Valid()
      ensures subWizards == old(subWizards) && |subs| == |subWizards|
      ensures ExecuteRun(old(subWizards), subs, executeSteps, old(context)) == Run(context, subWizards, trace, ok)
      ensures ExecuteSubsReal(this, old(subWizards), Run(old(context), old(subWizards), [OutputShown], true), subs)
      ensures ok ==> result == context
      ensures ac.lastStepAttempted == LastTag(trace, old(ac.lastStepAttempted))
      ensures var visits := ExecuteVisits(old(subWizards), Run(old(context), old(subWizards), [OutputShown], true), subs);
              && StatesChain(old(HeldNow()), visits, HeldNow())
              && forall v :: v in offered && v !in Visited(visits) ==> unchanged(v.Repr)
      decreases depth, 3
    {
      ghost var tag0 := ac.lastStepAttempted;
      result := context;
      ok, trace, subs := ExecuteSubWizards(ac, [OutputShown], tag0);
      ghost var visited := Run(context, subWizards, trace, ok);
      if !ok {
        assert ExecuteStepsRun(executeSteps, visited) == visited by {
          assert executeSteps[..0] == [];
          ExecuteStepsRunStops(executeSteps, visited, 0);
        }
        return;
      }
      ok, trace := ExecuteOwnSteps(ac, trace, tag0);
      result := context;
    }

    /** The second loop of `execute` (lines 44-47): each own step in turn,
        stopping at the first that throws; the new context and trace are
        those `ExecuteStepsRun` gives. */
    method ExecuteOwnSteps(ac: ActionContext, ghost trace0: seq<Event<T>>, ghost tag0: string)
      returns (ok: bool, ghost trace: seq<Event<T>>)
      requires Valid() && ac !in Repr
      requires ac.lastStepAttempted == LastTag(trace0, tag0)
      modifies this, ac
      ensures Valid() && subWizards == old(subWizards)
      ensures ExecuteStepsRun(executeSteps, Run(old(context), subWizards, trace0, true)) == Run(context, subWizards, trace, ok)
      ensures ac.lastStepAttempted == LastTag(trace, tag0)
    {
      ghost var visited := Run(context, subWizards, trace0, true);
      ok, trace := true, trace0;
      var j := 0;
      while j < |executeSteps|
        invariant 0 <= j <= |executeSteps|
        invariant Valid() && subWizards == old(subWizards)
        invariant ExecuteStepsRun(executeSteps[..j], visited) == Run(context, subWizards, trace, true)
        invariant ac.lastStepAttempted == LastTag(trace, tag0)
      {
        var step := executeSteps[j];
        ac.lastStepAttempted := "execute-" + step.name;
        LastTagAfterTag(trace, "execute-" + step.name, ExecuteInvoked(step.name, context), tag0);
        ghost var before := Run(context, subWizards, trace, true);
        trace := trace + [LastStepAttempted("execute-" + step.name), ExecuteInvoked(step.name, context)];
        assert ExecuteStepsRun(executeSteps[..j + 1], visited) == ExecuteTurn(step, before) by {
          ExecuteStepsRunSnoc(executeSteps, visited, j);
        }
        var next := step.execute(context);
        if next.None? {
          assert ExecuteStepsRun(executeSteps, visited) == Run(context, subWizards, trace, false) by {
            ExecuteStepsRunStops(executeSteps, visited, j + 1);
          }
          ok := false;
          return;
        }
        context := next.value;
        j := j + 1;
      }
      assert executeSteps[..j] == executeSteps;
    }

    /** Lines 40-42: each sub-wizard found while prompting is executed in
        turn, until one throws; this wizard's context and list stay as they
        were. The trace continues `trace0`. The executes are the calls
        `ExecuteVisits` lists, chained from what each sub-wizard held, and
        the sub-wizards not reached are untouched. */
    method ExecuteSubWizards(ac: ActionContext, ghost trace0: seq<Event<T>>, ghost tag0: string)
      returns (ok: bool, ghost trace: seq<Event<T>>, ghost subs: seq<SubRun<T>>)
      requires Valid() && ac !in Repr
      requires ac.lastStepAttempted == LastTag(trace0, tag0)
      modifies Repr, ac
      ensures Valid() && subWizards == old(subWizards) && context == old(context) && |subs| == |subWizards|
      ensures SubExecuteRun(subWizards, Run(context, subWizards, trace0, true), subs) == Run(context, subWizards, trace, ok)
      ensures ExecuteSubsReal(this, subWizards, Run(context, subWizards, trace0, true), subs)
      ensures ac.lastStepAttempted == LastTag(trace, tag0)
      ensures var visits := ExecuteVisits(subWizards, Run(context, subWizards, trace0, true), subs);
              && StatesChain(old(HeldNow()), visits, HeldNow())
              && forall v :: v in offered && v !in Visited(visits) ==> unchanged(v.Repr)
      decreases depth, 2
    {
      var wizards := subWizards;
      ghost var c, h0 := context, HeldNow();
      ghost var init := Run(c, wizards, trace0, true);
      ok, trace, subs := true, trace0, [];
      var i := 0;
      while i < |wizards|
        invariant 0 <= i <= |wizards| && |subs| == i
        invariant Valid() && subWizards == wizards && context == c
        invariant SubExecuteRun(wizards[..i], init, subs) == Run(c, wizards, trace, true)
        invariant ExecuteSubsReal(this, wizards[..i], init, subs)
        invariant ac.lastStepAttempted == LastTag(trace, tag0)
        invariant StatesChain(h0, ExecuteVisits(wizards[..i], init, subs), HeldNow())
        invariant forall v :: v in offered && v !in Visited(ExecuteVisits(wizards[..i], init, subs)) ==> unchanged(v.Repr)
      {
        ok, trace, subs := ExecuteTurnAt(i, ac, init, subs, trace, tag0, h0);
        if !ok {
          return;
        }
        i := i + 1;
      }
      assert wizards[..i] == wizards;
    }

    /** One turn of the first loop of `execute` (line 41): execute the `i`th
        sub-wizard, continuing the trace `trace0`; the fold over the first
        `i + 1` sub-wizards gives the new state, and the call is a real
        execute of that sub-wizard. When the call throws, `subs` is padded out
        to a run of all the sub-wizards. */
    method ExecuteTurnAt(i: nat, ac: ActionContext, ghost init: Run<T>, ghost subs0: seq<SubRun<T>>,
                         ghost trace0: seq<Event<T>>, ghost tag0: string, ghost h0: map<AzureWizard<T>, Held<T>>)
      returns (ok: bool, ghost trace: seq<Event<T>>, ghost subs: seq<SubRun<T>>)
      requires Valid() && i < |subWizards| && ac !in Repr
      requires |subs0| == i && SubExecuteRun(subWizards[..i], init, subs0) == Run(context, subWizards, trace0, true)
      requires ExecuteSubsReal(this, subWizards[..i], init, subs0)
      requires ac.lastStepAttempted == LastTag(trace0, tag0)
      requires StatesChain(h0, ExecuteVisits(subWizards[..i], init, subs0), HeldNow())
      modifies Repr, ac
      ensures Valid() && subWizards == old(subWizards) && context == old(context)
      ensures ok ==> |subs| == i + 1 && SubExecuteRun(subWizards[..i + 1], init, subs) == Run(context, subWizards, trace, true)
                     && ExecuteSubsReal(this, subWizards[..i + 1], init, subs)
      ensures !ok ==> |subs| == |subWizards| && SubExecuteRun(subWizards, init, subs) == Run(context, subWizards, trace, false)
                      && ExecuteSubsReal(this, subWizards, init, subs)
      ensures ac.lastStepAttempted == LastTag(trace, tag0)
      ensures var visits := if ok then ExecuteVisits(subWizards[..i + 1], init, subs) else ExecuteVisits(subWizards, init, subs);
              && StatesChain(h0, visits, HeldNow())
              && Visited(ExecuteVisits(subWizards[..i], init, subs0)) <= Visited(visits)
              && forall v :: v in offered && v !in Visited(visits) ==> unchanged(v.Repr)
      decreases depth, 1
    {
      var w := subWizards[i];
      ghost var before, h1 := Run(context, subWizards, trace0, true), HeldNow();
      ghost var sub;
      ok, sub := ExecuteSubWizard(w, ac);
      LastTagAfterSub(trace0, SubWizardExecuted(w, sub.trace), tag0);
      trace := trace0 + [SubWizardExecuted(w, sub.trace)];
      ExecuteTurnFolds(this, subWizards, init, subs0, sub, before);
      ExecuteTurnChains(subWizards, init, subs0, sub, h0, h1, HeldNow());
      subs := Advanced(subs0, sub, ok, |subWizards|);
    }

    /** Line 41: execute the sub-wizard `w` from this wizard's list. `sub` is
        that call: `w` goes from the state it held to the one `ExecuteRun`
        gives over its own list and steps. Nothing of this wizard and no other
        sub-wizard changes. */
    method ExecuteSubWizard(w: AzureWizard<T>, ac: ActionContext) returns (ok: bool, ghost sub: SubRun<T>)
      requires Valid() && w in subWizards && ac !in Repr
      modifies Repr, ac
      ensures Valid() && subWizards == old(subWizards) && context == old(context)
      ensures sub.ok == ok && w.depth < depth && ExecutedBy(w, sub)
      ensures sub.origin == Some(Origin(old(w.context), old(w.subWizards), sub.origin.value.subs, Held(w.context, w.subWizards)))
      ensures ExecuteRun(old(w.subWizards), sub.origin.value.subs, w.executeSteps, old(w.context))
              == Run(w.context, w.subWizards, sub.trace, ok)
      ensures ac.lastStepAttempted == LastTag(sub.trace, old(ac.lastStepAttempted))
      ensures StatesChain(old(HeldNow()), [Visit(w, sub)], HeldNow())
      ensures forall v :: v in offered && v != w ==> unchanged(v.Repr)
      decreases depth, 0
    {
      ghost var h, start := HeldNow(), Run(w.context, w.subWizards, [], true);
      var result;
      ghost var trace, subs;
      ok, result, trace, subs := w.Execute(ac);
      sub := SubRun(ok, trace, Some(Origin(start.context, start.subWizards, subs, Held(w.context, w.subWizards))));
      forall v | v in offered && v != w
        ensures v.Valid() && unchanged(v.Repr) && HeldNow()[v] == h[v]
      {
        assert v.Repr !! w.Repr;
      }
      StatesChainOne(h, w, sub, HeldNow());
    }
  }

  // ---------------------------------------------------------------------------
  // One more turn of each loop, and the turns after a throw
  // ---------------------------------------------------------------------------

  lemma PromptRunSnoc<T(!new)>(steps: seq<PromptStep<T>>, init: Run<T>, subs: seq<SubRun<T>>, sub: SubRun<T>)
    requires |subs| < |steps|
    ensures var i := |subs|; var before := PromptRun(steps[..i], init, subs);
            PromptRun(steps[..i + 1], init, subs + [sub])
            == if before.ok then PromptTurn(steps[i], before, sub) else before
  {
    var i := |subs|;
    assert steps[..i + 1][..i] == steps[..i];
    assert (subs + [sub])[..i] == subs;
  }

  lemma SubExecuteRunSnoc<T(!new)>(wizards: seq<AzureWizard<T>>, init: Run<T>, subs: seq<SubRun<T>>, sub: SubRun<T>)
    requires |subs| < |wizards|
    ensures var i := |subs|; var before := SubExecuteRun(wizards[..i], init, subs);
            SubExecuteRun(wizards[..i + 1], init, subs + [sub])
            == if before.ok then Run(before.context, before.subWizards, before.trace + [SubWizardExecuted(wizards[i], sub.trace)], sub.ok)
               else before
  {
    var i := |subs|;
    assert wizards[..i + 1][..i] == wizards[..i];
    assert (subs + [sub])[..i] == subs;
  }

  lemma ExecuteStepsRunSnoc<T(!new)>(steps: seq<ExecuteStep<T>>, init: Run<T>, i: nat)
    requires i < |steps|
    ensures var before := ExecuteStepsRun(steps[..i], init);
            ExecuteStepsRun(steps[..i + 1], init) == if before.ok then ExecuteTurn(steps[i], before) else before
  {
    assert steps[..i + 1][..i] == steps[..i];
  }

  lemma PromptSubsRealSnoc<T(!new)>(w: AzureWizard<T>, steps: seq<PromptStep<T>>, init: Run<T>, subs: seq<SubRun<T>>, sub: SubRun<T>)
    requires |subs| < |steps|
    requires PromptSubsReal(w, steps[..|subs|], init, subs)
    requires var before := PromptRun(steps[..|subs|], init, subs);
             before.ok ==> PromptTurnReal(w, steps[|subs|], before, sub)
    ensures PromptSubsReal(w, steps[..|subs| + 1], init, subs + [sub])
  {
    var i := |subs|;
    forall j | 0 <= j <= i
      ensures steps[..i + 1][..j] == steps[..i][..j] && (subs + [sub])[..j] == subs[..j]
    {
    }
    assert steps[..i + 1][..i] == steps[..i];
    assert (subs + [sub])[..i] == subs;
  }

  lemma ExecuteSubsRealSnoc<T(!new)>(w: AzureWizard<T>, wizards: seq<AzureWizard<T>>, init: Run<T>, subs: seq<SubRun<T>>, sub: SubRun<T>)
    requires |subs| < |wizards|
    requires ExecuteSubsReal(w, wizards[..|subs|], init, subs)
    requires SubExecuteRun(wizards[..|subs|], init, subs).ok ==> wizards[|subs|].depth < w.depth && ExecutedBy(wizards[|subs|], sub)
    ensures ExecuteSubsReal(w, wizards[..|subs| + 1], init, subs + [sub])
  {
    var i := |subs|;
    forall j | 0 <= j <= i
      ensures wizards[..i + 1][..j] == wizards[..i][..j] && (subs + [sub])[..j] == subs[..j]
    {
    }
    assert wizards[..i + 1][..i] == wizards[..i];
    assert (subs + [sub])[..i] == subs;
  }

  /** After a tag write and a step call, `lastStepAttempted` holds that tag. */
  lemma LastTagAfterTag<T(!new)>(trace: seq<Event<T>>, tag: string, e: Event<T>, before: string)
    requires e.PromptInvoked? || e.ExecuteInvoked?
    ensures LastTag(trace + [LastStepAttempted(tag), e], before) == tag
  {
    var t := trace + [LastStepAttempted(tag), e];
    assert t[..|t| - 1] == trace + [LastStepAttempted(tag)];
  }

  /** A sub-wizard's call leaves what its own writes leave. */
  lemma LastTagAfterSub<T(!new)>(trace: seq<Event<T>>, e: Event<T>, before: string)
    requires e.SubWizardPrompted? || e.SubWizardExecuted?
    ensures LastTag(trace + [e], before) == LastTag(e.trace, LastTag(trace, before))
  {
    assert (trace + [e])[..|trace|] == trace;
  }

  // ---------------------------------------------------------------------------
  // Once a phase has stopped, the steps after it change nothing
  // ---------------------------------------------------------------------------

  lemma {:induction false} PromptRunStops<T(!new)>(steps: seq<PromptStep<T>>, init: Run<T>, subs: seq<SubRun<T>>, k: nat)
    requires |subs| == |steps| && k <= |steps|
    requires !PromptRun(steps[..k], init, subs[..k]).ok
    ensures PromptRun(steps, init, subs) == PromptRun(steps[..k], init, subs[..k])
    decreases |steps|
  {
    if k < |steps| {
      var n := |steps| - 1;
      assert steps[..n][..k] == steps[..k] && subs[..n][..k] == subs[..k];
      PromptRunStops(steps[..n], init, subs[..n], k);
    } else {
      assert steps[..k] == steps && subs[..k] == subs;
    }
  }

  lemma {:induction false} SubExecuteRunStops<T(!new)>(wizards: seq<AzureWizard<T>>, init: Run<T>, subs: seq<SubRun<T>>, k: nat)
    requires |subs| == |wizards| && k <= |wizards|
    requires !SubExecuteRun(wizards[..k], init, subs[..k]).ok
    ensures SubExecuteRun(wizards, init, subs) == SubExecuteRun(wizards[..k], init, subs[..k])
    decreases |wizards|
  {
    if k < |wizards| {
      var n := |wizards| - 1;
      assert wizards[..n][..k] == wizards[..k] && subs[..n][..k] == subs[..k];
      SubExecuteRunStops(wizards[..n], init, subs[..n], k);
    } else {
      assert wizards[..k] == wizards && subs[..k] == subs;
    }
  }

  lemma PromptSubsRealStops<T(!new)>(w: AzureWizard<T>, steps: seq<PromptStep<T>>, init: Run<T>, subs: seq<SubRun<T>>, k: nat)
    requires |subs| == |steps| && k <= |steps|
    requires PromptSubsReal(w, steps[..k], init, subs[..k]) && !PromptRun(steps[..k], init, subs[..k]).ok
    ensures PromptSubsReal(w, steps, init, subs)
  {
    forall j | 0 <= j < |steps| && PromptRun(steps[..j], init, subs[..j]).ok
      ensures PromptTurnReal(w, steps[j], PromptRun(steps[..j], init, subs[..j]), subs[j])
    {
      if k <= j {
        assert steps[..j][..k] == steps[..k] && subs[..j][..k] == subs[..k];
        PromptRunStops(steps[..j], init, subs[..j], k);
        assert false;
      }
      assert steps[..k][..j] == steps[..j] && subs[..k][..j] == subs[..j];
    }
  }

  lemma ExecuteSubsRealStops<T(!new)>(w: AzureWizard<T>, wizards: seq<AzureWizard<T>>, init: Run<T>, subs: seq<SubRun<T>>, k: nat)
    requires |subs| == |wizards| && k <= |wizards|
    requires ExecuteSubsReal(w, wizards[..k], init, subs[..k]) && !SubExecuteRun(wizards[..k], init, subs[..k]).ok
    ensures ExecuteSubsReal(w, wizards, init, subs)
  {
    forall j | 0 <= j < |wizards| && SubExecuteRun(wizards[..j], init, subs[..j]).ok
      ensures wizards[j].depth < w.depth && ExecutedBy(wizards[j], subs[j])
    {
      if k <= j {
        assert wizards[..j][..k] == wizards[..k] && subs[..j][..k] == subs[..k];
        SubExecuteRunStops(wizards[..j], init, subs[..j], k);
        assert false;
      }
      assert wizards[..k][..j] == wizards[..j] && subs[..k][..j] == subs[..j];
    }
  }

  // ---------------------------------------------------------------------------
  // Chaining the states the calls leave
  // ---------------------------------------------------------------------------

  lemma {:induction false} HeldAfterAppend<T(!new)>(vs: seq<Visit<T>>, ws: seq<Visit<T>>, v: AzureWizard<T>, h: Held<T>)
    ensures HeldAfter(vs + ws, v, h) == HeldAfter(ws, v, HeldAfter(vs, v, h))
    decreases |ws|
  {
    if ws == [] {
      assert vs + ws == vs;
    } else {
      var n := |ws| - 1;
      assert (vs + ws)[..|vs| + n] == vs + ws[..n];
      HeldAfterAppend(vs, ws[..n], v, h);
    }
  }

  /** Calls on `v` that each start where the one before left it still do so
      when a further chained run of calls follows them. */
  lemma ChainedAppend<T(!new)>(vs: seq<Visit<T>>, ws: seq<Visit<T>>, v: AzureWizard<T>, h: Held<T>)
    requires Chained(vs, v, h) && Chained(ws, v, HeldAfter(vs, v, h))
    ensures Chained(vs + ws, v, h)
  {
    forall j | 0 <= j < |vs + ws| && (vs + ws)[j].wizard == v
      ensures (vs + ws)[j].sub.origin.Some?
      ensures var o := (vs + ws)[j].sub.origin.value;
              Held(o.context, o.subWizards) == HeldAfter((vs + ws)[..j], v, h)
    {
      if j < |vs| {
        assert (vs + ws)[..j] == vs[..j];
      } else {
        var k := j - |vs|;
        assert (vs + ws)[..j] == vs + ws[..k];
        HeldAfterAppend(vs, ws[..k], v, h);
      }
    }
  }

  /** Two chained runs of calls, one after the other, are one chained run. */
  lemma StatesChainAppend<T(!new)>(h0: map<AzureWizard<T>, Held<T>>, vs: seq<Visit<T>>, h1: map<AzureWizard<T>, Held<T>>,
                                   ws: seq<Visit<T>>, h2: map<AzureWizard<T>, Held<T>>)
    requires StatesChain(h0, vs, h1) && StatesChain(h1, ws, h2)
    ensures StatesChain(h0, vs + ws, h2)
  {
    forall v | v in h0
      ensures Chained(vs + ws, v, h0[v]) && h2[v] == HeldAfter(vs + ws, v, h0[v])
    {
      ChainedAppend(vs, ws, v, h0[v]);
      HeldAfterAppend(vs, ws, v, h0[v]);
    }
  }

  /** No calls leave every wizard where it was. */
  lemma StatesChainEmpty<T(!new)>(h: map<AzureWizard<T>, Held<T>>)
    ensures StatesChain(h, [], h)
  {
  }

  /** One call on `w` that started from what `w` held in `h` and ended in
      what it holds in `h'`, while every other wizard kept its state, is a
      chain of one call. */
  lemma StatesChainOne<T(!new)>(h: map<AzureWizard<T>, Held<T>>, w: AzureWizard<T>, sub: SubRun<T>, h': map<AzureWizard<T>, Held<T>>)
    requires h.Keys == h'.Keys && w in h && sub.origin.Some?
    requires Held(sub.origin.value.context, sub.origin.value.subWizards) == h[w] && sub.origin.value.end == h'[w]
    requires forall v :: v in h && v != w ==> h'[v] == h[v]
    ensures StatesChain(h, [Visit(w, sub)], h')
  {
  }

  lemma VisitedAppend<T(!new)>(vs: seq<Visit<T>>, ws: seq<Visit<T>>)
    ensures Visited(vs + ws) == Visited(vs) + Visited(ws)
  {
    forall x | x in Visited(vs + ws) ensures x in Visited(vs) + Visited(ws) {
      var k :| 0 <= k < |vs + ws| && (vs + ws)[k].wizard == x;
      if k >= |vs| {
        assert ws[k - |vs|].wizard == x;
      }
    }
    forall x | x in Visited(vs) ensures x in Visited(vs + ws) {
      var k :| 0 <= k < |vs| && vs[k].wizard == x;
      assert (vs + ws)[k].wizard == x;
    }
    forall x | x in Visited(ws) ensures x in Visited(vs + ws) {
      var k :| 0 <= k < |ws| && ws[k].wizard == x;
      assert (vs + ws)[|vs| + k].wizard == x;
    }
  }

  /** One more prompt turn adds its own sub-wizard call to the calls so far;
      once the turn throws, the remaining turns add none. */
  lemma PromptTurnVisits<T(!new)>(steps: seq<PromptStep<T>>, init: Run<T>, subs0: seq<SubRun<T>>, sub: SubRun<T>, before: Run<T>)
    requires |subs0| < |steps|
    requires PromptRun(steps[..|subs0|], init, subs0) == before && before.ok
    ensures var i := |subs0|;
            var after := PromptTurn(steps[i], before, sub);
            var subs := Advanced(subs0, sub, after.ok, |steps|);
            var visits := PromptVisits(steps[..i], init, subs0) + TurnVisits(steps[i], before, sub);
            && (after.ok ==> PromptVisits(steps[..i + 1], init, subs) == visits)
            && (!after.ok ==> PromptVisits(steps, init, subs) == visits)
  {
    var i := |subs0|;
    assert steps[..i + 1][..i] == steps[..i];
    assert (subs0 + [sub])[..i] == subs0;
    PromptRunSnoc(steps, init, subs0, sub);
    var after := PromptTurn(steps[i], before, sub);
    if !after.ok {
      var subs := Advanced(subs0, sub, after.ok, |steps|);
      assert subs[..i + 1] == subs0 + [sub];
      PromptVisitsStops(steps, init, subs, i + 1);
    }
  }

  /** One more call of the first loop of `execute` adds itself to the calls
      so far; once it throws, the remaining sub-wizards add none. */
  lemma ExecuteTurnVisits<T(!new)>(wizards: seq<AzureWizard<T>>, init: Run<T>, subs0: seq<SubRun<T>>, sub: SubRun<T>)
    requires |subs0| < |wizards|
    requires SubExecuteRun(wizards[..|subs0|], init, subs0).ok
    ensures var i := |subs0|;
            var subs := Advanced(subs0, sub, sub.ok, |wizards|);
            var visits := ExecuteVisits(wizards[..i], init, subs0) + [Visit(wizards[i], sub)];
            && (sub.ok ==> ExecuteVisits(wizards[..i + 1], init, subs) == visits)
            && (!sub.ok ==> ExecuteVisits(wizards, init, subs) == visits)
  {
    var i := |subs0|;
    assert wizards[..i + 1][..i] == wizards[..i];
    assert (subs0 + [sub])[..i] == subs0;
    SubExecuteRunSnoc(wizards, init, subs0, sub);
    if !sub.ok {
      var subs := Advanced(subs0, sub, sub.ok, |wizards|);
      assert subs[..i + 1] == subs0 + [sub];
      ExecuteVisitsStops(wizards, init, subs, i + 1);
    }
  }

  /** One execute turn continues the chain of states: if the calls so far
      took the sub-wizards from `h0` to `h1` and this turn's call from `h1`
      to `h2`, the calls up to the end of the turn take them from `h0` to
      `h2`; they include the calls so far and this turn's sub-wizard. */
  lemma ExecuteTurnChains<T(!new)>(wizards: seq<AzureWizard<T>>, init: Run<T>, subs0: seq<SubRun<T>>, sub: SubRun<T>,
                                   h0: map<AzureWizard<T>, Held<T>>, h1: map<AzureWizard<T>, Held<T>>,
                                   h2: map<AzureWizard<T>, Held<T>>)
    requires |subs0| < |wizards|
    requires SubExecuteRun(wizards[..|subs0|], init, subs0).ok
    requires StatesChain(h0, ExecuteVisits(wizards[..|subs0|], init, subs0), h1)
    requires StatesChain(h1, [Visit(wizards[|subs0|], sub)], h2)
    ensures var i := |subs0|;
            var subs := Advanced(subs0, sub, sub.ok, |wizards|);
            var visits := if sub.ok then ExecuteVisits(wizards[..i + 1], init, subs) else ExecuteVisits(wizards, init, subs);
            && StatesChain(h0, visits, h2)
            && Visited(ExecuteVisits(wizards[..i], init, subs0)) <= Visited(visits)
            && wizards[i] in Visited(visits)
  {
    var i := |subs0|;
    var visits0, added := ExecuteVisits(wizards[..i], init, subs0), [Visit(wizards[i], sub)];
    ExecuteTurnVisits(wizards, init, subs0, sub);
    StatesChainAppend(h0, visits0, h1, added, h2);
    VisitedAppend(visits0, added);
    assert wizards[..|wizards|] == wizards;
    assert wizards[i] in Visited(added) by {
      assert added[0].wizard == wizards[i];
    }
  }

  lemma {:induction false} PromptVisitsStops<T(!new)>(steps: seq<PromptStep<T>>, init: Run<T>, subs: seq<SubRun<T>>, k: nat)
    requires |subs| == |steps| && k <= |steps|
    requires !PromptRun(steps[..k], init, subs[..k]).ok
    ensures PromptVisits(steps, init, subs) == PromptVisits(steps[..k], init, subs[..k])
    decreases |steps|
  {
    if k < |steps| {
      var n := |steps| - 1;
      assert steps[..n][..k] == steps[..k] && subs[..n][..k] == subs[..k];
      PromptRunStops(steps[..n], init, subs[..n], k);
      PromptVisitsStops(steps[..n], init, subs[..n], k);
    } else {
      assert steps[..k] == steps && subs[..k] == subs;
    }
  }

  lemma {:induction false} ExecuteVisitsStops<T(!new)>(wizards: seq<AzureWizard<T>>, init: Run<T>, subs: seq<SubRun<T>>, k: nat)
    requires |subs| == |wizards| && k <= |wizards|
    requires !SubExecuteRun(wizards[..k], init, subs[..k]).ok
    ensures ExecuteVisits(wizards, init, subs) == ExecuteVisits(wizards[..k], init, subs[..k])
    decreases |wizards|
  {
    if k < |wizards| {
      var n := |wizards| - 1;
      assert wizards[..n][..k] == wizards[..k] && subs[..n][..k] == subs[..k];
      SubExecuteRunStops(wizards[..n], init, subs[..n], k);
      ExecuteVisitsStops(wizards[..n], init, subs[..n], k);
    } else {
      assert wizards[..k] == wizards && subs[..k] == subs;
    }
  }

  /** A wizard that no call in `visits` visits ends holding what it held. */
  lemma {:induction false} HeldAfterUnvisited<T(!new)>(visits: seq<Visit<T>>, v: AzureWizard<T>, h: Held<T>)
    requires v !in Visited(visits)
    ensures HeldAfter(visits, v, h) == h
    decreases |visits|
  {
    if visits != [] {
      var n := |visits| - 1;
      assert visits == visits[..n] + [visits[n]];
      VisitedAppend(visits[..n], [visits[n]]);
      assert visits[n].wizard in Visited([visits[n]]);
      HeldAfterUnvisited(visits[..n], v, h);
    }
  }

  /** The first loop of `execute` only calls sub-wizards in its list. */
  lemma {:induction false} ExecuteVisitsListed<T(!new)>(wizards: seq<AzureWizard<T>>, init: Run<T>, subs: seq<SubRun<T>>)
    requires |subs| == |wizards|
    ensures forall x :: x in Visited(ExecuteVisits(wizards, init, subs)) ==> x in wizards
    decreases |wizards|
  {
    if wizards != [] {
      var n := |wizards| - 1;
      var before := SubExecuteRun(wizards[..n], init, subs[..n]);
      ExecuteVisitsListed(wizards[..n], init, subs[..n]);
      VisitedAppend(ExecuteVisits(wizards[..n], init, subs[..n]), if before.ok then [Visit(wizards[n], subs[n])] else []);
      assert forall x :: x in wizards[..n] ==> x in wizards;
    }
  }

  /** Once the first loop of `execute` has thrown within the first `k`
      sub-wizards, no sub-wizard listed only after them is called (line 41:
      the throw leaves the loop). */
  lemma ExecuteStopsAtThrow<T(!new)>(wizards: seq<AzureWizard<T>>, init: Run<T>, subs: seq<SubRun<T>>, k: nat, v: AzureWizard<T>)
    requires |subs| == |wizards| && k <= |wizards|
    requires !SubExecuteRun(wizards[..k], init, subs[..k]).ok
    requires v !in wizards[..k]
    ensures v !in Visited(ExecuteVisits(wizards, init, subs))
  {
    ExecuteVisitsStops(wizards, init, subs, k);
    ExecuteVisitsListed(wizards[..k], init, subs[..k]);
  }

  /** Every call in `visits` is a real prompt of the wizard it names. */
  ghost predicate AllPrompted<T(!new)>(visits: seq<Visit<T>>) {
    forall k :: 0 <= k < |visits| ==> PromptedBy(visits[k].wizard, visits[k].sub)
  }

  /** Every call in `visits` is a real execute of the wizard it names. */
  ghost predicate AllExecuted<T(!new)>(visits: seq<Visit<T>>) {
    forall k :: 0 <= k < |visits| ==> ExecutedBy(visits[k].wizard, visits[k].sub)
  }

  /** The calls the prompt loop makes are real prompts of their sub-wizards. */
  lemma {:induction false} PromptVisitsReal<T(!new)>(w: AzureWizard<T>, steps: seq<PromptStep<T>>, init: Run<T>, subs: seq<SubRun<T>>)
    requires |subs| == |steps| && PromptSubsReal(w, steps, init, subs)
    ensures AllPrompted(PromptVisits(steps, init, subs))
    decreases |steps|
  {
    if steps != [] {
      var n := |steps| - 1;
      var before := PromptRun(steps[..n], init, subs[..n]);
      forall j | 0 <= j < n && PromptRun(steps[..n][..j], init, subs[..n][..j]).ok
        ensures PromptTurnReal(w, steps[..n][j], PromptRun(steps[..n][..j], init, subs[..n][..j]), subs[..n][j])
      {
        assert steps[..n][..j] == steps[..j] && subs[..n][..j] == subs[..j];
      }
      PromptVisitsReal(w, steps[..n], init, subs[..n]);
      var vs: seq<Visit<T>>, ws: seq<Visit<T>> := PromptVisits(steps[..n], init, subs[..n]), if before.ok then TurnVisits(steps[n], before, subs[n]) else [];
      forall k | 0 <= k < |vs + ws|
        ensures PromptedBy((vs + ws)[k].wizard, (vs + ws)[k].sub)
      {
        if k >= |vs| {
          assert PromptTurnReal(w, steps[n], before, subs[n]);
        }
      }
    }
  }

  /** The calls the first loop of `execute` makes are real executes of their
      sub-wizards. */
  lemma {:induction false} ExecuteVisitsReal<T(!new)>(w: AzureWizard<T>, wizards: seq<AzureWizard<T>>, init: Run<T>, subs: seq<SubRun<T>>)
    requires |subs| == |wizards| && ExecuteSubsReal(w, wizards, init, subs)
    ensures AllExecuted(ExecuteVisits(wizards, init, subs))
    decreases |wizards|
  {
    if wizards != [] {
      var n := |wizards| - 1;
      var before := SubExecuteRun(wizards[..n], init, subs[..n]);
      forall j | 0 <= j < n && SubExecuteRun(wizards[..n][..j], init, subs[..n][..j]).ok
        ensures wizards[..n][j].depth < w.depth && ExecutedBy(wizards[..n][j], subs[..n][j])
      {
        assert wizards[..n][..j] == wizards[..j] && subs[..n][..j] == subs[..j];
      }
      ExecuteVisitsReal(w, wizards[..n], init, subs[..n]);
      var vs: seq<Visit<T>>, ws: seq<Visit<T>> := ExecuteVisits(wizards[..n], init, subs[..n]), if before.ok then [Visit(wizards[n], subs[n])] else [];
      forall k | 0 <= k < |vs + ws|
        ensures ExecutedBy((vs + ws)[k].wizard, (vs + ws)[k].sub)
      {
      }
    }
  }

  /** What a visited wizard holds after `visits` is the recorded end of one
      of the calls on it (the last). */
  lemma {:induction false} HeldAfterLastCall<T(!new)>(visits: seq<Visit<T>>, v: AzureWizard<T>, h: Held<T>)
    requires v in Visited(visits)
    requires forall k :: 0 <= k < |visits| ==> visits[k].sub.origin.Some?
    ensures exists k :: 0 <= k < |visits| && visits[k].wizard == v && HeldAfter(visits, v, h) == visits[k].sub.origin.value.end
    decreases |visits|
  {
    var n := |visits| - 1;
    if visits[n].wizard != v {
      assert visits == visits[..n] + [visits[n]];
      VisitedAppend(visits[..n], [visits[n]]);
      HeldAfterLastCall(visits[..n], v, h);
      var k :| 0 <= k < n && visits[..n][k].wizard == v && HeldAfter(visits[..n], v, h) == visits[..n][k].sub.origin.value.end;
      assert visits[k] == visits[..n][k];
    }
  }

  /** After the prompt loop, a sub-wizard it prompted holds exactly what its
      own prompt loop computed on one of those prompts (line 30). */
  lemma PromptLeavesFoldResult<T(!new)>(w: AzureWizard<T>, steps: seq<PromptStep<T>>, init: Run<T>, subs: seq<SubRun<T>>,
                                        before: map<AzureWizard<T>, Held<T>>, after: map<AzureWizard<T>, Held<T>>, v: AzureWizard<T>)
    requires |subs| == |steps| && PromptSubsReal(w, steps, init, subs)
    requires StatesChain(before, PromptVisits(steps, init, subs), after)
    requires v in before && v in Visited(PromptVisits(steps, init, subs))
    ensures exists sub :: PromptedBy(v, sub) &&
              var o := sub.origin.value;
              var r := PromptRun(v.promptSteps, Run(o.context, o.subWizards, [], true), o.subs);
              after[v] == Held(r.context, r.subWizards)
  {
    var visits := PromptVisits(steps, init, subs);
    PromptVisitsReal(w, steps, init, subs);
    HeldAfterLastCall(visits, v, before[v]);
    var k :| 0 <= k < |visits| && visits[k].wizard == v && HeldAfter(visits, v, before[v]) == visits[k].sub.origin.value.end;
    assert PromptedBy(v, visits[k].sub);
  }

  /** After the first loop of `execute`, a sub-wizard it executed holds
      exactly what its own `execute` computed on one of those calls (line 41). */
  lemma ExecuteLeavesFoldResult<T(!new)>(w: AzureWizard<T>, wizards: seq<AzureWizard<T>>, init: Run<T>, subs: seq<SubRun<T>>,
                                         before: map<AzureWizard<T>, Held<T>>, after: map<AzureWizard<T>, Held<T>>, v: AzureWizard<T>)
    requires |subs| == |wizards| && ExecuteSubsReal(w, wizards, init, subs)
    requires StatesChain(before, ExecuteVisits(wizards, init, subs), after)
    requires v in before && v in Visited(ExecuteVisits(wizards, init, subs))
    ensures exists sub :: ExecutedBy(v, sub) &&
              var o := sub.origin.value;
              after[v] == Held(ExecuteRun(o.subWizards, o.subs, v.executeSteps, o.context).context, o.subWizards)
  {
    var visits := ExecuteVisits(wizards, init, subs);
    ExecuteVisitsReal(w, wizards, init, subs);
    HeldAfterLastCall(visits, v, before[v]);
    var k :| 0 <= k < |visits| && visits[k].wizard == v && HeldAfter(visits, v, before[v]) == visits[k].sub.origin.value.end;
    assert ExecutedBy(v, visits[k].sub);
  }

  /** The entries of a loop's calls after one more turn: when the turn
      throws, the calls it never reaches are padded with unvisited entries. */
  ghost function Advanced<T(!new)>(subs0: seq<SubRun<T>>, sub: SubRun<T>, ok: bool, n: nat): (r: seq<SubRun<T>>)
    requires |subs0| < n
    ensures |r| == if ok then |subs0| + 1 else n
    ensures r[..|subs0| + 1] == subs0 + [sub]
  {
    if ok then subs0 + [sub] else subs0 + [sub] + Unvisited(n - |subs0| - 1)
  }

  /** One more turn of the prompt loop, from a running fold over the first
      steps whose calls are real: the fold over one more step, or over all of
      them once the turn throws, gives the turn's state, and its calls are
      real. */
  lemma PromptTurnFolds<T(!new)>(w: AzureWizard<T>, steps: seq<PromptStep<T>>, init: Run<T>, subs0: seq<SubRun<T>>,
                                 sub: SubRun<T>, before: Run<T>)
    requires |subs0| < |steps|
    requires PromptRun(steps[..|subs0|], init, subs0) == before && before.ok
    requires PromptSubsReal(w, steps[..|subs0|], init, subs0)
    requires PromptTurnReal(w, steps[|subs0|], before, sub)
    ensures var after := PromptTurn(steps[|subs0|], before, sub);
            var subs := Advanced(subs0, sub, after.ok, |steps|);
            && (after.ok ==> PromptRun(steps[..|subs0| + 1], init, subs) == after
                             && PromptSubsReal(w, steps[..|subs0| + 1], init, subs))
            && (!after.ok ==> PromptRun(steps, init, subs) == after && PromptSubsReal(w, steps, init, subs))
  {
    PromptRunSnoc(steps, init, subs0, sub);
    PromptSubsRealSnoc(w, steps, init, subs0, sub);
    var after := PromptTurn(steps[|subs0|], before, sub);
    assert PromptRun(steps[..|subs0| + 1], init, subs0 + [sub]) == after;
    if !after.ok {
      PromptSubsPadded(w, steps, init, subs0 + [sub]);
      assert Advanced(subs0, sub, after.ok, |steps|) == subs0 + [sub] + Unvisited(|steps| - |subs0 + [sub]|);
    }
  }

  /** One more turn of the first loop of `execute`, from a running fold over
      the first sub-wizards whose calls are real: the fold over one more, or
      over all of them once the call throws, gives the turn's state, and its
      calls are real. */
  lemma ExecuteTurnFolds<T(!new)>(w: AzureWizard<T>, wizards: seq<AzureWizard<T>>, init: Run<T>, subs0: seq<SubRun<T>>,
                                  sub: SubRun<T>, before: Run<T>)
    requires |subs0| < |wizards|
    requires SubExecuteRun(wizards[..|subs0|], init, subs0) == before && before.ok
    requires ExecuteSubsReal(w, wizards[..|subs0|], init, subs0)
    requires wizards[|subs0|].depth < w.depth && ExecutedBy(wizards[|subs0|], sub)
    ensures var after := Run(before.context, before.subWizards, before.trace + [SubWizardExecuted(wizards[|subs0|], sub.trace)], sub.ok);
            var subs := Advanced(subs0, sub, sub.ok, |wizards|);
            && (sub.ok ==> SubExecuteRun(wizards[..|subs0| + 1], init, subs) == after
                           && ExecuteSubsReal(w, wizards[..|subs0| + 1], init, subs))
            && (!sub.ok ==> SubExecuteRun(wizards, init, subs) == after && ExecuteSubsReal(w, wizards, init, subs))
  {
    SubExecuteRunSnoc(wizards, init, subs0, sub);
    ExecuteSubsRealSnoc(w, wizards, init, subs0, sub);
    var after := Run(before.context, before.subWizards, before.trace + [SubWizardExecuted(wizards[|subs0|], sub.trace)], sub.ok);
    assert SubExecuteRun(wizards[..|subs0| + 1], init, subs0 + [sub]) == after;
    if !sub.ok {
      ExecuteSubsPadded(w, wizards, init, subs0 + [sub]);
      assert Advanced(subs0, sub, sub.ok, |wizards|) == subs0 + [sub] + Unvisited(|wizards| - |subs0 + [sub]|);
    }
  }

  /** A stopped run of the first steps, padded with unvisited entries for the
      rest, is a stopped run of them all. */
  lemma PromptSubsPadded<T(!new)>(w: AzureWizard<T>, steps: seq<PromptStep<T>>, init: Run<T>, done: seq<SubRun<T>>)
    requires |done| <= |steps|
    requires PromptSubsReal(w, steps[..|done|], init, done) && !PromptRun(steps[..|done|], init, done).ok
    ensures PromptRun(steps, init, done + Unvisited(|steps| - |done|)) == PromptRun(steps[..|done|], init, done)
    ensures PromptSubsReal(w, steps, init, done + Unvisited(|steps| - |done|))
  {
    var subs := done + Unvisited(|steps| - |done|);
    assert subs[..|done|] == done;
    PromptRunStops(steps, init, subs, |done|);
    PromptSubsRealStops(w, steps, init, subs, |done|);
  }

  /** A stopped run of the first sub-wizards, padded with unvisited entries
      for the rest, is a stopped run of them all. */
  lemma ExecuteSubsPadded<T(!new)>(w: AzureWizard<T>, wizards: seq<AzureWizard<T>>, init: Run<T>, done: seq<SubRun<T>>)
    requires |done| <= |wizards|
    requires ExecuteSubsReal(w, wizards[..|done|], init, done) && !SubExecuteRun(wizards[..|done|], init, done).ok
    ensures SubExecuteRun(wizards, init, done + Unvisited(|wizards| - |done|)) == SubExecuteRun(wizards[..|done|], init, done)
    ensures ExecuteSubsReal(w, wizards, init, done + Unvisited(|wizards| - |done|))
  {
    var subs := done + Unvisited(|wizards| - |done|);
    assert subs[..|done|] == done;
    SubExecuteRunStops(wizards, init, subs, |done|);
    ExecuteSubsRealStops(w, wizards, init, subs, |done|);
  }

  lemma {:induction false} ExecuteStepsRunStops<T(!new)>(steps: seq<ExecuteStep<T>>, init: Run<T>, k: nat)
    requires k <= |steps|
    requires !ExecuteStepsRun(steps[..k], init).ok
    ensures ExecuteStepsRun(steps, init) == ExecuteStepsRun(steps[..k], init)
    decreases |steps|
  {
    if k < |steps| {
      var n := |steps| - 1;
      assert steps[..n][..k] == steps[..k];
      ExecuteStepsRunStops(steps[..n], init, k);
    } else {
      assert steps[..k] == steps;
    }
  }
}
