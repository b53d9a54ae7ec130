/** What the two phases of `AzureWizard` promise, stated over the folds that
    specify them (module Wizard): which step calls happen and in what order,
    what `lastStepAttempted` holds at each call, where sub-wizards are
    visited, and which context is held afterwards. */
module WizardOrder {
  import opened Wrappers
  import opened Wizard

  // ---------------------------------------------------------------------------
  // Reading a trace
  // ---------------------------------------------------------------------------

  function PromptNames<T(!new)>(steps: seq<PromptStep<T>>): (r: seq<string>)
    ensures |r| == |steps| && forall i :: 0 <= i < |steps| ==> r[i] == steps[i].name
  {
    seq(|steps|, i requires 0 <= i < |steps| => steps[i].name)
  }

  /** The same projection as `PromptNames`, for the other step type: the two
      step datatypes share no common supertype. */
  function ExecuteNames<T(!new)>(steps: seq<ExecuteStep<T>>): (r: seq<string>)
    ensures |r| == |steps| && forall i :: 0 <= i < |steps| ==> r[i] == steps[i].name
  {
    seq(|steps|, i requires 0 <= i < |steps| => steps[i].name)
  }

  lemma PromptNamesSnoc<T(!new)>(steps: seq<PromptStep<T>>, n: nat)
    requires n < |steps|
    ensures PromptNames(steps[..n + 1]) == PromptNames(steps[..n]) + [steps[n].name]
  {
    var a := PromptNames(steps[..n + 1]);
    var b := PromptNames(steps[..n]) + [steps[n].name];
    assert |a| == |b|;
    forall i | 0 <= i < |a|
      ensures a[i] == b[i]
    {
      if i < n {
        assert steps[..n + 1][i] == steps[..n][i];
      }
    }
  }

  lemma ExecuteNamesSnoc<T(!new)>(steps: seq<ExecuteStep<T>>, n: nat)
    requires n < |steps|
    ensures ExecuteNames(steps[..n + 1]) == ExecuteNames(steps[..n]) + [steps[n].name]
  {
    var a := ExecuteNames(steps[..n + 1]);
    var b := ExecuteNames(steps[..n]) + [steps[n].name];
    assert |a| == |b|;
    forall i | 0 <= i < |a|
      ensures a[i] == b[i]
    {
      if i < n {
        assert steps[..n + 1][i] == steps[..n][i];
      }
    }
  }

  /** The steps whose `prompt` the trace shows called, in order, not counting
      calls made inside sub-wizards. */
  function Prompted<T(!new)>(trace: seq<Event<T>>): seq<string>
    decreases |trace|
  {
    if trace == [] then []
    else
      var e := trace[|trace| - 1];
      Prompted(trace[..|trace| - 1]) + if e.PromptInvoked? then [e.step] else []
  }

  /** The steps whose `execute` the trace shows called, in order. */
  function Executed<T(!new)>(trace: seq<Event<T>>): seq<string>
    decreases |trace|
  {
    if trace == [] then []
    else
      var e := trace[|trace| - 1];
      Executed(trace[..|trace| - 1]) + if e.ExecuteInvoked? then [e.step] else []
  }

  /** The sub-wizards whose `execute` the trace shows called, in order. */
  function SubWizardsExecuted<T(!new)>(trace: seq<Event<T>>): seq<AzureWizard<T>>
    decreases |trace|
  {
    if trace == [] then []
    else
      var e := trace[|trace| - 1];
      SubWizardsExecuted(trace[..|trace| - 1]) + if e.SubWizardExecuted? then [e.wizard] else []
  }

  lemma PromptedSnoc<T(!new)>(trace: seq<Event<T>>, e: Event<T>)
    ensures Prompted(trace + [e]) == Prompted(trace) + if e.PromptInvoked? then [e.step] else []
    ensures Executed(trace + [e]) == Executed(trace) + if e.ExecuteInvoked? then [e.step] else []
    ensures SubWizardsExecuted(trace + [e]) == SubWizardsExecuted(trace) + if e.SubWizardExecuted? then [e.wizard] else []
  {
    assert (trace + [e])[..|trace|] == trace;
  }

  // ---------------------------------------------------------------------------
  // Independent reference definitions: the steps' own results, threaded
  // ---------------------------------------------------------------------------

  /** The context the prompt steps produce, each applied to what the previous
      one returned; `None` when one of them throws. */
  function ThreadPrompts<T(!new)>(steps: seq<PromptStep<T>>, c: T): Option<T>
    decreases |steps|
  {
    if steps == [] then Some(c)
    else
      match steps[0].prompt(c)
      case None => None
      case Some(next) => ThreadPrompts(steps[1..], next)
  }

  /** The sub-wizard a step exposes once its prompt returned, if it returned. */
  function ExposedBy<T(!new)>(step: PromptStep<T>, c: T): seq<AzureWizard<T>> {
    match step.prompt(c)
    case None => []
    case Some(next) =>
      match step.subWizard(next)
      case None => []
      case Some(w) => [w]
  }

  /** The sub-wizards the prompt steps expose along the way, in order. */
  function Exposed<T(!new)>(steps: seq<PromptStep<T>>, c: T): seq<AzureWizard<T>>
    decreases |steps|
  {
    if steps == [] then []
    else
      ExposedBy(steps[0], c) +
      match steps[0].prompt(c)
      case None => []
      case Some(next) => Exposed(steps[1..], next)
  }

  /** The context the execute steps produce, threaded the same way. */
  function ThreadExecutes<T(!new)>(steps: seq<ExecuteStep<T>>, c: T): Option<T>
    decreases |steps|
  {
    if steps == [] then Some(c)
    else
      match steps[0].execute(c)
      case None => None
      case Some(next) => ThreadExecutes(steps[1..], next)
  }

  lemma {:induction false} ThreadPromptsSnoc<T(!new)>(steps: seq<PromptStep<T>>, c: T, i: nat)
    requires i < |steps|
    ensures ThreadPrompts(steps[..i + 1], c)
            == match ThreadPrompts(steps[..i], c)
               case None => None
               case Some(d) => steps[i].prompt(d)
    ensures Exposed(steps[..i + 1], c)
            == Exposed(steps[..i], c) +
               match ThreadPrompts(steps[..i], c)
               case None => []
               case Some(d) => ExposedBy(steps[i], d)
    decreases i
  {
    if i == 0 {
      assert steps[..1][1..] == [] && steps[..0] == [];
    } else {
      assert steps[..i + 1][1..] == steps[1..][..i];
      assert steps[..i][1..] == steps[1..][..i - 1];
      match steps[0].prompt(c)
      case None =>
      case Some(next) =>
        ThreadPromptsSnoc(steps[1..], next, i - 1);
    }
  }

  lemma {:induction false} ThreadExecutesSnoc<T(!new)>(steps: seq<ExecuteStep<T>>, c: T, i: nat)
    requires i < |steps|
    ensures ThreadExecutes(steps[..i + 1], c)
            == match ThreadExecutes(steps[..i], c)
               case None => None
               case Some(d) => steps[i].execute(d)
    decreases i
  {
    if i == 0 {
      assert steps[..1][1..] == [] && steps[..0] == [];
    } else {
      assert steps[..i + 1][1..] == steps[1..][..i];
      assert steps[..i][1..] == steps[1..][..i - 1];
      match steps[0].execute(c)
      case None =>
      case Some(next) =>
        ThreadExecutesSnoc(steps[1..], next, i - 1);
    }
  }

  // ---------------------------------------------------------------------------
  // Appending to a trace
  // ---------------------------------------------------------------------------

  /** If the `k`th event is a step call, the event before it is the write of
      its tag, "prompt-" or "execute-" and the step's name (lines 25 and 45). */
  ghost predicate TaggedAt<T(!new)>(trace: seq<Event<T>>, k: nat)
    requires k < |trace|
  {
    && (trace[k].PromptInvoked? ==> 0 < k && trace[k - 1] == LastStepAttempted("prompt-" + trace[k].step))
    && (trace[k].ExecuteInvoked? ==> 0 < k && trace[k - 1] == LastStepAttempted("execute-" + trace[k].step))
  }

  ghost predicate TaggedCalls<T(!new)>(trace: seq<Event<T>>) {
    forall k: nat :: k < |trace| ==> TaggedAt(trace, k)
  }

  /** If the `k`th event is a sub-wizard's prompt, it comes right after the
      call of the step that exposed it, and the next event, if any, is the
      next step's tag (lines 28-31). */
  ghost predicate SubWizardPlacedAt<T(!new)>(trace: seq<Event<T>>, k: nat)
    requires k < |trace|
  {
    trace[k].SubWizardPrompted? ==>
      0 < k && trace[k - 1].PromptInvoked? && (k + 1 < |trace| ==> trace[k + 1].LastStepAttempted?)
  }

  ghost predicate DepthFirst<T(!new)>(trace: seq<Event<T>>) {
    forall k: nat :: k < |trace| ==> SubWizardPlacedAt(trace, k)
  }

  /** Appending a tag write and the step call it tags. */
  lemma AppendCall<T(!new)>(trace: seq<Event<T>>, prefix: string, e: Event<T>)
    requires (e.PromptInvoked? && prefix == "prompt-") || (e.ExecuteInvoked? && prefix == "execute-")
    ensures var t := trace + [LastStepAttempted(prefix + e.step), e];
            && t[..|trace|] == trace
            && Prompted(t) == Prompted(trace) + (if e.PromptInvoked? then [e.step] else [])
            && Executed(t) == Executed(trace) + (if e.ExecuteInvoked? then [e.step] else [])
            && SubWizardsExecuted(t) == SubWizardsExecuted(trace)
            && (TaggedCalls(trace) ==> TaggedCalls(t))
            && (DepthFirst(trace) ==> DepthFirst(t))
  {
    var tag := LastStepAttempted(prefix + e.step);
    AppendCallFilters(trace, tag, e);
    if TaggedCalls(trace) {
      AppendCallTagged(trace, tag, e);
    }
    if DepthFirst(trace) {
      AppendCallDepthFirst(trace, tag, e);
    }
  }

  lemma AppendCallFilters<T(!new)>(trace: seq<Event<T>>, tag: Event<T>, e: Event<T>)
    requires tag.LastStepAttempted? && (e.PromptInvoked? || e.ExecuteInvoked?)
    ensures var t := trace + [tag, e];
            && t[..|trace|] == trace
            && Prompted(t) == Prompted(trace) + (if e.PromptInvoked? then [e.step] else [])
            && Executed(t) == Executed(trace) + (if e.ExecuteInvoked? then [e.step] else [])
            && SubWizardsExecuted(t) == SubWizardsExecuted(trace)
  {
    var t1 := trace + [tag];
    var t := trace + [tag, e];
    assert t == t1 + [e] && t[..|trace|] == trace;
    assert Prompted(t1) == Prompted(trace) && Executed(t1) == Executed(trace)
           && SubWizardsExecuted(t1) == SubWizardsExecuted(trace) by {
      PromptedSnoc(trace, tag);
    }
    PromptedSnoc(t1, e);
  }

  lemma AppendCallTagged<T(!new)>(trace: seq<Event<T>>, tag: Event<T>, e: Event<T>)
    requires (e.PromptInvoked? && tag == LastStepAttempted("prompt-" + e.step))
             || (e.ExecuteInvoked? && tag == LastStepAttempted("execute-" + e.step))
    requires TaggedCalls(trace)
    ensures TaggedCalls(trace + [tag, e])
  {
    var t := trace + [tag, e];
    forall k: nat | k < |t|
      ensures TaggedAt(t, k)
    {
      if k < |trace| {
        assert TaggedAt(trace, k);
        assert t[k] == trace[k];
        if 0 < k {
          assert t[k - 1] == trace[k - 1];
        }
      } else if k == |trace| {
        assert t[k] == tag;
      } else {
        assert t[k] == e && t[k - 1] == tag;
      }
    }
  }

  lemma AppendCallDepthFirst<T(!new)>(trace: seq<Event<T>>, tag: Event<T>, e: Event<T>)
    requires tag.LastStepAttempted? && (e.PromptInvoked? || e.ExecuteInvoked?)
    requires DepthFirst(trace)
    ensures DepthFirst(trace + [tag, e])
  {
    var t := trace + [tag, e];
    forall k: nat | k < |t|
      ensures SubWizardPlacedAt(t, k)
    {
      if k < |trace| {
        assert SubWizardPlacedAt(trace, k);
        assert t[k] == trace[k];
        if 0 < k {
          assert t[k - 1] == trace[k - 1];
        }
        if k + 1 < |trace| {
          assert t[k + 1] == trace[k + 1];
        } else {
          assert t[k + 1] == tag;
        }
      } else if k == |trace| {
        assert t[k] == tag;
      } else {
        assert t[k] == e;
      }
    }
  }

  /** Appending an event that is not a step call keeps every call tagged. */
  lemma TaggedCallsSnoc<T(!new)>(trace: seq<Event<T>>, e: Event<T>)
    requires !e.PromptInvoked? && !e.ExecuteInvoked? && TaggedCalls(trace)
    ensures TaggedCalls(trace + [e])
  {
    var t := trace + [e];
    forall k: nat | k < |t|
      ensures TaggedAt(t, k)
    {
      if k < |trace| {
        assert TaggedAt(trace, k);
        assert t[k] == trace[k];
        if 0 < k {
          assert t[k - 1] == trace[k - 1];
        }
      }
    }
  }

  /** Appending a sub-wizard's prompt right after a step call keeps every
      sub-wizard placed right after the call that exposed it. */
  lemma DepthFirstSnoc<T(!new)>(trace: seq<Event<T>>, e: Event<T>)
    requires trace != [] && trace[|trace| - 1].PromptInvoked? && DepthFirst(trace)
    ensures DepthFirst(trace + [e])
  {
    var t := trace + [e];
    forall k: nat | k < |t|
      ensures SubWizardPlacedAt(t, k)
    {
      if k < |trace| {
        assert SubWizardPlacedAt(trace, k);
        assert t[k] == trace[k];
        if 0 < k {
          assert t[k - 1] == trace[k - 1];
        }
        if k + 1 < |trace| {
          assert t[k + 1] == trace[k + 1];
        } else {
          assert !trace[k].SubWizardPrompted?;
        }
      } else {
        assert t[k - 1] == trace[|trace| - 1];
      }
    }
  }

  /** Appending the visit of a sub-wizard right after the step call that
      exposed it. */
  lemma AppendSubWizardPrompted<T(!new)>(trace: seq<Event<T>>, e: Event<T>)
    requires e.SubWizardPrompted? && trace != [] && trace[|trace| - 1].PromptInvoked?
    ensures var t := trace + [e];
            && t[..|trace|] == trace
            && Prompted(t) == Prompted(trace)
            && (TaggedCalls(trace) ==> TaggedCalls(t))
            && (DepthFirst(trace) ==> DepthFirst(t))
  {
    PromptedSnoc(trace, e);
    if TaggedCalls(trace) {
      TaggedCallsSnoc(trace, e);
    }
    if DepthFirst(trace) {
      DepthFirstSnoc(trace, e);
    }
  }

  /** Appending the visit of a sub-wizard's `execute`. */
  lemma AppendSubWizardExecuted<T(!new)>(trace: seq<Event<T>>, e: Event<T>)
    requires e.SubWizardExecuted?
    ensures var t := trace + [e];
            && t[..|trace|] == trace
            && Executed(t) == Executed(trace)
            && SubWizardsExecuted(t) == SubWizardsExecuted(trace) + [e.wizard]
            && (TaggedCalls(trace) ==> TaggedCalls(t))
  {
    PromptedSnoc(trace, e);
    if TaggedCalls(trace) {
      TaggedCallsSnoc(trace, e);
    }
  }

  // ---------------------------------------------------------------------------
  // prompt
  // ---------------------------------------------------------------------------

  /** One turn of the prompt loop holds what its step returned and appends
      what the step exposed, and completes when the step and the exposed
      sub-wizard, if any, do. */
  lemma PromptTurnThreads<T(!new)>(step: PromptStep<T>, before: Run<T>, sub: SubRun<T>)
    ensures var r := PromptTurn(step, before, sub);
            && (r.ok ==> step.prompt(before.context) == Some(r.context)
                         && r.subWizards == before.subWizards + ExposedBy(step, before.context))
            && (step.prompt(before.context).Some? && sub.ok ==> r.ok)
  {
  }

  /** Lines 24-31: the held context is each step's return value in turn and
      sub-wizards' results never replace it; `subWizards` grows by exactly the
      sub-wizards the steps expose. */
  lemma {:induction false} PromptThreadsContext<T(!new)>(steps: seq<PromptStep<T>>, init: Run<T>, subs: seq<SubRun<T>>)
    requires |subs| == |steps| && init.ok
    ensures var r := PromptRun(steps, init, subs);
            r.ok ==> ThreadPrompts(steps, init.context) == Some(r.context)
                     && r.subWizards == init.subWizards + Exposed(steps, init.context)
    decreases |steps|
  {
    var r := PromptRun(steps, init, subs);
    if steps == [] || !r.ok {
      return;
    }
    var n := |steps| - 1;
    var before := PromptRun(steps[..n], init, subs[..n]);
    assert before.ok && r == PromptTurn(steps[n], before, subs[n]);
    PromptThreadsContext(steps[..n], init, subs[..n]);
    var c := before.context;
    assert ThreadPrompts(steps[..n], init.context) == Some(c);
    PromptTurnThreads(steps[n], before, subs[n]);
    assert ThreadPrompts(steps, init.context) == Some(r.context)
           && Exposed(steps, init.context) == Exposed(steps[..n], init.context) + ExposedBy(steps[n], c) by {
      ThreadPromptsSnoc(steps, init.context, n);
      assert steps[..n + 1] == steps;
    }
    Associative(init.subWizards, Exposed(steps[..n], init.context), ExposedBy(steps[n], c));
  }

  /** Lines 24-31: the prompt loop completes when no step throws and no
      prompted sub-wizard throws. */
  lemma {:induction false} PromptCompletes<T(!new)>(steps: seq<PromptStep<T>>, init: Run<T>, subs: seq<SubRun<T>>)
    requires |subs| == |steps| && init.ok
    requires ThreadPrompts(steps, init.context).Some? && forall j :: 0 <= j < |subs| ==> subs[j].ok
    ensures PromptRun(steps, init, subs).ok
    decreases |steps|
  {
    if steps == [] {
      return;
    }
    var n := |steps| - 1;
    var before := PromptRun(steps[..n], init, subs[..n]);
    assert ThreadPrompts(steps[..n], init.context).Some? && steps[n].prompt(ThreadPrompts(steps[..n], init.context).value).Some? by {
      ThreadPromptsSnoc(steps, init.context, n);
      assert steps[..n + 1] == steps;
    }
    assert forall j :: 0 <= j < n ==> subs[..n][j].ok;
    PromptCompletes(steps[..n], init, subs[..n]);
    PromptThreadsContext(steps[..n], init, subs[..n]);
    PromptTurnThreads(steps[n], before, subs[n]);
  }

  /** Lines 24-32: the prompt steps are called in list order, each at most
      once, and all of them, each exactly once, when nothing throws. */
  lemma {:induction false} PromptCallsStepsInOrder<T(!new)>(steps: seq<PromptStep<T>>, init: Run<T>, subs: seq<SubRun<T>>)
    requires |subs| == |steps| && init.ok
    ensures var r := PromptRun(steps, init, subs);
            exists m :: 0 <= m <= |steps| && Prompted(r.trace) == Prompted(init.trace) + PromptNames(steps[..m])
                        && (r.ok ==> m == |steps|)
    decreases |steps|
  {
    var r := PromptRun(steps, init, subs);
    if steps == [] {
      assert Prompted(r.trace) == Prompted(init.trace) + PromptNames(steps[..0]);
      return;
    }
    var n := |steps| - 1;
    var before := PromptRun(steps[..n], init, subs[..n]);
    assert r == if before.ok then PromptTurn(steps[n], before, subs[n]) else before;
    PromptCallsStepsInOrder(steps[..n], init, subs[..n]);
    var m :| 0 <= m <= n && Prompted(before.trace) == Prompted(init.trace) + PromptNames(steps[..n][..m])
             && (before.ok ==> m == n);
    assert steps[..n][..m] == steps[..m];
    if before.ok {
      PromptTurnPrompted(steps[n], before, subs[n]);
      PromptNamesSnoc(steps, n);
      Associative(Prompted(init.trace), PromptNames(steps[..n]), [steps[n].name]);
      assert steps[..n + 1] == steps;
      assert Prompted(r.trace) == Prompted(init.trace) + PromptNames(steps[..n + 1]);
    } else {
      assert Prompted(r.trace) == Prompted(init.trace) + PromptNames(steps[..m]);
    }
  }

  /** Line 26 together with lines 29-30: the prompt step that throws is the
      last one called, and so is the step whose sub-wizard throws. */
  lemma {:induction false} PromptStopsAtFirstThrow<T(!new)>(steps: seq<PromptStep<T>>, init: Run<T>, subs: seq<SubRun<T>>, k: nat, c: T)
    requires |subs| == |steps| && init.ok && k < |steps|
    requires ThreadPrompts(steps[..k], init.context) == Some(c)
    requires forall j :: 0 <= j < k ==> subs[j].ok
    requires steps[k].prompt(c).None? || (ExposedBy(steps[k], c) != [] && !subs[k].ok)
    ensures var r := PromptRun(steps, init, subs);
            !r.ok && Prompted(r.trace) == Prompted(init.trace) + PromptNames(steps[..k + 1])
  {
    var before := PromptRun(steps[..k], init, subs[..k]);
    assert before.ok && before.context == c && Prompted(before.trace) == Prompted(init.trace) + PromptNames(steps[..k]) by {
      PromptCompletes(steps[..k], init, subs[..k]);
      PromptThreadsContext(steps[..k], init, subs[..k]);
      PromptCallsStepsInOrder(steps[..k], init, subs[..k]);
      var m :| 0 <= m <= k && Prompted(before.trace) == Prompted(init.trace) + PromptNames(steps[..k][..m])
               && (before.ok ==> m == k);
      assert steps[..k][..k] == steps[..k];
    }
    var r := PromptTurn(steps[k], before, subs[k]);
    assert !r.ok && Prompted(r.trace) == Prompted(init.trace) + PromptNames(steps[..k + 1]) by {
      PromptTurnPrompted(steps[k], before, subs[k]);
      PromptNamesSnoc(steps, k);
      Associative(Prompted(init.trace), PromptNames(steps[..k]), [steps[k].name]);
    }
    assert PromptRun(steps, init, subs) == r by {
      PromptRunSnoc(steps, init, subs[..k], subs[k]);
      SliceSnoc(subs, k);
      PromptRunStops(steps, init, subs, k + 1);
    }
  }

  /** One turn of the prompt loop calls exactly its step, and stops the loop
      exactly when the step or the sub-wizard it exposes throws. */
  lemma PromptTurnPrompted<T(!new)>(step: PromptStep<T>, before: Run<T>, sub: SubRun<T>)
    ensures var r := PromptTurn(step, before, sub);
            && Prompted(r.trace) == Prompted(before.trace) + [step.name]
            && (r.ok <==> step.prompt(before.context).Some? && (ExposedBy(step, before.context) != [] ==> sub.ok))
  {
    var e := PromptInvoked(step.name, before.context);
    AppendCallFilters(before.trace, LastStepAttempted("prompt-" + e.step), e);
    var t := before.trace + [LastStepAttempted("prompt-" + e.step), e];
    match step.prompt(before.context)
    case None =>
    case Some(next) =>
      match step.subWizard(next)
      case None =>
      case Some(w) =>
        AppendSubWizardPrompted(t, SubWizardPrompted(w, sub.trace));
  }

  /** Regrouping a concatenation; called where the solver would otherwise
      search for it inside a larger proof. */
  lemma Associative<X>(a: seq<X>, b: seq<X>, c: seq<X>)
    ensures a + b + c == a + (b + c)
  {
  }

  /** A prefix grown by the next element is the next prefix. */
  lemma SliceSnoc<X>(s: seq<X>, k: nat)
    requires k < |s|
    ensures s[..k] + [s[k]] == s[..k + 1]
  {
  }

  lemma {:induction false} PromptKeepsTagsAndDepthFirst<T(!new)>(steps: seq<PromptStep<T>>, init: Run<T>, subs: seq<SubRun<T>>)
    requires |subs| == |steps|
    requires TaggedCalls(init.trace) && DepthFirst(init.trace)
    ensures TaggedCalls(PromptRun(steps, init, subs).trace) && DepthFirst(PromptRun(steps, init, subs).trace)
    decreases |steps|
  {
    if steps == [] {
      return;
    }
    var n := |steps| - 1;
    var before := PromptRun(steps[..n], init, subs[..n]);
    PromptKeepsTagsAndDepthFirst(steps[..n], init, subs[..n]);
    if before.ok {
      var e := PromptInvoked(steps[n].name, before.context);
      AppendCall(before.trace, "prompt-", e);
      var t := before.trace + [LastStepAttempted("prompt-" + e.step), e];
      match steps[n].prompt(before.context)
      case None =>
      case Some(next) =>
        match steps[n].subWizard(next)
        case None =>
        case Some(w) =>
          AppendSubWizardPrompted(t, SubWizardPrompted(w, subs[n].trace));
    }
  }

  /** What `lastStepAttempted` holds when each step is called: the value the
      trace's writes leave just before the call is that step's tag. */
  lemma TagHeldAtEachCall<T(!new)>(trace: seq<Event<T>>, before: string, k: nat)
    requires TaggedCalls(trace) && k < |trace|
    ensures trace[k].PromptInvoked? ==> LastTag(trace[..k], before) == "prompt-" + trace[k].step
    ensures trace[k].ExecuteInvoked? ==> LastTag(trace[..k], before) == "execute-" + trace[k].step
  {
    assert TaggedAt(trace, k);
    if trace[k].PromptInvoked? || trace[k].ExecuteInvoked? {
      assert trace[..k][..k - 1] == trace[..k - 1];
    }
  }

  /** Line 14 with line 29: nothing empties `subWizards`, so a second prompt,
      starting from the context and list the first one left, appends the
      sub-wizards its own steps expose after those of the first. */
  lemma SecondPromptAppendsAgain<T(!new)>(steps: seq<PromptStep<T>>, c: T, list: seq<AzureWizard<T>>,
                                          subs1: seq<SubRun<T>>, subs2: seq<SubRun<T>>)
    requires |subs1| == |steps| && |subs2| == |steps|
    requires PromptRun(steps, Run(c, list, [], true), subs1).ok
    ensures var r1 := PromptRun(steps, Run(c, list, [], true), subs1);
            var r2 := PromptRun(steps, Run(r1.context, r1.subWizards, [], true), subs2);
            && ThreadPrompts(steps, c) == Some(r1.context)
            && (r2.ok ==> r2.subWizards == list + Exposed(steps, c) + Exposed(steps, r1.context))
  {
    var r1 := PromptRun(steps, Run(c, list, [], true), subs1);
    PromptThreadsContext(steps, Run(c, list, [], true), subs1);
    PromptThreadsContext(steps, Run(r1.context, r1.subWizards, [], true), subs2);
  }

  // ---------------------------------------------------------------------------
  // execute
  // ---------------------------------------------------------------------------

  /** Lines 40-42: visiting the sub-wizards keeps the held context and list
      and only appends sub-wizard visits to the trace. */
  lemma {:induction false} SubExecuteShape<T(!new)>(wizards: seq<AzureWizard<T>>, init: Run<T>, subs: seq<SubRun<T>>)
    requires |subs| == |wizards|
    ensures var r := SubExecuteRun(wizards, init, subs);
            && r.context == init.context && r.subWizards == init.subWizards
            && |init.trace| <= |r.trace| && r.trace[..|init.trace|] == init.trace
            && (forall k :: |init.trace| <= k < |r.trace| ==> r.trace[k].SubWizardExecuted?)
            && Executed(r.trace) == Executed(init.trace)
    decreases |wizards|
  {
    if wizards != [] {
      var n := |wizards| - 1;
      var before := SubExecuteRun(wizards[..n], init, subs[..n]);
      SubExecuteShape(wizards[..n], init, subs[..n]);
      if before.ok {
        var e := SubWizardExecuted(wizards[n], subs[n].trace);
        AppendSubWizardExecuted(before.trace, e);
        assert (before.trace + [e])[..|init.trace|] == before.trace[..|init.trace|];
      }
    }
  }

  /** Lines 40-42: the sub-wizards are executed in list order, each at most
      once, and all of them when the loop completes. */
  lemma {:induction false} SubExecuteInOrder<T(!new)>(wizards: seq<AzureWizard<T>>, init: Run<T>, subs: seq<SubRun<T>>)
    requires |subs| == |wizards| && init.ok
    ensures var r := SubExecuteRun(wizards, init, subs);
            exists m :: 0 <= m <= |wizards| && SubWizardsExecuted(r.trace) == SubWizardsExecuted(init.trace) + wizards[..m]
                        && (r.ok ==> m == |wizards|)
    decreases |wizards|
  {
    var r := SubExecuteRun(wizards, init, subs);
    if wizards == [] {
      assert SubWizardsExecuted(r.trace) == SubWizardsExecuted(init.trace) + wizards[..0];
      return;
    }
    var n := |wizards| - 1;
    var before := SubExecuteRun(wizards[..n], init, subs[..n]);
    SubExecuteInOrder(wizards[..n], init, subs[..n]);
    var m :| 0 <= m <= n && SubWizardsExecuted(before.trace) == SubWizardsExecuted(init.trace) + wizards[..n][..m]
             && (before.ok ==> m == n);
    if before.ok {
      var e := SubWizardExecuted(wizards[n], subs[n].trace);
      assert r.trace == before.trace + [e];
      assert SubWizardsExecuted(r.trace) == SubWizardsExecuted(init.trace) + wizards[..n + 1] by {
        AppendSubWizardExecuted(before.trace, e);
        assert wizards[..n][..n] == wizards[..n];
        Associative(SubWizardsExecuted(init.trace), wizards[..n], [wizards[n]]);
        SliceSnoc(wizards, n);
      }
    } else {
      assert r == before;
      assert SubWizardsExecuted(r.trace) == SubWizardsExecuted(init.trace) + wizards[..m] by {
        assert wizards[..n][..m] == wizards[..m];
      }
    }
  }

  /** Lines 40-42: the loop over the sub-wizards completes when none of them
      throws. */
  lemma {:induction false} SubExecuteCompletes<T(!new)>(wizards: seq<AzureWizard<T>>, init: Run<T>, subs: seq<SubRun<T>>)
    requires |subs| == |wizards| && init.ok
    requires forall j :: 0 <= j < |subs| ==> subs[j].ok
    ensures SubExecuteRun(wizards, init, subs).ok
    decreases |wizards|
  {
    if wizards != [] {
      var n := |wizards| - 1;
      assert forall j :: 0 <= j < n ==> subs[..n][j].ok;
      SubExecuteCompletes(wizards[..n], init, subs[..n]);
    }
  }

  /** Lines 44-47: the own execute steps keep the list and append only tag
      writes and step calls to the trace, each call right after its tag. */
  lemma {:induction false} ExecuteStepsShape<T(!new)>(steps: seq<ExecuteStep<T>>, init: Run<T>)
    ensures var r := ExecuteStepsRun(steps, init);
            && r.subWizards == init.subWizards
            && |init.trace| <= |r.trace| && r.trace[..|init.trace|] == init.trace
            && (forall k :: |init.trace| <= k < |r.trace| ==> r.trace[k].LastStepAttempted? || r.trace[k].ExecuteInvoked?)
            && SubWizardsExecuted(r.trace) == SubWizardsExecuted(init.trace)
            && (TaggedCalls(init.trace) ==> TaggedCalls(r.trace))
    decreases |steps|
  {
    if steps != [] {
      var n := |steps| - 1;
      var before := ExecuteStepsRun(steps[..n], init);
      ExecuteStepsShape(steps[..n], init);
      if before.ok {
        var e := ExecuteInvoked(steps[n].name, before.context);
        AppendCall(before.trace, "execute-", e);
        var t := before.trace + [LastStepAttempted("execute-" + e.step), e];
        assert t[..|init.trace|] == before.trace[..|init.trace|];
      }
    }
  }

  /** One turn of the execute loop calls exactly its step and stops the loop
      exactly when the step throws. */
  lemma ExecuteTurnExecuted<T(!new)>(step: ExecuteStep<T>, before: Run<T>)
    ensures var r := ExecuteTurn(step, before);
            && Executed(r.trace) == Executed(before.trace) + [step.name]
            && (r.ok <==> step.execute(before.context).Some?)
  {
    var e := ExecuteInvoked(step.name, before.context);
    AppendCallFilters(before.trace, LastStepAttempted("execute-" + step.name), e);
  }

  /** Lines 44-47: the own execute steps are called in list order, at most
      once each, and each exactly once when none throws. */
  lemma {:induction false} ExecuteStepsInOrder<T(!new)>(steps: seq<ExecuteStep<T>>, init: Run<T>)
    requires init.ok
    ensures var r := ExecuteStepsRun(steps, init);
            exists m :: 0 <= m <= |steps| && Executed(r.trace) == Executed(init.trace) + ExecuteNames(steps[..m])
                        && (r.ok ==> m == |steps|)
    decreases |steps|
  {
    var r := ExecuteStepsRun(steps, init);
    if steps == [] {
      assert Executed(r.trace) == Executed(init.trace) + ExecuteNames(steps[..0]);
      return;
    }
    var n := |steps| - 1;
    var before := ExecuteStepsRun(steps[..n], init);
    assert r == if before.ok then ExecuteTurn(steps[n], before) else before;
    ExecuteStepsInOrder(steps[..n], init);
    var m :| 0 <= m <= n && Executed(before.trace) == Executed(init.trace) + ExecuteNames(steps[..n][..m])
             && (before.ok ==> m == n);
    assert steps[..n][..m] == steps[..m];
    if before.ok {
      ExecuteTurnExecuted(steps[n], before);
      ExecuteNamesSnoc(steps, n);
      Associative(Executed(init.trace), ExecuteNames(steps[..n]), [steps[n].name]);
      assert steps[..n + 1] == steps;
      assert Executed(r.trace) == Executed(init.trace) + ExecuteNames(steps[..n + 1]);
    } else {
      assert Executed(r.trace) == Executed(init.trace) + ExecuteNames(steps[..m]);
    }
  }

  /** Lines 45-46: the context the own steps leave is their own results
      threaded from the start, and they complete exactly when none throws. */
  lemma {:induction false} ExecuteStepsThreadContext<T(!new)>(steps: seq<ExecuteStep<T>>, init: Run<T>)
    requires init.ok
    ensures var r := ExecuteStepsRun(steps, init);
            && (r.ok <==> ThreadExecutes(steps, init.context).Some?)
            && (r.ok ==> ThreadExecutes(steps, init.context) == Some(r.context))
    decreases |steps|
  {
    if steps != [] {
      var n := |steps| - 1;
      ExecuteStepsThreadContext(steps[..n], init);
      ThreadExecutesSnoc(steps, init.context, n);
      assert steps[..n + 1] == steps;
    }
  }

  /** Line 46: the own execute step that throws is the last one called. */
  lemma ExecuteStepsStopAtFirstThrow<T(!new)>(steps: seq<ExecuteStep<T>>, init: Run<T>, k: nat, c: T)
    requires init.ok && k < |steps|
    requires ThreadExecutes(steps[..k], init.context) == Some(c) && steps[k].execute(c).None?
    ensures var r := ExecuteStepsRun(steps, init);
            !r.ok && Executed(r.trace) == Executed(init.trace) + ExecuteNames(steps[..k + 1])
  {
    var before := ExecuteStepsRun(steps[..k], init);
    ExecuteStepsThreadContext(steps[..k], init);
    ExecuteStepsInOrder(steps[..k], init);
    assert steps[..k][..k] == steps[..k];
    ExecuteStepsRunSnoc(steps, init, k);
    var e := ExecuteInvoked(steps[k].name, before.context);
    AppendCallFilters(before.trace, LastStepAttempted("execute-" + steps[k].name), e);
    ExecuteNamesSnoc(steps, k);
    Associative(Executed(init.trace), ExecuteNames(steps[..k]), [steps[k].name]);
    ExecuteStepsRunStops(steps, init, k + 1);
  }

  /** The shape of `execute` (lines 37-50): the output channel is shown
      first, every sub-wizard visit comes before every own step call, and
      each own step call comes right after its tag. */
  lemma ExecuteShape<T(!new)>(subWizards: seq<AzureWizard<T>>, subs: seq<SubRun<T>>, steps: seq<ExecuteStep<T>>, start: T)
    requires |subs| == |subWizards|
    ensures var r := ExecuteRun(subWizards, subs, steps, start);
            && 0 < |r.trace| && r.trace[0] == OutputShown
            && (forall a, b :: (0 <= a < |r.trace| && 0 <= b < |r.trace|
                                && r.trace[a].SubWizardExecuted? && r.trace[b].ExecuteInvoked?) ==> a < b)
            && TaggedCalls(r.trace)
  {
    var shown := Run(start, subWizards, [OutputShown], true);
    var visited := SubExecuteRun(subWizards, shown, subs);
    SubExecuteShape(subWizards, shown, subs);
    assert TaggedAt(shown.trace, 0);
    assert TaggedCalls(visited.trace) by {
      forall k: nat | k < |visited.trace|
        ensures TaggedAt(visited.trace, k)
      {
        if k == 0 {
          assert visited.trace[0] == shown.trace[0];
        }
      }
    }
    ExecuteStepsShape(steps, visited);
    var r := ExecuteStepsRun(steps, visited);
    assert r.trace[0] == visited.trace[0] == OutputShown;
  }

  /** What `execute` (lines 37-50) computes: the sub-wizards are visited in
      discovery order and the own steps called in list order; the held
      context is the own steps' results threaded from the start, which
      sub-wizards do not replace; and it completes exactly when no step
      throws, provided no sub-wizard throws. */
  lemma ExecuteOrder<T(!new)>(subWizards: seq<AzureWizard<T>>, subs: seq<SubRun<T>>, steps: seq<ExecuteStep<T>>, start: T)
    requires |subs| == |subWizards|
    ensures var r := ExecuteRun(subWizards, subs, steps, start);
            && (r.ok ==> SubWizardsExecuted(r.trace) == subWizards && Executed(r.trace) == ExecuteNames(steps)
                         && ThreadExecutes(steps, start) == Some(r.context))
            && ((forall j :: 0 <= j < |subs| ==> subs[j].ok) ==> (r.ok <==> ThreadExecutes(steps, start).Some?))
  {
    var shown := Run(start, subWizards, [OutputShown], true);
    var visited := SubExecuteRun(subWizards, shown, subs);
    SubExecuteShape(subWizards, shown, subs);
    SubExecuteInOrder(subWizards, shown, subs);
    assert SubWizardsExecuted(shown.trace) == [] && Executed(shown.trace) == [] by {
      assert shown.trace[..0] == [];
    }
    if forall j :: 0 <= j < |subs| ==> subs[j].ok {
      SubExecuteCompletes(subWizards, shown, subs);
    }
    ExecuteStepsShape(steps, visited);
    if visited.ok {
      assert subWizards[..|subWizards|] == subWizards;
      ExecuteStepsInOrder(steps, visited);
      ExecuteStepsThreadContext(steps, visited);
      assert steps[..|steps|] == steps;
    } else {
      assert steps[..0] == [];
      ExecuteStepsRunStops(steps, visited, 0);
    }
  }

  /** Lines 40-42 before 44-47: a sub-wizard that throws stops `execute`
      before any own step is called, with the context untouched. */
  lemma ExecuteSubWizardThrowStops<T(!new)>(subWizards: seq<AzureWizard<T>>, subs: seq<SubRun<T>>, steps: seq<ExecuteStep<T>>, start: T)
    requires |subs| == |subWizards|
    requires !SubExecuteRun(subWizards, Run(start, subWizards, [OutputShown], true), subs).ok
    ensures var r := ExecuteRun(subWizards, subs, steps, start);
            !r.ok && Executed(r.trace) == [] && r.context == start
  {
    var shown := Run(start, subWizards, [OutputShown], true);
    var visited := SubExecuteRun(subWizards, shown, subs);
    SubExecuteShape(subWizards, shown, subs);
    assert Executed(shown.trace) == [] by {
      assert shown.trace[..0] == [];
    }
    assert steps[..0] == [];
    ExecuteStepsRunStops(steps, visited, 0);
  }

  /** Lines 40-47: when every sub-wizard completes and the `k`th own step
      throws, all sub-wizards have been executed, the own steps up to and
      including the `k`th have been called, and no later one. */
  lemma ExecuteStopsAtFirstThrow<T(!new)>(subWizards: seq<AzureWizard<T>>, subs: seq<SubRun<T>>, steps: seq<ExecuteStep<T>>,
                                          start: T, k: nat, c: T)
    requires |subs| == |subWizards| && forall j :: 0 <= j < |subs| ==> subs[j].ok
    requires k < |steps| && ThreadExecutes(steps[..k], start) == Some(c) && steps[k].execute(c).None?
    ensures var r := ExecuteRun(subWizards, subs, steps, start);
            && !r.ok
            && SubWizardsExecuted(r.trace) == subWizards
            && Executed(r.trace) == ExecuteNames(steps[..k + 1])
  {
    var shown := Run(start, subWizards, [OutputShown], true);
    var visited := SubExecuteRun(subWizards, shown, subs);
    SubExecuteShape(subWizards, shown, subs);
    SubExecuteInOrder(subWizards, shown, subs);
    assert SubWizardsExecuted(shown.trace) == [] && Executed(shown.trace) == [] by {
      assert shown.trace[..0] == [];
    }
    SubExecuteCompletes(subWizards, shown, subs);
    assert subWizards[..|subWizards|] == subWizards;
    ExecuteStepsShape(steps, visited);
    ExecuteStepsStopAtFirstThrow(steps, visited, k, c);
  }

  // ---------------------------------------------------------------------------
  // What a recorded sub-wizard call says about that sub-wizard
  // ---------------------------------------------------------------------------

  /** Lines 29-30: a sub-wizard prompted by its parent called its own prompt
      steps in order, stopping at the first that threw, and all of them when
      it completed. */
  lemma PromptedByCallsItsSteps<T(!new)>(w: AzureWizard<T>, sub: SubRun<T>)
    requires PromptedBy(w, sub)
    ensures exists m :: 0 <= m <= |w.promptSteps| && Prompted(sub.trace) == PromptNames(w.promptSteps[..m])
                        && (sub.ok ==> m == |w.promptSteps|)
  {
    var o := sub.origin.value;
    var init := Run(o.context, o.subWizards, [], true);
    PromptCallsStepsInOrder(w.promptSteps, init, o.subs);
    var m :| 0 <= m <= |w.promptSteps| && Prompted(PromptRun(w.promptSteps, init, o.subs).trace)
                                          == Prompted(init.trace) + PromptNames(w.promptSteps[..m])
             && (PromptRun(w.promptSteps, init, o.subs).ok ==> m == |w.promptSteps|);
    assert Prompted(sub.trace) == PromptNames(w.promptSteps[..m]);
  }

  /** Line 41: a sub-wizard executed by its parent that completed executed
      its own sub-wizards in list order and then called each of its own
      execute steps, in order. */
  lemma ExecutedByRunsItsSteps<T(!new)>(w: AzureWizard<T>, sub: SubRun<T>)
    requires ExecutedBy(w, sub) && sub.ok
    ensures SubWizardsExecuted(sub.trace) == sub.origin.value.subWizards
    ensures Executed(sub.trace) == ExecuteNames(w.executeSteps)
  {
    var o := sub.origin.value;
    ExecuteOrder(o.subWizards, o.subs, w.executeSteps, o.context);
  }
}
