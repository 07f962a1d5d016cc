/** Replaying literal effects, and replaying the counterexamples of the concurrent explorer. */
module Replay {
  import opened Basics
  import opened LangTypes
  import opened LangEval

  // ---------------------------------------------------------------------------
  // Effects of an accepted candidate
  // ---------------------------------------------------------------------------

  lemma {:induction false} ApplyAppend(m: Module, s: State, es: seq<Applied>, e: Applied)
    ensures ApplyAll(m, s, es + [e])
            == match ApplyAll(m, s, es)
               case Err(c) => Err(c)
               case Ok(t) => ApplyLiteral(m, t, e)
    decreases |es|
  {
    hide ApplyLiteral;
    if es == [] {
      assert ([] + [e])[1..] == [];
    } else {
      assert (es + [e])[0] == es[0] && (es + [e])[1..] == es[1..] + [e];
      var t := ApplyLiteral(m, s, es[0]);
      if t.Ok? {
        ApplyAppend(m, t.value, es[1..], e);
      }
    }
  }

  /** The recorded effects lead from the pre-state to the candidate state. */
  ghost predicate Recorded(m: Module, pre: State, p: Progress) {
    ApplyAll(m, pre, p.applied) == Ok(p.cand)
  }

  lemma EffectRecorded(m: Module, args: seq<Value>, pre: State, ef: Effect, p: Progress)
    requires Recorded(m, pre, p)
    ensures RunEffect(m, args, pre, ef, p).Go? ==> Recorded(m, pre, RunEffect(m, args, pre, ef, p).value)
  {
    hide Eval, Literal, ApplyLiteral, ApplyAll;
    var c := Ctx(m, args, None, pre, p.cand);
    var g := if ef.guard.None? then Ok(Got(Bool(true), p.b)) else Eval(c, ef.guard.value, p.b);
    if g.Ok? {
      var a := Literal(c, ef.kind, g.value.b);
      if a.Ok? {
        ApplyAppend(m, pre, p.applied, a.value.value);
      }
    }
  }

  lemma {:induction false} EffectsRecorded(m: Module, args: seq<Value>, pre: State, efs: seq<Effect>, p: Progress)
    requires Recorded(m, pre, p)
    ensures RunEffects(m, args, pre, efs, p).Go? ==> Recorded(m, pre, RunEffects(m, args, pre, efs, p).value)
    decreases |efs|
  {
    hide RunEffect, Recorded;
    if efs != [] {
      EffectRecorded(m, args, pre, efs[0], p);
      var q := RunEffect(m, args, pre, efs[0], p);
      if q.Go? {
        EffectsRecorded(m, args, pre, efs[1..], q.value);
      }
    }
  }

  lemma BodyRecorded(m: Module, op: Operation, args: seq<Value>, pre: State)
    ensures RunBody(m, op, args, pre).Go? ==> Recorded(m, pre, RunBody(m, op, args, pre).value.0)
  {
    hide Demand, ReadAll, RunEffects, ArgsFit, ApplyLiteral;
    if ArgsFit(args, op.params) {
      var c := Ctx(m, args, None, pre, pre);
      var b := Demand(c, op.pre, map[], PreconditionRejected, Precondition);
      if b.Go? {
        var rd := ReadAll(c, op.inputs, b.value, map[]);
        if rd.Go? {
          EffectsRecorded(m, args, pre, op.effects, Progress(pre, rd.value.0, [], []));
        }
      }
    }
  }

  /** Replaying the literal effects of an accepted candidate gives exactly its post-state. */
  lemma ReplayIsEvaluation(m: Module, r: OpRef, args: seq<Value>, pre: State, scope: Option<set<InvariantId>>)
    requires EvaluateWithScope(m, r, args, pre, scope).Ok? && EvaluateWithScope(m, r, args, pre, scope).value.Accepted?
    ensures var c := EvaluateWithScope(m, r, args, pre, scope).value.cand;
            ApplyAll(m, pre, c.effects) == Ok(c.post)
  {
    hide RunBody, CheckFacts, CheckScoped, Eval, FindOperation, ApplyAll;
    var op := FindOperation(m.operations, r).value;
    BodyRecorded(m, op, args, pre);
  }

  /** A logical state that literal effects are replayed onto in place. */
  class Store {
    var state: State

    constructor (s: State)
      ensures state == s
    {
      state := s;
    }

    /** All effects or none. */
    method ApplyEffects(m: Module, es: seq<Applied>) returns (error: Option<ErrorCode>)
      modifies this
      ensures match ApplyAll(m, old(state), es)
              case Ok(s) => error == None && state == s
              case Err(e) => error == Some(e) && state == old(state)
    {
      var work := state;
      for i := 0 to |es|
        invariant state == old(state)
        invariant ApplyAll(m, work, es[i..]) == ApplyAll(m, old(state), es)
      {
        assert es[i..][1..] == es[i + 1..];
        match ApplyLiteral(m, work, es[i]) {
          case Err(e) => return Some(e);
          case Ok(s) => work := s;
        }
      }
      state := work;
      error := None;
    }
  }

  // ---------------------------------------------------------------------------
  // Concurrent acceptance
  // ---------------------------------------------------------------------------

  datatype Invocation = Invocation(operation: OpRef, args: seq<Value>)

  datatype Failure =
    | InvariantViolated(id: InvariantId, instance: Option<Value>)
    | EffectInapplicable(code: ErrorCode)
    | NoSequentialJustification

  datatype Counterexample = Counterexample(pre: State, invocations: seq<Invocation>, accepted: seq<Candidate>,
                                           failure: Failure)

  datatype Admitted = Admitted(invocations: seq<Invocation>, candidates: seq<Candidate>)

  /** The invocations accepted against the same snapshot. */
  function Admit(m: Module, pre: State, invs: seq<Invocation>): Result<Admitted> {
    if invs == [] then Ok(Admitted([], []))
    else match Evaluate(m, invs[0].operation, invs[0].args, pre)
      case Err(e) => Err(e)
      case Ok(o) =>
        match Admit(m, pre, invs[1..])
        case Err(e) => Err(e)
        case Ok(rest) =>
          if o.Accepted? then Ok(Admitted([invs[0]] + rest.invocations, [o.cand] + rest.candidates)) else Ok(rest)
  }

  function Merge(m: Module, s: State, cs: seq<Candidate>): Result<State>
    decreases |cs|
  {
    if cs == [] then Ok(s)
    else match ApplyAll(m, s, cs[0].effects)
      case Err(e) => Err(e)
      case Ok(t) => Merge(m, t, cs[1..])
  }

  /** Running the invocations one after another, all accepted with the recorded results. */
  function RunsAs(m: Module, s: State, invs: seq<Invocation>, cs: seq<Candidate>): Result<bool>
    requires |invs| == |cs|
    decreases |invs|
  {
    if invs == [] then Ok(true)
    else match Evaluate(m, invs[0].operation, invs[0].args, s)
      case Err(e) => Err(e)
      case Ok(Rejected(_)) => Ok(false)
      case Ok(Accepted(c)) => if c.result != cs[0].result then Ok(false) else RunsAs(m, c.post, invs[1..], cs[1..])
  }

  function Justified(m: Module, pre: State, invs: seq<Invocation>, cs: seq<Candidate>): Result<bool>
    requires |invs| == |cs| == 2
  {
    match RunsAs(m, pre, invs, cs)
    case Err(e) => Err(e)
    case Ok(true) => Ok(true)
    case Ok(false) => RunsAs(m, pre, [invs[1], invs[0]], [cs[1], cs[0]])
  }

  function Judge(m: Module, pre: State, a: Admitted): Result<Option<Failure>>
    requires |a.invocations| == |a.candidates|
  {
    match Merge(m, pre, a.candidates)
    case Err(e) => Ok(Some(EffectInapplicable(e)))
    case Ok(merged) =>
      match CheckInvariants(m, pre, merged)
      case Err(e) => Err(e)
      case Ok(vs) =>
        if vs != [] then Ok(Some(InvariantViolated(vs[0].id, vs[0].instance)))
        else if |a.candidates| != 2 then Ok(None)
        else match Justified(m, pre, a.invocations, a.candidates)
          case Err(e) => Err(e)
          case Ok(j) => Ok(if j then None else Some(NoSequentialJustification))
  }

  function Explore(m: Module, pre: State, invs: seq<Invocation>): Result<Option<Counterexample>> {
    match Admit(m, pre, invs)
    case Err(e) => Err(e)
    case Ok(a) =>
      AdmitLengths(m, pre, invs);
      if |a.candidates| < 2 then Ok(None)
      else match Judge(m, pre, a)
        case Err(e) => Err(e)
        case Ok(None) => Ok(None)
        case Ok(Some(f)) => Ok(Some(Counterexample(pre, a.invocations, a.candidates, f)))
  }

  lemma AdmitLengths(m: Module, pre: State, invs: seq<Invocation>)
    ensures Admit(m, pre, invs).Ok? ==>
            |Admit(m, pre, invs).value.invocations| == |Admit(m, pre, invs).value.candidates|
  {
    hide Evaluate;
    if invs != [] {
      AdmitLengths(m, pre, invs[1..]);
    }
  }

  /** Offering the admitted invocations again admits exactly the same candidates. */
  lemma {:induction false} AdmitAgain(m: Module, pre: State, invs: seq<Invocation>)
    requires Admit(m, pre, invs).Ok?
    ensures Admit(m, pre, Admit(m, pre, invs).value.invocations) == Admit(m, pre, invs)
  {
    hide Evaluate;
    if invs != [] {
      AdmitAgain(m, pre, invs[1..]);
      var rest := Admit(m, pre, invs[1..]).value;
      var o := Evaluate(m, invs[0].operation, invs[0].args, pre).value;
      if o.Accepted? {
        var again := [invs[0]] + rest.invocations;
        assert again[0] == invs[0] && again[1..] == rest.invocations;
      }
    }
  }

  /** Exploring a returned counterexample's invocations, rejected ones dropped, returns the same counterexample. */
  lemma CounterexamplesReplay(m: Module, pre: State, invs: seq<Invocation>)
    requires Explore(m, pre, invs).Ok? && Explore(m, pre, invs).value.Some?
    ensures var cx := Explore(m, pre, invs).value.value;
            cx.pre == pre && Explore(m, cx.pre, cx.invocations) == Ok(Some(cx))
  {
    hide Evaluate, Judge, Admit;
    AdmitAgain(m, pre, invs);
    AdmitLengths(m, pre, invs);
  }

  /** Whether a counterexample reproduces its class of failure. */
  function Reproduces(m: Module, cx: Counterexample): Result<bool> {
    match Explore(m, cx.pre, cx.invocations)
    case Err(e) => Err(e)
    case Ok(None) => Ok(false)
    case Ok(Some(again)) =>
      Ok(match cx.failure
         case InvariantViolated(_, _) => again.failure.InvariantViolated?
         case EffectInapplicable(_) => again.failure.EffectInapplicable?
         case NoSequentialJustification => again.failure.NoSequentialJustification?)
  }

  lemma CounterexamplesReproduce(m: Module, pre: State, invs: seq<Invocation>)
    requires Explore(m, pre, invs).Ok? && Explore(m, pre, invs).value.Some?
    ensures Reproduces(m, Explore(m, pre, invs).value.value) == Ok(true)
  {
    hide Explore;
    CounterexamplesReplay(m, pre, invs);
  }

  /**
    A returned counterexample holds at least two candidates, each accepted from the same snapshot and
    replayable on it.
   */
  lemma {:induction false} AdmittedAccepted(m: Module, pre: State, invs: seq<Invocation>, i: nat)
    requires Admit(m, pre, invs).Ok? && i < |Admit(m, pre, invs).value.candidates|
    ensures var a := Admit(m, pre, invs).value;
            && i < |a.invocations|
            && Evaluate(m, a.invocations[i].operation, a.invocations[i].args, pre) == Ok(Accepted(a.candidates[i]))
            && ApplyAll(m, pre, a.candidates[i].effects) == Ok(a.candidates[i].post)
    decreases |invs|
  {
    hide EvaluateWithScope, ApplyAll;
    var rest := Admit(m, pre, invs[1..]).value;
    var o := Evaluate(m, invs[0].operation, invs[0].args, pre).value;
    AdmitLengths(m, pre, invs);
    if o.Accepted? && i == 0 {
      ReplayIsEvaluation(m, invs[0].operation, invs[0].args, pre, None);
    } else {
      AdmittedAccepted(m, pre, invs[1..], if o.Accepted? then i - 1 else i);
    }
  }
}
