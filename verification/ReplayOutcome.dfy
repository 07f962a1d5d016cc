/**
  What the concurrent explorer answers, said of the evaluations it rests on: which invocations are
  accepted from the snapshot, what their effect lists do to it in turn, what the invariants say of the
  merged state, and whether one of the two orders runs the invocations with the same results.
 */
module ReplayOutcome {
  import opened Basics
  import opened LangTypes
  import opened LangEval
  import opened LangOutcome
  import opened Replay

  ghost function Outcomes(m: Module, s: State, inv: Invocation): Result<Outcome> {
    Evaluate(m, inv.operation, inv.args, s)
  }

  ghost predicate IsAccepted(m: Module, s: State, inv: Invocation) {
    Outcomes(m, s, inv).Ok? && Outcomes(m, s, inv).value.Accepted?
  }

  /** `js` lists, in order, the accepted invocations. */
  ghost predicate Lists(m: Module, pre: State, invs: seq<Invocation>, js: seq<nat>) {
    && (forall i, j :: 0 <= i < j < |js| ==> js[i] < js[j])
    && (forall i :: 0 <= i < |js| ==> js[i] < |invs|)
    && (forall i :: 0 <= i < |invs| ==> (i in js <==> IsAccepted(m, pre, invs[i])))
  }

  /** `a` holds the listed invocations with their candidates. */
  ghost predicate Carries(m: Module, pre: State, invs: seq<Invocation>, js: seq<nat>, a: Admitted) {
    && |a.invocations| == |a.candidates| == |js|
    && (forall i :: 0 <= i < |js| ==> js[i] < |invs| && a.invocations[i] == invs[js[i]])
    && (forall i :: 0 <= i < |js| ==> Outcomes(m, pre, a.invocations[i]) == Ok(Accepted(a.candidates[i])))
  }

  ghost predicate Admits(m: Module, pre: State, invs: seq<Invocation>, js: seq<nat>, a: Admitted) {
    Lists(m, pre, invs, js) && Carries(m, pre, invs, js, a)
  }

  lemma FrontLater(js: seq<nat>, front: bool, n: nat)
    requires n > 0
    requires forall i, j :: 0 <= i < j < |js| ==> js[i] < js[j]
    requires forall i :: 0 <= i < |js| ==> js[i] < n - 1
    ensures var ks := (if front then [0] else []) + Later(js);
            && (forall i, j :: 0 <= i < j < |ks| ==> ks[i] < ks[j])
            && (forall i :: 0 <= i < |ks| ==> ks[i] < n)
            && (forall k :: k in ks <==> (front && k == 0) || (k > 0 && k - 1 in js))
  {
  }

  lemma ListsNext(m: Module, pre: State, invs: seq<Invocation>, js: seq<nat>)
    requires invs != [] && Lists(m, pre, invs[1..], js)
    ensures Lists(m, pre, invs, (if IsAccepted(m, pre, invs[0]) then [0] else []) + Later(js))
  {
    hide IsAccepted, Later;
    var ks := (if IsAccepted(m, pre, invs[0]) then [0] else []) + Later(js);
    FrontLater(js, IsAccepted(m, pre, invs[0]), |invs|);
    forall i | 0 <= i < |invs|
      ensures i in ks <==> IsAccepted(m, pre, invs[i])
    {
      if i > 0 {
        assert invs[i] == invs[1..][i - 1];
      }
    }
  }

  lemma CarriesSkip(m: Module, pre: State, invs: seq<Invocation>, js: seq<nat>, a: Admitted)
    requires invs != [] && Carries(m, pre, invs[1..], js, a)
    ensures Carries(m, pre, invs, Later(js), a)
  {
    hide Outcomes;
    forall i | 0 <= i < |js|
      ensures Later(js)[i] < |invs| && a.invocations[i] == invs[Later(js)[i]]
    {
      assert invs[js[i] + 1] == invs[1..][js[i]];
    }
  }

  lemma CarriesFront(m: Module, pre: State, invs: seq<Invocation>, js: seq<nat>, a: Admitted, c: Candidate)
    requires invs != [] && Outcomes(m, pre, invs[0]) == Ok(Accepted(c)) && Carries(m, pre, invs, js, a)
    ensures Carries(m, pre, invs, [0] + js, Admitted([invs[0]] + a.invocations, [c] + a.candidates))
  {
    hide Outcomes;
    var b := Admitted([invs[0]] + a.invocations, [c] + a.candidates);
    forall i | 0 < i < |js| + 1
      ensures ([0] + js)[i] < |invs| && b.invocations[i] == invs[([0] + js)[i]]
      ensures Outcomes(m, pre, b.invocations[i]) == Ok(Accepted(b.candidates[i]))
    {
      assert b.invocations[i] == a.invocations[i - 1] && b.candidates[i] == a.candidates[i - 1];
    }
  }

  /** Admission fails exactly when some evaluation does, and otherwise keeps exactly the accepted, in order. */
  lemma {:induction false} AdmitsExactly(m: Module, pre: State, invs: seq<Invocation>)
    ensures Admit(m, pre, invs).Ok? <==> forall i :: 0 <= i < |invs| ==> Outcomes(m, pre, invs[i]).Ok?
    ensures Admit(m, pre, invs).Ok? ==> exists js: seq<nat> :: Admits(m, pre, invs, js, Admit(m, pre, invs).value)
  {
    hide Evaluate, Lists, Carries;
    if invs == [] {
      assert Admits(m, pre, invs, [], Admitted([], [])) by { AdmitsNothing(m, pre); }
    } else {
      AdmitsExactly(m, pre, invs[1..]);
      assert Outcomes(m, pre, invs[0]) == Evaluate(m, invs[0].operation, invs[0].args, pre);
      assert forall i :: 0 < i < |invs| ==> invs[i] == invs[1..][i - 1];
      assert forall i :: 0 <= i < |invs| - 1 ==> invs[1..][i] == invs[i + 1];
      if Outcomes(m, pre, invs[0]).Ok? && Admit(m, pre, invs[1..]).Ok? {
        var js: seq<nat> :| Admits(m, pre, invs[1..], js, Admit(m, pre, invs[1..]).value);
        ListsNext(m, pre, invs, js);
        CarriesSkip(m, pre, invs, js, Admit(m, pre, invs[1..]).value);
        if IsAccepted(m, pre, invs[0]) {
          CarriesFront(m, pre, invs, Later(js), Admit(m, pre, invs[1..]).value, Outcomes(m, pre, invs[0]).value.cand);
          assert Admits(m, pre, invs, [0] + Later(js), Admit(m, pre, invs).value);
        } else {
          assert [] + Later(js) == Later(js);
          assert Admits(m, pre, invs, Later(js), Admit(m, pre, invs).value);
        }
      }
    }
  }

  lemma AdmitsNothing(m: Module, pre: State)
    ensures Admits(m, pre, [], [], Admitted([], []))
  {
  }

  // ---------------------------------------------------------------------------
  // Merging
  // ---------------------------------------------------------------------------

  /** The states the effect lists of the first `n` candidates lead through. */
  ghost predicate Leads(m: Module, pre: State, cs: seq<Candidate>, n: nat, ss: seq<State>) {
    && n <= |cs| && |ss| == n + 1 && ss[0] == pre
    && forall i :: 0 <= i < n ==> ApplyAll(m, ss[i], cs[i].effects) == Ok(ss[i + 1])
  }

  /** Effect lists are applied in turn; the first one that fails decides. */
  lemma {:induction false} MergesExactly(m: Module, pre: State, cs: seq<Candidate>) returns (n: nat, ss: seq<State>)
    ensures Leads(m, pre, cs, n, ss)
    ensures Merge(m, pre, cs).Ok? ==> n == |cs| && Merge(m, pre, cs) == Ok(ss[n])
    ensures Merge(m, pre, cs).Err? ==> n < |cs| && ApplyAll(m, ss[n], cs[n].effects) == Err(Merge(m, pre, cs).code)
    decreases |cs|
  {
    hide ApplyAll;
    if cs == [] || ApplyAll(m, pre, cs[0].effects).Err? {
      n, ss := 0, [pre];
    } else {
      var next := ApplyAll(m, pre, cs[0].effects).value;
      var k, ts := MergesExactly(m, next, cs[1..]);
      n, ss := k + 1, [pre] + ts;
      forall i | 0 <= i < n
        ensures ApplyAll(m, ss[i], cs[i].effects) == Ok(ss[i + 1])
      {
        if i > 0 {
          assert ss[i] == ts[i - 1] && cs[i] == cs[1..][i - 1] && ss[i + 1] == ts[i];
        }
      }
    }
  }

  lemma {:induction false} LeadsUnique(m: Module, pre: State, cs: seq<Candidate>, n: nat, ss: seq<State>, k: nat,
                                       ts: seq<State>, i: nat)
    requires Leads(m, pre, cs, n, ss) && Leads(m, pre, cs, k, ts) && i <= n && i <= k
    ensures ss[i] == ts[i]
  {
    hide ApplyAll;
    if i > 0 {
      LeadsUnique(m, pre, cs, n, ss, k, ts, i - 1);
    }
  }

  /** All effect lists apply, one after the other, and lead to `merged`. */
  ghost predicate MergedInto(m: Module, pre: State, cs: seq<Candidate>, merged: State) {
    exists ss: seq<State> :: Leads(m, pre, cs, |cs|, ss) && ss[|cs|] == merged
  }

  /** Some effect list is the first that does not apply, because of `e`. */
  ghost predicate MergeFails(m: Module, pre: State, cs: seq<Candidate>, e: ErrorCode) {
    exists n: nat, ss: seq<State> :: Leads(m, pre, cs, n, ss) && n < |cs| && ApplyAll(m, ss[n], cs[n].effects) == Err(e)
  }

  lemma MergeMeans(m: Module, pre: State, cs: seq<Candidate>)
    ensures forall s :: Merge(m, pre, cs) == Ok(s) <==> MergedInto(m, pre, cs, s)
    ensures forall e :: Merge(m, pre, cs) == Err(e) <==> MergeFails(m, pre, cs, e)
  {
    hide Merge, ApplyAll;
    var n, ss := MergesExactly(m, pre, cs);
    forall s
      ensures Merge(m, pre, cs) == Ok(s) <==> MergedInto(m, pre, cs, s)
    {
      if MergedInto(m, pre, cs, s) {
        var ts: seq<State> :| Leads(m, pre, cs, |cs|, ts) && ts[|cs|] == s;
        LeadsSame(m, pre, cs, n, ss, |cs|, ts);
      }
    }
    forall e
      ensures Merge(m, pre, cs) == Err(e) <==> MergeFails(m, pre, cs, e)
    {
      if MergeFails(m, pre, cs, e) {
        var k: nat, ts: seq<State> :| Leads(m, pre, cs, k, ts) && k < |cs|
                                      && ApplyAll(m, ts[k], cs[k].effects) == Err(e);
        LeadsSame(m, pre, cs, n, ss, k, ts);
      }
    }
  }

  /** Two runs of the merge that both end, by success or failure, are the same run. */
  lemma LeadsSame(m: Module, pre: State, cs: seq<Candidate>, n: nat, ss: seq<State>, k: nat, ts: seq<State>)
    requires Leads(m, pre, cs, n, ss) && Leads(m, pre, cs, k, ts)
    requires n == |cs| || ApplyAll(m, ss[n], cs[n].effects).Err?
    requires k == |cs| || ApplyAll(m, ts[k], cs[k].effects).Err?
    ensures n == k && ss[n] == ts[k]
  {
    hide ApplyAll;
    assert n < k ==> ApplyAll(m, ts[n], cs[n].effects) == Ok(ts[n + 1]);
    assert k < n ==> ApplyAll(m, ss[k], cs[k].effects) == Ok(ss[k + 1]);
    LeadsUnique(m, pre, cs, n, ss, k, ts, if n < k then n else k);
  }

  // ---------------------------------------------------------------------------
  // The answer
  // ---------------------------------------------------------------------------

  /** After the first candidate, the other invocation is accepted with the result it had. */
  ghost predicate Follows(m: Module, s: State, inv: Invocation, result: Value) {
    IsAccepted(m, s, inv) && Outcomes(m, s, inv).value.cand.result == result
  }

  /** One after the other works, in one of the two orders. */
  ghost predicate Serializable(m: Module, a: Admitted)
    requires |a.invocations| == |a.candidates| == 2
  {
    || Follows(m, a.candidates[0].post, a.invocations[1], a.candidates[1].result)
    || Follows(m, a.candidates[1].post, a.invocations[0], a.candidates[0].result)
  }

  ghost predicate SerialErrs(m: Module, a: Admitted)
    requires |a.invocations| == |a.candidates| == 2
  {
    || Outcomes(m, a.candidates[0].post, a.invocations[1]).Err?
    || Outcomes(m, a.candidates[1].post, a.invocations[0]).Err?
  }

  lemma RunsPair(m: Module, pre: State, x: Invocation, y: Invocation, cx: Candidate, cy: Candidate)
    requires Outcomes(m, pre, x) == Ok(Accepted(cx))
    ensures var r, o := RunsAs(m, pre, [x, y], [cx, cy]), Outcomes(m, cx.post, y);
            if o.Err? then r == Err(o.code) else r == Ok(Follows(m, cx.post, y, cy.result))
  {
    hide Evaluate;
    assert [x, y][1..] == [y] && [cx, cy][1..] == [cy];
    assert [y][1..] == [] && [cy][1..] == [];
    RunsOne(m, cx.post, y, cy);
  }

  lemma RunsOne(m: Module, s: State, y: Invocation, cy: Candidate)
    ensures var r, o := RunsAs(m, s, [y], [cy]), Outcomes(m, s, y);
            if o.Err? then r == Err(o.code) else r == Ok(Follows(m, s, y, cy.result))
  {
    hide Evaluate;
  }

  lemma JustifiedMeans(m: Module, pre: State, a: Admitted)
    requires |a.invocations| == |a.candidates| == 2
    requires forall i :: 0 <= i < 2 ==> Outcomes(m, pre, a.invocations[i]) == Ok(Accepted(a.candidates[i]))
    ensures var r := Justified(m, pre, a.invocations, a.candidates);
            && (!SerialErrs(m, a) ==> r == Ok(Serializable(m, a)))
            && (r.Err? ==> SerialErrs(m, a))
            && (r.Ok? ==> r.value == Serializable(m, a))
  {
    hide RunsAs, Outcomes;
    var x, y := a.invocations[0], a.invocations[1];
    var cx, cy := a.candidates[0], a.candidates[1];
    assert a.invocations == [x, y] && a.candidates == [cx, cy];
    RunsPair(m, pre, x, y, cx, cy);
    RunsPair(m, pre, y, x, cy, cx);
  }

  /** What speaks against concurrent acceptance, if anything. */
  ghost predicate Objection(m: Module, pre: State, a: Admitted, f: Failure)
    requires |a.invocations| == |a.candidates|
  {
    match f
    case EffectInapplicable(e) => MergeFails(m, pre, a.candidates, e)
    case InvariantViolated(id, instance) =>
      exists merged, j: nat ::
        && MergedInto(m, pre, a.candidates, merged) && FirstWord(m, m.invariants, pre, merged, None, j)
        && CheckInvariant(m, m.invariants[j], pre, merged).found != []
        && CheckInvariant(m, m.invariants[j], pre, merged).found[0] == Violation(id, instance)
    case NoSequentialJustification =>
      exists merged ::
        && MergedInto(m, pre, a.candidates, merged) && AllHold(m, pre, merged)
        && |a.candidates| == 2 && !Serializable(m, a)
  }

  ghost predicate AllHold(m: Module, pre: State, post: State) {
    forall i :: 0 <= i < |m.invariants| ==> CheckInvariant(m, m.invariants[i], pre, post) == Checked([], None)
  }

  /** An invariant, or the second evaluation of a pair, is in error. */
  ghost predicate Trouble(m: Module, pre: State, a: Admitted)
    requires |a.invocations| == |a.candidates|
  {
    || (exists merged :: MergedInto(m, pre, a.candidates, merged) && Errs(m, m.invariants, pre, merged, None))
    || (|a.candidates| == 2 && SerialErrs(m, a))
  }

  /** With a merged state at hand, every objection is about that state. */
  lemma ObjectionsMerged(m: Module, pre: State, a: Admitted, merged: State, f: Failure)
    requires |a.invocations| == |a.candidates| && MergedInto(m, pre, a.candidates, merged)
    ensures Objection(m, pre, a, f)
            <==> match f
                 case EffectInapplicable(_) => false
                 case InvariantViolated(id, instance) =>
                   exists j: nat ::
                     && FirstWord(m, m.invariants, pre, merged, None, j)
                     && CheckInvariant(m, m.invariants[j], pre, merged).found != []
                     && CheckInvariant(m, m.invariants[j], pre, merged).found[0] == Violation(id, instance)
                 case NoSequentialJustification =>
                   AllHold(m, pre, merged) && |a.candidates| == 2 && !Serializable(m, a)
  {
    hide Merge, MergedInto, MergeFails, CheckInvariant, Serializable, FirstWord, AllHold;
    MergeMeans(m, pre, a.candidates);
    forall s | MergedInto(m, pre, a.candidates, s)
      ensures s == merged
    {
      assert Merge(m, pre, a.candidates) == Ok(s) && Merge(m, pre, a.candidates) == Ok(merged);
    }
  }

  lemma FirstWordUnique(m: Module, invs: seq<Invariant>, pre: State, post: State, i: nat, j: nat)
    requires FirstWord(m, invs, pre, post, None, i) && FirstWord(m, invs, pre, post, None, j)
    ensures i == j
  {
    hide CheckInvariant;
    assert InScope(invs[i], None) && InScope(invs[j], None);
  }

  /** The judgement of what was admitted: every objection is found, and nothing else. */
  lemma JudgesExactly(m: Module, pre: State, a: Admitted)
    requires |a.invocations| == |a.candidates|
    requires forall i :: 0 <= i < |a.candidates| ==> Outcomes(m, pre, a.invocations[i]) == Ok(Accepted(a.candidates[i]))
    ensures var r := Judge(m, pre, a);
            && (r.Ok? ==> forall f :: Objection(m, pre, a, f) <==> r == Ok(Some(f)))
            && (r.Err? ==> Trouble(m, pre, a))
  {
    hide Merge, MergedInto, MergeFails, CheckScoped, CheckInvariant, Justified, Serializable, FirstWord, AllHold, Errs,
         SerialErrs, Outcomes;
    MergeMeans(m, pre, a.candidates);
    var merge := Merge(m, pre, a.candidates);
    if merge.Err? {
      MergeObjection(m, pre, a, merge.code);
    } else {
      assert MergedInto(m, pre, a.candidates, merge.value);
      forall f
        ensures Judge(m, pre, a).Ok? ==> (Objection(m, pre, a, f) <==> Judge(m, pre, a) == Ok(Some(f)))
      {
        JudgesMerged(m, pre, a, merge.value, f);
      }
      JudgesMerged(m, pre, a, merge.value, NoSequentialJustification);
    }
  }

  lemma MergeObjection(m: Module, pre: State, a: Admitted, e: ErrorCode)
    requires |a.invocations| == |a.candidates| && Merge(m, pre, a.candidates) == Err(e)
    ensures forall f :: Objection(m, pre, a, f) <==> f == EffectInapplicable(e)
  {
    hide Merge, MergedInto, MergeFails, CheckInvariant, Serializable, FirstWord, AllHold;
    MergeMeans(m, pre, a.candidates);
  }

  lemma JudgesMerged(m: Module, pre: State, a: Admitted, merged: State, f: Failure)
    requires |a.invocations| == |a.candidates| && Merge(m, pre, a.candidates) == Ok(merged)
    requires MergedInto(m, pre, a.candidates, merged)
    requires forall i :: 0 <= i < |a.candidates| ==> Outcomes(m, pre, a.invocations[i]) == Ok(Accepted(a.candidates[i]))
    ensures Judge(m, pre, a).Ok? ==> (Objection(m, pre, a, f) <==> Judge(m, pre, a) == Ok(Some(f)))
    ensures Judge(m, pre, a).Err? ==> Trouble(m, pre, a)
  {
    hide Merge, MergedInto, MergeFails, CheckScoped, CheckInvariant, Justified, Serializable, Errs, SerialErrs,
         Outcomes, Objection;
    ObjectionsMerged(m, pre, a, merged, f);
    ScopedExactly(m, m.invariants, pre, merged, None);
    var vs := CheckInvariants(m, pre, merged);
    assert forall i :: 0 <= i < |m.invariants| ==> InScope(m.invariants[i], None);
    if vs.Ok? && vs.value != [] {
      var j: nat :| FirstWord(m, m.invariants, pre, merged, None, j)
                    && CheckInvariant(m, m.invariants[j], pre, merged).found != []
                    && vs.value[0] == CheckInvariant(m, m.invariants[j], pre, merged).found[0];
      forall i: nat | FirstWord(m, m.invariants, pre, merged, None, i)
        ensures i == j
      {
        FirstWordUnique(m, m.invariants, pre, merged, i, j);
      }
    } else if vs.Ok? {
      NoFirstWord(m, pre, merged);
      if |a.candidates| == 2 {
        JustifiedMeans(m, pre, a);
      }
    }
  }

  lemma NoFirstWord(m: Module, pre: State, post: State)
    requires AllHold(m, pre, post)
    ensures forall j: nat :: !FirstWord(m, m.invariants, pre, post, None, j)
  {
    hide CheckInvariant;
  }

  /**
    The explorer: an evaluation error is passed on; fewer than two accepted invocations are no
    counterexample; otherwise the answer is exactly the objection there is, if there is one.
   */
  lemma ExploresExactly(m: Module, pre: State, invs: seq<Invocation>) returns (js: seq<nat>, a: Admitted)
    ensures (exists i :: 0 <= i < |invs| && Outcomes(m, pre, invs[i]).Err?) ==> Explore(m, pre, invs).Err?
    ensures (forall i :: 0 <= i < |invs| ==> Outcomes(m, pre, invs[i]).Ok?) ==> Admits(m, pre, invs, js, a)
    ensures var r := Explore(m, pre, invs);
            (forall i :: 0 <= i < |invs| ==> Outcomes(m, pre, invs[i]).Ok?) ==>
              && (|js| < 2 ==> r == Ok(None))
              && (|js| >= 2 && r.Ok? ==>
                    forall f :: Objection(m, pre, a, f)
                                <==> r == Ok(Some(Counterexample(pre, a.invocations, a.candidates, f))))
              && (r.Err? ==> |js| >= 2 && Trouble(m, pre, a))
  {
    hide Outcomes, Admit, Judge, Lists, Objection, Trouble;
    AdmitsExactly(m, pre, invs);
    AdmitLengths(m, pre, invs);
    js, a := [], Admitted([], []);
    if Admit(m, pre, invs).Ok? {
      a := Admit(m, pre, invs).value;
      js :| Admits(m, pre, invs, js, a);
      JudgesExactly(m, pre, a);
    }
  }
}
