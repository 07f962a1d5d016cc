/** The explorer as it runs: accepted lists that grow, one merged state updated effect list by effect list. */
module ReplayExec {
  import opened Basics
  import opened LangTypes
  import opened LangEval
  import opened Replay

  /** What was admitted so far, and what the rest of the invocations adds to it. */
  function Extend(a: Admitted, rest: Result<Admitted>): Result<Admitted> {
    match rest
    case Err(e) => Err(e)
    case Ok(b) => Ok(Admitted(a.invocations + b.invocations, a.candidates + b.candidates))
  }

  lemma ExtendMore(a: Admitted, inv: Invocation, c: Candidate, rest: Result<Admitted>)
    ensures Extend(Admitted(a.invocations + [inv], a.candidates + [c]), rest) ==
            Extend(a, match rest case Err(e) => Err(e)
                   case Ok(b) => Ok(Admitted([inv] + b.invocations, [c] + b.candidates)))
  {
    if rest.Ok? {
      var b := rest.value;
      assert a.invocations + [inv] + b.invocations == a.invocations + ([inv] + b.invocations);
      assert a.candidates + [c] + b.candidates == a.candidates + ([c] + b.candidates);
    }
  }

  lemma ExtendEnds(a: Admitted, all: Result<Admitted>)
    requires all == Extend(a, Ok(Admitted([], [])))
    ensures all == Ok(a)
  {
    assert a.invocations + [] == a.invocations && a.candidates + [] == a.candidates;
  }

  lemma ExtendStarts(all: Result<Admitted>)
    ensures Extend(Admitted([], []), all) == all
  {
    if all.Ok? {
      assert [] + all.value.invocations == all.value.invocations && [] + all.value.candidates == all.value.candidates;
    }
  }

  /** Evaluates every invocation against the same snapshot and keeps the accepted ones. */
  method AdmitAll(m: Module, pre: State, invs: seq<Invocation>) returns (r: Result<Admitted>)
    ensures r == Admit(m, pre, invs)
  {
    hide Evaluate;
    var a := Admitted([], []);
    ExtendStarts(Admit(m, pre, invs));
    for i := 0 to |invs|
      invariant Admit(m, pre, invs) == Extend(a, Admit(m, pre, invs[i..]))
    {
      assert invs[i..][1..] == invs[i + 1..];
      match Evaluate(m, invs[i].operation, invs[i].args, pre) {
        case Err(e) => { return Err(e); }
        case Ok(o) => {
          if o.Accepted? {
            ExtendMore(a, invs[i], o.cand, Admit(m, pre, invs[i + 1..]));
            a := Admitted(a.invocations + [invs[i]], a.candidates + [o.cand]);
          }
        }
      }
    }
    ExtendEnds(a, Admit(m, pre, invs));
    return Ok(a);
  }

  /** Applies each accepted effect list to one merged state. */
  method MergeAll(m: Module, pre: State, cs: seq<Candidate>) returns (r: Result<State>)
    ensures r == Merge(m, pre, cs)
  {
    hide ApplyAll;
    var merged := new Store(pre);
    for i := 0 to |cs|
      invariant Merge(m, merged.state, cs[i..]) == Merge(m, pre, cs)
    {
      assert cs[i..][1..] == cs[i + 1..];
      var error := merged.ApplyEffects(m, cs[i].effects);
      if error.Some? {
        return Err(error.value);
      }
    }
    return Ok(merged.state);
  }

  /** Runs the invocations in the given order on a copy of the snapshot. */
  method RunInOrder(m: Module, pre: State, invs: seq<Invocation>, cs: seq<Candidate>) returns (r: Result<bool>)
    requires |invs| == |cs|
    ensures r == RunsAs(m, pre, invs, cs)
  {
    hide Evaluate;
    var st := pre;
    for i := 0 to |invs|
      invariant RunsAs(m, st, invs[i..], cs[i..]) == RunsAs(m, pre, invs, cs)
    {
      assert invs[i..][1..] == invs[i + 1..] && cs[i..][1..] == cs[i + 1..];
      match Evaluate(m, invs[i].operation, invs[i].args, st) {
        case Err(e) => { return Err(e); }
        case Ok(Rejected(_)) => { return Ok(false); }
        case Ok(Accepted(c)) => {
          if c.result != cs[i].result {
            return Ok(false);
          }
          st := c.post;
        }
      }
    }
    return Ok(true);
  }

  method SequentiallyJustified(m: Module, pre: State, invs: seq<Invocation>, cs: seq<Candidate>)
    returns (r: Result<bool>)
    requires |invs| == |cs| == 2
    ensures r == Justified(m, pre, invs, cs)
  {
    hide RunsAs;
    r := RunInOrder(m, pre, invs, cs);
    if r == Ok(false) {
      r := RunInOrder(m, pre, [invs[1], invs[0]], [cs[1], cs[0]]);
    }
  }

  method JudgeMerged(m: Module, pre: State, a: Admitted) returns (r: Result<Option<Failure>>)
    requires |a.invocations| == |a.candidates|
    ensures r == Judge(m, pre, a)
  {
    hide Merge, CheckInvariants, Justified;
    var merged := MergeAll(m, pre, a.candidates);
    match merged {
      case Err(e) => { return Ok(Some(EffectInapplicable(e))); }
      case Ok(s) => {
        match CheckInvariants(m, pre, s) {
          case Err(e) => { return Err(e); }
          case Ok(vs) => {
            if vs != [] {
              return Ok(Some(InvariantViolated(vs[0].id, vs[0].instance)));
            }
            if |a.candidates| != 2 {
              return Ok(None);
            }
            var j := SequentiallyJustified(m, pre, a.invocations, a.candidates);
            match j {
              case Err(e) => { return Err(e); }
              case Ok(ok) => { return Ok(if ok then None else Some(NoSequentialJustification)); }
            }
          }
        }
      }
    }
  }

  /** Concurrent acceptance of the invocations on one snapshot, or the counterexample it leads to. */
  method ExploreConcurrent(m: Module, pre: State, invs: seq<Invocation>) returns (r: Result<Option<Counterexample>>)
    ensures r == Explore(m, pre, invs)
  {
    hide Admit, Judge;
    AdmitLengths(m, pre, invs);
    var admitted := AdmitAll(m, pre, invs);
    match admitted {
      case Err(e) => { return Err(e); }
      case Ok(a) => {
        if |a.candidates| < 2 {
          return Ok(None);
        }
        var f := JudgeMerged(m, pre, a);
        match f {
          case Err(e) => { return Err(e); }
          case Ok(None) => { return Ok(None); }
          case Ok(Some(failure)) => { return Ok(Some(Counterexample(pre, a.invocations, a.candidates, failure))); }
        }
      }
    }
  }
}
