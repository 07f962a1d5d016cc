/**
  Joint template selection: operations whose affected records overlap are planned together, and each
  group takes the cheapest template every member accepts, or the serial one.
 */
module Selection {
  import opened LangTypes
  import opened SemanticClosure

  // ---------------------------------------------------------------------------
  // Templates and candidates
  // ---------------------------------------------------------------------------

  const C5_SERIAL := 6

  datatype Cost = Cost(participants: nat, rounds: nat, transfer: nat, template: nat)

  /** The lexicographic order on cost descriptors. */
  predicate Cheaper(a: Cost, b: Cost) {
    if a.participants != b.participants then a.participants < b.participants
    else if a.rounds != b.rounds then a.rounds < b.rounds
    else if a.transfer != b.transfer then a.transfer < b.transfer
    else a.template < b.template
  }

  /** The component that counts `k`-th, first the most important. */
  ghost function Rank(c: Cost, k: nat): nat {
    if k == 0 then c.participants else if k == 1 then c.rounds else if k == 2 then c.transfer else c.template
  }

  ghost predicate DiffersAt(a: Cost, b: Cost, k: nat) {
    k < 4 && Rank(a, k) < Rank(b, k) && forall j :: 0 <= j < k ==> Rank(a, j) == Rank(b, j)
  }

  /** Cheaper means less in the first component that differs; it is a strict total order. */
  lemma CheaperExactly(a: Cost, b: Cost, c: Cost)
    ensures Cheaper(a, b) <==> exists k: nat :: DiffersAt(a, b, k)
    ensures Cheaper(a, b) || a == b || Cheaper(b, a)
    ensures !(Cheaper(a, b) && Cheaper(b, a)) && !Cheaper(a, a)
    ensures Cheaper(a, b) && Cheaper(b, c) ==> Cheaper(a, c)
  {
    if Cheaper(a, b) {
      var k := if a.participants != b.participants then 0 else if a.rounds != b.rounds then 1
               else if a.transfer != b.transfer then 2 else 3;
      assert DiffersAt(a, b, k);
    }
    if k: nat :| DiffersAt(a, b, k) {
      assert k > 0 ==> Rank(a, 0) == Rank(b, 0);
      assert k > 1 ==> Rank(a, 1) == Rank(b, 1);
      assert k > 2 ==> Rank(a, 2) == Rank(b, 2);
    }
  }

  datatype Template = Template(id: nat, cost: Cost)

  datatype Status = Proven | Disproven | Unknown

  /** What the analysis says about one operation under one template, obligation by obligation. */
  datatype Candidate = Candidate(operation: OpRef, template: nat, judgments: seq<Status>)

  predicate AllProven(c: Candidate) {
    forall i :: 0 <= i < |c.judgments| ==> c.judgments[i] == Proven
  }

  predicate Accepted(cs: seq<Candidate>, o: OpRef, t: nat) {
    exists i :: 0 <= i < |cs| && cs[i].operation == o && cs[i].template == t && AllProven(cs[i])
  }

  predicate AllAccept(cs: seq<Candidate>, group: set<OpRef>, t: nat) {
    forall o :: o in group ==> Accepted(cs, o, t)
  }

  /** Every candidate is about a template of the library. */
  ghost predicate FromLibrary(lib: seq<Template>, cs: seq<Candidate>) {
    forall i :: 0 <= i < |cs| ==> exists j :: 0 <= j < |lib| && lib[j].id == cs[i].template
  }

  function SerialCost(lib: seq<Template>): (c: Cost)
    requires exists j :: 0 <= j < |lib| && lib[j].id == C5_SERIAL
    ensures exists j :: 0 <= j < |lib| && lib[j].id == C5_SERIAL && lib[j].cost == c
  {
    if lib[0].id == C5_SERIAL then lib[0].cost
    else
      assert exists j :: 0 <= j < |lib[1..]| && lib[1..][j].id == C5_SERIAL by {
        var j :| 0 <= j < |lib| && lib[j].id == C5_SERIAL;
        assert lib[1..][j - 1].id == C5_SERIAL;
      }
      SerialCost(lib[1..])
  }

  // ---------------------------------------------------------------------------
  // Library order by cost
  // ---------------------------------------------------------------------------

  /** Positions of the library ordered by cost, and by position where costs are equal. */
  predicate Precedes(lib: seq<Template>, i: nat, j: nat)
    requires i < |lib| && j < |lib|
  {
    Cheaper(lib[i].cost, lib[j].cost) || (lib[i].cost == lib[j].cost && i < j)
  }

  ghost predicate Below(order: seq<nat>, n: nat) {
    forall a :: 0 <= a < |order| ==> order[a] < n
  }

  ghost predicate Ranked(lib: seq<Template>, order: seq<nat>, n: nat)
    requires n <= |lib|
  {
    && Below(order, n)
    && (forall i :: 0 <= i < n ==> i in order)
    && (forall a, b :: 0 <= a < b < |order| ==> Precedes(lib, order[a], order[b]))
  }

  /** A stable sort of the library by cost. */
  method ByCost(lib: seq<Template>) returns (order: seq<nat>)
    ensures Ranked(lib, order, |lib|)
  {
    order := [];
    for n := 0 to |lib|
      invariant Ranked(lib, order, n)
    {
      var at := |order|;
      while at > 0 && Cheaper(lib[n].cost, lib[order[at - 1]].cost)
        invariant 0 <= at <= |order|
        invariant forall a :: at <= a < |order| ==> Cheaper(lib[n].cost, lib[order[a]].cost)
      {
        at := at - 1;
      }
      RankedBefore(lib, order, n, at);
      RankedInsert(lib, order, n, at);
      order := Inserted(order, at, n);
    }
  }

  lemma RankedBefore(lib: seq<Template>, order: seq<nat>, n: nat, at: nat)
    requires n < |lib| && at <= |order| && Ranked(lib, order, n)
    requires at > 0 ==> !Cheaper(lib[n].cost, lib[order[at - 1]].cost)
    ensures forall a :: 0 <= a < at ==> Precedes(lib, order[a], n)
  {
    forall a | 0 <= a < at
      ensures Precedes(lib, order[a], n)
    {
      if a < at - 1 {
        assert Precedes(lib, order[a], order[at - 1]);
      }
    }
  }

  function Inserted(order: seq<nat>, at: nat, n: nat): (next: seq<nat>)
    requires at <= |order|
    ensures |next| == |order| + 1 && next[at] == n
    ensures forall a :: 0 <= a < at ==> next[a] == order[a]
    ensures forall a :: at < a < |next| ==> next[a] == order[a - 1]
  {
    order[..at] + [n] + order[at..]
  }

  lemma InsertedHolds(order: seq<nat>, at: nat, n: nat)
    requires at <= |order|
    ensures forall i :: i in order || i == n ==> i in Inserted(order, at, n)
  {
    var next := Inserted(order, at, n);
    forall i | i in order
      ensures i in next
    {
      var a :| 0 <= a < |order| && order[a] == i;
      assert next[if a < at then a else a + 1] == i;
    }
  }

  lemma RankedInsert(lib: seq<Template>, order: seq<nat>, n: nat, at: nat)
    requires n < |lib| && at <= |order| && Ranked(lib, order, n)
    requires forall a :: 0 <= a < at ==> Precedes(lib, order[a], n)
    requires forall a :: at <= a < |order| ==> Cheaper(lib[n].cost, lib[order[a]].cost)
    ensures Ranked(lib, Inserted(order, at, n), n + 1)
  {
    hide Cheaper;
    hide Inserted;
    var next := Inserted(order, at, n);
    InsertedHolds(order, at, n);
    forall a, b | 0 <= a < b < |next|
      ensures Precedes(lib, next[a], next[b])
    {
      if a == at {
        assert next[b] == order[b - 1];
      } else if b == at {
        assert next[a] == order[a];
      } else {
        var x, y := if a < at then a else a - 1, if b < at then b else b - 1;
        assert Precedes(lib, order[x], order[y]);
      }
    }
  }

  // ---------------------------------------------------------------------------
  // Components
  // ---------------------------------------------------------------------------

  type Graph = map<OpRef, set<OpRef>>

  ghost predicate Symmetric(g: Graph) {
    && (forall a, b :: a in g && b in g[a] ==> b in g)
    && (forall a, b :: a in g && b in g[a] ==> a in g[b])
  }

  ghost predicate Walk(g: Graph, path: seq<OpRef>) {
    |path| > 0 && forall i :: 0 <= i < |path| - 1 ==> path[i] in g && path[i + 1] in g[path[i]]
  }

  ghost predicate WalksTo(g: Graph, path: seq<OpRef>, a: OpRef, b: OpRef) {
    Walk(g, path) && path[0] == a && path[|path| - 1] == b
  }

  /** A chain of interacting operations leads from one to the other. */
  ghost predicate Chained(g: Graph, a: OpRef, b: OpRef) {
    exists path :: WalksTo(g, path, a, b)
  }

  lemma ChainedSelf(g: Graph, a: OpRef)
    ensures Chained(g, a, a)
  {
    assert WalksTo(g, [a], a, a);
  }

  lemma ChainedNext(g: Graph, a: OpRef, b: OpRef, c: OpRef)
    requires Chained(g, a, b) && b in g && c in g[b]
    ensures Chained(g, a, c)
  {
    var p :| WalksTo(g, p, a, b);
    assert WalksTo(g, p + [c], a, c);
  }

  /** A set closed under interaction holds whatever its members are chained to. */
  lemma {:induction false} ClosedHolds(g: Graph, group: set<OpRef>, path: seq<OpRef>, a: OpRef, b: OpRef)
    requires forall o, p :: o in group && o in g && p in g[o] ==> p in group
    requires WalksTo(g, path, a, b) && a in group
    ensures b in group
    decreases |path|
  {
    if |path| > 1 {
      var shorter := path[..|path| - 1];
      forall i | 0 <= i < |shorter| - 1
        ensures shorter[i] in g && shorter[i + 1] in g[shorter[i]]
      {
        assert path[i + 1] in g[path[i]];
      }
      ClosedHolds(g, group, shorter, a, path[|path| - 2]);
      assert path[|path| - 1] in g[path[|path| - 2]];
    }
  }

  lemma ChainJoin(g: Graph, a: OpRef, b: OpRef, c: OpRef)
    requires Chained(g, a, b) && Chained(g, b, c)
    ensures Chained(g, a, c)
  {
    var p :| WalksTo(g, p, a, b);
    var q :| WalksTo(g, q, b, c);
    var r := p + q[1..];
    forall i | 0 <= i < |r| - 1
      ensures r[i] in g && r[i + 1] in g[r[i]]
    {
      if i >= |p| - 1 {
        assert r[i] == q[i + 1 - |p|] && r[i + 1] == q[i + 2 - |p|];
      }
    }
    assert WalksTo(g, r, a, c);
  }

  lemma ChainFlip(g: Graph, a: OpRef, b: OpRef)
    requires Symmetric(g) && Chained(g, a, b)
    ensures Chained(g, b, a)
  {
    var p :| WalksTo(g, p, a, b);
    var q := seq(|p|, i requires 0 <= i < |p| => p[|p| - 1 - i]);
    forall i | 0 <= i < |q| - 1
      ensures q[i] in g && q[i + 1] in g[q[i]]
    {
      var j := |p| - 2 - i;
      assert p[j + 1] in g[p[j]];
    }
    assert WalksTo(g, q, b, a);
  }

  ghost predicate IsComponent(g: Graph, start: OpRef, group: set<OpRef>) {
    forall o :: o in group <==> Chained(g, start, o)
  }

  method Push(stack: seq<OpRef>, next: set<OpRef>, group: set<OpRef>) returns (pushed: seq<OpRef>)
    ensures forall o :: o in pushed <==> o in stack || (o in next && o !in group)
  {
    pushed := stack;
    var todo := next;
    while todo != {}
      invariant todo <= next
      invariant forall o :: o in pushed <==> o in stack || (o in next && o !in todo && o !in group)
      decreases |todo|
    {
      var p :| p in todo;
      if p !in group {
        pushed := pushed + [p];
      }
      todo := todo - {p};
    }
  }

  /** Everything found is chained to the start, and every neighbour is found or waiting. */
  ghost predicate Searched(g: Graph, start: OpRef, group: set<OpRef>, stack: seq<OpRef>) {
    && group <= g.Keys
    && (start in group || start in stack)
    && (forall o :: o in stack ==> o in g && Chained(g, start, o))
    && (forall o :: o in group ==> Chained(g, start, o))
    && (forall o, p :: o in group && o in g && p in g[o] ==> p in group || p in stack)
  }

  /** Depth-first search with an explicit stack from one operation. */
  method Component(g: Graph, start: OpRef) returns (group: set<OpRef>)
    requires Symmetric(g) && start in g
    ensures group <= g.Keys && IsComponent(g, start, group)
  {
    hide Chained;
    hide Symmetric;
    group := {};
    var stack := [start];
    ChainedSelf(g, start);
    while stack != []
      invariant Searched(g, start, group, stack)
      decreases |g.Keys - group|, |stack|
    {
      var o := stack[|stack| - 1];
      ghost var before := stack;
      stack := stack[..|stack| - 1];
      assert before == stack + [o];
      if o !in group {
        var pushed := Push(stack, g[o], group + {o});
        Visit(g, start, o);
        SearchStep(g, start, group, stack, pushed, o);
        Shrinks(g.Keys, group, o);
        group := group + {o};
        stack := pushed;
      } else {
        SearchSkip(g, start, group, stack, o);
      }
    }
    SearchDone(g, start, group);
  }

  lemma Shrinks(all: set<OpRef>, group: set<OpRef>, o: OpRef)
    requires o in all && o !in group
    ensures |all - (group + {o})| < |all - group|
  {
    assert all - group == (all - (group + {o})) + {o};
  }

  lemma SearchStep(g: Graph, start: OpRef, group: set<OpRef>, stack: seq<OpRef>, pushed: seq<OpRef>, o: OpRef)
    requires Symmetric(g) && Searched(g, start, group, stack + [o]) && o !in group && o in g
    requires forall p :: p in g[o] ==> Chained(g, start, p)
    requires forall p :: p in pushed <==> p in stack || (p in g[o] && p !in group + {o})
    ensures Searched(g, start, group + {o}, pushed)
  {
    hide Chained;
    assert o in stack + [o];
    assert forall p :: p in stack + [o] <==> p in stack || p == o;
  }

  lemma SearchSkip(g: Graph, start: OpRef, group: set<OpRef>, stack: seq<OpRef>, o: OpRef)
    requires Searched(g, start, group, stack + [o]) && o in group
    ensures Searched(g, start, group, stack)
  {
    hide Chained;
    assert forall p :: p in stack + [o] <==> p in stack || p == o;
  }

  lemma SearchDone(g: Graph, start: OpRef, group: set<OpRef>)
    requires Searched(g, start, group, [])
    ensures IsComponent(g, start, group)
  {
    forall o | Chained(g, start, o)
      ensures o in group
    {
      var path :| WalksTo(g, path, start, o);
      ClosedHolds(g, group, path, start, o);
    }
  }

  lemma Visit(g: Graph, start: OpRef, o: OpRef)
    requires o in g && Chained(g, start, o)
    ensures forall p :: p in g[o] ==> Chained(g, start, p)
  {
    forall p | p in g[o]
      ensures Chained(g, start, p)
    {
      ChainedNext(g, start, o, p);
    }
  }

  /** The components partition the operations into their chains. */
  ghost predicate Components(g: Graph, ops: seq<OpRef>, groups: seq<set<OpRef>>) {
    && (forall i, o :: 0 <= i < |groups| && o in groups[i] ==> o in g)
    && (forall i :: 0 <= i < |groups| ==> groups[i] != {})
    && (forall i, j :: 0 <= i < j < |groups| ==> groups[i] !! groups[j])
    && (forall o :: o in ops ==> exists i :: 0 <= i < |groups| && o in groups[i])
    && (forall i, a, b :: 0 <= i < |groups| && a in groups[i] ==> (b in groups[i] <==> Chained(g, a, b)))
  }

  method FindComponents(g: Graph, ops: seq<OpRef>) returns (groups: seq<set<OpRef>>)
    requires Symmetric(g) && forall o :: o in ops ==> o in g
    ensures Components(g, ops, groups)
  {
    groups := [];
    var seen: set<OpRef> := {};
    for k := 0 to |ops|
      invariant Components(g, ops[..k], groups)
      invariant forall o :: o in seen <==> exists i :: 0 <= i < |groups| && o in groups[i]
    {
      assert ops[..k + 1] == ops[..k] + [ops[k]];
      if ops[k] !in seen {
        var group := Component(g, ops[k]);
        ComponentsNext(g, ops[..k], groups, ops[k], group);
        SeenNext(groups, seen, group);
        groups, seen := groups + [group], seen + group;
      } else {
        ComponentsSame(g, ops[..k], groups, ops[k]);
      }
    }
    assert ops[..|ops|] == ops;
  }

  lemma SeenNext(groups: seq<set<OpRef>>, seen: set<OpRef>, group: set<OpRef>)
    requires forall o :: o in seen <==> exists i :: 0 <= i < |groups| && o in groups[i]
    ensures var next := groups + [group]; forall o :: o in seen + group <==> exists i :: 0 <= i < |next| && o in next[i]
  {
    var next := groups + [group];
    forall o
      ensures o in seen + group <==> exists i :: 0 <= i < |next| && o in next[i]
    {
      if o in seen {
        var i :| 0 <= i < |groups| && o in groups[i];
        assert o in next[i];
      } else if o in group {
        assert o in next[|groups|];
      }
    }
  }

  lemma ComponentsSame(g: Graph, ops: seq<OpRef>, groups: seq<set<OpRef>>, o: OpRef)
    requires Components(g, ops, groups) && exists i :: 0 <= i < |groups| && o in groups[i]
    ensures Components(g, ops + [o], groups)
  {
  }

  lemma ComponentsNext(g: Graph, ops: seq<OpRef>, groups: seq<set<OpRef>>, o: OpRef, group: set<OpRef>)
    requires Symmetric(g) && Components(g, ops, groups) && group <= g.Keys && IsComponent(g, o, group)
    requires !exists i :: 0 <= i < |groups| && o in groups[i]
    ensures Components(g, ops + [o], groups + [group])
  {
    hide Chained;
    hide Symmetric;
    var next := groups + [group];
    ChainedSelf(g, o);
    assert o in next[|groups|];
    forall i, x | 0 <= i < |groups| && x in group
      ensures x !in groups[i]
    {
      ChainFlip(g, o, x);
    }
    forall a, b | a in group
      ensures b in group <==> Chained(g, a, b)
    {
      ChainFlip(g, o, a);
      if b in group {
        ChainJoin(g, a, o, b);
      }
      if Chained(g, a, b) {
        ChainJoin(g, o, a, b);
      }
    }
    forall p | p in ops
      ensures exists i :: 0 <= i < |next| && p in next[i]
    {
      var i :| 0 <= i < |groups| && p in groups[i];
      assert p in next[i];
    }
  }

  // ---------------------------------------------------------------------------
  // Choosing a template for one component
  // ---------------------------------------------------------------------------

  ghost predicate HasSerial(lib: seq<Template>) {
    exists j :: 0 <= j < |lib| && lib[j].id == C5_SERIAL
  }

  /** The library's j-th template undercuts the serial one and every member proves its obligations. */
  ghost predicate Suitable(lib: seq<Template>, cs: seq<Candidate>, group: set<OpRef>, j: nat)
    requires j < |lib| && HasSerial(lib)
  {
    lib[j].id != C5_SERIAL && Cheaper(lib[j].cost, SerialCost(lib)) && AllAccept(cs, group, lib[j].id)
  }

  /** The first suitable template in cost order. */
  ghost predicate Best(lib: seq<Template>, cs: seq<Candidate>, group: set<OpRef>, j: nat)
    requires HasSerial(lib)
  {
    && j < |lib| && Suitable(lib, cs, group, j)
    && forall i :: 0 <= i < |lib| && i != j && Suitable(lib, cs, group, i) ==> Precedes(lib, j, i)
  }

  /** The cheapest suitable template, or the serial one when there is none or a member is forced to it. */
  ghost predicate IsChoice(lib: seq<Template>, cs: seq<Candidate>, forced: set<OpRef>, group: set<OpRef>, id: nat)
    requires HasSerial(lib)
  {
    if group * forced != {} || (forall i :: 0 <= i < |lib| ==> !Suitable(lib, cs, group, i))
    then id == C5_SERIAL
    else exists j: nat :: Best(lib, cs, group, j) && id == lib[j].id
  }

  /** Walks the library in cost order and stops at the first template that fits. */
  method Choose(lib: seq<Template>, cs: seq<Candidate>, forced: set<OpRef>, group: set<OpRef>) returns (id: nat)
    requires HasSerial(lib) && AllAccept(cs, group, C5_SERIAL)
    ensures IsChoice(lib, cs, forced, group, id) && AllAccept(cs, group, id)
  {
    var order := ByCost(lib);
    for k := 0 to |order|
      invariant forall a :: 0 <= a < k ==> !Suitable(lib, cs, group, order[a]) || group * forced != {}
    {
      var t := lib[order[k]];
      if t.id != C5_SERIAL && Cheaper(t.cost, SerialCost(lib)) {
        if group * forced != {} {
          return C5_SERIAL;
        }
        if AllAccept(cs, group, t.id) {
          FirstIsBest(lib, cs, group, order, k);
          return t.id;
        }
      }
    }
    forall i | 0 <= i < |lib| && group * forced == {}
      ensures !Suitable(lib, cs, group, i)
    {
      assert i in order;
      var a :| 0 <= a < |order| && order[a] == i;
    }
    return C5_SERIAL;
  }

  lemma FirstIsBest(lib: seq<Template>, cs: seq<Candidate>, group: set<OpRef>, order: seq<nat>, k: nat)
    requires HasSerial(lib) && Ranked(lib, order, |lib|) && k < |order| && Suitable(lib, cs, group, order[k])
    requires forall a :: 0 <= a < k ==> !Suitable(lib, cs, group, order[a])
    ensures Best(lib, cs, group, order[k])
  {
    forall i | 0 <= i < |lib| && i != order[k] && Suitable(lib, cs, group, i)
      ensures Precedes(lib, order[k], i)
    {
      assert i in order;
      var a :| 0 <= a < |order| && order[a] == i;
      assert k < a;
    }
  }

  ghost predicate Assigned(chosen: map<OpRef, nat>, group: set<OpRef>, id: nat, next: map<OpRef, nat>) {
    && (forall o :: o in next <==> o in chosen || o in group)
    && (forall o :: o in group ==> o in next && next[o] == id)
    && (forall o :: o in chosen && o !in group ==> o in next && next[o] == chosen[o])
  }

  method Assign(chosen: map<OpRef, nat>, group: set<OpRef>, id: nat) returns (next: map<OpRef, nat>)
    ensures Assigned(chosen, group, id, next)
  {
    next := chosen;
    var todo := group;
    while todo != {}
      invariant todo <= group && Assigned(chosen, group - todo, id, next)
      decreases |todo|
    {
      var o :| o in todo;
      next, todo := next[o := id], todo - {o};
    }
    assert group - todo == group;
  }

  datatype Outcome = NoSafePlan(group: set<OpRef>) | Planned(groups: seq<set<OpRef>>, chosen: map<OpRef, nat>)

  /** All members have one template, the group's choice, and every member proves its obligations. */
  ghost predicate Settled(lib: seq<Template>, cs: seq<Candidate>, forced: set<OpRef>, group: set<OpRef>,
                          chosen: map<OpRef, nat>)
    requires HasSerial(lib)
  {
    exists id :: IsChoice(lib, cs, forced, group, id) && AllAccept(cs, group, id) &&
                 forall o :: o in group ==> o in chosen && chosen[o] == id
  }

  ghost predicate Chosen(lib: seq<Template>, cs: seq<Candidate>, forced: set<OpRef>, groups: seq<set<OpRef>>,
                         chosen: map<OpRef, nat>)
  {
    groups == [] || (HasSerial(lib) && forall i :: 0 <= i < |groups| ==> Settled(lib, cs, forced, groups[i], chosen))
  }

  method SelectTemplates(lib: seq<Template>, cs: seq<Candidate>, forced: set<OpRef>, groups: seq<set<OpRef>>)
    returns (out: Outcome)
    requires FromLibrary(lib, cs)
    requires forall i :: 0 <= i < |groups| ==> groups[i] != {}
    requires forall i, j :: 0 <= i < j < |groups| ==> groups[i] !! groups[j]
    ensures out.NoSafePlan? <==> exists i :: 0 <= i < |groups| && !AllAccept(cs, groups[i], C5_SERIAL)
    ensures out.NoSafePlan? ==> out.group in groups && !AllAccept(cs, out.group, C5_SERIAL)
    ensures out.Planned? ==> out.groups == groups && Chosen(lib, cs, forced, groups, out.chosen)
  {
    var chosen: map<OpRef, nat> := map[];
    for k := 0 to |groups|
      invariant forall i :: 0 <= i < k ==> AllAccept(cs, groups[i], C5_SERIAL)
      invariant Chosen(lib, cs, forced, groups[..k], chosen)
    {
      if !AllAccept(cs, groups[k], C5_SERIAL) {
        return NoSafePlan(groups[k]);
      }
      SerialExists(lib, cs, groups[k]);
      var id := Choose(lib, cs, forced, groups[k]);
      var base := Assign(chosen, groups[k], C5_SERIAL);
      var next := Assign(base, groups[k], id);
      assert Assigned(chosen, groups[k], id, next);
      ChosenNext(lib, cs, forced, groups, k, chosen, next, id);
      chosen := next;
    }
    assert groups[..|groups|] == groups;
    return Planned(groups, chosen);
  }

  lemma SerialExists(lib: seq<Template>, cs: seq<Candidate>, group: set<OpRef>)
    requires FromLibrary(lib, cs) && group != {} && AllAccept(cs, group, C5_SERIAL)
    ensures HasSerial(lib)
  {
    var o :| o in group;
    assert Accepted(cs, o, C5_SERIAL);
  }

  lemma ChosenNext(lib: seq<Template>, cs: seq<Candidate>, forced: set<OpRef>, groups: seq<set<OpRef>>, k: nat,
                   chosen: map<OpRef, nat>, next: map<OpRef, nat>, id: nat)
    requires HasSerial(lib) && k < |groups| && Chosen(lib, cs, forced, groups[..k], chosen)
    requires forall i, j :: 0 <= i < j < |groups| ==> groups[i] !! groups[j]
    requires IsChoice(lib, cs, forced, groups[k], id) && AllAccept(cs, groups[k], id)
    requires Assigned(chosen, groups[k], id, next)
    ensures Chosen(lib, cs, forced, groups[..k + 1], next)
  {
    hide IsChoice;
    hide AllAccept;
    var done := groups[..k + 1];
    forall i | 0 <= i < |done|
      ensures Settled(lib, cs, forced, done[i], next)
    {
      if i < k {
        assert groups[..k][i] == groups[i];
        var d :| IsChoice(lib, cs, forced, groups[i], d) && AllAccept(cs, groups[i], d) &&
                 forall o :: o in groups[i] ==> o in chosen && chosen[o] == d;
        assert groups[i] !! groups[k];
        assert forall o :: o in groups[i] ==> o in next && next[o] == d;
      }
    }
  }

  // ---------------------------------------------------------------------------
  // The whole selection
  // ---------------------------------------------------------------------------

  ghost predicate DistinctOps(ops: seq<Operation>) {
    forall i, j :: 0 <= i < j < |ops| ==> ops[i].identity != ops[j].identity
  }

  function Identities(ops: seq<Operation>): (ids: seq<OpRef>)
    ensures |ids| == |ops| && forall i :: 0 <= i < |ops| ==> ids[i] == ops[i].identity
  {
    if ops == [] then [] else [ops[0].identity] + Identities(ops[1..])
  }

  /** One candidate per operation and template, in canonical order. */
  method Analyze(ops: seq<Operation>, lib: seq<Template>, judge: (Operation, Template) -> seq<Status>)
    returns (cs: seq<Candidate>)
    ensures |cs| == |ops| * |lib| && FromLibrary(lib, cs)
    ensures forall o, t :: Accepted(cs, o, t) <==> Provable(ops, lib, judge, o, t)
  {
    cs := [];
    for i := 0 to |ops|
      invariant |cs| == i * |lib| && FromLibrary(lib, cs)
      invariant forall o, t :: Accepted(cs, o, t) <==> Provable(ops[..i], lib, judge, o, t)
    {
      for j := 0 to |lib|
        invariant |cs| == i * |lib| + j && FromLibrary(lib, cs)
        invariant forall o, t :: Accepted(cs, o, t) <==>
                    Provable(ops[..i], lib, judge, o, t) || Provable([ops[i]], lib[..j], judge, o, t)
      {
        var c := Candidate(ops[i].identity, lib[j].id, judge(ops[i], lib[j]));
        forall o, t
          ensures Accepted(cs + [c], o, t) <==>
                  Provable(ops[..i], lib, judge, o, t) || Provable([ops[i]], lib[..j + 1], judge, o, t)
        {
          AcceptedNext(cs, c, o, t);
          ProvableTemplate(ops[i], lib, j, judge, o, t);
        }
        cs := cs + [c];
      }
      assert lib[..|lib|] == lib;
      forall o, t
        ensures Provable(ops[..i + 1], lib, judge, o, t) <==>
                Provable(ops[..i], lib, judge, o, t) || Provable([ops[i]], lib, judge, o, t)
      {
        ProvableOperation(ops, i, lib, judge, o, t);
      }
    }
    assert ops[..|ops|] == ops;
  }

  /** The operation proves every obligation the template puts on it. */
  ghost predicate Provable(ops: seq<Operation>, lib: seq<Template>, judge: (Operation, Template) -> seq<Status>,
                           o: OpRef, t: nat)
  {
    exists i, j :: 0 <= i < |ops| && 0 <= j < |lib| && ProvesAt(ops[i], lib[j], judge, o, t)
  }

  ghost predicate ProvesAt(op: Operation, template: Template, judge: (Operation, Template) -> seq<Status>, o: OpRef,
                           t: nat)
  {
    op.identity == o && template.id == t && forall k :: 0 <= k < |judge(op, template)| ==>
        judge(op, template)[k] == Proven
  }

  lemma AcceptedNext(cs: seq<Candidate>, c: Candidate, o: OpRef, t: nat)
    ensures Accepted(cs + [c], o, t) <==> Accepted(cs, o, t) || (c.operation == o && c.template == t && AllProven(c))
  {
    var all := cs + [c];
    if Accepted(cs, o, t) {
      var i :| 0 <= i < |cs| && cs[i].operation == o && cs[i].template == t && AllProven(cs[i]);
      assert all[i] == cs[i];
    }
    if c.operation == o && c.template == t && AllProven(c) {
      assert all[|cs|] == c;
    }
  }

  lemma ProvableTemplate(op: Operation, lib: seq<Template>, j: nat, judge: (Operation, Template) -> seq<Status>,
                         o: OpRef, t: nat)
    requires j < |lib|
    ensures Provable([op], lib[..j + 1], judge, o, t) <==>
            Provable([op], lib[..j], judge, o, t) || ProvesAt(op, lib[j], judge, o, t)
  {
    hide ProvesAt;
    if Provable([op], lib[..j], judge, o, t) {
      var x, y :| 0 <= x < 1 && 0 <= y < j && ProvesAt([op][x], lib[..j][y], judge, o, t);
      assert lib[..j + 1][y] == lib[..j][y];
    }
    if ProvesAt(op, lib[j], judge, o, t) {
      assert ProvesAt([op][0], lib[..j + 1][j], judge, o, t);
    }
  }

  lemma ProvableOperation(ops: seq<Operation>, i: nat, lib: seq<Template>,
                          judge: (Operation, Template) -> seq<Status>, o: OpRef, t: nat)
    requires i < |ops|
    ensures Provable(ops[..i + 1], lib, judge, o, t) <==>
            Provable(ops[..i], lib, judge, o, t) || Provable([ops[i]], lib, judge, o, t)
  {
    hide ProvesAt;
    if Provable(ops[..i], lib, judge, o, t) {
      var x, y :| 0 <= x < i && 0 <= y < |lib| && ProvesAt(ops[..i][x], lib[y], judge, o, t);
      assert ops[..i + 1][x] == ops[..i][x];
    }
    if Provable([ops[i]], lib, judge, o, t) {
      var x, y :| 0 <= x < 1 && 0 <= y < |lib| && ProvesAt([ops[i]][x], lib[y], judge, o, t);
      assert ops[..i + 1][i] == [ops[i]][x];
    }
    if Provable(ops[..i + 1], lib, judge, o, t) {
      var x, y :| 0 <= x < i + 1 && 0 <= y < |lib| && ProvesAt(ops[..i + 1][x], lib[y], judge, o, t);
      if x < i {
        assert ops[..i][x] == ops[..i + 1][x];
      } else {
        assert [ops[i]][0] == ops[..i + 1][x];
      }
    }
  }

  ghost predicate ClosedOver(op: Operation, invs: seq<Invariant>, recs: set<RecordId>) {
    exists ids :: IsClosure(op, invs, recs, ids)
  }

  /** `ts` are the templates of the records `recs`. */
  ghost predicate TemplatesOf(recs: set<RecordId>, templateOf: map<RecordId, nat>, ts: seq<nat>) {
    forall t :: t in ts <==> exists r :: r in recs && r in templateOf && templateOf[r] == t
  }

  ghost predicate Classes(rs: seq<RecordId>, invs: seq<Invariant>, templateOf: map<RecordId, nat>) {
    && (forall r :: r in templateOf <==> r in rs)
    && (forall a, b :: a in rs && b in rs ==> (templateOf[a] == templateOf[b] <==> Connected(invs, a, b)))
  }

  ghost predicate Affects(ops: seq<Operation>, invs: seq<Invariant>, records: map<OpRef, set<RecordId>>) {
    forall i :: 0 <= i < |ops| ==> ops[i].identity in records && ClosedOver(ops[i], invs, records[ops[i].identity])
  }

  /** The affected records and the templates of every operation. */
  method CloseAll(ops: seq<Operation>, invs: seq<Invariant>, templateOf: map<RecordId, nat>)
    returns (records: map<OpRef, set<RecordId>>, templates: map<OpRef, seq<nat>>)
    requires DistinctOps(ops)
    ensures records.Keys == templates.Keys && Affects(ops, invs, records)
    ensures forall o :: o in records ==> Named(ops, o) && TemplatesOf(records[o], templateOf, templates[o])
  {
    records, templates := map[], map[];
    for i := 0 to |ops|
      invariant records.Keys == templates.Keys && Affects(ops[..i], invs, records)
      invariant forall o :: o in records ==> Named(ops[..i], o) && TemplatesOf(records[o], templateOf, templates[o])
    {
      var recs, ids := OperationClosure(ops[i], invs);
      var ts := OperationTemplates(recs, templateOf);
      AffectsNext(ops, i, invs, records, recs, ids);
      NamedNext(ops, i);
      records, templates := records[ops[i].identity := recs], templates[ops[i].identity := ts];
    }
    assert ops[..|ops|] == ops;
  }

  lemma NamedNext(ops: seq<Operation>, i: nat)
    requires i < |ops|
    ensures Named(ops[..i + 1], ops[i].identity)
    ensures forall o :: Named(ops[..i], o) ==> Named(ops[..i + 1], o)
  {
    assert ops[..i + 1][i] == ops[i];
    forall o | Named(ops[..i], o)
      ensures Named(ops[..i + 1], o)
    {
      var j :| 0 <= j < i && ops[..i][j].identity == o;
      assert ops[..i + 1][j].identity == o;
    }
  }

  lemma {:induction false} AffectsNext(ops: seq<Operation>, i: nat, invs: seq<Invariant>,
                                       records: map<OpRef, set<RecordId>>, recs: set<RecordId>, ids: set<InvariantId>)
    requires DistinctOps(ops) && i < |ops| && Affects(ops[..i], invs, records) && IsClosure(ops[i], invs, recs, ids)
    ensures Affects(ops[..i + 1], invs, records[ops[i].identity := recs])
  {
    hide IsClosure;
    var next := records[ops[i].identity := recs];
    forall j | 0 <= j < i + 1
      ensures ops[j].identity in next && ClosedOver(ops[j], invs, next[ops[j].identity])
    {
      if j < i {
        assert ops[..i][j] == ops[j];
      }
    }
  }

  /** Two operations interact when they share a template. */
  method Interactions(ops: seq<OpRef>, templates: map<OpRef, seq<nat>>) returns (g: Graph)
    requires forall o :: o in ops <==> o in templates
    ensures ShareGraph(g, templates)
  {
    g := map[];
    for i := 0 to |ops|
      invariant forall a :: a in g <==> a in ops[..i]
      invariant forall a, b :: a in g ==> (b in g[a] <==> b in templates && Share(templates[a], templates[b]))
    {
      var near: set<OpRef> := {};
      for j := 0 to |ops|
        invariant forall b :: b in near <==> b in ops[..j] && Share(templates[ops[i]], templates[b])
      {
        assert ops[..j + 1] == ops[..j] + [ops[j]];
        assert ops[j] in ops && ops[i] in ops;
        if Share(templates[ops[i]], templates[ops[j]]) {
          near := near + {ops[j]};
        }
      }
      assert ops[..|ops|] == ops;
      assert ops[..i + 1] == ops[..i] + [ops[i]];
      g := g[ops[i] := near];
    }
    assert ops[..|ops|] == ops;
  }

  predicate Share(a: seq<nat>, b: seq<nat>) {
    exists i :: 0 <= i < |a| && a[i] in b
  }

  /** Operations share a template exactly when their affected records overlap. */
  lemma {:induction false} ShareIsOverlap(rs: seq<RecordId>, invs: seq<Invariant>, templateOf: map<RecordId, nat>,
                                          x: Operation, y: Operation,
                       a: set<RecordId>, b: set<RecordId>, ta: seq<nat>, tb: seq<nat>)
    requires Classes(rs, invs, templateOf) && a <= Elements(rs) && b <= Elements(rs)
    requires ClosedOver(x, invs, a) && ClosedOver(y, invs, b) && TemplatesOf(a, templateOf, ta) &&
             TemplatesOf(b, templateOf, tb)
    ensures Share(ta, tb) <==> a * b != {}
  {
    if Share(ta, tb) {
      var i :| 0 <= i < |ta| && ta[i] in tb;
      var t := ta[i];
      assert t in ta;
      var r :| r in a && r in templateOf && templateOf[r] == t;
      var q :| q in b && q in templateOf && templateOf[q] == t;
      assert Connected(invs, q, r);
      var ids :| IsClosure(y, invs, b, ids);
      ClosedConnected(invs, y.identity.operation, b, q, r);
      assert r in a * b;
    }
    if a * b != {} {
      var r :| r in a * b;
      assert templateOf[r] in ta && templateOf[r] in tb;
    }
  }

  ghost predicate OverlapGraph(g: Graph, records: map<OpRef, set<RecordId>>) {
    g.Keys == records.Keys && forall a, b :: a in g ==> (b in g[a] <==> b in g && records[a] * records[b] != {})
  }

  lemma OverlapSymmetric(g: Graph, records: map<OpRef, set<RecordId>>)
    requires OverlapGraph(g, records)
    ensures Symmetric(g)
  {
    forall a, b | a in g && b in g[a]
      ensures b in g && a in g[b]
    {
      assert records[a] * records[b] == records[b] * records[a];
    }
  }

  /** Operations of different components affect disjoint records. */
  lemma {:induction false} ComponentsDisjoint(g: Graph, records: map<OpRef, set<RecordId>>, ops: seq<OpRef>,
                                              groups: seq<set<OpRef>>, i: nat, j: nat, a: OpRef, b: OpRef)
    requires OverlapGraph(g, records) && Components(g, ops, groups)
    requires i < |groups| && j < |groups| && i != j && a in groups[i] && b in groups[j]
    ensures records[a] !! records[b]
  {
    assert b !in groups[i] by {
      assert groups[if i < j then i else j] !! groups[if i < j then j else i];
    }
    forall r | r in records[a]
      ensures r !in records[b]
    {
      if r in records[b] {
        assert r in records[a] * records[b];
        OverlapChained(g, records, a, b);
      }
    }
  }

  lemma OverlapChained(g: Graph, records: map<OpRef, set<RecordId>>, a: OpRef, b: OpRef)
    requires OverlapGraph(g, records) && a in g && b in g && records[a] * records[b] != {}
    ensures Chained(g, a, b)
  {
    ChainedSelf(g, a);
    ChainedNext(g, a, a, b);
  }

  ghost predicate GroupsApart(records: map<OpRef, set<RecordId>>, groups: seq<set<OpRef>>) {
    forall i, j, a, b :: 0 <= i < j < |groups| && a in groups[i] && b in groups[j] && a in records && b in records ==>
      records[a] !! records[b]
  }

  ghost predicate Named(ops: seq<Operation>, o: OpRef) {
    exists i :: 0 <= i < |ops| && ops[i].identity == o
  }

  ghost predicate FootprintsDeclared(ops: seq<Operation>, rs: seq<RecordId>) {
    forall i :: 0 <= i < |ops| ==> FootprintRecords(ops[i]) <= Elements(rs)
  }

  ghost predicate ShareGraph(g: Graph, templates: map<OpRef, seq<nat>>) {
    g.Keys == templates.Keys && forall a, b :: a in g ==> (b in g[a] <==> b in g && Share(templates[a], templates[b]))
  }

  lemma {:induction false} SharesAreOverlaps(ops: seq<Operation>, rs: seq<RecordId>, invs: seq<Invariant>,
                                             templateOf: map<RecordId, nat>,
                          records: map<OpRef, set<RecordId>>, templates: map<OpRef, seq<nat>>, g: Graph)
    requires Classes(rs, invs, templateOf) && Affects(ops, invs, records) && Declared(invs, rs) &&
             FootprintsDeclared(ops, rs)
    requires records.Keys == templates.Keys && ShareGraph(g, templates)
    requires forall o :: o in records ==> Named(ops, o) && TemplatesOf(records[o], templateOf, templates[o])
    ensures OverlapGraph(g, records)
  {
    hide Classes;
    hide Affects;
    hide Declared;
    hide FootprintsDeclared;
    hide TemplatesOf;
    hide Named;
    hide Share;
    forall a, b | a in g && b in g
      ensures Share(templates[a], templates[b]) <==> records[a] * records[b] != {}
    {
      PairOverlap(ops, rs, invs, templateOf, records, a, b, templates[a], templates[b]);
    }
  }

  lemma {:induction false} PairOverlap(ops: seq<Operation>, rs: seq<RecordId>, invs: seq<Invariant>,
                                       templateOf: map<RecordId, nat>,
                                       records: map<OpRef, set<RecordId>>, a: OpRef, b: OpRef,
                                       ta: seq<nat>, tb: seq<nat>)
    requires Classes(rs, invs, templateOf) && Affects(ops, invs, records) && Declared(invs, rs) &&
             FootprintsDeclared(ops, rs)
    requires a in records && b in records && Named(ops, a) && Named(ops, b)
    requires TemplatesOf(records[a], templateOf, ta) && TemplatesOf(records[b], templateOf, tb)
    ensures Share(ta, tb) <==> records[a] * records[b] != {}
  {
    hide Classes;
    hide Declared;
    hide TemplatesOf;
    hide Share;
    hide ClosedOver;
    var i :| 0 <= i < |ops| && ops[i].identity == a;
    var j :| 0 <= j < |ops| && ops[j].identity == b;
    ClosedDeclared(ops[i], rs, invs, records[a]);
    ClosedDeclared(ops[j], rs, invs, records[b]);
    ShareIsOverlap(rs, invs, templateOf, ops[i], ops[j], records[a], records[b], ta, tb);
  }

  lemma ClosedDeclared(op: Operation, rs: seq<RecordId>, invs: seq<Invariant>, recs: set<RecordId>)
    requires ClosedOver(op, invs, recs) && Declared(invs, rs) && FootprintRecords(op) <= Elements(rs)
    ensures recs <= Elements(rs)
  {
    var ids :| IsClosure(op, invs, recs, ids);
    ClosureDeclared(op, rs, invs, recs, ids);
  }

  /** Affected records of every operation, and which operations interact: those whose affected records overlap. */
  method CloseModule(ops: seq<Operation>, rs: seq<RecordId>, invs: seq<Invariant>)
    returns (records: map<OpRef, set<RecordId>>, g: Graph)
    requires Distinct(rs) && Declared(invs, rs) && DistinctOps(ops) && FootprintsDeclared(ops, rs)
    ensures Affects(ops, invs, records) && OverlapGraph(g, records)
    ensures forall o :: o in Identities(ops) <==> o in g
  {
    hide IsClosure;
    hide Connected;
    var classes, templateOf := BuildTemplates(rs, invs);
    assert Classes(rs, invs, templateOf);
    var templates;
    records, templates := CloseAll(ops, invs, templateOf);
    NamesAre(ops, invs, records);
    g := Interactions(Identities(ops), templates);
    SharesAreOverlaps(ops, rs, invs, templateOf, records, templates, g);
  }

  lemma {:induction false} NamesAre(ops: seq<Operation>, invs: seq<Invariant>, records: map<OpRef, set<RecordId>>)
    requires Affects(ops, invs, records) && forall o :: o in records ==> Named(ops, o)
    ensures forall o :: o in Identities(ops) <==> o in records
  {
    hide ClosedOver;
    var ids := Identities(ops);
    forall o
      ensures o in ids <==> o in records
    {
      if o in ids {
        var i :| 0 <= i < |ids| && ids[i] == o;
        assert ops[i].identity in records;
      }
      if o in records {
        var i :| 0 <= i < |ops| && ops[i].identity == o;
        assert ids[i] == o;
      }
    }
  }

  /**
    Closure, components and selection. It fails exactly when some operation does not prove the serial
    template; otherwise the components are the chains of operations with overlapping affected records,
    and each takes its choice.
   */
  method Compile(ops: seq<Operation>, rs: seq<RecordId>, invs: seq<Invariant>, lib: seq<Template>,
                 judge: (Operation, Template) -> seq<Status>, forced: set<OpRef>)
    returns (out: Outcome, records: map<OpRef, set<RecordId>>, g: Graph, cs: seq<Candidate>)
    requires Distinct(rs) && Declared(invs, rs) && DistinctOps(ops) && FootprintsDeclared(ops, rs)
    ensures Affects(ops, invs, records) && OverlapGraph(g, records)
    ensures forall o, t :: Accepted(cs, o, t) <==> Provable(ops, lib, judge, o, t)
    ensures out.NoSafePlan? <==> exists i :: 0 <= i < |ops| && !Provable(ops, lib, judge, ops[i].identity, C5_SERIAL)
    ensures out.Planned? ==>
              Components(g, Identities(ops), out.groups) && GroupsApart(records, out.groups) &&
                  Chosen(lib, cs, forced, out.groups, out.chosen)
  {
    hide Affects;
    hide Provable;
    hide Accepted;
    hide Chained;
    hide Chosen;
    records, g := CloseModule(ops, rs, invs);
    OverlapSymmetric(g, records);
    cs := Analyze(ops, lib, judge);
    var groups := FindComponents(g, Identities(ops));
    Separate(g, records, Identities(ops), groups);
    FailsWhen(ops, g, Identities(ops), groups, lib, cs, judge);
    out := SelectTemplates(lib, cs, forced, groups);
  }

  lemma {:induction false} Separate(g: Graph, records: map<OpRef, set<RecordId>>, ops: seq<OpRef>,
                                    groups: seq<set<OpRef>>)
    requires OverlapGraph(g, records) && Components(g, ops, groups)
    ensures GroupsApart(records, groups)
  {
    forall i, j, a, b | 0 <= i < j < |groups| && a in groups[i] && b in groups[j] && a in records && b in records
      ensures records[a] !! records[b]
    {
      ComponentsDisjoint(g, records, ops, groups, i, j, a, b);
    }
  }

  lemma {:induction false} FailsWhen(ops: seq<Operation>, g: Graph, ids: seq<OpRef>, groups: seq<set<OpRef>>,
                                     lib: seq<Template>, cs: seq<Candidate>,
                  judge: (Operation, Template) -> seq<Status>)
    requires ids == Identities(ops) && Components(g, ids, groups) && forall o :: o in g ==> o in ids
    requires forall o, t :: Accepted(cs, o, t) <==> Provable(ops, lib, judge, o, t)
    ensures (exists i :: 0 <= i < |groups| && !AllAccept(cs, groups[i], C5_SERIAL)) <==>
            (exists i :: 0 <= i < |ops| && !Provable(ops, lib, judge, ops[i].identity, C5_SERIAL))
  {
    hide Provable;
    hide Accepted;
    hide Chained;
    if i :| 0 <= i < |groups| && !AllAccept(cs, groups[i], C5_SERIAL) {
      var o :| o in groups[i] && !Accepted(cs, o, C5_SERIAL);
      assert o in ids;
      var k :| 0 <= k < |ids| && ids[k] == o;
      assert !Provable(ops, lib, judge, ops[k].identity, C5_SERIAL);
    }
    if i :| 0 <= i < |ops| && !Provable(ops, lib, judge, ops[i].identity, C5_SERIAL) {
      assert ids[i] in ids;
      var k :| 0 <= k < |groups| && ids[i] in groups[k];
      assert !Accepted(cs, ids[i], C5_SERIAL);
    }
  }
}
