// Parsing tables as the lemon generator lays them out, the grammar they were built from,
// and when the two fit together.
module LalrTables {

  datatype Rule = Rule(lhs: nat, rhs: seq<nat>, hasCode: bool)

  /** Symbols below nToken are terminals. A symbol in `multi`, written A|B|C in a rule, is any
      one of its terminals. The rest are nonterminals. */
  datatype Grammar = Grammar(rules: seq<Rule>, start: nat, multi: map<nat, set<nat>>)

  predicate Fits(g: Grammar, x: nat, a: nat)
  {
    x == a || (a in g.multi && x in g.multi[a])
  }

  datatype Tables = Tables(
    yyAction: seq<nat>,
    yyLookahead: seq<nat>,
    yyShiftOfst: seq<nat>,
    yyReduceOfst: seq<int>,
    yyDefault: seq<nat>,
    yyFallback: seq<nat>,
    yyRuleInfoLhs: seq<nat>,
    yyRuleInfoNRhs: seq<int>,   // negated lengths of the right-hand sides
    maxShift: nat,
    minShiftReduce: nat,
    nRule: nat,
    nToken: nat,
    wildcard: nat)              // 0 when the grammar has none

  function MaxShiftReduce(t: Tables): int { t.minShiftReduce + t.nRule - 1 }
  function ErrorAction(t: Tables): nat { t.minShiftReduce + t.nRule }
  function AcceptAction(t: Tables): nat { t.minShiftReduce + t.nRule + 1 }
  function MinReduce(t: Tables): nat { t.minShiftReduce + t.nRule + 3 }

  /** The bounds the driver asserts before it indexes a table. The lookahead table goes on
      after the last action, with entries that are no token. */
  ghost predicate InBounds(t: Tables)
  {
    && t.maxShift < t.minShiftReduce
    && |t.yyShiftOfst| > t.maxShift && |t.yyDefault| > t.maxShift
    && |t.yyAction| <= |t.yyLookahead| && t.nToken > 0 && |t.yyFallback| == t.nToken
    && (forall i :: |t.yyAction| <= i < |t.yyLookahead| ==> t.yyLookahead[i] >= t.nToken)
    && (forall s :: 0 <= s <= t.maxShift ==> t.yyShiftOfst[s] + t.nToken <= |t.yyLookahead|)
    && (forall x :: 0 <= x < t.nToken ==> t.yyFallback[x] < t.nToken && t.yyFallback[t.yyFallback[x]] == 0)
    && t.wildcard < t.nToken
    && |t.yyRuleInfoLhs| == |t.yyRuleInfoNRhs| == t.nRule
  }

  predicate Hit(t: Tables, s: nat, x: nat)
    requires InBounds(t) && s <= t.maxShift && x < t.nToken
  {
    t.yyLookahead[t.yyShiftOfst[s] + x] == x
  }

  /** The goto of state q on symbol a is in the tables. */
  predicate GotoHit(t: Tables, q: nat, a: nat)
  {
    && q < |t.yyReduceOfst| && 0 <= t.yyReduceOfst[q] + a < |t.yyAction| <= |t.yyLookahead|
    && t.yyLookahead[t.yyReduceOfst[q] + a] == a
  }

  function Goto(t: Tables, q: nat, a: nat): nat
    requires GotoHit(t, q, a)
  {
    t.yyAction[t.yyReduceOfst[q] + a]
  }

  /** The token that decides the action for lookahead x in state s: x itself, its
      fallback, or the wildcard. */
  function Image(t: Tables, s: nat, x: nat): (y: nat)
    requires InBounds(t) && s <= t.maxShift && x < t.nToken
    ensures y < t.nToken
    ensures y == x || (y != 0 && y == t.yyFallback[x]) || (y != 0 && y == t.wildcard)
  {
    if Hit(t, s, x) then x
    else
      var f := if t.yyFallback[x] != 0 then t.yyFallback[x] else x;
      if Hit(t, s, f) then f
      else if t.wildcard != 0 && Hit(t, s, t.wildcard) && f > 0 then t.wildcard
      else f
  }

  /** A token with an action of its own decides, then its fallback, then the wildcard, which
      never stands for the end of the input; an action is missed only if all three lack one. */
  lemma ImageLaws(t: Tables, s: nat, x: nat)
    requires InBounds(t) && s <= t.maxShift && x < t.nToken
    ensures var y, f := Image(t, s, x), t.yyFallback[x];
            && (Hit(t, s, x) ==> y == x)
            && (!Hit(t, s, x) && f != 0 && Hit(t, s, f) ==> y == f)
            && (!Hit(t, s, x) && !(f != 0 && Hit(t, s, f)) && x != 0 && t.wildcard != 0 && Hit(t, s, t.wildcard) ==>
                  y == t.wildcard)
            && (x == 0 && f == 0 ==> y == 0)
            && (!Hit(t, s, y) ==> !Hit(t, s, x) && (f != 0 ==> !Hit(t, s, f)))
  {
  }

  function ShiftAction(t: Tables, s: nat, x: nat): nat
    requires InBounds(t) && s <= t.maxShift && x < t.nToken
  {
    var y := Image(t, s, x);
    if Hit(t, s, y) then t.yyAction[t.yyShiftOfst[s] + y] else t.yyDefault[s]
  }

  // ---- symbols that stand for others ----

  /** The rules rs, each without code and with one symbol on the right, lead from x up to a.
      The generator leaves such reduces out and takes the goto on a when it sees x. */
  ghost predicate IsChain(g: Grammar, x: nat, rs: seq<nat>, a: nat)
    decreases |rs|
  {
    if rs == [] then Fits(g, x, a)
    else
      && rs[0] < |g.rules| && g.rules[rs[0]].rhs == [x] && !g.rules[rs[0]].hasCode
      && IsChain(g, g.rules[rs[0]].lhs, rs[1..], a)
  }

  ghost predicate StandsFor(g: Grammar, x: nat, a: nat)
  {
    exists rs :: IsChain(g, x, rs, a)
  }

  lemma StandsForItself(g: Grammar, x: nat)
    ensures StandsFor(g, x, x)
  {
    assert IsChain(g, x, [], x);
  }

  // ---- what is known about the stack below a state ----

  /** One stack level: the symbols it may hold, and the states the level beneath may be in. */
  datatype Level = Level(syms: set<nat>, below: set<nat>)

  type Knowledge = seq<Level>

  /** What validates a set of tables: for each state the levels known to be on top of the
      stack whenever that state is on top, and the gotos that can ever be looked up. */
  datatype Certificate = Certificate(past: seq<Knowledge>, gotos: set<(nat, nat)>)

  function Push(c: Certificate, q: nat, x: nat): Knowledge
    requires q < |c.past|
  {
    [Level({x}, {q})] + c.past[q]
  }

  ghost predicate Implies(p: Knowledge, k: Knowledge)
  {
    && |k| <= |p|
    && forall j :: 0 <= j < |k| ==> p[j].syms <= k[j].syms && p[j].below <= k[j].below
  }

  /** Whatever is at these levels stands for the right-hand side. */
  ghost predicate Spells(g: Grammar, p: Knowledge, rhs: seq<nat>)
  {
    && |rhs| <= |p|
    && forall j, x :: 0 <= j < |rhs| && x in p[j].syms ==> StandsFor(g, x, rhs[|rhs| - 1 - j])
  }

  /** With p known and state `top` on top, rule r can be reduced: its right-hand side is on
      the stack and the goto of every state that may be uncovered exists. */
  ghost predicate CanReduce(g: Grammar, c: Certificate, p: Knowledge, top: nat, r: nat)
  {
    && r < |g.rules| && Spells(g, p, g.rules[r].rhs)
    && var n := |g.rules[r].rhs|;
       forall q :: q in (if n == 0 then {top} else p[n - 1].below) ==> (q, g.rules[r].lhs) in c.gotos
  }

  ghost predicate GotoOk(t: Tables, g: Grammar, c: Certificate, q: nat, a: nat)
    requires InBounds(t) && |c.past| == t.maxShift + 1
  {
    && q <= t.maxShift && GotoHit(t, q, a)
    && var act := Goto(t, q, a);
       if act <= t.maxShift then act != 0 && Implies(Push(c, q, a), c.past[act])
       else if act == AcceptAction(t) then q == 0 && StandsFor(g, a, g.start)
       else act >= MinReduce(t) && CanReduce(g, c, Push(c, q, a), act, act - MinReduce(t))
            && g.rules[act - MinReduce(t)].rhs != []
  }

  ghost predicate ActionOk(t: Tables, g: Grammar, c: Certificate, s: nat, x: nat)
    requires InBounds(t) && |c.past| == t.maxShift + 1 && s <= t.maxShift && x < t.nToken
  {
    var act := ShiftAction(t, s, x);
    var p := Push(c, s, Image(t, s, x));
    if act <= t.maxShift then act != 0 && Implies(p, c.past[act])
    else if t.minShiftReduce <= act <= MaxShiftReduce(t) then
      CanReduce(g, c, p, act, act - t.minShiftReduce) && g.rules[act - t.minShiftReduce].rhs != []
    else
      act == ErrorAction(t) || (act >= MinReduce(t) && CanReduce(g, c, c.past[s], s, act - MinReduce(t)))
  }

  /** The tables fit the grammar. */
  ghost predicate Valid(t: Tables, g: Grammar, c: Certificate)
  {
    && InBounds(t) && |c.past| == t.maxShift + 1 && c.past[0] == []
    && |g.rules| == t.nRule && g.start !in g.multi
    && (forall r :: 0 <= r < t.nRule ==>
          t.yyRuleInfoLhs[r] == g.rules[r].lhs && t.yyRuleInfoNRhs[r] == -|g.rules[r].rhs|)
    && (forall q, a :: (q, a) in c.gotos ==> GotoOk(t, g, c, q, a))
    && (forall s, x :: 0 <= s <= t.maxShift && 0 <= x < t.nToken ==> ActionOk(t, g, c, s, x))
  }

  // ---- parse trees ----

  datatype Tree = Leaf(tok: nat) | Node(rule: nat, kids: seq<Tree>)

  function Root(g: Grammar, t: Tree): nat
  {
    match t
    case Leaf(x) => x
    case Node(r, _) => if r < |g.rules| then g.rules[r].lhs else 0
  }

  /** Every node applies a rule of the grammar to its children. */
  ghost predicate IsDerivation(g: Grammar, t: Tree)
  {
    match t
    case Leaf(_) => true
    case Node(r, kids) =>
      && r < |g.rules| && |kids| == |g.rules[r].rhs|
      && (forall i :: 0 <= i < |kids| ==> Fits(g, Root(g, kids[i]), g.rules[r].rhs[i]))
      && (forall k :: k in kids ==> IsDerivation(g, k))
  }

  function Yield(t: Tree): seq<nat>
    decreases t, 0
  {
    match t
    case Leaf(x) => [x]
    case Node(_, kids) => YieldAll(kids)
  }

  function YieldAll(ts: seq<Tree>): seq<nat>
    decreases ts, 1
  {
    if ts == [] then [] else Yield(ts[0]) + YieldAll(ts[1..])
  }

  /** The terminals can be derived from the symbol. */
  ghost predicate Derivable(g: Grammar, sym: nat, toks: seq<nat>)
  {
    exists t :: IsDerivation(g, t) && Root(g, t) == sym && Yield(t) == toks
  }

  lemma {:induction false} YieldConcat(a: seq<Tree>, b: seq<Tree>)
    ensures YieldAll(a + b) == YieldAll(a) + YieldAll(b)
  {
    if a == [] {
      assert a + b == b;
    } else {
      assert (a + b)[1..] == a[1..] + b;
      YieldConcat(a[1..], b);
    }
  }

  lemma YieldOne(ts: seq<Tree>, tree: Tree)
    ensures YieldAll(ts + [tree]) == YieldAll(ts) + Yield(tree)
  {
    YieldConcat(ts, [tree]);
    assert [tree][1..] == [];
    assert YieldAll([tree]) == Yield(tree) + [];
  }

  lemma {:induction false} SameYield(ts: seq<Tree>, us: seq<Tree>)
    requires |ts| == |us| && forall i :: 0 <= i < |ts| ==> Yield(ts[i]) == Yield(us[i])
    ensures YieldAll(ts) == YieldAll(us)
  {
    if ts != [] {
      assert Yield(ts[0]) == Yield(us[0]);
      SameYield(ts[1..], us[1..]);
    }
  }

  /** The tree with the nodes of a chain of rules put on top. */
  function Wrap(tree: Tree, rs: seq<nat>): Tree
    decreases |rs|
  {
    if rs == [] then tree else Wrap(Node(rs[0], [tree]), rs[1..])
  }

  lemma {:induction false} WrapDerives(g: Grammar, tree: Tree, rs: seq<nat>, a: nat)
    requires IsDerivation(g, tree) && IsChain(g, Root(g, tree), rs, a)
    ensures IsDerivation(g, Wrap(tree, rs)) && Fits(g, Root(g, Wrap(tree, rs)), a)
    ensures Yield(Wrap(tree, rs)) == Yield(tree)
    decreases |rs|
  {
    if rs != [] {
      var up := Node(rs[0], [tree]);
      YieldOne([], tree);
      assert [] + [tree] == [tree] && [] + Yield(tree) == Yield(tree);
      WrapDerives(g, up, rs[1..], a);
    }
  }

  /** The tree, taken for symbol a. */
  ghost function Lift(g: Grammar, tree: Tree, a: nat): (lifted: Tree)
    ensures IsDerivation(g, tree) && StandsFor(g, Root(g, tree), a) ==>
              IsDerivation(g, lifted) && Fits(g, Root(g, lifted), a) && Yield(lifted) == Yield(tree)
  {
    if IsDerivation(g, tree) && StandsFor(g, Root(g, tree), a) then
      var rs :| IsChain(g, Root(g, tree), rs, a);
      WrapDerives(g, tree, rs, a);
      Wrap(tree, rs)
    else tree
  }

  ghost function LiftAll(g: Grammar, ts: seq<Tree>, rhs: seq<nat>): (us: seq<Tree>)
    requires |ts| == |rhs|
  {
    seq(|ts|, i requires 0 <= i < |ts| => Lift(g, ts[i], rhs[i]))
  }
}
