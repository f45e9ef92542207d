// The parser stack, seen as what has been derived so far.
module LalrStack {
  import opened LalrTables

  /** states[i] and, for i > 0, syms[i-1] and trees[i-1] describe stack level i; `toks` are
      the tokens shifted so far, `imgs` the terminals they were taken for, and `rules` the
      rules reduced. */
  datatype Stack = Stack(states: seq<nat>, syms: seq<nat>, trees: seq<Tree>,
                         toks: seq<nat>, imgs: seq<nat>, rules: seq<nat>)

  /** The levels from i downwards agree with what is known. */
  ghost predicate Agrees(k: Stack, i: nat, p: Knowledge)
    requires |k.states| == |k.syms| + 1
  {
    && |p| <= i < |k.states|
    && forall j :: 0 <= j < |p| ==> k.syms[i - 1 - j] in p[j].syms && k.states[i - 1 - j] in p[j].below
  }

  ghost predicate TopOk(t: Tables, g: Grammar, c: Certificate, k: Stack)
    requires |k.states| == |k.syms| + 1 && |c.past| == t.maxShift + 1
  {
    var n := |k.syms|;
    var s := k.states[n];
    if s <= t.maxShift then true
    else if s == AcceptAction(t) then n == 1 && StandsFor(g, k.syms[0], g.start)
    else
      && s >= MinReduce(t) && n > 0 && k.states[n - 1] <= t.maxShift
      && CanReduce(g, c, Push(c, k.states[n - 1], k.syms[n - 1]), s, s - MinReduce(t))
      && g.rules[s - MinReduce(t)].rhs != []
  }

  /** Only the top may be something other than a state, and every state's knowledge of the
      levels below it is right. */
  ghost predicate LevelsOk(t: Tables, c: Certificate, k: Stack)
    requires |c.past| == t.maxShift + 1
  {
    && |k.states| == |k.syms| + 1 && |k.trees| == |k.syms|
    && k.states[0] == 0
    && (forall i :: 0 < i < |k.states| ==> k.states[i] != 0)
    && (forall i :: 0 <= i < |k.syms| ==> k.states[i] <= t.maxShift)
    && (forall i :: 0 <= i < |k.states| && k.states[i] <= t.maxShift ==> Agrees(k, i, c.past[k.states[i]]))
  }

  /** The trees on the stack derive its symbols, and together everything shifted so far. */
  ghost predicate TreesOk(t: Tables, g: Grammar, k: Stack)
  {
    && |k.trees| == |k.syms|
    && (forall i :: 0 <= i < |k.syms| ==> IsDerivation(g, k.trees[i]) && Root(g, k.trees[i]) == k.syms[i])
    && YieldAll(k.trees) == k.imgs
    && AreImages(t, k.toks, k.imgs)
  }

  ghost predicate StackOk(t: Tables, g: Grammar, c: Certificate, k: Stack)
    requires |c.past| == t.maxShift + 1
  {
    LevelsOk(t, c, k) && TopOk(t, g, c, k) && TreesOk(t, g, k)
  }

  /** Each token was taken for itself, for its fallback, or for the wildcard. */
  ghost predicate AreImages(t: Tables, toks: seq<nat>, imgs: seq<nat>)
  {
    && |toks| == |imgs|
    && forall i :: 0 <= i < |toks| ==>
         (imgs[i] == toks[i] || (toks[i] < |t.yyFallback| && imgs[i] == t.yyFallback[toks[i]] != 0)
          || imgs[i] == t.wildcard != 0)
  }

  const EMPTY_STACK := Stack([0], [], [], [], [], [])

  lemma EmptyOk(t: Tables, g: Grammar, c: Certificate)
    requires Valid(t, g, c)
    ensures StackOk(t, g, c, EMPTY_STACK)
  {
  }

  // ---- pushing a level ----

  function Pushed(k: Stack, state: nat, sym: nat, tree: Tree): Stack
  {
    k.(states := k.states + [state], syms := k.syms + [sym], trees := k.trees + [tree])
  }

  /** The first n levels above the base. */
  function Below(k: Stack, n: nat): Stack
    requires n <= |k.syms| && |k.states| == |k.syms| + 1 && |k.trees| == |k.syms|
  {
    k.(states := k.states[..n + 1], syms := k.syms[..n], trees := k.trees[..n])
  }

  lemma AgreesPushed(t: Tables, g: Grammar, c: Certificate, k: Stack, state: nat, sym: nat, tree: Tree)
    requires Valid(t, g, c) && |k.states| == |k.syms| + 1
    requires k.states[|k.syms|] <= t.maxShift && Agrees(k, |k.syms|, c.past[k.states[|k.syms|]])
    ensures Agrees(Pushed(k, state, sym, tree), |k.syms| + 1, Push(c, k.states[|k.syms|], sym))
  {
  }

  lemma AgreesImplied(k: Stack, i: nat, p: Knowledge, q: Knowledge)
    requires |k.states| == |k.syms| + 1 && Agrees(k, i, p) && Implies(p, q)
    ensures Agrees(k, i, q)
  {
  }

  lemma AgreesStill(k: Stack, i: nat, p: Knowledge, state: nat, sym: nat, tree: Tree)
    requires |k.states| == |k.syms| + 1 && Agrees(k, i, p)
    ensures Agrees(Pushed(k, state, sym, tree), i, p)
  {
  }

  lemma LevelsPushed(t: Tables, g: Grammar, c: Certificate, k: Stack, state: nat, sym: nat, tree: Tree)
    requires Valid(t, g, c) && LevelsOk(t, c, k) && k.states[|k.syms|] <= t.maxShift && state != 0
    requires state <= t.maxShift ==> Implies(Push(c, k.states[|k.syms|], sym), c.past[state])
    ensures LevelsOk(t, c, Pushed(k, state, sym, tree))
  {
    assert |c.past| == t.maxShift + 1;
    AgreesPushed(t, g, c, k, state, sym, tree);
    hide Valid, Implies, Push, Agrees;
    var k' := Pushed(k, state, sym, tree);
    forall i | 0 <= i < |k'.states| && k'.states[i] <= t.maxShift ensures Agrees(k', i, c.past[k'.states[i]]) {
      if i < |k.states| {
        AgreesStill(k, i, c.past[k.states[i]], state, sym, tree);
      } else {
        AgreesImplied(k', i, Push(c, k.states[|k.syms|], sym), c.past[state]);
      }
    }
  }

  lemma TreesPushed(t: Tables, g: Grammar, k: Stack, state: nat, sym: nat, tree: Tree)
    requires |k.trees| == |k.syms|
    requires forall i :: 0 <= i < |k.syms| ==> IsDerivation(g, k.trees[i]) && Root(g, k.trees[i]) == k.syms[i]
    requires IsDerivation(g, tree) && Root(g, tree) == sym
    requires YieldAll(k.trees) + Yield(tree) == k.imgs && AreImages(t, k.toks, k.imgs)
    ensures TreesOk(t, g, Pushed(k, state, sym, tree))
  {
    hide IsDerivation, Root, Yield, YieldAll, AreImages;
    YieldOne(k.trees, tree);
  }

  /** A level pushed onto a state: the new top may be a state, a pending reduce, or accept. */
  lemma PushedOk(t: Tables, g: Grammar, c: Certificate, k: Stack, state: nat, sym: nat, tree: Tree)
    requires Valid(t, g, c) && LevelsOk(t, c, k) && k.states[|k.syms|] <= t.maxShift
    requires forall i :: 0 <= i < |k.syms| ==> IsDerivation(g, k.trees[i]) && Root(g, k.trees[i]) == k.syms[i]
    requires IsDerivation(g, tree) && Root(g, tree) == sym
    requires YieldAll(k.trees) + Yield(tree) == k.imgs && AreImages(t, k.toks, k.imgs)
    requires state != 0
    requires var q := k.states[|k.syms|];
             if state <= t.maxShift then Implies(Push(c, q, sym), c.past[state])
             else if state == AcceptAction(t) then |k.syms| == 0 && StandsFor(g, sym, g.start)
             else state >= MinReduce(t) && CanReduce(g, c, Push(c, q, sym), state, state - MinReduce(t))
                  && g.rules[state - MinReduce(t)].rhs != []
    ensures StackOk(t, g, c, Pushed(k, state, sym, tree))
  {
    hide Valid, LevelsOk, TreesOk, CanReduce, Implies, IsDerivation, Root, Yield, YieldAll, AreImages;
    LevelsShape(t, g, c, k);
    LevelsPushed(t, g, c, k, state, sym, tree);
    TreesPushed(t, g, k, state, sym, tree);
  }

  lemma LevelsShape(t: Tables, g: Grammar, c: Certificate, k: Stack)
    requires Valid(t, g, c) && (LevelsOk(t, c, k) || StackOk(t, g, c, k))
    ensures InBounds(t) && |c.past| == t.maxShift + 1
    ensures |k.states| == |k.syms| + 1 && |k.trees| == |k.syms| && k.states[0] == 0
    ensures forall i :: 0 < i < |k.states| ==> k.states[i] != 0
  {
  }

  // ---- shift ----

  function Shifted(k: Stack, state: nat, tok: nat, img: nat): Stack
  {
    Pushed(k.(toks := k.toks + [tok], imgs := k.imgs + [img]), state, img, Leaf(img))
  }

  lemma ShiftOk(t: Tables, g: Grammar, c: Certificate, k: Stack, tok: nat)
    requires Valid(t, g, c) && StackOk(t, g, c, k) && tok < t.nToken
    requires k.states[|k.syms|] <= t.maxShift
    requires ShiftAction(t, k.states[|k.syms|], tok) <= MaxShiftReduce(t)
    ensures var s := k.states[|k.syms|];
            var act := ShiftAction(t, s, tok);
            StackOk(t, g, c, Shifted(k, if act > t.maxShift then act + MinReduce(t) - t.minShiftReduce else act,
                                     tok, Image(t, s, tok)))
  {
    var s := k.states[|k.syms|];
    var act, img := ShiftAction(t, s, tok), Image(t, s, tok);
    assert ActionOk(t, g, c, s, tok);
    var state := if act > t.maxShift then act + MinReduce(t) - t.minShiftReduce else act;
    var k1 := k.(toks := k.toks + [tok], imgs := k.imgs + [img]);
    LevelsCopied(t, c, k, k1);
    if act > t.maxShift { SameReduce(g, c, Push(c, s, img), act, state, act - t.minShiftReduce); }
    PushedOk(t, g, c, k1, state, img, Leaf(img));
  }

  lemma LevelsCopied(t: Tables, c: Certificate, k: Stack, k': Stack)
    requires |c.past| == t.maxShift + 1 && LevelsOk(t, c, k)
    requires k'.states == k.states && k'.syms == k.syms && k'.trees == k.trees
    ensures LevelsOk(t, c, k')
  {
    forall i | 0 <= i < |k'.states| && k'.states[i] <= t.maxShift ensures Agrees(k', i, c.past[k'.states[i]]) {
      assert Agrees(k, i, c.past[k.states[i]]);
    }
  }

  lemma SameReduce(g: Grammar, c: Certificate, p: Knowledge, top: nat, top': nat, r: nat)
    requires CanReduce(g, c, p, top, r) && g.rules[r].rhs != []
    ensures CanReduce(g, c, p, top', r)
  {
  }

  // ---- reduce ----

  /** The knowledge that justifies the next reduce: that of the state on top, or of a
      pending SHIFTREDUCE. */
  function Known(t: Tables, c: Certificate, k: Stack): Knowledge
    requires |k.states| == |k.syms| + 1 && |c.past| == t.maxShift + 1
    requires k.states[|k.syms|] > t.maxShift ==> |k.syms| > 0 && k.states[|k.syms| - 1] <= t.maxShift
  {
    var n := |k.syms|;
    if k.states[n] <= t.maxShift then c.past[k.states[n]] else Push(c, k.states[n - 1], k.syms[n - 1])
  }

  lemma KnownAgrees(t: Tables, g: Grammar, c: Certificate, k: Stack)
    requires Valid(t, g, c) && StackOk(t, g, c, k) && k.states[|k.syms|] != AcceptAction(t)
    ensures Agrees(k, |k.syms|, Known(t, c, k))
  {
    var n := |k.syms|;
    assert |c.past| == t.maxShift + 1;
    if k.states[n] > t.maxShift {
      assert Agrees(k, n - 1, c.past[k.states[n - 1]]);
    }
  }

  /** Symbol by symbol, the popped ones stand for the right-hand side. */
  ghost predicate StandFor(g: Grammar, syms: seq<nat>, rhs: seq<nat>)
  {
    |syms| == |rhs| && forall i :: 0 <= i < |rhs| ==> StandsFor(g, syms[i], rhs[i])
  }

  /** What is on the stack stands for the right-hand side of the rule, and the state
      uncovered by popping it has a goto on the left-hand side. */
  lemma Handle(t: Tables, g: Grammar, c: Certificate, k: Stack, r: nat)
    requires Valid(t, g, c) && StackOk(t, g, c, k) && k.states[|k.syms|] != AcceptAction(t)
    requires CanReduce(g, c, Known(t, c, k), k.states[|k.syms|], r)
    ensures var n := |g.rules[r].rhs|;
            && n <= |k.syms| && StandFor(g, k.syms[|k.syms| - n..], g.rules[r].rhs)
            && (k.states[|k.syms| - n], g.rules[r].lhs) in c.gotos
  {
    KnownAgrees(t, g, c, k);
    LevelsShape(t, g, c, k);
    hide Valid, StackOk, Known, StandFor, Spells, Agrees;
    var p := Known(t, c, k);
    RhsOnTop(g, k, p, g.rules[r].rhs);
  }

  lemma RhsOnTop(g: Grammar, k: Stack, p: Knowledge, rhs: seq<nat>)
    requires |k.states| == |k.syms| + 1 && Agrees(k, |k.syms|, p) && Spells(g, p, rhs)
    ensures |rhs| <= |p| && |rhs| <= |k.syms| && StandFor(g, k.syms[|k.syms| - |rhs|..], rhs)
    ensures rhs != [] ==> k.states[|k.syms| - |rhs|] in p[|rhs| - 1].below
  {
    hide StandsFor;
    var n, h := |rhs|, |k.syms|;
    forall i | 0 <= i < n ensures StandsFor(g, k.syms[h - n..][i], rhs[i]) {
      assert k.syms[h - 1 - (n - 1 - i)] in p[n - 1 - i].syms;
    }
    if n > 0 { assert k.states[h - 1 - (n - 1)] in p[n - 1].below; }
  }

  /** The stack after popping the right-hand side and pushing the goto action. A popped
      symbol that stands for another becomes that other by the rules in between. */
  ghost function Reduced(t: Tables, g: Grammar, k: Stack, r: nat, act: nat): Stack
    requires r < |g.rules| && |g.rules[r].rhs| <= |k.syms| && |k.states| == |k.syms| + 1 && |k.trees| == |k.syms|
  {
    var m := |k.syms| - |g.rules[r].rhs|;
    Pushed(Below(k, m), act, g.rules[r].lhs, Node(r, LiftAll(g, k.trees[m..], g.rules[r].rhs)))
      .(rules := k.rules + [r])
  }

  /** The goto that a reduce looks up, and why its result may be pushed. */
  lemma ReduceGoto(t: Tables, g: Grammar, c: Certificate, k: Stack, r: nat)
    requires Valid(t, g, c) && StackOk(t, g, c, k) && k.states[|k.syms|] != AcceptAction(t)
    requires CanReduce(g, c, Known(t, c, k), k.states[|k.syms|], r)
    ensures r < |g.rules| && |g.rules[r].rhs| <= |k.syms|
    ensures var m := |k.syms| - |g.rules[r].rhs|;
            var q, a := k.states[m], g.rules[r].lhs;
            && StandFor(g, k.syms[m..], g.rules[r].rhs) && q <= t.maxShift && GotoHit(t, q, a)
            && var act := Goto(t, q, a);
            && act != 0
            && if act <= t.maxShift then Implies(Push(c, q, a), c.past[act])
               else if act == AcceptAction(t) then m == 0 && StandsFor(g, a, g.start)
               else act >= MinReduce(t) && CanReduce(g, c, Push(c, q, a), act, act - MinReduce(t))
                    && g.rules[act - MinReduce(t)].rhs != []
  {
    hide Valid, InBounds, StackOk, LevelsOk, TreesOk, Known, Implies, Push, GotoHit, Goto, StandsFor, StandFor,
         Spells;
    Handle(t, g, c, k, r);
    LevelsShape(t, g, c, k);
    var m := |k.syms| - |g.rules[r].rhs|;
    KnownGoto(t, g, c, k.states[m], g.rules[r].lhs);
    hide CanReduce;
    assert m > 0 ==> k.states[m] != 0;
  }

  lemma KnownGoto(t: Tables, g: Grammar, c: Certificate, q: nat, a: nat)
    requires Valid(t, g, c) && (q, a) in c.gotos
    ensures InBounds(t) && |c.past| == t.maxShift + 1 && GotoOk(t, g, c, q, a)
  {
    hide InBounds, GotoOk, ActionOk;
  }

  lemma ReduceOk(t: Tables, g: Grammar, c: Certificate, k: Stack, r: nat)
    requires Valid(t, g, c) && StackOk(t, g, c, k) && k.states[|k.syms|] != AcceptAction(t)
    requires CanReduce(g, c, Known(t, c, k), k.states[|k.syms|], r)
    ensures var q := k.states[|k.syms| - |g.rules[r].rhs|];
            var a := g.rules[r].lhs;
            && |g.rules[r].rhs| <= |k.syms| && q <= t.maxShift && GotoHit(t, q, a)
            && StackOk(t, g, c, Reduced(t, g, k, r, Goto(t, q, a)))
  {
    hide Valid, TopOk, TreesOk, Known, Implies, Push, CanReduce, IsDerivation, Root, AreImages, YieldAll, LevelsOk,
         GotoHit, Goto, StandsFor, StandFor, LiftAll;
    ReduceGoto(t, g, c, k, r);
    LevelsShape(t, g, c, k);
    var m := |k.syms| - |g.rules[r].rhs|;
    var q, a := k.states[m], g.rules[r].lhs;
    var act := Goto(t, q, a);
    BelowLevels(t, g, c, k, m);
    BelowTrees(t, g, k, r, m);
    var b, tree := Below(k, m), Node(r, LiftAll(g, k.trees[m..], g.rules[r].rhs));
    PushedOk(t, g, c, b, act, a, tree);
    RulesDontMatter(t, g, c, Pushed(b, act, a, tree), k.rules + [r]);
  }

  lemma RulesDontMatter(t: Tables, g: Grammar, c: Certificate, k: Stack, rules: seq<nat>)
    requires Valid(t, g, c) && StackOk(t, g, c, k)
    ensures StackOk(t, g, c, k.(rules := rules))
  {
    assert |c.past| == t.maxShift + 1;
    hide Valid, IsDerivation, Root, AreImages, YieldAll, CanReduce, StandsFor;
    LevelsCopied(t, c, k, k.(rules := rules));
  }

  /** The popped trees become the children of one tree. */
  lemma BelowTrees(t: Tables, g: Grammar, k: Stack, r: nat, m: nat)
    requires TreesOk(t, g, k) && r < |g.rules| && m == |k.syms| - |g.rules[r].rhs| && |k.states| == |k.syms| + 1
    requires StandFor(g, k.syms[m..], g.rules[r].rhs)
    ensures var b, tree := Below(k, m), Node(r, LiftAll(g, k.trees[m..], g.rules[r].rhs));
            && (forall i :: 0 <= i < |b.syms| ==> IsDerivation(g, b.trees[i]) && Root(g, b.trees[i]) == b.syms[i])
            && IsDerivation(g, tree) && Root(g, tree) == g.rules[r].lhs
            && YieldAll(b.trees) + Yield(tree) == b.imgs && AreImages(t, b.toks, b.imgs)
  {
    NodeIsDerivation(g, k, r, m);
    assert k.trees == k.trees[..m] + k.trees[m..];
    YieldConcat(k.trees[..m], k.trees[m..]);
    hide IsDerivation, Root, AreImages, YieldAll, LiftAll;
  }

  lemma NodeIsDerivation(g: Grammar, k: Stack, r: nat, m: nat)
    requires r < |g.rules| && m == |k.syms| - |g.rules[r].rhs| && |k.trees| == |k.syms|
    requires StandFor(g, k.syms[m..], g.rules[r].rhs)
    requires forall i :: 0 <= i < |k.syms| ==> IsDerivation(g, k.trees[i]) && Root(g, k.trees[i]) == k.syms[i]
    ensures var tree := Node(r, LiftAll(g, k.trees[m..], g.rules[r].rhs));
            IsDerivation(g, tree) && Root(g, tree) == g.rules[r].lhs && Yield(tree) == YieldAll(k.trees[m..])
  {
    var rhs := g.rules[r].rhs;
    var kids := LiftAll(g, k.trees[m..], rhs);
    forall i | 0 <= i < |kids|
      ensures IsDerivation(g, kids[i]) && Fits(g, Root(g, kids[i]), rhs[i]) && Yield(kids[i]) == Yield(k.trees[m..][i])
    {
      hide IsDerivation, Root, Yield, StandsFor, Fits;
      assert k.trees[m..][i] == k.trees[m + i] && k.syms[m..][i] == k.syms[m + i];
      assert kids[i] == Lift(g, k.trees[m + i], rhs[i]);
    }
    SameYield(kids, k.trees[m..]);
  }

  lemma BelowLevels(t: Tables, g: Grammar, c: Certificate, k: Stack, m: nat)
    requires Valid(t, g, c) && LevelsOk(t, c, k) && m <= |k.syms| && k.states[m] <= t.maxShift
    ensures LevelsOk(t, c, Below(k, m))
  {
    assert |c.past| == t.maxShift + 1;
    hide Valid;
    var b := Below(k, m);
    forall i | 0 <= i < |b.states| ensures b.states[i] <= t.maxShift && Agrees(b, i, c.past[b.states[i]]) {
      assert Agrees(k, i, c.past[k.states[i]]);
    }
  }

  // ---- accept ----

  /** When the driver accepts, what is on the stack stands for the start symbol, and
      everything shifted so far, token by token up to fallback and wildcard, is derived
      from it. */
  lemma AcceptIsSound(t: Tables, g: Grammar, c: Certificate, k: Stack)
    requires Valid(t, g, c) && StackOk(t, g, c, k) && k.states[|k.syms|] == AcceptAction(t)
    ensures |k.syms| == 1 && Derivable(g, g.start, k.imgs) && AreImages(t, k.toks, k.imgs)
  {
    assert k.trees == [] + [k.trees[0]];
    YieldOne([], k.trees[0]);
    var tree := Lift(g, k.trees[0], g.start);
    assert IsDerivation(g, tree) && Root(g, tree) == g.start && Yield(tree) == k.imgs;
  }
}
