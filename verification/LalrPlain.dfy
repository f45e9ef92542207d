// The automaton before its tables are compressed, and why compression keeps its meaning.
//
// The plain automaton shifts to a numbered state even when all that state can do is reduce
// by one rule. The generator drops such states: a token's shift becomes a SHIFTREDUCE, a
// goto becomes the reduce itself, and where the rule has one symbol and no code the goto
// becomes that on the rule's left-hand side.
module LalrPlain {
  import opened Arith
  import opened LalrTables
  import opened LalrStack
  import opened LalrMachine

  datatype Act = Shift(state: nat) | Reduce(rule: nat) | Accept | Error

  datatype State = State(actions: map<nat, Act>, default: Option<nat>)

  type Automaton = seq<State>

  // ---- the plain machine ----

  /** No looking ahead: whatever the token, the state reduces by its default rule. */
  predicate IsAuto(a: Automaton, s: nat)
  {
    s < |a| && a[s].actions == map[] && a[s].default.Some?
  }

  /** The token that decides in state s, as Image() has it for tables. */
  function Taken(t: Tables, a: Automaton, s: nat, x: nat): nat
    requires s < |a| && x < |t.yyFallback|
  {
    var acts := a[s].actions;
    if x in acts then x
    else
      var f := if t.yyFallback[x] != 0 then t.yyFallback[x] else x;
      if f !in acts && t.wildcard != 0 && t.wildcard in acts && f > 0 then t.wildcard else f
  }

  function PlainAction(t: Tables, a: Automaton, s: nat, x: nat): Act
    requires s < |a| && x < |t.yyFallback|
  {
    var y := Taken(t, a, s, x);
    if y in a[s].actions then a[s].actions[y]
    else if a[s].default.Some? then Reduce(a[s].default.value)
    else Error
  }

  /** The states on the stack, whether accept is on top of them, and what was done. */
  datatype Plain = Plain(states: seq<nat>, done: bool, toks: seq<nat>, imgs: seq<nat>, rules: seq<nat>)

  const PLAIN_START := Plain([0], false, [], [], [])

  datatype PlainMove = PlainReduces(p: Plain) | PlainShifts(p: Plain) | PlainAccepts | PlainFails | Stuck

  ghost predicate IsPlain(a: Automaton, p: Plain)
  {
    p.states != [] && forall i :: 0 <= i < |p.states| ==> p.states[i] < |a|
  }

  function Top(p: Plain): nat
    requires p.states != []
  {
    p.states[|p.states| - 1]
  }

  /** Enter the state that the automaton goes to on nonterminal x. */
  function Enter(a: Automaton, p: Plain, x: nat): PlainMove
    requires p.states != [] && Top(p) < |a|
  {
    if x !in a[Top(p)].actions then Stuck
    else match a[Top(p)].actions[x]
      case Shift(s) => if s < |a| then PlainReduces(p.(states := p.states + [s])) else Stuck
      case Accept => PlainReduces(p.(done := true))
      case _ => Stuck
  }

  /** The right-hand side of the rule taken off. */
  function Popped(p: Plain, n: nat, r: nat): Plain
    requires n < |p.states|
  {
    p.(states := p.states[..|p.states| - n], rules := p.rules + [r])
  }

  function PlainStep(t: Tables, g: Grammar, a: Automaton, p: Plain, x: nat): PlainMove
    requires IsPlain(a, p) && x < |t.yyFallback|
  {
    if p.done then PlainAccepts
    else match PlainAction(t, a, Top(p), x)
      case Shift(s) =>
        if s >= |a| then Stuck
        else PlainShifts(p.(states := p.states + [s], toks := p.toks + [x],
                            imgs := p.imgs + [Taken(t, a, Top(p), x)]))
      case Reduce(r) =>
        if r < |g.rules| && |g.rules[r].rhs| < |p.states| then
          Enter(a, Popped(p, |g.rules[r].rhs|, r), g.rules[r].lhs)
        else Stuck
      case Error => PlainFails
      case Accept => Stuck
  }

  lemma PlainStays(t: Tables, g: Grammar, a: Automaton, p: Plain, x: nat)
    requires IsPlain(a, p) && x < |t.yyFallback|
    ensures var m := PlainStep(t, g, a, p, x); m.PlainReduces? || m.PlainShifts? ==> IsPlain(a, m.p)
  {
  }

  datatype PlainRun = PlainReading(p: Plain) | PlainAccepted(p: Plain, rest: seq<nat>)
                    | PlainFailed(p: Plain, rest: seq<nat>) | PlainOutOfFuel | PlainStuck

  ghost function RunPlain(t: Tables, g: Grammar, a: Automaton, p: Plain, toks: seq<nat>, fuel: nat): PlainRun
    requires IsPlain(a, p) && AreTokens(t, toks) && t.nToken <= |t.yyFallback|
    decreases fuel
  {
    if toks == [] then PlainReading(p)
    else if fuel == 0 then PlainOutOfFuel
    else
      PlainStays(t, g, a, p, toks[0]);
      match PlainStep(t, g, a, p, toks[0])
      case PlainReduces(p') => RunPlain(t, g, a, p', toks, fuel - 1)
      case PlainShifts(p') => RunPlain(t, g, a, p', toks[1..], fuel - 1)
      case PlainAccepts => PlainAccepted(p, toks)
      case PlainFails => PlainFailed(p, toks)
      case Stuck => PlainStuck
  }

  // ---- the tables written for it ----

  /** The reduce in auto state s is left out after nonterminal x. */
  predicate IsElided(t: Tables, g: Grammar, a: Automaton, s: nat, x: nat)
    requires IsAuto(a, s)
  {
    && x >= t.nToken && a[s].default.value < |g.rules|
    && !g.rules[a[s].default.value].hasCode && |g.rules[a[s].default.value].rhs| == 1
  }

  /** The number written for symbol x in state q, if it is found by going up at most n
      rules that are left out. */
  function Code(t: Tables, g: Grammar, a: Automaton, q: nat, x: nat, n: nat): Option<nat>
    requires q < |a|
    decreases n
  {
    if x !in a[q].actions then None
    else match a[q].actions[x]
      case Accept => Some(AcceptAction(t))
      case Error => Some(ErrorAction(t))
      case Reduce(r) => Some(MinReduce(t) + r)
      case Shift(s) =>
        if !IsAuto(a, s) then Some(s)
        else if !IsElided(t, g, a, s, x) then
          Some((if x < t.nToken then t.minShiftReduce else MinReduce(t)) + a[s].default.value)
        else if n == 0 then None
        else Code(t, g, a, q, g.rules[a[s].default.value].lhs, n - 1)
  }

  ghost predicate CodeIs(t: Tables, g: Grammar, a: Automaton, q: nat, x: nat, act: nat)
    requires q < |a|
  {
    exists n: nat :: Code(t, g, a, q, x, n) == Some(act)
  }

  /** A state is an auto state, or it is one of those that keep their number; an auto
      state's rule is not empty, since a state with an empty rule can also shift. */
  ghost predicate StatesOk(t: Tables, g: Grammar, a: Automaton)
  {
    && |a| > t.maxShift && |g.rules| == t.nRule && !IsAuto(a, 0)
    && (forall r :: 0 <= r < |g.rules| ==> g.rules[r].lhs >= t.nToken)
    && (forall s :: t.maxShift < s < |a| ==> IsAuto(a, s))
    && (forall s :: 0 <= s < |a| && a[s].default.Some? ==> a[s].default.value < t.nRule)
    && (forall s :: 0 <= s < |a| && IsAuto(a, s) ==> g.rules[a[s].default.value].rhs != [])
    && (forall s, x :: 0 <= s < |a| && x in a[s].actions ==> ActFits(t, a, x, a[s].actions[x]))
  }

  ghost predicate ActFits(t: Tables, a: Automaton, x: nat, act: Act)
  {
    match act
    case Shift(s) => s < |a|
    case Reduce(r) => r < t.nRule && x < t.nToken
    case Accept => x >= t.nToken
    case Error => x < t.nToken
  }

  ghost predicate TokenWritten(t: Tables, g: Grammar, a: Automaton, s: nat, x: nat)
    requires InBounds(t) && s <= t.maxShift < |a| && x < t.nToken
  {
    && (Hit(t, s, x) <==> x in a[s].actions)
    && (Hit(t, s, x) ==> Code(t, g, a, s, x, 0) == Some(t.yyAction[t.yyShiftOfst[s] + x]))
  }

  ghost predicate GotoWritten(t: Tables, g: Grammar, a: Automaton, s: nat, x: nat)
    requires s < |a|
  {
    GotoHit(t, s, x) && CodeIs(t, g, a, s, x, Goto(t, s, x))
  }

  /** The tables are what the generator writes for the automaton. */
  ghost predicate Encodes(t: Tables, g: Grammar, c: Certificate, a: Automaton)
  {
    && InBounds(t) && StatesOk(t, g, a)
    && (forall s :: 0 <= s <= t.maxShift ==>
          t.yyDefault[s] == if a[s].default.Some? then MinReduce(t) + a[s].default.value else ErrorAction(t))
    && (forall s, x :: 0 <= s <= t.maxShift && 0 <= x < t.nToken ==> TokenWritten(t, g, a, s, x))
    && (forall s, x: nat :: 0 <= s <= t.maxShift && x >= t.nToken && x in a[s].actions ==> GotoWritten(t, g, a, s, x))
    && (forall q, x :: (q, x) in c.gotos ==> q <= t.maxShift && x >= t.nToken && x in a[q].actions)
  }

  // ---- one state of each machine ----

  /** The rules that run code. */
  function Coded(g: Grammar, rules: seq<nat>): seq<nat>
  {
    if rules == [] then []
    else
      var r := rules[|rules| - 1];
      Coded(g, rules[..|rules| - 1]) + if r < |g.rules| && g.rules[r].hasCode then [r] else []
  }

  /** A plain state on top, and what the driver has there instead. */
  predicate SameTop(t: Tables, a: Automaton, ps: nat, ks: nat)
  {
    if IsAuto(a, ps) then ks == MinReduce(t) + a[ps].default.value else ks == ps
  }

  /** The plain machine and the driver have done the same: they took the same tokens for
      the same terminals, ran the same code, and their stacks hold the same states but for
      a reduce that the driver has pending instead of a state. */
  ghost predicate Same(t: Tables, g: Grammar, a: Automaton, p: Plain, k: Stack)
  {
    && p.states != [] && k.states != []
    && p.toks == k.toks && p.imgs == k.imgs && Coded(g, p.rules) == Coded(g, k.rules)
    && var top := |k.states| - 1;
       if p.done then p.states == k.states[..top] && k.states[top] == AcceptAction(t)
       else |p.states| == |k.states| && p.states[..top] == k.states[..top]
              && SameTop(t, a, p.states[top], k.states[top])
  }

  ghost predicate SameRun(t: Tables, g: Grammar, a: Automaton, plain: PlainRun, fused: Run)
  {
    match plain
    case PlainReading(p) => fused.Reading? && Same(t, g, a, p, fused.k)
    case PlainAccepted(p, rest) => fused.Accepted? && Same(t, g, a, p, fused.k) && fused.rest == rest
    case PlainFailed(p, rest) => fused.Failed? && Same(t, g, a, p, fused.k) && fused.rest == rest
    case PlainOutOfFuel => fused == OutOfFuel
    case PlainStuck => false
  }

  // ---- going up the rules that are left out ----

  /** j reduces lead from p to p', whatever the token. */
  ghost predicate Reaches(t: Tables, g: Grammar, a: Automaton, p: Plain, x: nat, j: nat, p': Plain)
    requires x < |t.yyFallback|
    decreases j
  {
    && IsPlain(a, p)
    && if j == 0 then p' == p
       else var m := PlainStep(t, g, a, p, x); m.PlainReduces? && Reaches(t, g, a, m.p, x, j - 1, p')
  }

  lemma {:induction false} ReachedIsPlain(t: Tables, g: Grammar, a: Automaton, p: Plain, x: nat, j: nat, p': Plain)
    requires x < |t.yyFallback| && Reaches(t, g, a, p, x, j, p')
    ensures IsPlain(a, p) && IsPlain(a, p')
    decreases j
  {
    if j > 0 { ReachedIsPlain(t, g, a, PlainStep(t, g, a, p, x).p, x, j - 1, p'); }
  }

  lemma {:induction false} RunReaches(t: Tables, g: Grammar, a: Automaton, p: Plain, toks: seq<nat>, j: nat, p': Plain,
                                      f: nat)
    requires AreTokens(t, toks) && t.nToken <= |t.yyFallback| && toks != []
    requires Reaches(t, g, a, p, toks[0], j, p') && IsPlain(a, p) && IsPlain(a, p')
    ensures RunPlain(t, g, a, p, toks, f + j) == RunPlain(t, g, a, p', toks, f)
    decreases j
  {
    hide PlainStep;
    if j > 0 {
      var m := PlainStep(t, g, a, p, toks[0]);
      ReachedIsPlain(t, g, a, m.p, toks[0], j - 1, p');
      RunReaches(t, g, a, m.p, toks, j - 1, p', f);
    }
  }

  lemma {:induction false} RunNeeds(t: Tables, g: Grammar, a: Automaton, p: Plain, toks: seq<nat>, j: nat, p': Plain,
                                    f: nat)
    requires AreTokens(t, toks) && t.nToken <= |t.yyFallback| && toks != []
    requires Reaches(t, g, a, p, toks[0], j, p') && IsPlain(a, p)
    requires RunPlain(t, g, a, p, toks, f) != PlainOutOfFuel
    ensures j <= f
    decreases j
  {
    hide PlainStep;
    if j > 0 {
      var m := PlainStep(t, g, a, p, toks[0]);
      ReachedIsPlain(t, g, a, m.p, toks[0], j - 1, p');
      RunNeeds(t, g, a, m.p, toks, j - 1, p', f - 1);
    }
  }

  /** From p the machine came to p' by entering a state on some nonterminal: that state, or
      accept, is on top, as the driver has it by the number act. */
  ghost predicate Entered(t: Tables, g: Grammar, a: Automaton, p: Plain, p': Plain, act: nat)
  {
    && p'.toks == p.toks && p'.imgs == p.imgs && Coded(g, p'.rules) == Coded(g, p.rules)
    && if p'.done then p'.states == p.states && act == AcceptAction(t)
       else p'.states != [] && p'.states[..|p'.states| - 1] == p.states && SameTop(t, a, Top(p'), act)
  }

  lemma CodedAppend(g: Grammar, rules: seq<nat>, r: nat)
    ensures Coded(g, rules + [r]) == Coded(g, rules) + if r < |g.rules| && g.rules[r].hasCode then [r] else []
  {
    assert (rules + [r])[..|rules|] == rules;
  }

  /** An auto state that was entered by a goto leaves at once for the goto on its rule's
      left-hand side. */
  lemma LeavesAgain(t: Tables, g: Grammar, a: Automaton, p: Plain, s: nat, x: nat)
    requires IsPlain(a, p) && !p.done && IsAuto(a, s) && x < |t.yyFallback|
    requires var r := a[s].default.value; r < |g.rules| && |g.rules[r].rhs| == 1
    ensures var r := a[s].default.value;
            PlainStep(t, g, a, p.(states := p.states + [s]), x) == Enter(a, p.(rules := p.rules + [r]), g.rules[r].lhs)
  {
    var up := p.(states := p.states + [s]);
    assert up.states[..|up.states| - 1] == p.states;
    assert Popped(up, 1, a[s].default.value) == p.(rules := p.rules + [a[s].default.value]);
  }

  /** Where the generator leaves a rule out, the plain machine reduces by it. */
  lemma GoesUp(t: Tables, g: Grammar, a: Automaton, p: Plain, s: nat, x: nat, n: nat, act: nat, tok: nat)
    requires StatesOk(t, g, a) && IsPlain(a, p) && !p.done && tok < |t.yyFallback|
    requires x in a[Top(p)].actions && a[Top(p)].actions[x] == Shift(s) && IsAuto(a, s) && IsElided(t, g, a, s, x)
    requires Code(t, g, a, Top(p), x, n) == Some(act)
    ensures var r := a[s].default.value;
            var p2 := p.(rules := p.rules + [r]);
            && r < |g.rules| && g.rules[r].lhs >= t.nToken && n > 0 && IsPlain(a, p2)
            && Code(t, g, a, Top(p2), g.rules[r].lhs, n - 1) == Some(act)
            && Coded(g, p2.rules) == Coded(g, p.rules)
            && Enter(a, p, x).PlainReduces? && IsPlain(a, Enter(a, p, x).p)
            && PlainStep(t, g, a, Enter(a, p, x).p, tok) == Enter(a, p2, g.rules[r].lhs)
  {
    hide StatesOk, Coded, PlainStep;
    StateShape(t, g, a, s, Top(p), x);
    LeavesAgain(t, g, a, p, s, tok);
    CodedAppend(g, p.rules, a[s].default.value);
  }

  lemma StateShape(t: Tables, g: Grammar, a: Automaton, s: nat, q: nat, x: nat)
    requires StatesOk(t, g, a) && IsAuto(a, s) && q < |a| && x in a[q].actions
    ensures a[s].default.value < |g.rules| && g.rules[a[s].default.value].lhs >= t.nToken
    ensures ActFits(t, a, x, a[q].actions[x])
  {
  }

  /** A goto that is written as it stands. */
  lemma GoesThere(t: Tables, g: Grammar, a: Automaton, p: Plain, x: nat, n: nat, act: nat, tok: nat)
    requires StatesOk(t, g, a) && IsPlain(a, p) && !p.done && tok < |t.yyFallback|
    requires x >= t.nToken && Code(t, g, a, Top(p), x, n) == Some(act)
    requires match a[Top(p)].actions[x] case Shift(s) => !(IsAuto(a, s) && IsElided(t, g, a, s, x)) case _ => true
    ensures Enter(a, p, x).PlainReduces? && Entered(t, g, a, p, Enter(a, p, x).p, act)
    ensures Reaches(t, g, a, Enter(a, p, x).p, tok, 0, Enter(a, p, x).p)
  {
    assert ActFits(t, a, x, a[Top(p)].actions[x]);
    hide StatesOk, Coded;
  }

  /** After the goto on a nonterminal the plain machine goes up as many rules as the
      generator left out, and then is where the driver is. */
  lemma {:induction false} Climb(t: Tables, g: Grammar, a: Automaton, p: Plain, x: nat, n: nat, act: nat, tok: nat)
      returns (j: nat, p': Plain)
    requires StatesOk(t, g, a) && IsPlain(a, p) && !p.done && tok < |t.yyFallback|
    requires x >= t.nToken && Code(t, g, a, Top(p), x, n) == Some(act)
    ensures Enter(a, p, x).PlainReduces? && Reaches(t, g, a, Enter(a, p, x).p, tok, j, p')
    ensures Entered(t, g, a, p, p', act)
    decreases n
  {
    hide StatesOk, Coded, SameTop, Enter, PlainStep;
    assert x in a[Top(p)].actions;
    var goes := a[Top(p)].actions[x];
    if goes.Shift? && IsAuto(a, goes.state) && IsElided(t, g, a, goes.state, x) {
      var r := a[goes.state].default.value;
      GoesUp(t, g, a, p, goes.state, x, n, act, tok);
      j, p' := Climb(t, g, a, p.(rules := p.rules + [r]), g.rules[r].lhs, n - 1, act, tok);
      j := j + 1;
    } else {
      GoesThere(t, g, a, p, x, n, act, tok);
      j, p' := 0, Enter(a, p, x).p;
    }
  }

  // ---- one pass of the driver's loop ----

  lemma SameTaken(t: Tables, g: Grammar, c: Certificate, a: Automaton, s: nat, x: nat)
    requires Encodes(t, g, c, a) && s <= t.maxShift && x < t.nToken
    ensures s < |a| && x < |t.yyFallback| && Image(t, s, x) == Taken(t, a, s, x)
    ensures TokenWritten(t, g, a, s, Image(t, s, x))
  {
    var f := if t.yyFallback[x] != 0 then t.yyFallback[x] else x;
    assert TokenWritten(t, g, a, s, x) && TokenWritten(t, g, a, s, f) && TokenWritten(t, g, a, s, t.wildcard);
  }

  /** The driver looks up what the automaton does. */
  lemma ActionWritten(t: Tables, g: Grammar, c: Certificate, a: Automaton, s: nat, x: nat)
    requires Encodes(t, g, c, a) && s <= t.maxShift && x < t.nToken
    ensures s < |a| && x < |t.yyFallback| && Image(t, s, x) == Taken(t, a, s, x)
    ensures var act := ShiftAction(t, s, x);
            match PlainAction(t, a, s, x)
            case Shift(s') =>
              s' < |a| && act <= MaxShiftReduce(t) && SameTop(t, a, s', PushedState(t, act))
            case Reduce(r) => r < t.nRule && act == MinReduce(t) + r
            case Error => act == ErrorAction(t)
            case Accept => false
  {
    SameTaken(t, g, c, a, s, x);
    hide Taken, GotoWritten, CodeIs;
    var y := Taken(t, a, s, x);
    if y in a[s].actions { assert ActFits(t, a, y, a[s].actions[y]); }
  }

  /** Popping uncovers the same state, and what is written for its goto is the goto. */
  lemma SameUncovered(t: Tables, g: Grammar, c: Certificate, a: Automaton, p: Plain, k: Stack, r: nat)
    requires Valid(t, g, c) && StackOk(t, g, c, k) && k.states[|k.syms|] != AcceptAction(t)
    requires CanReduce(g, c, Known(t, c, k), k.states[|k.syms|], r)
    requires Encodes(t, g, c, a) && IsPlain(a, p) && Same(t, g, a, p, k) && !p.done
    requires IsAuto(a, Top(p)) ==> g.rules[r].rhs != []
    ensures r < |g.rules| && |g.rules[r].rhs| <= |k.syms| && |k.states| == |k.syms| + 1 && |k.trees| == |k.syms|
    ensures |g.rules[r].rhs| < |p.states| == |k.states|
    ensures var q := k.states[|k.syms| - |g.rules[r].rhs|];
            && Top(Popped(p, |g.rules[r].rhs|, r)) == q && q < |a| && g.rules[r].lhs >= t.nToken
            && GotoHit(t, q, g.rules[r].lhs) && CodeIs(t, g, a, q, g.rules[r].lhs, Goto(t, q, g.rules[r].lhs))
            && AfterReduce(t, g, c, k, r) == Reduced(t, g, k, r, Goto(t, q, g.rules[r].lhs))
  {
    ReduceOk(t, g, c, k, r);
    Handle(t, g, c, k, r);
    LevelsShape(t, g, c, k);
    hide Valid, StackOk, CanReduce, Known, GotoHit, Goto, CodeIs, Reduced, Coded, StandFor;
    var n, lhs := |g.rules[r].rhs|, g.rules[r].lhs;
    var q := k.states[|k.syms| - n];
    if n > 0 {
      assert p.states[|k.syms| - n] == p.states[..|k.syms|][|k.syms| - n];
      assert k.states[|k.syms| - n] == k.states[..|k.syms|][|k.syms| - n];
    }
    assert GotoWritten(t, g, a, q, lhs);
  }

  lemma EnteredIsSame(t: Tables, g: Grammar, a: Automaton, p: Plain, k: Stack, r: nat, p': Plain, act: nat)
    requires Same(t, g, a, p, k) && !p.done && r < |g.rules| && |g.rules[r].rhs| <= |k.syms|
    requires |k.states| == |k.syms| + 1 == |p.states| && |k.trees| == |k.syms|
    requires Top(Popped(p, |g.rules[r].rhs|, r)) == k.states[|k.syms| - |g.rules[r].rhs|]
    requires Entered(t, g, a, Popped(p, |g.rules[r].rhs|, r), p', act)
    ensures Same(t, g, a, p', Reduced(t, g, k, r, act))
  {
    hide SameTop, Coded, LiftAll;
    CodedAppend(g, p.rules, r);
    CodedAppend(g, k.rules, r);
    var m := |k.syms| - |g.rules[r].rhs|;
    var b, k' := Popped(p, |g.rules[r].rhs|, r), Reduced(t, g, k, r, act);
    assert b.states == p.states[..m + 1] && k'.states == k.states[..m + 1] + [act];
    assert p.states[..m] == p.states[..|k.syms|][..m] && k.states[..m] == k.states[..|k.syms|][..m];
    assert p.states[..m + 1] == p.states[..m] + [p.states[m]] && k.states[..m + 1] == k.states[..m] + [k.states[m]];
    assert k'.states[..m + 1] == b.states;
  }

  /** A reduce of the driver, and the reduces of the plain machine until it is there too. */
  lemma SameReduce(t: Tables, g: Grammar, c: Certificate, a: Automaton, p: Plain, k: Stack, r: nat, tok: nat)
      returns (j: nat, p': Plain)
    requires Valid(t, g, c) && StackOk(t, g, c, k) && k.states[|k.syms|] != AcceptAction(t)
    requires CanReduce(g, c, Known(t, c, k), k.states[|k.syms|], r)
    requires Encodes(t, g, c, a) && IsPlain(a, p) && Same(t, g, a, p, k) && !p.done && tok < |t.yyFallback|
    requires IsAuto(a, Top(p)) ==> g.rules[r].rhs != []
    ensures r < |g.rules| && |g.rules[r].rhs| < |p.states|
    ensures var m := Enter(a, Popped(p, |g.rules[r].rhs|, r), g.rules[r].lhs);
            m.PlainReduces? && Reaches(t, g, a, m.p, tok, j, p')
    ensures Same(t, g, a, p', AfterReduce(t, g, c, k, r))
  {
    hide Valid, StackOk, CanReduce, Known, GotoHit, Goto, Same, Reaches, AfterReduce, Entered, Code, StatesOk,
         Coded, Reduced, Enter;
    SameUncovered(t, g, c, a, p, k, r);
    var n, lhs := |g.rules[r].rhs|, g.rules[r].lhs;
    var q := k.states[|k.syms| - n];
    var b := Popped(p, n, r);
    var i: nat :| Code(t, g, a, q, lhs, i) == Some(Goto(t, q, lhs));
    j, p' := Climb(t, g, a, b, lhs, i, Goto(t, q, lhs), tok);
    EnteredIsSame(t, g, a, p, k, r, p', Goto(t, q, lhs));
  }

  /** What the plain machine does next, by what the driver has on top. */
  lemma TopsMatch(t: Tables, g: Grammar, c: Certificate, a: Automaton, p: Plain, k: Stack, x: nat)
    requires Encodes(t, g, c, a) && IsPlain(a, p) && Same(t, g, a, p, k) && x < t.nToken
    requires |k.states| == |k.syms| + 1
    ensures x < |t.yyFallback|
    ensures var s := k.states[|k.syms|];
            && (p.done ==> s == AcceptAction(t))
            && (!p.done && IsAuto(a, Top(p)) ==>
                  s == MinReduce(t) + a[Top(p)].default.value
                  && PlainAction(t, a, Top(p), x) == Reduce(a[Top(p)].default.value)
                  && a[Top(p)].default.value < |g.rules| && g.rules[a[Top(p)].default.value].rhs != [])
            && (!p.done && !IsAuto(a, Top(p)) ==> s == Top(p) <= t.maxShift)
  {
    hide Coded, TokenWritten, GotoWritten;
  }

  lemma SameShift(t: Tables, g: Grammar, a: Automaton, p: Plain, k: Stack, ps: nat, ks: nat, tok: nat, img: nat)
    requires Same(t, g, a, p, k) && !p.done && |k.states| == |k.syms| + 1 && SameTop(t, a, ps, ks)
    requires Top(p) == k.states[|k.syms|]
    ensures Same(t, g, a, p.(states := p.states + [ps], toks := p.toks + [tok], imgs := p.imgs + [img]),
                 Shifted(k, ks, tok, img))
  {
    var p' := p.(states := p.states + [ps], toks := p.toks + [tok], imgs := p.imgs + [img]);
    var k' := Shifted(k, ks, tok, img);
    assert p.states == p.states[..|k.syms|] + [Top(p)];
    assert k.states == k.states[..|k.syms|] + [Top(p)];
    assert k'.states[..|k.states|] == k.states;
    assert p'.states[..|p.states|] == p.states;
    hide Coded, SameTop;
  }

  /** A state on top that the automaton keeps: look up, and shift, reduce or fail alike. */
  lemma SameLookup(t: Tables, g: Grammar, c: Certificate, a: Automaton, p: Plain, k: Stack, tok: nat)
      returns (j: nat, p': Plain)
    requires Valid(t, g, c) && StackOk(t, g, c, k) && tok < t.nToken
    requires Encodes(t, g, c, a) && IsPlain(a, p) && Same(t, g, a, p, k)
    requires !p.done && Top(p) == k.states[|k.syms|] <= t.maxShift && !IsAuto(a, Top(p)) && tok < |t.yyFallback|
    ensures SteppedAlike(t, g, a, Step(t, g, c, k, tok), PlainStep(t, g, a, p, tok), tok, j, p')
  {
    hide Valid, StackOk, Encodes, Same, Step, CanReduce, Known, ShiftAction, Image, Taken, PlainAction, AfterReduce,
         Reaches, Enter, InBounds, SameTop, LevelsOk;
    LevelsShape(t, g, c, k);
    StepCases(t, g, c, k, tok);
    ActionWritten(t, g, c, a, Top(p), tok);
    j, p' := 0, p;
    match PlainAction(t, a, Top(p), tok)
    case Shift(s) =>
      SameShift(t, g, a, p, k, s, PushedState(t, ShiftAction(t, Top(p), tok)), tok, Image(t, Top(p), tok));
    case Reduce(r) => j, p' := SameReduce(t, g, c, a, p, k, r, tok);
    case Error =>
  }

  /** The two moves are the same; after a reduce the plain machine may need j more. */
  ghost predicate SteppedAlike(t: Tables, g: Grammar, a: Automaton, m: Move, pm: PlainMove, tok: nat, j: nat, p': Plain)
    requires tok < |t.yyFallback|
  {
    match m
    case Reduces(k') => pm.PlainReduces? && Reaches(t, g, a, pm.p, tok, j, p') && Same(t, g, a, p', k')
    case Shifts(k') => pm.PlainShifts? && Same(t, g, a, pm.p, k')
    case Accepts => pm == PlainAccepts
    case Fails => pm == PlainFails
  }

  /** An auto state on top is a pending reduce of the driver. */
  lemma SamePending(t: Tables, g: Grammar, c: Certificate, a: Automaton, p: Plain, k: Stack, tok: nat)
      returns (j: nat, p': Plain)
    requires Valid(t, g, c) && StackOk(t, g, c, k) && tok < t.nToken
    requires Encodes(t, g, c, a) && IsPlain(a, p) && Same(t, g, a, p, k) && tok < |t.yyFallback|
    requires |k.states| == |k.syms| + 1 && !p.done && IsAuto(a, Top(p))
    ensures SteppedAlike(t, g, a, Step(t, g, c, k, tok), PlainStep(t, g, a, p, tok), tok, j, p')
  {
    hide Valid, StackOk, Encodes, Same, Step, CanReduce, Known, ShiftAction, Image, Taken, PlainAction, AfterReduce,
         Reaches, Enter, InBounds;
    TopsMatch(t, g, c, a, p, k, tok);
    StepCases(t, g, c, k, tok);
    j, p' := SameReduce(t, g, c, a, p, k, a[Top(p)].default.value, tok);
  }

  lemma AcceptStep(t: Tables, g: Grammar, c: Certificate, k: Stack, tok: nat)
    requires Valid(t, g, c) && StackOk(t, g, c, k) && tok < t.nToken && k.states[|k.syms|] == AcceptAction(t)
    ensures Step(t, g, c, k, tok) == Accepts
  {
    StepCases(t, g, c, k, tok);
    hide *;
  }

  lemma SameStep(t: Tables, g: Grammar, c: Certificate, a: Automaton, p: Plain, k: Stack, tok: nat)
      returns (j: nat, p': Plain)
    requires Valid(t, g, c) && StackOk(t, g, c, k) && tok < t.nToken && tok < |t.yyFallback|
    requires Encodes(t, g, c, a) && IsPlain(a, p) && Same(t, g, a, p, k)
    ensures SteppedAlike(t, g, a, Step(t, g, c, k, tok), PlainStep(t, g, a, p, tok), tok, j, p')
  {
    hide Valid, StackOk, Encodes, Same, Step, PlainAction, Reaches, Enter, InBounds, LevelsOk;
    LevelsShape(t, g, c, k);
    TopsMatch(t, g, c, a, p, k, tok);
    if p.done {
      AcceptStep(t, g, c, k, tok);
      j, p' := 0, p;
    } else if IsAuto(a, Top(p)) {
      j, p' := SamePending(t, g, c, a, p, k, tok);
    } else {
      j, p' := SameLookup(t, g, c, a, p, k, tok);
    }
  }

  // ---- whole runs ----

  /** Whatever the plain machine does on some tokens, the driver does, and as fast. */
  lemma {:induction false} PlainImpliesFused(t: Tables, g: Grammar, c: Certificate, a: Automaton, p: Plain, k: Stack,
                                             toks: seq<nat>, f: nat)
    requires Valid(t, g, c) && StackOk(t, g, c, k) && AreTokens(t, toks) && t.nToken <= |t.yyFallback|
    requires Encodes(t, g, c, a) && IsPlain(a, p) && Same(t, g, a, p, k)
    requires RunPlain(t, g, a, p, toks, f) != PlainOutOfFuel
    ensures SameRun(t, g, a, RunPlain(t, g, a, p, toks, f), FusedRun(t, g, c, k, toks, f))
    decreases f
  {
    hide Valid, StackOk, Encodes, IsPlain, Same, Step, PlainStep, Reaches;
    if toks != [] {
      var j, p' := SameStep(t, g, c, a, p, k, toks[0]);
      PlainStays(t, g, a, p, toks[0]);
      var m := PlainStep(t, g, a, p, toks[0]);
      match Step(t, g, c, k, toks[0])
      case Reduces(k') =>
        RunNeeds(t, g, a, m.p, toks, j, p', f - 1);
        ReachedIsPlain(t, g, a, m.p, toks[0], j, p');
        RunReaches(t, g, a, m.p, toks, j, p', f - 1 - j);
        PlainImpliesFused(t, g, c, a, p', k', toks, f - 1 - j);
        MoreFuel(t, g, c, k', toks, f - 1 - j, f - 1);
      case Shifts(k') => PlainImpliesFused(t, g, c, a, m.p, k', toks[1..], f - 1);
      case _ =>
    }
  }

  /** Whatever the driver does, the plain machine does if it gets enough passes. */
  lemma {:induction false} FusedImpliesPlain(t: Tables, g: Grammar, c: Certificate, a: Automaton, p: Plain, k: Stack,
                                             toks: seq<nat>, f: nat) returns (f': nat)
    requires Valid(t, g, c) && StackOk(t, g, c, k) && AreTokens(t, toks) && t.nToken <= |t.yyFallback|
    requires Encodes(t, g, c, a) && IsPlain(a, p) && Same(t, g, a, p, k)
    requires FusedRun(t, g, c, k, toks, f) != OutOfFuel
    ensures SameRun(t, g, a, RunPlain(t, g, a, p, toks, f'), FusedRun(t, g, c, k, toks, f))
    decreases f
  {
    hide Valid, StackOk, Encodes, IsPlain, Same, Step, PlainStep, Reaches;
    f' := 1;
    if toks != [] {
      var j, p' := SameStep(t, g, c, a, p, k, toks[0]);
      PlainStays(t, g, a, p, toks[0]);
      var m := PlainStep(t, g, a, p, toks[0]);
      match Step(t, g, c, k, toks[0])
      case Reduces(k') =>
        ReachedIsPlain(t, g, a, m.p, toks[0], j, p');
        var n := FusedImpliesPlain(t, g, c, a, p', k', toks, f - 1);
        RunReaches(t, g, a, m.p, toks, j, p', n);
        f' := n + j + 1;
      case Shifts(k') =>
        var n := FusedImpliesPlain(t, g, c, a, m.p, k', toks[1..], f - 1);
        f' := n + 1;
      case _ =>
    }
  }

  lemma StartsAlike(t: Tables, g: Grammar, c: Certificate, a: Automaton)
    requires Encodes(t, g, c, a)
    ensures IsPlain(a, PLAIN_START) && Same(t, g, a, PLAIN_START, EMPTY_STACK)
  {
  }

  ghost predicate PlainAcceptsAll(t: Tables, g: Grammar, a: Automaton, toks: seq<nat>)
    requires AreTokens(t, toks) && t.nToken <= |t.yyFallback| && IsPlain(a, PLAIN_START)
  {
    exists f: nat :: PlainAcceptsAtEnd(RunPlain(t, g, a, PLAIN_START, toks, f), toks)
  }

  predicate PlainAcceptsAtEnd(r: PlainRun, toks: seq<nat>)
  {
    r.PlainAccepted? && |r.rest| == 1 && |toks| > 0 && r.rest[0] == toks[|toks| - 1]
  }

  /** The compressed tables accept what the automaton accepts, neither more nor less. */
  lemma SameLanguage(t: Tables, g: Grammar, c: Certificate, a: Automaton, toks: seq<nat>)
    requires Valid(t, g, c) && Encodes(t, g, c, a) && AreTokens(t, toks)
    ensures t.nToken <= |t.yyFallback| && IsPlain(a, PLAIN_START)
    ensures MachineAccepts(t, g, c, toks) <==> PlainAcceptsAll(t, g, a, toks)
  {
    EmptyOk(t, g, c);
    StartsAlike(t, g, c, a);
    assert t.nToken <= |t.yyFallback|;
    hide Valid, Encodes, StackOk, FusedRun, RunPlain, Same, IsPlain;
    if MachineAccepts(t, g, c, toks) {
      var f: nat :| AcceptsAtEnd(FusedRun(t, g, c, EMPTY_STACK, toks, f), toks);
      var n := FusedImpliesPlain(t, g, c, a, PLAIN_START, EMPTY_STACK, toks, f);
      assert PlainAcceptsAtEnd(RunPlain(t, g, a, PLAIN_START, toks, n), toks);
    }
    if PlainAcceptsAll(t, g, a, toks) {
      var f: nat :| PlainAcceptsAtEnd(RunPlain(t, g, a, PLAIN_START, toks, f), toks);
      PlainImpliesFused(t, g, c, a, PLAIN_START, EMPTY_STACK, toks, f);
      assert AcceptsAtEnd(FusedRun(t, g, c, EMPTY_STACK, toks, f), toks);
    }
  }
}
