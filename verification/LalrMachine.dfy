// The driver as a function of the stack, one step at a time, and its runs.
module LalrMachine {
  import opened LalrTables
  import opened LalrStack

  datatype Move = Reduces(k: Stack) | Shifts(k: Stack) | Accepts | Fails

  /** The action looked up for the next token, or already pending on top of the stack, is
      one of the four the driver distinguishes, and a reduce can be carried out. */
  lemma ActionKinds(t: Tables, g: Grammar, c: Certificate, k: Stack, tok: nat)
    requires Valid(t, g, c) && StackOk(t, g, c, k) && tok < t.nToken
    ensures var s := k.states[|k.syms|];
            var act := if s > t.maxShift then s else ShiftAction(t, s, tok);
            && (act <= MaxShiftReduce(t) ==> s <= t.maxShift)
            && (act == AcceptAction(t) ==> s == act)
            && (act <= MaxShiftReduce(t) || act == AcceptAction(t) || act == ErrorAction(t) || act >= MinReduce(t))
            && (act >= MinReduce(t) ==>
                  act - MinReduce(t) < |t.yyRuleInfoNRhs| && s != AcceptAction(t)
                  && CanReduce(g, c, Known(t, c, k), s, act - MinReduce(t)))
  {
    var s := k.states[|k.syms|];
    if s <= t.maxShift {
      assert ActionOk(t, g, c, s, tok);
    }
  }

  /** What is pushed for a shift action: a state, or the reduce that is now pending. */
  function PushedState(t: Tables, act: nat): nat
    requires act <= MaxShiftReduce(t)
  {
    if act > t.maxShift then act + MinReduce(t) - t.minShiftReduce else act
  }

  /** The stack once rule r is reduced and the goto on its left-hand side taken. */
  ghost function AfterReduce(t: Tables, g: Grammar, c: Certificate, k: Stack, r: nat): (k': Stack)
    requires Valid(t, g, c) && StackOk(t, g, c, k) && k.states[|k.syms|] != AcceptAction(t)
    requires CanReduce(g, c, Known(t, c, k), k.states[|k.syms|], r)
    ensures StackOk(t, g, c, k') && k'.toks == k.toks && k'.imgs == k.imgs
  {
    ReduceOk(t, g, c, k, r);
    Reduced(t, g, k, r, Goto(t, k.states[|k.syms| - |g.rules[r].rhs|], g.rules[r].lhs))
  }

  /** One pass of the loop in Parse(), if the stack can grow. */
  ghost function Step(t: Tables, g: Grammar, c: Certificate, k: Stack, tok: nat): (m: Move)
    requires Valid(t, g, c) && StackOk(t, g, c, k) && tok < t.nToken
    ensures m.Reduces? || m.Shifts? ==> StackOk(t, g, c, m.k)
  {
    hide Valid, StackOk, CanReduce, Known, InBounds, LevelsOk, ShiftAction, Image;
    LevelsShape(t, g, c, k);
    var s := k.states[|k.syms|];
    var act := if s > t.maxShift then s else ShiftAction(t, s, tok);
    ActionKinds(t, g, c, k, tok);
    if act >= MinReduce(t) then
      Reduces(AfterReduce(t, g, c, k, act - MinReduce(t)))
    else if act <= MaxShiftReduce(t) then
      ShiftOk(t, g, c, k, tok);
      Shifts(Shifted(k, PushedState(t, act), tok, Image(t, s, tok)))
    else if act == AcceptAction(t) then Accepts
    else Fails
  }

  lemma StepCases(t: Tables, g: Grammar, c: Certificate, k: Stack, tok: nat)
    requires Valid(t, g, c) && StackOk(t, g, c, k) && tok < t.nToken
    ensures InBounds(t) && |c.past| == t.maxShift + 1
    ensures var s := k.states[|k.syms|];
            var act := if s > t.maxShift then s else ShiftAction(t, s, tok);
            && (act >= MinReduce(t) ==>
                  (&& s != AcceptAction(t) && CanReduce(g, c, Known(t, c, k), s, act - MinReduce(t))
                   && Step(t, g, c, k, tok) == Reduces(AfterReduce(t, g, c, k, act - MinReduce(t)))))
            && (act <= MaxShiftReduce(t) ==>
                  Step(t, g, c, k, tok) == Shifts(Shifted(k, PushedState(t, act), tok, Image(t, s, tok))))
            && (act == AcceptAction(t) ==> Step(t, g, c, k, tok) == Accepts)
            && (act == ErrorAction(t) ==> Step(t, g, c, k, tok) == Fails)
            && (act >= MinReduce(t) ==> act - MinReduce(t) < |t.yyRuleInfoNRhs|)
            && (act <= MaxShiftReduce(t) ==> s <= t.maxShift) && (act == AcceptAction(t) ==> s == act)
            && (act <= MaxShiftReduce(t) || act == AcceptAction(t) || act == ErrorAction(t) || act >= MinReduce(t))
  {
    ActionKinds(t, g, c, k, tok);
  }

  /** A pending reduce does not look at the token. */
  lemma PendingIgnoresToken(t: Tables, g: Grammar, c: Certificate, k: Stack, x: nat, y: nat)
    requires Valid(t, g, c) && StackOk(t, g, c, k) && x < t.nToken && y < t.nToken
    requires k.states[|k.syms|] >= MinReduce(t)
    ensures Step(t, g, c, k, x) == Step(t, g, c, k, y) && Step(t, g, c, k, x).Reduces?
  {
  }

  // ---- runs ----

  /** How far the machine came: all tokens shifted, accept or error at the first token of
      `rest`, or neither yet. */
  datatype Run = Reading(k: Stack) | Accepted(k: Stack, rest: seq<nat>) | Failed(k: Stack, rest: seq<nat>) | OutOfFuel

  ghost predicate AreTokens(t: Tables, toks: seq<nat>)
  {
    forall i :: 0 <= i < |toks| ==> toks[i] < t.nToken
  }

  ghost function FusedRun(t: Tables, g: Grammar, c: Certificate, k: Stack, toks: seq<nat>, fuel: nat): (r: Run)
    requires Valid(t, g, c) && StackOk(t, g, c, k) && AreTokens(t, toks)
    ensures r != OutOfFuel ==> StackOk(t, g, c, r.k)
    decreases fuel
  {
    if toks == [] then Reading(k)
    else if fuel == 0 then OutOfFuel
    else match Step(t, g, c, k, toks[0])
      case Reduces(k') => FusedRun(t, g, c, k', toks, fuel - 1)
      case Shifts(k') => FusedRun(t, g, c, k', toks[1..], fuel - 1)
      case Accepts => Accepted(k, toks)
      case Fails => Failed(k, toks)
  }

  lemma {:induction false} MoreFuel(t: Tables, g: Grammar, c: Certificate, k: Stack, toks: seq<nat>, f: nat, f': nat)
    requires Valid(t, g, c) && StackOk(t, g, c, k) && AreTokens(t, toks)
    requires f <= f' && FusedRun(t, g, c, k, toks, f) != OutOfFuel
    ensures FusedRun(t, g, c, k, toks, f') == FusedRun(t, g, c, k, toks, f)
    decreases f
  {
    hide Valid, StackOk, Step;
    if toks != [] {
      match Step(t, g, c, k, toks[0])
      case Reduces(k') => MoreFuel(t, g, c, k', toks, f - 1, f' - 1);
      case Shifts(k') => MoreFuel(t, g, c, k', toks[1..], f - 1, f' - 1);
      case _ =>
    }
  }

  /** A run that read all its tokens goes on with the next ones. */
  lemma {:induction false} RunOn(t: Tables, g: Grammar, c: Certificate, k: Stack,
                                 toks: seq<nat>, f: nat, more: seq<nat>, f': nat)
    requires Valid(t, g, c) && StackOk(t, g, c, k) && AreTokens(t, toks) && AreTokens(t, more)
    requires FusedRun(t, g, c, k, toks, f).Reading?
    requires FusedRun(t, g, c, FusedRun(t, g, c, k, toks, f).k, more, f') != OutOfFuel
    ensures FusedRun(t, g, c, k, toks + more, f + f') == FusedRun(t, g, c, FusedRun(t, g, c, k, toks, f).k, more, f')
    decreases f
  {
    hide Valid, StackOk, Step;
    if toks == [] {
      assert toks + more == more;
      MoreFuel(t, g, c, k, more, f', f + f');
    } else {
      assert (toks + more)[1..] == toks[1..] + more;
      match Step(t, g, c, k, toks[0])
      case Reduces(k') => RunOn(t, g, c, k', toks, f - 1, more, f');
      case Shifts(k') => RunOn(t, g, c, k', toks[1..], f - 1, more, f');
      case _ =>
    }
  }

  predicate AcceptsAtEnd(r: Run, toks: seq<nat>)
  {
    r.Accepted? && |r.rest| == 1 && |toks| > 0 && r.rest[0] == toks[|toks| - 1]
  }

  /** From the empty stack the machine comes to accept at the last of the tokens. */
  ghost predicate MachineAccepts(t: Tables, g: Grammar, c: Certificate, toks: seq<nat>)
    requires Valid(t, g, c)
  {
    && StackOk(t, g, c, EMPTY_STACK) && AreTokens(t, toks) && |toks| > 0
    && exists f: nat :: AcceptsAtEnd(FusedRun(t, g, c, EMPTY_STACK, toks, f), toks)
  }

  ghost predicate AcceptsWithin(t: Tables, g: Grammar, c: Certificate, k: Stack, toks: seq<nat>, fuel: nat)
  {
    && Valid(t, g, c) && StackOk(t, g, c, k) && AreTokens(t, toks)
    && AcceptsAtEnd(FusedRun(t, g, c, k, toks, fuel), toks)
  }

  /** A run that accepts at the last token first reads the others, in no more passes each. */
  lemma {:induction false} FirstIsRead(t: Tables, g: Grammar, c: Certificate, k: Stack, toks: seq<nat>, f: nat)
    requires AcceptsWithin(t, g, c, k, toks, f) && |toks| > 1
    ensures FusedRun(t, g, c, k, [toks[0]], f).Reading?
    ensures AcceptsWithin(t, g, c, FusedRun(t, g, c, k, [toks[0]], f).k, toks[1..], f)
    decreases f
  {
    hide Valid, StackOk, Step;
    match Step(t, g, c, k, toks[0])
    case Reduces(k') =>
      FirstIsRead(t, g, c, k', toks, f - 1);
      var r := FusedRun(t, g, c, k', [toks[0]], f - 1);
      MoreFuel(t, g, c, r.k, toks[1..], f - 1, f);
    case Shifts(k') =>
      assert [toks[0]][1..] == [];
      MoreFuel(t, g, c, k', toks[1..], f - 1, f);
    case _ =>
  }
}
