// The table-driven parser loop, with its growable stack.
module LalrDriver {
  import opened LalrTables
  import opened LalrStack
  import opened LalrMachine

  datatype Entry = Entry(stateno: nat, major: nat)

  datatype Outcome = Shift | Accept | SyntaxError | Overflow | Running

  /** yy_find_shift_action(): direct hit, then fallback, then wildcard, then default. */
  method FindShiftAction(t: Tables, tok: nat, stateno: nat) returns (act: nat)
    requires InBounds(t) && tok < t.nToken
    ensures stateno > t.maxShift ==> act == stateno
    ensures stateno <= t.maxShift ==> act == ShiftAction(t, stateno, tok)
  {
    if stateno > t.maxShift { return stateno; }
    var iLookAhead := tok;
    while true
      invariant iLookAhead < t.nToken
      invariant iLookAhead == tok || (iLookAhead == t.yyFallback[tok] != 0 && !Hit(t, stateno, tok))
      decreases t.yyFallback[iLookAhead] != 0
    {
      var i := t.yyShiftOfst[stateno] + iLookAhead;
      if t.yyLookahead[i] != iLookAhead {
        var iFallback := t.yyFallback[iLookAhead];
        if iFallback != 0 {
          iLookAhead := iFallback;
          continue;
        }
        if t.wildcard != 0 {
          var j := i - iLookAhead + t.wildcard;
          if t.yyLookahead[j] == t.wildcard && iLookAhead > 0 { return t.yyAction[j]; }
        }
        return t.yyDefault[stateno];
      } else {
        return t.yyAction[i];
      }
    }
  }

  /** yy_find_reduce_action(), in a grammar without an error symbol */
  method FindReduceAction(t: Tables, stateno: nat, iLookAhead: nat) returns (act: nat)
    requires GotoHit(t, stateno, iLookAhead)
    ensures act == Goto(t, stateno, iLookAhead)
  {
    var i := t.yyReduceOfst[stateno] + iLookAhead;
    return t.yyAction[i];
  }

  /** Up to fallback and wildcard, the tokens are derived from the start symbol. */
  ghost predicate IsSentence(t: Tables, g: Grammar, toks: seq<nat>)
  {
    exists imgs :: AreImages(t, toks, imgs) && Derivable(g, g.start, imgs)
  }

  /** What one call of Parse() does to the stack and to the error count. */
  ghost predicate Effect(t: Tables, g: Grammar, outcome: Outcome, reported: bool, tok: nat,
                         k: Stack, errs: int, k': Stack, errs': int)
  {
    && (outcome != SyntaxError ==> !reported)
    && match outcome
       case Shift => k'.toks == k.toks + [tok] && errs' == errs - 1
       case Accept => IsSentence(t, g, k.toks) && k' == EMPTY_STACK && errs' == -1
       case SyntaxError =>
         && reported == (errs <= 0)
         && (if tok == 0 then k' == EMPTY_STACK && errs' == -1 else k'.toks == k.toks && errs' == 3)
       case Overflow => k' == EMPTY_STACK
       case Running => k'.toks == k.toks && errs' == errs
  }

  /** The outcome of one pass of the loop is that of one step of the machine. */
  ghost predicate Moved(m: Move, outcome: Outcome, k': Stack)
  {
    match outcome
    case Running => m == Reduces(k')
    case Shift => m == Shifts(k')
    case Accept => m == Accepts
    case SyntaxError => m == Fails
    case Overflow => true
  }

  /** The outcome for a token is that of the machine, unless the stack cannot grow. */
  ghost predicate Matches(r: Run, tok: nat, outcome: Outcome, k': Stack)
  {
    match outcome
    case Running => r == OutOfFuel
    case Shift => r == Reading(k')
    case Accept => r.Accepted? && r.rest == [tok]
    case SyntaxError => r.Failed?
    case Overflow => true
  }

  /** The sizes that a stack of this size grows to, one after the other. */
  function Size(len: nat, times: nat): nat
    decreases times
  {
    if times == 0 then len else Size(2 * len + 100, times - 1)
  }

  ghost predicate Grown(len: nat, len': nat)
  {
    exists i: nat :: Size(len, i) == len'
  }

  /** Some size that the stack grows to cannot be had. */
  ghost predicate Refused(canGrow: nat -> bool, len: nat)
  {
    exists i: nat :: i > 0 && !canGrow(Size(len, i))
  }

  /** Only a full stack grows, by one size, and only a refused one overflows. */
  ghost predicate Room(ok: bool, canGrow: nat -> bool, tos: nat, len: nat, len': nat)
  {
    || (ok && len' == len)
    || (ok && len' == 2 * len + 100 && tos + 1 >= len && canGrow(len'))
    || (!ok && len' == len && tos + 1 >= len && !canGrow(2 * len + 100))
  }

  lemma {:induction false} SizeLast(len: nat, times: nat)
    ensures Size(len, times + 1) == 2 * Size(len, times) + 100
    decreases times
  {
    if times > 0 { SizeLast(2 * len + 100, times - 1); }
  }

  lemma RoomGrows(ok: bool, canGrow: nat -> bool, len0: nat, len: nat, len': nat)
    requires Grown(len0, len) && exists tos :: Room(ok, canGrow, tos, len, len')
    ensures Grown(len0, len') && (!ok ==> Refused(canGrow, len0))
  {
    var i: nat :| Size(len0, i) == len;
    SizeLast(len0, i);
    assert Size(len0, i + 1) == 2 * len + 100;
  }

  /** From a size that the stack has grown to, nothing is refused that was not refused before. */
  lemma {:induction false} SizeFrom(len: nat, i: nat, j: nat)
    ensures Size(Size(len, i), j) == Size(len, i + j)
    decreases i
  {
    if i > 0 { SizeFrom(2 * len + 100, i - 1, j); }
  }

  lemma StillRefused(canGrow: nat -> bool, len: nat, len': nat)
    requires Grown(len, len') && Refused(canGrow, len')
    ensures Refused(canGrow, len)
  {
    var i: nat :| Size(len, i) == len';
    var j: nat :| j > 0 && !canGrow(Size(len', j));
    SizeFrom(len, i, j);
  }

  class Parser {
    const t: Tables
    ghost const g: Grammar
    ghost const c: Certificate
    var yystack: array<Entry>
    var yytos: nat
    var yyerrcnt: int
    ghost var k: Stack

    ghost predicate Ok()
      reads this, yystack
    {
      && Valid(t, g, c) && StackOk(t, g, c, k)
      && yytos < yystack.Length && yytos == |k.syms| && |k.states| == yytos + 1
      && forall i :: 0 <= i <= yytos ==> yystack[i].stateno == k.states[i]
    }

    /** ParseInit() */
    constructor (t: Tables, ghost g: Grammar, ghost c: Certificate, depth: nat)
      requires Valid(t, g, c) && depth > 0
      ensures Ok() && fresh(yystack) && k == EMPTY_STACK && yystack.Length == depth && yyerrcnt == -1
      ensures this.t == t && this.g == g && this.c == c
    {
      this.t, this.g, this.c := t, g, c;
      yystack := new Entry[depth](i => Entry(0, 0));
      yytos, yyerrcnt := 0, -1;
      k := EMPTY_STACK;
      new;
      EmptyOk(t, g, c);
    }

    /** yyGrowStack(): `canGrow` says which sizes the allocator can provide. */
    method GrowStack(canGrow: nat -> bool) returns (ok: bool)
      requires Ok()
      modifies this`yystack
      ensures Ok() && ok == canGrow(2 * old(yystack.Length) + 100)
      ensures ok ==> fresh(yystack) && yystack.Length == 2 * old(yystack.Length) + 100
      ensures !ok ==> yystack == old(yystack)
      ensures forall i :: 0 <= i < old(yystack.Length) ==> i < yystack.Length && yystack[i] == old(yystack[i])
    {
      hide Valid, StackOk;
      var oldSize := yystack.Length;
      var newSize := oldSize * 2 + 100;
      if !canGrow(newSize) { return false; }
      var pNew := new Entry[newSize](i => Entry(0, 0));
      var i := 0;
      while i < oldSize
        modifies pNew
        invariant 0 <= i <= oldSize && forall j :: 0 <= j < i ==> pNew[j] == yystack[j]
      {
        pNew[i] := yystack[i];
        i := i + 1;
      }
      yystack := pNew;
      ok := true;
    }

    /** Pop the whole stack, as yyStackOverflow() and yy_parse_failed() do. */
    method PopAll()
      requires Ok()
      modifies this`yytos, this`k
      ensures Ok() && yytos == 0 && k == EMPTY_STACK
    {
      while yytos > 0
        modifies this`yytos
        invariant yytos <= old(yytos)
      {
        yytos := yytos - 1;
      }
      k := EMPTY_STACK;
      EmptyOk(t, g, c);
    }

    /** Levels up to m stay, and one level is written above them. */
    method Put(m: nat, state: nat, major: nat, ghost k': Stack)
      requires Ok() && m <= yytos && m + 1 < yystack.Length
      requires StackOk(t, g, c, k') && |k'.states| == m + 2 && |k'.syms| == m + 1
      requires k'.states[m + 1] == state && forall i :: 0 <= i <= m ==> k'.states[i] == k.states[i]
      modifies this`yytos, this`k, yystack
      ensures Ok() && k == k' && yytos == m + 1 && yystack[yytos] == Entry(state, major)
    {
      hide Valid, StackOk;
      yytos := m + 1;
      yystack[m + 1] := Entry(state, major);
      k := k';
    }

    /** yy_shift() */
    method ShiftToken(yyNewState: nat, yyMajor: nat, canGrow: nat -> bool) returns (ok: bool)
      requires Ok() && yyMajor < t.nToken && k.states[yytos] <= t.maxShift
      requires yyNewState == ShiftAction(t, k.states[yytos], yyMajor) <= MaxShiftReduce(t)
      modifies this`yystack, this`yytos, this`k, yystack
      ensures Ok() && (yystack == old(yystack) || fresh(yystack))
      ensures ok ==>
        && k == Shifted(old(k), PushedState(t, yyNewState), yyMajor, Image(t, old(k).states[old(yytos)], yyMajor))
        && k.toks == old(k.toks) + [yyMajor] && yystack[yytos].major == yyMajor
      ensures !ok ==> k == EMPTY_STACK
      ensures Room(ok, canGrow, old(yytos), old(yystack.Length), yystack.Length)
    {
      ok := true;
      if yytos + 1 >= yystack.Length {
        ok := GrowStack(canGrow);
        if !ok { PopAll(); }
      }
      if ok { PutToken(yyNewState, yyMajor); }
    }

    method PutToken(yyNewState: nat, yyMajor: nat)
      requires Ok() && yyMajor < t.nToken && k.states[yytos] <= t.maxShift && yytos + 1 < yystack.Length
      requires yyNewState == ShiftAction(t, k.states[yytos], yyMajor) <= MaxShiftReduce(t)
      modifies this`yytos, this`k, yystack
      ensures Ok() && yystack[yytos].major == yyMajor
      ensures k == Shifted(old(k), PushedState(t, yyNewState), yyMajor, Image(t, old(k).states[old(yytos)], yyMajor))
    {
      var state := PushedState(t, yyNewState);
      ghost var k' := Shifted(k, state, yyMajor, Image(t, k.states[yytos], yyMajor));
      ShiftOk(t, g, c, k, yyMajor);
      hide Valid, StackOk, Image, ShiftAction;
      Put(yytos, state, yyMajor, k');
    }

    /** yy_reduce(): the caller has made room for one more level if nothing is popped. */
    method Reduce(r: nat) returns (act: nat)
      requires Ok() && k.states[yytos] != AcceptAction(t)
      requires CanReduce(g, c, Known(t, c, k), k.states[yytos], r)
      requires t.yyRuleInfoNRhs[r] == 0 ==> yytos + 1 < yystack.Length
      modifies this`yytos, this`k, yystack
      ensures Ok() && act == yystack[yytos].stateno && k == AfterReduce(t, g, c, old(k), r)
      ensures yystack[yytos].major == g.rules[r].lhs
    {
      ReduceOk(t, g, c, k, r);
      var yygoto := t.yyRuleInfoLhs[r];
      var yysize := t.yyRuleInfoNRhs[r];
      var m := yytos + yysize;
      act := FindReduceAction(t, yystack[m].stateno, yygoto);
      Put(m, act, yygoto, Reduced(t, g, k, r, act));
    }

    /** Room for the left-hand side of an empty rule, as Parse() makes it. */
    method MakeRoom(r: nat, canGrow: nat -> bool) returns (ok: bool)
      requires Ok() && r < |t.yyRuleInfoNRhs|
      modifies this`yystack, this`yytos, this`k
      ensures Ok() && (yystack == old(yystack) || fresh(yystack))
      ensures ok ==> k == old(k) && (t.yyRuleInfoNRhs[r] == 0 ==> yytos + 1 < yystack.Length)
      ensures !ok ==> k == EMPTY_STACK
      ensures Room(ok, canGrow, old(yytos), old(yystack.Length), yystack.Length)
    {
      ok := true;
      if t.yyRuleInfoNRhs[r] == 0 && yytos + 1 >= yystack.Length {
        ok := GrowStack(canGrow);
        if !ok { PopAll(); }
      }
    }

    /** yy_accept(), after the accepting level is popped. */
    method AcceptInput()
      requires Ok() && k.states[yytos] == AcceptAction(t)
      modifies this`yytos, this`k, this`yyerrcnt
      ensures Ok() && k == EMPTY_STACK && yyerrcnt == -1
      ensures IsSentence(t, g, old(k.toks))
    {
      AcceptIsSound(t, g, c, k);
      EmptyOk(t, g, c);
      hide Valid, StackOk, AreImages, Derivable;
      yytos := yytos - 1;
      k := EMPTY_STACK;
      yyerrcnt := -1;
      assert yytos == 0;
    }

    /** A syntax error in a grammar without an error symbol. */
    method RejectToken(yymajor: nat) returns (reported: bool)
      requires Ok()
      modifies this`yytos, this`k, this`yyerrcnt
      ensures Ok() && reported == (old(yyerrcnt) <= 0)
      ensures if yymajor == 0 then k == EMPTY_STACK && yyerrcnt == -1 else k == old(k) && yyerrcnt == 3
    {
      reported := yyerrcnt <= 0;
      yyerrcnt := 3;
      if yymajor == 0 {
        PopAll();
        yyerrcnt := -1;
      }
    }

    method ReduceToken(r: nat, canGrow: nat -> bool) returns (ok: bool, act: nat)
      requires Ok() && r < |t.yyRuleInfoNRhs| && k.states[yytos] != AcceptAction(t)
      requires CanReduce(g, c, Known(t, c, k), k.states[yytos], r)
      modifies this`yystack, this`yytos, this`k, yystack
      ensures Ok() && (yystack == old(yystack) || fresh(yystack))
      ensures ok ==> yytos < yystack.Length && act == yystack[yytos].stateno && k == AfterReduce(t, g, c, old(k), r)
      ensures !ok ==> k == EMPTY_STACK
      ensures Room(ok, canGrow, old(yytos), old(yystack.Length), yystack.Length)
    {
      act := 0;
      ok := MakeRoom(r, canGrow);
      if ok { act := Reduce(r); }
    }

    /** The actions that end the loop in Parse(): shift, accept, and error. */
    method Conclude(yymajor: nat, yyact: nat, canGrow: nat -> bool) returns (outcome: Outcome, reported: bool)
      requires Ok() && yymajor < t.nToken && yyact < MinReduce(t)
      requires yyact <= MaxShiftReduce(t) ==>
                 k.states[yytos] <= t.maxShift && yyact == ShiftAction(t, k.states[yytos], yymajor)
      requires yyact == AcceptAction(t) ==> yyact == k.states[yytos]
      modifies this`yystack, this`yytos, this`k, this`yyerrcnt, yystack
      ensures Ok() && (yystack == old(yystack) || fresh(yystack)) && outcome != Running
      ensures Effect(t, g, outcome, reported, yymajor, old(k), old(yyerrcnt), k, yyerrcnt)
      ensures outcome == Shift ==>
        && yyact <= MaxShiftReduce(t)
        && k == Shifted(old(k), PushedState(t, yyact), yymajor, Image(t, old(k).states[old(yytos)], yymajor))
      ensures outcome == Accept ==> yyact == AcceptAction(t)
      ensures outcome == SyntaxError ==> yyact > MaxShiftReduce(t) && yyact != AcceptAction(t)
      ensures Room(outcome != Overflow, canGrow, old(yytos), old(yystack.Length), yystack.Length)
    {
      hide Valid, StackOk, IsSentence, Image;
      reported := false;
      if yyact <= MaxShiftReduce(t) {
        var ok := ShiftToken(yyact, yymajor, canGrow);
        yyerrcnt := yyerrcnt - 1;
        outcome := if ok then Shift else Overflow;
      } else if yyact == AcceptAction(t) {
        AcceptInput();
        outcome := Accept;
      } else {
        reported := RejectToken(yymajor);
        outcome := SyntaxError;
      }
    }

    /** One pass of the loop in Parse(); Running means that the loop goes on. */
    method Turn(yymajor: nat, yyact0: nat, canGrow: nat -> bool) returns (yyact: nat, outcome: Outcome, reported: bool)
      requires Ok() && yymajor < t.nToken && yyact0 == yystack[yytos].stateno
      modifies this`yystack, this`yytos, this`k, this`yyerrcnt, yystack
      ensures Ok() && (yystack == old(yystack) || fresh(yystack))
      ensures Effect(t, g, outcome, reported, yymajor, old(k), old(yyerrcnt), k, yyerrcnt)
      ensures outcome == Running ==> yyact == yystack[yytos].stateno
      ensures Moved(Step(t, g, c, old(k), yymajor), outcome, k)
      ensures Room(outcome != Overflow, canGrow, old(yytos), old(yystack.Length), yystack.Length)
    {
      hide Valid, StackOk, CanReduce, Known, ShiftAction, IsSentence, InBounds, Step, AfterReduce, Image;
      StepCases(t, g, c, k, yymajor);
      yyact := FindShiftAction(t, yymajor, yyact0);
      if yyact >= MinReduce(t) {
        var ok;
        ok, yyact := ReduceToken(yyact - MinReduce(t), canGrow);
        outcome, reported := if ok then Running else Overflow, false;
      } else {
        assert yyact <= MaxShiftReduce(t) || yyact == AcceptAction(t) || yyact == ErrorAction(t);
        outcome, reported := Conclude(yymajor, yyact, canGrow);
      }
    }

    /** Parse(), one token of the input. A syntax error throws the token away; at the end of
        the input (token 0) it also fails the parse. */
    method Parse(yymajor: nat, canGrow: nat -> bool, fuel: nat) returns (outcome: Outcome, reported: bool)
      requires Ok() && yymajor < t.nToken
      modifies this`yystack, this`yytos, this`k, this`yyerrcnt, yystack
      ensures Ok() && (yystack == old(yystack) || fresh(yystack))
      ensures Effect(t, g, outcome, reported, yymajor, old(k), old(yyerrcnt), k, yyerrcnt)
      ensures Matches(FusedRun(t, g, c, old(k), [yymajor], fuel), yymajor, outcome, k)
      ensures Grown(old(yystack.Length), yystack.Length)
      ensures outcome == Overflow ==> Refused(canGrow, old(yystack.Length))
    {
      hide Valid, StackOk, Step, Grown, Refused;
      outcome, reported := Running, false;
      SameSize(yystack.Length);
      var yyact := yystack[yytos].stateno;
      var steps := fuel;
      while steps > 0 && outcome == Running
        modifies this`yystack, this`yytos, this`k, this`yyerrcnt, yystack
        invariant Ok() && (outcome == Running ==> yyact == yystack[yytos].stateno)
        invariant yystack == old(yystack) || fresh(yystack)
        invariant Effect(t, g, outcome, reported, yymajor, old(k), old(yyerrcnt), k, yyerrcnt)
        invariant Grown(old(yystack.Length), yystack.Length)
        invariant outcome == Overflow ==> Refused(canGrow, old(yystack.Length))
        invariant if outcome == Running
                  then FusedRun(t, g, c, old(k), [yymajor], fuel) == FusedRun(t, g, c, k, [yymajor], steps)
                  else Matches(FusedRun(t, g, c, old(k), [yymajor], fuel), yymajor, outcome, k)
      {
        ghost var len := yystack.Length;
        yyact, outcome, reported := Turn(yymajor, yyact, canGrow);
        RoomGrows(outcome != Overflow, canGrow, old(yystack.Length), len, yystack.Length);
        steps := steps - 1;
      }
    }
  }

  /** A whole parse, from ParseInit() to the end of the input: when it accepts without
      having reported an error, the input without the end marker is, up to fallback and
      wildcard, a sentence of the grammar, and it is the machine's run that accepts. */
  method ParseAll(t: Tables, ghost g: Grammar, ghost c: Certificate, depth: nat, input: seq<nat>,
                  canGrow: nat -> bool, fuel: nat) returns (accepted: bool)
    requires Valid(t, g, c) && depth > 0
    requires forall i :: 0 <= i < |input| ==> 0 < input[i] < t.nToken
    ensures accepted ==> IsSentence(t, g, input)
    ensures accepted ==> MachineAccepts(t, g, c, input + [0])
    ensures AcceptsWithin(t, g, c, EMPTY_STACK, input + [0], fuel) && !accepted ==> Refused(canGrow, depth)
  {
    RunStarts(t, g, c);
    hide Valid, StackOk, FusedRun, IsSentence, MachineAccepts, AcceptsWithin, Refused, Grown;
    var p := new Parser(t, g, c, depth);
    ghost var steps;
    accepted, steps := Feed(p, input, canGrow, fuel);
    if accepted {
      ghost var k, len := p.k, p.yystack.Length;
      var outcome, _ := p.Parse(0, canGrow, fuel);
      accepted := outcome == Accept;
      if accepted { Finishes(t, g, c, k, input, p.k, steps, fuel); }
      LastToken(t, g, c, k, fuel, outcome, p.k);
      if outcome == Overflow { StillRefused(canGrow, depth, len); }
    }
  }

  /** The tokens of the input, one after the other, until one is not shifted. */
  method Feed(p: Parser, input: seq<nat>, canGrow: nat -> bool, fuel: nat) returns (all: bool, ghost steps: nat)
    requires p.Ok() && p.k == EMPTY_STACK && AreTokens(p.t, input)
    modifies p, p.yystack
    ensures p.Ok() && (p.yystack == old(p.yystack) || fresh(p.yystack))
    ensures all ==> p.k.toks == input && StackOk(p.t, p.g, p.c, EMPTY_STACK)
                    && FusedRun(p.t, p.g, p.c, EMPTY_STACK, input, steps) == Reading(p.k)
    ensures Grown(old(p.yystack.Length), p.yystack.Length)
    ensures AcceptsWithin(p.t, p.g, p.c, EMPTY_STACK, input + [0], fuel) ==>
              if all then AcceptsWithin(p.t, p.g, p.c, p.k, [0], fuel) else Refused(canGrow, old(p.yystack.Length))
  {
    hide Valid, StackOk, FusedRun, IsSentence, AcceptsWithin, Refused, Grown;
    ghost var t, g, c, len0 := p.t, p.g, p.c, p.yystack.Length;
    var i := 0;
    steps := 0;
    RunStarts(t, g, c);
    SameSize(len0);
    assert input[..0] == [] && input[0..] == input;
    while i < |input|
      invariant 0 <= i <= |input| && (p.yystack == old(p.yystack) || fresh(p.yystack))
      invariant p.Ok() && p.k.toks == input[..i] && Grown(len0, p.yystack.Length)
      invariant FusedRun(t, g, c, EMPTY_STACK, input[..i], steps) == Reading(p.k)
      invariant AcceptsWithin(t, g, c, EMPTY_STACK, input + [0], fuel) ==>
                  AcceptsWithin(t, g, c, p.k, input[i..] + [0], fuel)
    {
      ghost var k, len := p.k, p.yystack.Length;
      var outcome, _ := p.Parse(input[i], canGrow, fuel);
      GrownOn(len0, len, p.yystack.Length);
      NextToken(t, g, c, k, input, i, fuel, outcome, p.k);
      if outcome != Shift {
        if outcome == Overflow { StillRefused(canGrow, len0, len); }
        return false, steps;
      }
      OneMore(t, g, c, k, input, i, steps, fuel);
      steps := steps + fuel;
      assert input[..i] + [input[i]] == input[..i + 1];
      i := i + 1;
    }
    assert input[..|input|] == input && input[|input|..] + [0] == [0];
    all := true;
  }

  lemma SameSize(len: nat)
    ensures Grown(len, len)
  {
    assert Size(len, 0) == len;
  }

  lemma GrownOn(len0: nat, len: nat, len': nat)
    requires Grown(len0, len) && Grown(len, len')
    ensures Grown(len0, len')
  {
    var i: nat :| Size(len0, i) == len;
    var j: nat :| Size(len, j) == len';
    SizeFrom(len0, i, j);
  }

  /** If the machine accepts all that is left, then the next token is shifted, unless the
      stack cannot grow. */
  lemma NextToken(t: Tables, g: Grammar, c: Certificate, k: Stack, input: seq<nat>, i: nat, fuel: nat,
                  outcome: Outcome, k': Stack)
    requires Valid(t, g, c) && StackOk(t, g, c, k) && AreTokens(t, input) && i < |input|
    requires Matches(FusedRun(t, g, c, k, [input[i]], fuel), input[i], outcome, k')
    ensures AcceptsWithin(t, g, c, k, input[i..] + [0], fuel) ==>
              outcome == Overflow || (outcome == Shift && AcceptsWithin(t, g, c, k', input[i + 1..] + [0], fuel))
  {
    var toks := input[i..] + [0];
    if AcceptsWithin(t, g, c, k, toks, fuel) {
      assert toks[0] == input[i] && toks[1..] == input[i + 1..] + [0];
      FirstIsRead(t, g, c, k, toks, fuel);
    }
  }

  lemma LastToken(t: Tables, g: Grammar, c: Certificate, k: Stack, fuel: nat, outcome: Outcome, k': Stack)
    requires Valid(t, g, c) && StackOk(t, g, c, k) && t.nToken > 0
    requires Matches(FusedRun(t, g, c, k, [0], fuel), 0, outcome, k')
    ensures AcceptsWithin(t, g, c, k, [0], fuel) ==> outcome == Accept || outcome == Overflow
  {
    hide Valid, StackOk, FusedRun;
  }

  lemma RunStarts(t: Tables, g: Grammar, c: Certificate)
    requires Valid(t, g, c)
    ensures StackOk(t, g, c, EMPTY_STACK) && t.nToken > 0
    ensures FusedRun(t, g, c, EMPTY_STACK, [], 0) == Reading(EMPTY_STACK)
  {
    EmptyOk(t, g, c);
  }

  lemma Finishes(t: Tables, g: Grammar, c: Certificate, k: Stack, input: seq<nat>, k': Stack, f: nat, fuel: nat)
    requires Valid(t, g, c) && StackOk(t, g, c, EMPTY_STACK) && StackOk(t, g, c, k)
    requires t.nToken > 0 && AreTokens(t, input) && FusedRun(t, g, c, EMPTY_STACK, input, f) == Reading(k)
    requires Matches(FusedRun(t, g, c, k, [0], fuel), 0, Accept, k')
    ensures MachineAccepts(t, g, c, input + [0])
  {
    hide Valid, StackOk, FusedRun;
    RunOn(t, g, c, EMPTY_STACK, input, f, [0], fuel);
    var r := FusedRun(t, g, c, EMPTY_STACK, input + [0], f + fuel);
    assert AcceptsAtEnd(r, input + [0]);
  }

  lemma OneMore(t: Tables, g: Grammar, c: Certificate, k: Stack, input: seq<nat>, i: nat, f: nat, fuel: nat)
    requires Valid(t, g, c) && StackOk(t, g, c, EMPTY_STACK) && StackOk(t, g, c, k) && AreTokens(t, input)
    requires i < |input|
    requires FusedRun(t, g, c, EMPTY_STACK, input[..i], f) == Reading(k)
    requires FusedRun(t, g, c, k, [input[i]], fuel) != OutOfFuel
    ensures FusedRun(t, g, c, EMPTY_STACK, input[..i + 1], f + fuel) == FusedRun(t, g, c, k, [input[i]], fuel)
  {
    hide Valid, StackOk, FusedRun;
    assert input[..i + 1] == input[..i] + [input[i]];
    RunOn(t, g, c, EMPTY_STACK, input[..i], f, [input[i]], fuel);
  }
}
