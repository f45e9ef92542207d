// A fragment of the SQL grammar, its automaton, and the tables the generator writes for it:
//
//     input ::= cmdlist.    cmdlist ::= cmdlist ecmd.    cmdlist ::= ecmd.    ecmd ::= SEMI.
//
// Symbols are $ 0, SEMI 1, input 2, cmdlist 3 and ecmd 4.
module LalrExample {
  import opened Arith
  import opened LalrTables
  import opened LalrMachine
  import opened LalrPlain

  const CMD_GRAMMAR := Grammar(
    [Rule(2, [3], false), Rule(3, [3, 4], false), Rule(3, [4], false), Rule(4, [1], false)], 2, map[])

  /** States 2, 3 and 4 follow SEMI, ecmd and `cmdlist ecmd`; all they can do is reduce. */
  const CMD_AUTOMATON: Automaton := [
    State(map[1 := Shift(2), 2 := Accept, 3 := Shift(1), 4 := Shift(3)], None),
    State(map[0 := Reduce(0), 1 := Shift(2), 4 := Shift(4)], None),
    State(map[], Some(3)), State(map[], Some(2)), State(map[], Some(1))]

  /** Two states are left, the goto of state 0 on ecmd is that on cmdlist, and yy_lookahead
      is two entries longer than yy_action. */
  const CMD_TABLES := Tables(
    [10, 1, 1, 12, 8, 8, 13],
    [2, 3, 4, 0, 1, 1, 4, 2, 2],
    [4, 3],
    [-2, 2],
    [9, 9],
    [0, 0],
    [2, 3, 3, 4],
    [-1, -2, -1, -1],
    1, 5, 4, 2, 0)

  /** In state 1 the top is cmdlist, or ecmd in its place, upon state 0. */
  const CMD_CERTIFICATE := Certificate([[], [Level({3, 4}, {0})]], {(0, 2), (0, 3), (0, 4), (1, 4)})

  lemma CmdInBounds()
    ensures InBounds(CMD_TABLES)
  {
  }

  lemma CmdLookups()
    requires InBounds(CMD_TABLES)
    ensures Image(CMD_TABLES, 0, 0) == 0 && Image(CMD_TABLES, 0, 1) == 1
    ensures Image(CMD_TABLES, 1, 0) == 0 && Image(CMD_TABLES, 1, 1) == 1
    ensures ShiftAction(CMD_TABLES, 0, 0) == 9 && ShiftAction(CMD_TABLES, 0, 1) == 8
    ensures ShiftAction(CMD_TABLES, 1, 0) == 12 && ShiftAction(CMD_TABLES, 1, 1) == 8
  {
    hide InBounds;
  }

  lemma CmdGotos()
    ensures GotoHit(CMD_TABLES, 0, 2) && Goto(CMD_TABLES, 0, 2) == 10
    ensures GotoHit(CMD_TABLES, 0, 3) && Goto(CMD_TABLES, 0, 3) == 1
    ensures GotoHit(CMD_TABLES, 0, 4) && Goto(CMD_TABLES, 0, 4) == 1
    ensures GotoHit(CMD_TABLES, 1, 4) && Goto(CMD_TABLES, 1, 4) == 13
  {
  }

  /** An ecmd stands for a cmdlist. */
  lemma EcmdForCmdlist()
    ensures StandsFor(CMD_GRAMMAR, 4, 3)
  {
    assert [2][1..] == [] && IsChain(CMD_GRAMMAR, 3, [2][1..], 3);
    assert IsChain(CMD_GRAMMAR, 4, [2], 3);
  }

  /** What must be on the stack for each rule is there. */
  lemma CmdReduces()
    ensures CanReduce(CMD_GRAMMAR, CMD_CERTIFICATE, Push(CMD_CERTIFICATE, 0, 1), 8, 3)
    ensures CanReduce(CMD_GRAMMAR, CMD_CERTIFICATE, Push(CMD_CERTIFICATE, 1, 1), 8, 3)
    ensures CanReduce(CMD_GRAMMAR, CMD_CERTIFICATE, CMD_CERTIFICATE.past[1], 1, 0)
    ensures CanReduce(CMD_GRAMMAR, CMD_CERTIFICATE, Push(CMD_CERTIFICATE, 1, 4), 13, 1)
  {
    EcmdForCmdlist();
    StandsForItself(CMD_GRAMMAR, 1);
    StandsForItself(CMD_GRAMMAR, 3);
    StandsForItself(CMD_GRAMMAR, 4);
    hide StandsFor;
  }

  lemma CmdGotosOk()
    requires InBounds(CMD_TABLES)
    ensures forall q, a :: (q, a) in CMD_CERTIFICATE.gotos ==> GotoOk(CMD_TABLES, CMD_GRAMMAR, CMD_CERTIFICATE, q, a)
  {
    CmdGotos();
    CmdReduces();
    StandsForItself(CMD_GRAMMAR, 2);
    hide InBounds, GotoHit, Goto, CanReduce, StandsFor;
  }

  lemma CmdActionsOk()
    requires InBounds(CMD_TABLES)
    ensures forall s, x :: 0 <= s <= 1 && 0 <= x < 2 ==> ActionOk(CMD_TABLES, CMD_GRAMMAR, CMD_CERTIFICATE, s, x)
  {
    CmdLookups();
    CmdReduces();
    hide InBounds, Image, ShiftAction, CanReduce, Push;
  }

  /** The condition on tables holds for tables with unused entries, a rule left out, and
      several states. */
  lemma CmdIsValid()
    ensures Valid(CMD_TABLES, CMD_GRAMMAR, CMD_CERTIFICATE)
  {
    CmdInBounds();
    CmdGotosOk();
    CmdActionsOk();
    hide InBounds, GotoOk, ActionOk;
  }

  lemma CmdWritten()
    requires InBounds(CMD_TABLES)
    ensures forall s, x :: 0 <= s <= 1 && 0 <= x < 2 ==> TokenWritten(CMD_TABLES, CMD_GRAMMAR, CMD_AUTOMATON, s, x)
  {
    hide InBounds;
  }

  lemma CmdGotosWritten()
    ensures forall s, x: nat :: 0 <= s <= 1 && x >= 2 && x in CMD_AUTOMATON[s].actions ==>
              GotoWritten(CMD_TABLES, CMD_GRAMMAR, CMD_AUTOMATON, s, x)
  {
    CmdGotos();
    assert Code(CMD_TABLES, CMD_GRAMMAR, CMD_AUTOMATON, 0, 2, 0) == Some(10);
    assert Code(CMD_TABLES, CMD_GRAMMAR, CMD_AUTOMATON, 0, 3, 0) == Some(1);
    assert Code(CMD_TABLES, CMD_GRAMMAR, CMD_AUTOMATON, 0, 4, 1)
        == Code(CMD_TABLES, CMD_GRAMMAR, CMD_AUTOMATON, 0, 3, 0);
    assert Code(CMD_TABLES, CMD_GRAMMAR, CMD_AUTOMATON, 1, 4, 0) == Some(13);
    hide GotoHit, Goto, Code;
  }

  lemma CmdActsFit()
    ensures forall s, x :: 0 <= s < 5 && x in CMD_AUTOMATON[s].actions ==>
              ActFits(CMD_TABLES, CMD_AUTOMATON, x, CMD_AUTOMATON[s].actions[x])
  {
  }

  lemma CmdStatesOk()
    ensures StatesOk(CMD_TABLES, CMD_GRAMMAR, CMD_AUTOMATON)
  {
    CmdActsFit();
    hide ActFits;
  }

  /** And they are what is written for the automaton. */
  lemma CmdEncodes()
    ensures Encodes(CMD_TABLES, CMD_GRAMMAR, CMD_CERTIFICATE, CMD_AUTOMATON)
  {
    CmdInBounds();
    CmdWritten();
    CmdGotosWritten();
    CmdStatesOk();
    hide InBounds, TokenWritten, GotoWritten, StatesOk;
  }

  // One SEMI, then the end of the input: the automaton shifts, and then reduces by
  // `ecmd ::= SEMI`, by the rule that the tables leave out, and by `input ::= cmdlist`.

  lemma ShiftsSemi()
    ensures PlainStep(CMD_TABLES, CMD_GRAMMAR, CMD_AUTOMATON, Plain([0], false, [], [], []), 1)
         == PlainShifts(Plain([0, 2], false, [1], [1], []))
  {
  }

  lemma ReducesEcmd()
    ensures PlainStep(CMD_TABLES, CMD_GRAMMAR, CMD_AUTOMATON, Plain([0, 2], false, [1], [1], []), 0)
         == PlainReduces(Plain([0, 3], false, [1], [1], [3]))
  {
  }

  lemma ReducesLeftOut()
    ensures PlainStep(CMD_TABLES, CMD_GRAMMAR, CMD_AUTOMATON, Plain([0, 3], false, [1], [1], [3]), 0)
         == PlainReduces(Plain([0, 1], false, [1], [1], [3, 2]))
  {
  }

  lemma ReducesInput()
    ensures PlainStep(CMD_TABLES, CMD_GRAMMAR, CMD_AUTOMATON, Plain([0, 1], false, [1], [1], [3, 2]), 0)
         == PlainReduces(Plain([0], true, [1], [1], [3, 2, 0]))
    ensures PlainStep(CMD_TABLES, CMD_GRAMMAR, CMD_AUTOMATON, Plain([0], true, [1], [1], [3, 2, 0]), 0)
         == PlainAccepts
  {
  }

  /** So the compressed tables accept it too. */
  lemma CmdAccepts()
    ensures Valid(CMD_TABLES, CMD_GRAMMAR, CMD_CERTIFICATE)
    ensures MachineAccepts(CMD_TABLES, CMD_GRAMMAR, CMD_CERTIFICATE, [1, 0])
  {
    CmdIsValid();
    CmdEncodes();
    ShiftsSemi();
    ReducesEcmd();
    ReducesLeftOut();
    ReducesInput();
    hide Valid, Encodes, PlainStep;
    var toks: seq<nat> := [1, 0];
    SameLanguage(CMD_TABLES, CMD_GRAMMAR, CMD_CERTIFICATE, CMD_AUTOMATON, toks);
    assert toks[1..] == [0];
    var p4 := Plain([0], true, [1], [1], [3, 2, 0]);
    assert RunPlain(CMD_TABLES, CMD_GRAMMAR, CMD_AUTOMATON, p4, [0], 1) == PlainAccepted(p4, [0]);
    var p3 := Plain([0, 1], false, [1], [1], [3, 2]);
    assert RunPlain(CMD_TABLES, CMD_GRAMMAR, CMD_AUTOMATON, p3, [0], 2) == PlainAccepted(p4, [0]);
    var p2 := Plain([0, 3], false, [1], [1], [3]);
    assert RunPlain(CMD_TABLES, CMD_GRAMMAR, CMD_AUTOMATON, p2, [0], 3) == PlainAccepted(p4, [0]);
    var p1 := Plain([0, 2], false, [1], [1], []);
    assert RunPlain(CMD_TABLES, CMD_GRAMMAR, CMD_AUTOMATON, p1, [0], 4) == PlainAccepted(p4, [0]);
    var r := RunPlain(CMD_TABLES, CMD_GRAMMAR, CMD_AUTOMATON, PLAIN_START, toks, 5);
    assert r == PlainAccepted(p4, [0]);
    assert PlainAcceptsAtEnd(r, toks);
  }
}
