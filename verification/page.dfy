/** Whole runs of the chat page (app.py): every run first draws the history with
    its feedback blocks (app.py:62-125) and only then reaches the chat logic
    (app.py:147-181). A drawing that raises `IndexError` at app.py:90 ends the
    run there, so the chat logic of that run never happens. */
module Page {
  import opened Session
  import opened Feedback

  /** The input of one run of the page: the widget values, what the chain call
      gives back, and the id under which a logged prompt would be filed. */
  datatype Input = Input(key: string, userId: string, query: string, reply: Reply, promptId: string)

  /** Every chain call of a series of runs returns. */
  predicate ChainReturns(inputs: seq<Input>)
  {
    forall i :: 0 <= i < |inputs| ==> inputs[i].reply.Reply?
  }

  /** The drawing at the top of a run completes: `RenderFeedback` returns `Rendered`. */
  predicate Draws(st: State)
  {
    SlotsInRange(Positions(st.messages), st.promptIds)
  }

  /** One run of the page as written: the drawing, then the chat logic. */
  function Step(st: State, secret: string, input: Input): (next: State)
    // a run changes the state only when the drawing completes and the query is accepted
    ensures next != st ==> Draws(st) && input.query != "" && Accepts(input.key, secret, input.userId)
    // the history only grows, by the query and at most its answer; no id is recorded
    ensures |st.messages| <= |next.messages| <= |st.messages| + 2 && next.messages[..|st.messages|] == st.messages
    ensures next.promptIds == st.promptIds
  {
    if Draws(st) then Submit(st, input.key, secret, input.userId, input.query, input.reply).0 else st
  }

  /** The state after a series of runs of the page as written. */
  function Run(st: State, secret: string, inputs: seq<Input>): State
    decreases |inputs|
  {
    if |inputs| == 0 then st else Run(Step(st, secret, inputs[0]), secret, inputs[1..])
  }

  /** One run of the page where an answered query records its prompt id. */
  function StepLogged(st: State, secret: string, input: Input): (next: State)
    ensures next != st ==> Draws(st) && input.query != "" && Accepts(input.key, secret, input.userId)
    ensures |st.messages| <= |next.messages| <= |st.messages| + 2 && next.messages[..|st.messages|] == st.messages
    // an id is recorded exactly when the query is answered, that is, when two messages are added
    ensures next.promptIds == (if |next.messages| == |st.messages| + 2 then st.promptIds + [input.promptId] else st.promptIds)
  {
    if Draws(st) then SubmitLogged(st, input.key, secret, input.userId, input.query, input.reply, input.promptId).0 else st
  }

  /** The state after a series of runs that record prompt ids. */
  function RunLogged(st: State, secret: string, inputs: seq<Input>): State
    decreases |inputs|
  {
    if |inputs| == 0 then st else RunLogged(StepLogged(st, secret, inputs[0]), secret, inputs[1..])
  }

  // ----- the page as written -----

  /** As written, no prompt id is ever recorded. */
  lemma {:induction false} RunNeverLogs(st: State, secret: string, inputs: seq<Input>)
    ensures Run(st, secret, inputs).promptIds == st.promptIds
    decreases |inputs|
  {
    if |inputs| > 0 {
      RunNeverLogs(Step(st, secret, inputs[0]), secret, inputs[1..]);
    }
  }

  /** Once the drawing fails, every later run fails the same way and changes nothing. */
  lemma {:induction false} StalledStaysStalled(st: State, secret: string, inputs: seq<Input>)
    requires !Draws(st)
    ensures Run(st, secret, inputs) == st
    decreases |inputs|
  {
    if |inputs| > 0 {
      StalledStaysStalled(st, secret, inputs[1..]);
    }
  }

  /** Without prompt ids, a history that draws has no block at all. */
  lemma DrawsWithoutIds(st: State)
    requires st.promptIds == [] && Draws(st)
    ensures Positions(st.messages) == []
  {
    SlotsNeedIds(Positions(st.messages), st.promptIds);
  }

  /** A drawing with a block needs at least one prompt id. */
  lemma SlotsNeedIds(ps: seq<nat>, promptIds: seq<string>)
    requires SlotsInRange(ps, promptIds)
    ensures |ps| > 0 ==> |promptIds| > 0
  {
    if |ps| > 0 {
      assert PromptSlot(ps[0]) < |promptIds|;
    }
  }

  /** The invariant behind `AsWrittenAnswersOnce`: at most one block, ever. */
  lemma {:induction false} AtMostOneBlock(st: State, secret: string, inputs: seq<Input>)
    requires st.promptIds == [] && |st.messages| > 0 && |Positions(st.messages)| <= 1
    ensures |Positions(Run(st, secret, inputs).messages)| <= 1
    decreases |inputs|
  {
    if |inputs| > 0 {
      var i := inputs[0];
      var next := Step(st, secret, i);
      if Draws(st) && i.query != "" && Accepts(i.key, secret, i.userId) {
        DrawsWithoutIds(st);
        match i.reply
        case Raised => PositionsAfterQuery(st.messages, i.query);
        case Reply(response) => PositionsAfterExchange(st.messages, i.query, response);
      }
      AtMostOneBlock(next, secret, inputs[1..]);
    }
  }

  /** The invariant behind `AsWrittenAnswersOnce` when every chain call returns:
      the greeting, one query and its answer at most. */
  lemma {:induction false} AtMostThreeMessages(st: State, secret: string, inputs: seq<Input>)
    requires Consistent(st) && st.promptIds == [] && |st.messages| <= 3 && ChainReturns(inputs)
    ensures |Run(st, secret, inputs).messages| <= 3
    decreases |inputs|
  {
    if |inputs| > 0 {
      var i := inputs[0];
      if |st.messages| == 3 {
        assert HasFeedback(st.messages, 2);
        var ps := Positions(st.messages);
        var k :| 0 <= k < |ps| && ps[k] == 2;
        assert PromptSlot(ps[k]) == 0;
        StalledStaysStalled(st, secret, inputs);
      } else {
        assert inputs[0] in inputs;
        SubmitConsistent(st, i.key, secret, i.userId, i.query, i.reply);
        AtMostThreeMessages(Step(st, secret, i), secret, inputs[1..]);
      }
    }
  }

  /** As written, the page answers at most once: the first answer gets a block
      whose prompt-id lookup fails, and from then on every run stops while
      drawing. When no chain call raises, the history never grows past the
      greeting, one query and its answer. */
  lemma AsWrittenAnswersOnce(secret: string, inputs: seq<Input>)
    ensures |Positions(Run(Init(), secret, inputs).messages)| <= 1
    ensures ChainReturns(inputs) ==> |Run(Init(), secret, inputs).messages| <= 3
  {
    InitConsistent();
    assert Positions(Init().messages) == [];
    AtMostOneBlock(Init(), secret, inputs);
    if ChainReturns(inputs) {
      AtMostThreeMessages(Init(), secret, inputs);
    }
  }

  // ----- the page with prompt ids recorded -----

  /** With ids recorded and every chain call returning, every reachable state is
      consistent, has one id per answer, and draws. */
  lemma {:induction false} RunLoggedKeepsLogged(st: State, secret: string, inputs: seq<Input>)
    requires Consistent(st) && Logged(st) && ChainReturns(inputs)
    ensures var last := RunLogged(st, secret, inputs);
            Consistent(last) && Logged(last) && Draws(last)
    decreases |inputs|
  {
    ConsistentRenderIff(st);
    if |inputs| > 0 {
      var i := inputs[0];
      assert i in inputs;
      SubmitLoggedKeepsLogged(st, i.key, secret, i.userId, i.query, i.reply, i.promptId);
      RunLoggedKeepsLogged(StepLogged(st, secret, i), secret, inputs[1..]);
    }
  }

  /** With ids recorded, the drawing completes after any series of runs whose
      chain calls all return. */
  lemma LoggedRunsRender(secret: string, inputs: seq<Input>)
    requires ChainReturns(inputs)
    ensures Draws(RunLogged(Init(), secret, inputs))
  {
    InitConsistent();
    RunLoggedKeepsLogged(Init(), secret, inputs);
  }

  /** A run that draws and whose accepted query's chain call raises stores the
      query and records no id. */
  lemma LoggedFailure(st: State, secret: string, input: Input)
    requires Draws(st) && input.query != "" && Accepts(input.key, secret, input.userId) && input.reply.Raised?
    ensures StepLogged(st, secret, input) == st.(messages := st.messages + [Message(User, input.query)])
    ensures Positions(StepLogged(st, secret, input).messages) == Positions(st.messages)
  {
    PositionsAfterQuery(st.messages, input.query);
  }

  /** A run that draws and whose accepted query is answered records the id and
      adds one block, after the answer. */
  lemma LoggedAnswer(st: State, secret: string, input: Input)
    requires Draws(st) && |st.messages| > 0 && input.query != "" && Accepts(input.key, secret, input.userId)
    requires input.reply.Reply?
    ensures StepLogged(st, secret, input).promptIds == st.promptIds + [input.promptId]
    ensures Positions(StepLogged(st, secret, input).messages) == Positions(st.messages) + [|st.messages| + 1]
  {
    PositionsAfterExchange(st.messages, input.query, input.reply.answer);
  }

  /** Recording ids does not survive raising chain calls: two queries left
      unanswered and then an answered one put the answer at position 4, whose
      block looks up slot 1 while only one id was recorded. */
  lemma FailuresBreakLoggedRender(secret: string, userId: string, q1: string, q2: string, q3: string,
                                  response: string, p1: string, p2: string, p3: string)
    requires secret != "" && userId != "" && q1 != "" && q2 != "" && q3 != ""
    ensures var st := RunLogged(Init(), secret, [Input(secret, userId, q1, Raised, p1),
                                                 Input(secret, userId, q2, Raised, p2),
                                                 Input(secret, userId, q3, Reply(response), p3)]);
            st.promptIds == [p3] && Positions(st.messages) == [4] && !Draws(st)
  {
    var a, b, c := Input(secret, userId, q1, Raised, p1), Input(secret, userId, q2, Raised, p2),
                   Input(secret, userId, q3, Reply(response), p3);
    InitDraws();
    var s0 := Init();
    LoggedFailure(s0, secret, a);
    var s1 := StepLogged(s0, secret, a);
    NoBlockDraws(s1);
    LoggedFailure(s1, secret, b);
    var s2 := StepLogged(s1, secret, b);
    NoBlockDraws(s2);
    LoggedAnswer(s2, secret, c);
    RunLoggedThree(s0, secret, a, b, c);
    SlotOneMissing(StepLogged(s2, secret, c));
  }

  /** The first page load draws: the greeting gets no block. */
  lemma InitDraws()
    ensures Positions(Init().messages) == [] && Draws(Init()) && |Init().messages| == 1 && Init().promptIds == []
  {
    assert Positions(Init().messages) == [];
  }

  /** A history without blocks always draws. */
  lemma NoBlockDraws(st: State)
    requires Positions(st.messages) == []
    ensures Draws(st)
  {
  }

  /** A block at position 4 with a single id recorded looks up slot 1, which is missing. */
  lemma SlotOneMissing(st: State)
    requires Positions(st.messages) == [4] && |st.promptIds| == 1
    ensures !Draws(st)
  {
    assert PromptSlot(Positions(st.messages)[0]) == 1;
  }

  lemma RunLoggedThree(st: State, secret: string, a: Input, b: Input, c: Input)
    ensures RunLogged(st, secret, [a, b, c])
            == StepLogged(StepLogged(StepLogged(st, secret, a), secret, b), secret, c)
  {
    var s1 := StepLogged(st, secret, a);
    var s2 := StepLogged(s1, secret, b);
    assert [a, b, c][1..] == [b, c] && [b, c][1..] == [c] && [c][1..] == [];
    assert RunLogged(st, secret, [a, b, c]) == RunLogged(s1, secret, [b, c]);
    assert RunLogged(s1, secret, [b, c]) == RunLogged(s2, secret, [c]);
    assert RunLogged(s2, secret, [c]) == RunLogged(StepLogged(s2, secret, c), secret, []);
  }
}
