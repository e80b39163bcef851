/** The chat logic of the page (app.py:146-181) stripped of Streamlit: a session
    holds the message history and the list of prompt ids for feedback, starts
    with the assistant's greeting (app.py:42-50), and changes only when a
    non-empty query passes the key and participant checks. The secret key, the
    participant id, the query and what the chain call gives back are parameters:
    they come from widgets, `st.secrets` and the language model. */
module Session {
  import opened Words

  datatype Role = User | Assistant

  /** One entry of `st.session_state.messages`: `{"role": ..., "content": ...}`. */
  datatype Message = Message(role: Role, content: string)

  /** The parts of `st.session_state` the page reads and writes. */
  datatype State = State(messages: seq<Message>, promptIds: seq<string>)

  /** What the chain call of app.py:166 gives back: the `answer` of its result,
      or an exception (network or rate-limit error) that nothing catches. */
  datatype Reply = Reply(answer: string) | Raised

  /** What one run of the chat logic does: nothing (no query), stop after a
      notice, answer and show the answer word by word, or end with the raised
      exception after the query was stored. */
  datatype Outcome = Idle | Halted(notice: string) | Answered(displayed: string) | Failed

  const Greeting: string := "Hi student! I'm Codee-A, an intelligent AI for Computer Science Principles. How can I help you today?"
  const ApiKeyNotice: string := "Please add your OpenAI API key to continue."
  const ParticipantNotice: string := "Please add your Participant # to continue."

  /** The session state on first load (app.py:43-50). */
  function Init(): State
  {
    State([Message(Assistant, Greeting)], [])
  }

  /** The history alternates, assistant first: entry `i` is the assistant's exactly when `i` is even. */
  predicate Alternating(messages: seq<Message>)
  {
    forall i :: 0 <= i < |messages| ==> (messages[i].role == Assistant <==> i % 2 == 0)
  }

  /** A history the page can build: alternating, and ending with an assistant message. */
  predicate Consistent(st: State)
  {
    |st.messages| % 2 == 1 && Alternating(st.messages)
  }

  /** One prompt id per answered query, which is what the feedback blocks look up. */
  predicate Logged(st: State)
  {
    |st.promptIds| == |st.messages| / 2
  }

  /** The checks of app.py:148-153: a non-empty key equal to the secret, and a non-empty participant id. */
  predicate Accepts(key: string, secret: string, userId: string)
  {
    key != "" && key == secret && userId != ""
  }

  /** The notice shown when the checks fail; the key is checked first. */
  function Rejection(key: string, secret: string, userId: string): (notice: string)
    requires !Accepts(key, secret, userId)
    ensures notice == ApiKeyNotice <==> (key == "" || key != secret)
    ensures notice == ParticipantNotice <==> (key != "" && key == secret && userId == "")
  {
    if key == "" || key != secret then ApiKeyNotice else ParticipantNotice
  }

  /** The history with an accepted exchange appended (app.py:156, 181). */
  function Exchange(messages: seq<Message>, query: string, response: string): (r: seq<Message>)
    ensures |r| == |messages| + 2 && r[..|messages|] == messages
    ensures r[|messages|] == Message(User, query) && r[|messages| + 1] == Message(Assistant, response)
  {
    messages + [Message(User, query), Message(Assistant, response)]
  }

  /** One run of the chat logic as written (app.py:147-181). The empty query is
      falsy and does nothing; a whitespace-only one goes on to the checks. The
      user message is stored before the chain is called, so a raising call
      leaves it unanswered. The stored answer is the chain's `answer`; the
      displayed one is re-joined from its words. The prompt ids are never touched. */
  function Submit(st: State, key: string, secret: string, userId: string, query: string, reply: Reply): (r: (State, Outcome))
    // the history changes exactly when a non-empty query passes both checks
    ensures r.0 != st <==> query != "" && Accepts(key, secret, userId)
    // the empty query does nothing
    ensures query == "" ==> r == (st, Idle)
    // a refused query shows the notice of the first failing check
    ensures query != "" && !Accepts(key, secret, userId) ==> r == (st, Halted(Rejection(key, secret, userId)))
    // an accepted query whose chain call returns is answered and the re-joined answer shown
    ensures query != "" && Accepts(key, secret, userId) && reply.Reply?
            ==> r.0.messages == Exchange(st.messages, query, reply.answer) && r.1 == Answered(Displayed(reply.answer))
    // an accepted query whose chain call raises stays in the history unanswered
    ensures query != "" && Accepts(key, secret, userId) && reply.Raised?
            ==> r.0.messages == st.messages + [Message(User, query)] && r.1 == Failed
    ensures r.0.promptIds == st.promptIds
  {
    if query == "" then (st, Idle)
    else if !Accepts(key, secret, userId) then (st, Halted(Rejection(key, secret, userId)))
    else
      var asked := st.messages + [Message(User, query)];
      match reply
      case Raised => (st.(messages := asked), Failed)
      case Reply(response) =>
        (st.(messages := asked + [Message(Assistant, response)]), Answered(Displayed(response)))
  }

  /** One run of the chat logic where an answered query also records the id
      under which its prompt was logged, so that feedback can refer to it. */
  function SubmitLogged(st: State, key: string, secret: string, userId: string, query: string, reply: Reply, promptId: string): (r: (State, Outcome))
    ensures r.0.messages == Submit(st, key, secret, userId, query, reply).0.messages
    ensures r.1 == Submit(st, key, secret, userId, query, reply).1
    // exactly the answered queries record their prompt id, at the end of the list
    ensures r.1.Answered? ==> r.0.promptIds == st.promptIds + [promptId]
    ensures !r.1.Answered? ==> r.0.promptIds == st.promptIds
  {
    var (next, outcome) := Submit(st, key, secret, userId, query, reply);
    if outcome.Answered? then (next.(promptIds := st.promptIds + [promptId]), outcome) else (next, outcome)
  }

  /** The first page load: the greeting only, from the assistant, no prompt ids. */
  lemma InitConsistent()
    ensures Consistent(Init()) && Logged(Init())
    ensures |Init().messages| == 1 && Init().messages[0].content == Greeting
  {
  }

  /** An accepted exchange keeps the history alternating and ending with the assistant. */
  lemma ExchangeConsistent(st: State, query: string, response: string)
    requires Consistent(st)
    ensures Consistent(st.(messages := Exchange(st.messages, query, response)))
  {
    var r := Exchange(st.messages, query, response);
    forall i | 0 <= i < |r|
      ensures r[i].role == Assistant <==> i % 2 == 0
    {
      if i < |st.messages| {
        assert r[i] == st.messages[i];
      }
    }
  }

  /** Every run keeps the earlier entries, and keeps the history consistent
      unless an accepted query's chain call raises. */
  lemma SubmitConsistent(st: State, key: string, secret: string, userId: string, query: string, reply: Reply)
    requires Consistent(st)
    ensures var next := Submit(st, key, secret, userId, query, reply).0;
            next.messages[..|st.messages|] == st.messages
            && (Consistent(next) <==> !(query != "" && Accepts(key, secret, userId) && reply.Raised?))
  {
    if query != "" && Accepts(key, secret, userId) {
      match reply
      case Reply(response) => ExchangeConsistent(st, query, response);
      case Raised =>
        var next := Submit(st, key, secret, userId, query, reply).0;
        assert |next.messages| == |st.messages| + 1;
    }
  }

  /** A query left unanswered by a raising chain call breaks the alternation for
      good: the next answered query puts two user messages side by side. */
  lemma FailureBreaksAlternation(st: State, failed: string, query: string, response: string)
    requires Consistent(st)
    ensures !Alternating(Exchange(st.messages + [Message(User, failed)], query, response))
  {
    var m := Exchange(st.messages + [Message(User, failed)], query, response);
    var n := |st.messages|;
    assert m[n] == Message(User, failed) && m[n + 1] == Message(User, query);
    assert n % 2 == 1;
  }

  /** With the ids recorded, every answered query has its prompt id; the state
      stays consistent and logged unless an accepted query's chain call raises. */
  lemma SubmitLoggedKeepsLogged(st: State, key: string, secret: string, userId: string, query: string, reply: Reply, promptId: string)
    requires Consistent(st) && Logged(st)
    ensures var next := SubmitLogged(st, key, secret, userId, query, reply, promptId).0;
            Consistent(next) && Logged(next) <==> !(query != "" && Accepts(key, secret, userId) && reply.Raised?)
  {
    SubmitConsistent(st, key, secret, userId, query, reply);
  }

  /** When both checks fail, the key notice is the one shown. */
  lemma KeyCheckedFirst(st: State, key: string, secret: string, query: string, reply: Reply)
    requires query != "" && (key == "" || key != secret)
    ensures Submit(st, key, secret, "", query, reply) == (st, Halted(ApiKeyNotice))
  {
  }

  /** A non-empty query of whitespace only is not filtered out: although it
      holds no word, it is stored as typed and answered. */
  lemma WhitespaceQueryAnswered(st: State, key: string, userId: string, query: string, response: string)
    requires key != "" && userId != "" && query != ""
    requires forall i :: 0 <= i < |query| ==> IsSpace(query[i])
    ensures Displayed(query) == ""
    ensures Submit(st, key, key, userId, query, Reply(response))
            == (st.(messages := Exchange(st.messages, query, response)), Answered(Displayed(response)))
  {
    DisplayedEmptyIff(query);
  }
}
