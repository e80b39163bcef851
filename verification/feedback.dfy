/** The feedback blocks of the chat page (app.py:61-125): while the history is
    drawn, every assistant message at position `n > 1` gets a block of four
    rating widgets. The block's session key is `feedback_{int(n / 2)}`, its
    prompt id is `prompt_ids[int(n / 2) - 1]`, and its widgets are keyed
    `q1-<count>` to `q4-<count>`, where `count` restarts at 0 on every run of
    the page and goes up by one per block. */
module Feedback {
  import opened Decimal
  import opened Session

  /** One drawn block: the history position it follows, its session key, the prompt
      id its ratings are filed under, and the keys of its four widgets. */
  datatype Block = Block(position: nat, feedbackKey: string, promptId: string, widgetKeys: seq<string>)

  /** The drawing either completes, or stops at the first block whose prompt-id
      lookup is out of range (Python raises `IndexError`). */
  datatype Render = Rendered(blocks: seq<Block>) | IndexError(position: nat)

  /** Whether the message at position `n` gets a feedback block (app.py:68). */
  predicate HasFeedback(messages: seq<Message>, n: nat)
    requires n < |messages|
  {
    messages[n].role == Assistant && n > 1
  }

  /** `int(n / 2)`: for the positions of a history, float division followed by
      truncation is exact and equals integer division. */
  function Half(n: nat): (h: nat)
    // the whole part of n / 2: twice it is n, or n less one
    ensures 2 * h <= n < 2 * h + 2
  {
    n / 2
  }

  /** `f"feedback_{int(n / 2)}"` (app.py:69). */
  function FeedbackKey(n: nat): string
  {
    "feedback_" + NatToString(Half(n))
  }

  /** `int(n / 2) - 1`, the prompt-id slot of the block at position `n > 1` (app.py:90). */
  function PromptSlot(n: nat): nat
    requires n > 1
  {
    Half(n) - 1
  }

  /** The prefix of the widget keys of question `q`, 1 to 4: `"q1-"` ... `"q4-"`. */
  function QuestionPrefix(q: nat): string
    requires 1 <= q <= 4
  {
    ['q', DigitChar(q), '-']
  }

  /** `"q<q>-" + str(count)` (app.py:92, 102, 112, 122). */
  function WidgetKey(q: nat, count: nat): string
    requires 1 <= q <= 4
  {
    QuestionPrefix(q) + NatToString(count)
  }

  /** The four widget keys of the block drawn when the counter is `count`. */
  function WidgetKeys(count: nat): (ks: seq<string>)
    ensures |ks| == 4 && forall q :: 1 <= q <= 4 ==> ks[q - 1] == WidgetKey(q, count)
    // the four widgets of one block never share a key
    ensures forall i, j :: 0 <= i < j < |ks| ==> ks[i] != ks[j]
  {
    var ks := [WidgetKey(1, count), WidgetKey(2, count), WidgetKey(3, count), WidgetKey(4, count)];
    // the question digit after "q" tells the four keys apart
    assert forall q :: 1 <= q <= 4 ==> ks[q - 1][1] == DigitChar(q);
    ks
  }

  /** The block for position `n`, drawn as the `count`-th one. */
  function MakeBlock(n: nat, promptIds: seq<string>, count: nat): (b: Block)
    requires n > 1 && PromptSlot(n) < |promptIds|
    // the block follows position n, files under one of the recorded prompt ids,
    // and has four widgets with pairwise distinct keys
    ensures b.position == n && b.promptId in promptIds
    ensures |b.widgetKeys| == 4 && forall i, j :: 0 <= i < j < 4 ==> b.widgetKeys[i] != b.widgetKeys[j]
  {
    Block(n, FeedbackKey(n), promptIds[PromptSlot(n)], WidgetKeys(count))
  }

  /** The positions below `k` that get a block, in increasing order. */
  function PositionsBelow(messages: seq<Message>, k: nat): (ps: seq<nat>)
    requires k <= |messages|
    ensures forall i :: 0 <= i < |ps| ==> ps[i] < k && HasFeedback(messages, ps[i])
    ensures forall i, j :: 0 <= i < j < |ps| ==> ps[i] < ps[j]
    ensures forall n :: 0 <= n < k && HasFeedback(messages, n) ==> n in ps
  {
    if k == 0 then []
    else PositionsBelow(messages, k - 1) + (if HasFeedback(messages, k - 1) then [k - 1] else [])
  }

  /** The positions of the whole history that get a block. */
  function Positions(messages: seq<Message>): seq<nat>
  {
    PositionsBelow(messages, |messages|)
  }

  /** Every block's prompt-id lookup is in range. */
  predicate SlotsInRange(ps: seq<nat>, promptIds: seq<string>)
  {
    forall i :: 0 <= i < |ps| ==> ps[i] > 1 && PromptSlot(ps[i]) < |promptIds|
  }

  /** The blocks for the positions `ps`, the `i`-th drawn with counter `i`. */
  function Blocks(ps: seq<nat>, promptIds: seq<string>): (bs: seq<Block>)
    requires SlotsInRange(ps, promptIds)
    ensures |bs| == |ps|
  {
    seq(|ps|, i requires 0 <= i < |ps| => MakeBlock(ps[i], promptIds, i))
  }

  /** `n` is the first of the positions `ps` whose prompt-id lookup is out of range. */
  predicate FirstOutOfRange(ps: seq<nat>, promptIds: seq<string>, n: nat)
  {
    exists i :: 0 <= i < |ps| && ps[i] == n && n > 1 && PromptSlot(n) >= |promptIds|
      && SlotsInRange(ps[..i], promptIds)
  }

  lemma BlocksSnoc(ps: seq<nat>, promptIds: seq<string>, n: nat)
    requires SlotsInRange(ps, promptIds) && n > 1 && PromptSlot(n) < |promptIds|
    ensures SlotsInRange(ps + [n], promptIds)
    ensures Blocks(ps + [n], promptIds) == Blocks(ps, promptIds) + [MakeBlock(n, promptIds, |ps|)]
  {
  }

  /** The display loop of app.py:62-125, reduced to the blocks it draws. */
  method RenderFeedback(messages: seq<Message>, promptIds: seq<string>) returns (r: Render)
    ensures r.Rendered? <==> SlotsInRange(Positions(messages), promptIds)
    ensures r.Rendered? ==> r.blocks == Blocks(Positions(messages), promptIds)
    ensures r.IndexError? ==> FirstOutOfRange(Positions(messages), promptIds, r.position)
  {
    var blocks: seq<Block> := [];
    var count := 0;
    var n := 0;
    while n < |messages|
      invariant 0 <= n <= |messages|
      invariant count == |PositionsBelow(messages, n)|
      invariant SlotsInRange(PositionsBelow(messages, n), promptIds)
      invariant blocks == Blocks(PositionsBelow(messages, n), promptIds)
    {
      var ps := PositionsBelow(messages, n);
      if HasFeedback(messages, n) {
        assert PositionsBelow(messages, n + 1) == ps + [n];
        if PromptSlot(n) >= |promptIds| {
          StopsAt(messages, promptIds, n);
          return IndexError(n);
        }
        BlocksSnoc(ps, promptIds, n);
        blocks := blocks + [MakeBlock(n, promptIds, count)];
        count := count + 1;
      } else {
        assert PositionsBelow(messages, n + 1) == ps;
      }
      n := n + 1;
    }
    r := Rendered(blocks);
  }

  /** A block whose lookup fails after all earlier ones succeeded is the first failure of the drawing. */
  lemma StopsAt(messages: seq<Message>, promptIds: seq<string>, n: nat)
    requires n < |messages| && HasFeedback(messages, n) && PromptSlot(n) >= |promptIds|
    requires SlotsInRange(PositionsBelow(messages, n), promptIds)
    ensures FirstOutOfRange(Positions(messages), promptIds, n)
    ensures !SlotsInRange(Positions(messages), promptIds)
  {
    var ps := PositionsBelow(messages, n);
    assert PositionsBelow(messages, n + 1) == ps + [n];
    PositionsBelowPrefix(messages, n + 1, |messages|);
    var all := Positions(messages);
    assert all[|ps|] == n;
    assert all[..|ps|] == ps;
  }

  /** The positions below `k` are a prefix of those below any larger bound. */
  lemma {:induction false} PositionsBelowPrefix(messages: seq<Message>, k: nat, m: nat)
    requires k <= m <= |messages|
    ensures PositionsBelow(messages, k) <= PositionsBelow(messages, m)
    decreases m - k
  {
    if k < m {
      PositionsBelowPrefix(messages, k, m - 1);
    }
  }

  // ----- properties -----

  /** Two widget keys coincide only for the same question and the same counter. */
  lemma WidgetKeyInjective(q1: nat, c1: nat, q2: nat, c2: nat)
    requires 1 <= q1 <= 4 && 1 <= q2 <= 4
    ensures WidgetKey(q1, c1) == WidgetKey(q2, c2) <==> q1 == q2 && c1 == c2
  {
    if WidgetKey(q1, c1) == WidgetKey(q2, c2) {
      var k1, k2 := WidgetKey(q1, c1), WidgetKey(q2, c2);
      assert k1[1] == DigitChar(q1) && k2[1] == DigitChar(q2);
      assert k1[3..] == NatToString(c1) && k2[3..] == NatToString(c2);
      NatToStringInjective(c1, c2);
    }
  }

  /** All widget keys of one drawing are pairwise distinct: Streamlit never sees a key twice. */
  lemma WidgetKeysDistinct(ps: seq<nat>, promptIds: seq<string>)
    requires SlotsInRange(ps, promptIds)
    ensures var bs := Blocks(ps, promptIds);
            forall i, j, a, b ::
              (0 <= i < |bs| && 0 <= j < |bs| && 0 <= a < 4 && 0 <= b < 4 && (i, a) != (j, b))
              ==> bs[i].widgetKeys[a] != bs[j].widgetKeys[b]
  {
    var bs := Blocks(ps, promptIds);
    forall i, j, a, b | 0 <= i < |bs| && 0 <= j < |bs| && 0 <= a < 4 && 0 <= b < 4 && (i, a) != (j, b)
      ensures bs[i].widgetKeys[a] != bs[j].widgetKeys[b]
    {
      WidgetKeyInjective(a + 1, i, b + 1, j);
    }
  }

  /** In a consistent history the blocks follow the even positions 2, 4, ...: the
      `i`-th block sits at position `2 * (i + 1)`. */
  lemma {:induction false} ConsistentPositionsBelow(messages: seq<Message>, k: nat)
    requires Alternating(messages) && k <= |messages|
    ensures |PositionsBelow(messages, k)| == (if k <= 2 then 0 else (k - 1) / 2)
    ensures forall i :: 0 <= i < |PositionsBelow(messages, k)| ==> PositionsBelow(messages, k)[i] == 2 * (i + 1)
    decreases k
  {
    if k > 0 {
      ConsistentPositionsBelow(messages, k - 1);
      var has := HasFeedback(messages, k - 1);
      assert has <==> (k - 1) % 2 == 0 && k - 1 > 1 by {
        assert messages[k - 1].role == Assistant <==> (k - 1) % 2 == 0;
      }
      EvenPositionsStep(PositionsBelow(messages, k - 1), PositionsBelow(messages, k), k, has);
    }
  }

  /** One step of the above, apart from the history: appending position `k - 1`
      exactly when it is an even position past 1 keeps the blocks at 2, 4, ... */
  lemma EvenPositionsStep(prev: seq<nat>, cur: seq<nat>, k: nat, has: bool)
    requires k > 0 && (has <==> (k - 1) % 2 == 0 && k - 1 > 1)
    requires cur == prev + (if has then [k - 1] else [])
    requires |prev| == (if k - 1 <= 2 then 0 else (k - 2) / 2)
    requires forall i :: 0 <= i < |prev| ==> prev[i] == 2 * (i + 1)
    ensures |cur| == (if k <= 2 then 0 else (k - 1) / 2)
    ensures forall i :: 0 <= i < |cur| ==> cur[i] == 2 * (i + 1)
  {
    if has {
      assert |prev| == (k - 3) / 2 && (k - 1) / 2 == (k - 3) / 2 + 1;
      forall i | 0 <= i < |cur| ensures cur[i] == 2 * (i + 1) {
        if i < |prev| { assert cur[i] == prev[i]; }
      }
    } else {
      assert cur == prev;
      assert k <= 2 || (k - 2) / 2 == (k - 1) / 2;
    }
  }

  /** In a consistent history the `i`-th block uses prompt-id slot `i` and key
      `feedback_<i + 1>`: the prompt ids are used in order, one per answered query. */
  lemma ConsistentSlots(messages: seq<Message>, i: nat)
    requires Alternating(messages) && i < |Positions(messages)|
    ensures Positions(messages)[i] == 2 * (i + 1)
    ensures PromptSlot(Positions(messages)[i]) == i
    ensures FeedbackKey(Positions(messages)[i]) == "feedback_" + NatToString(i + 1)
  {
    ConsistentPositionsBelow(messages, |messages|);
  }

  /** In a consistent history the blocks' session keys are pairwise distinct. */
  lemma ConsistentFeedbackKeysDistinct(messages: seq<Message>, i: nat, j: nat)
    requires Alternating(messages) && i < |Positions(messages)| && j < |Positions(messages)| && i != j
    ensures FeedbackKey(Positions(messages)[i]) != FeedbackKey(Positions(messages)[j])
  {
    ConsistentSlots(messages, i);
    ConsistentSlots(messages, j);
    NatToStringInjective(i + 1, j + 1);
    var ki, kj := FeedbackKey(Positions(messages)[i]), FeedbackKey(Positions(messages)[j]);
    assert ki[9..] == NatToString(i + 1) && kj[9..] == NatToString(j + 1);
  }

  /** A consistent history can be drawn exactly when there is one prompt id per
      answered query. */
  lemma ConsistentRenderIff(st: State)
    requires Consistent(st)
    ensures SlotsInRange(Positions(st.messages), st.promptIds) <==> |st.promptIds| >= |st.messages| / 2
  {
    var ps, ids := Positions(st.messages), st.promptIds;
    ConsistentPositionsBelow(st.messages, |st.messages|);
    assert |ps| == |st.messages| / 2;
    if SlotsInRange(ps, ids) && |ps| > 0 {
      assert PromptSlot(ps[|ps| - 1]) == |ps| - 1;
    }
    if |ps| <= |ids| {
      forall i | 0 <= i < |ps| ensures ps[i] > 1 && PromptSlot(ps[i]) < |ids| {
        assert ps[i] == 2 * (i + 1);
      }
    }
  }

  /** Whether a position gets a block depends only on the entries up to it, so
      appending to the history keeps the earlier positions. */
  lemma {:induction false} PositionsBelowAppend(messages: seq<Message>, more: seq<Message>, k: nat)
    requires k <= |messages|
    ensures PositionsBelow(messages + more, k) == PositionsBelow(messages, k)
    decreases k
  {
    if k > 0 {
      PositionsBelowAppend(messages, more, k - 1);
      assert (messages + more)[k - 1] == messages[k - 1];
    }
  }

  /** A user message appended to the history gets no block. */
  lemma PositionsAfterQuery(messages: seq<Message>, query: string)
    ensures Positions(messages + [Message(User, query)]) == Positions(messages)
  {
    PositionsBelowAppend(messages, [Message(User, query)], |messages|);
  }

  /** An exchange appended to a non-empty history adds exactly one block, after
      the answer. */
  lemma PositionsAfterExchange(messages: seq<Message>, query: string, response: string)
    requires |messages| > 0
    ensures Positions(Exchange(messages, query, response)) == Positions(messages) + [|messages| + 1]
  {
    var m := Exchange(messages, query, response);
    PositionsBelowAppend(messages, m[|messages|..], |messages|);
    assert messages + m[|messages|..] == m;
    assert PositionsBelow(m, |messages| + 1) == PositionsBelow(m, |messages|);
  }

  // ----- the unrecorded prompt ids -----

  /** As written, the first answered query breaks the page: on the next run the
      block after the answer looks up `prompt_ids[0]` in an empty list. */
  lemma FirstAnswerBreaksRender(key: string, userId: string, query: string, response: string)
    requires key != "" && userId != "" && query != ""
    ensures var st := Submit(Init(), key, key, userId, query, Reply(response)).0;
            st.promptIds == [] && 2 in Positions(st.messages)
            && !SlotsInRange(Positions(st.messages), st.promptIds)
  {
    var st := Submit(Init(), key, key, userId, query, Reply(response)).0;
    assert st.messages[2].role == Assistant;
    assert HasFeedback(st.messages, 2);
    var ps := Positions(st.messages);
    var i :| 0 <= i < |ps| && ps[i] == 2;
    assert PromptSlot(ps[i]) == 0;
  }
}
