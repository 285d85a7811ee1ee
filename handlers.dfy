/** What the two handlers and the update loop do, as functions of the
    correlation table before them and the client's answers: the list of
    client calls issued and the table after. The methods of the class in
    forwarder.dfy are proved to compute exactly these. */
module Handlers {
  import opened Types
  import opened CorrelationStore
  import opened Routing

  datatype Effect = Effect(calls: seq<Call>, ids: Table)

  /* ---------------- new messages (forwardNewMessage) ---------------- */

  /** The code reads `Messages[0]` whenever `TotalCount` is 1, so it relies
      on a count of 1 coming with at least one message. */
  type ForwardAnswer = out: ForwardOutcome | out.Forwarded? && out.totalCount == 1 ==> |out.messages| > 0
    witness ForwardFailed

  /** The copy a forward records: only a call without error that reports
      exactly one message records anything. */
  function Recorded(out: ForwardAnswer): Option<MessageRef> {
    if out.Forwarded? && out.totalCount == 1 then Some(out.messages[0]) else None
  }

  /** One destination of `forwardNewMessage`: issue the forward, then record
      the copy if there is one. */
  function ForwardStep(prev: Effect, src: Message, to: Int64, out: ForwardAnswer): Effect {
    var calls := prev.calls + [ForwardMessages(to, src.chatId, src.id)];
    match Recorded(out)
    case Some(dsc) => Effect(calls, Store(prev.ids, src.chatId, src.id, dsc.chatId, dsc.id))
    case None => Effect(calls, prev.ids)
  }

  /** Forwarding `src` to each of `targets` in turn, the k-th call answered by `outs[k]`. */
  function ForwardEffect(ids: Table, src: Message, targets: seq<Int64>, outs: seq<ForwardAnswer>): (e: Effect)
    requires |outs| == |targets|
    ensures |e.calls| == |targets|
    ensures ids.Keys <= e.ids.Keys
    decreases |targets|
  {
    if targets == [] then Effect([], ids)
    else
      var n := |targets| - 1;
      ForwardStep(ForwardEffect(ids, src, targets[..n], outs[..n]), src, targets[n], outs[n])
  }

  /** One forward is issued per destination, in order, whatever the answers. */
  lemma {:induction false} ForwardEffectCalls(ids: Table, src: Message, targets: seq<Int64>, outs: seq<ForwardAnswer>)
    requires |outs| == |targets|
    ensures forall k :: 0 <= k < |targets| ==>
              ForwardEffect(ids, src, targets, outs).calls[k] == ForwardMessages(targets[k], src.chatId, src.id)
    decreases |targets|
  {
    if targets != [] {
      var n := |targets| - 1;
      ForwardEffectCalls(ids, src, targets[..n], outs[..n]);
    }
  }

  lemma ForwardEffectSnoc(ids: Table, src: Message, targets: seq<Int64>, outs: seq<ForwardAnswer>,
                          to: Int64, out: ForwardAnswer)
    requires |outs| == |targets|
    ensures ForwardEffect(ids, src, targets + [to], outs + [out]) ==
            ForwardStep(ForwardEffect(ids, src, targets, outs), src, to, out)
  {
  }

  /** Forwarding to one list of destinations and then to another is
      forwarding to the two lists one after the other. */
  lemma {:induction false} ForwardEffectAppend(ids: Table, src: Message, t1: seq<Int64>, o1: seq<ForwardAnswer>,
                                               t2: seq<Int64>, o2: seq<ForwardAnswer>)
    requires |o1| == |t1| && |o2| == |t2|
    ensures ForwardEffect(ids, src, t1 + t2, o1 + o2) ==
            var e1 := ForwardEffect(ids, src, t1, o1);
            var e2 := ForwardEffect(e1.ids, src, t2, o2);
            Effect(e1.calls + e2.calls, e2.ids)
    decreases |t2|
  {
    var e1 := ForwardEffect(ids, src, t1, o1);
    if t2 == [] {
      assert t1 + t2 == t1 && o1 + o2 == o1;
      assert e1.calls + [] == e1.calls;
    } else {
      var n := |t2| - 1;
      ForwardEffectAppend(ids, src, t1, o1, t2[..n], o2[..n]);
      assert t1 + t2 == (t1 + t2[..n]) + [t2[n]];
      assert o1 + o2 == (o1 + o2[..n]) + [o2[n]];
      ForwardEffectSnoc(ids, src, t1 + t2[..n], o1 + o2[..n], t2[n], o2[n]);
      var e2 := ForwardEffect(e1.ids, src, t2[..n], o2[..n]);
      assert e1.calls + (e2.calls + [ForwardMessages(t2[n], src.chatId, src.id)]) ==
             (e1.calls + e2.calls) + [ForwardMessages(t2[n], src.chatId, src.id)];
    }
  }

  /** Independent reference: the id of the last recorded copy that landed
      in chat `dstChatId`, if any. */
  function LastRecordedIn(outs: seq<ForwardAnswer>, dstChatId: Int64): Option<Int64>
    decreases |outs|
  {
    if outs == [] then None
    else
      var r := Recorded(outs[|outs| - 1]);
      if r.Some? && r.value.chatId == dstChatId then Some(r.value.id)
      else LastRecordedIn(outs[..|outs| - 1], dstChatId)
  }

  /** After forwarding, the entry for (source chat, source message, d) holds
      the id of the last successful copy that landed in d; every other
      entry, including those for chats whose forwards all failed, is as before. */
  lemma {:induction false} ForwardEffectLookup(ids: Table, src: Message, targets: seq<Int64>, outs: seq<ForwardAnswer>,
                                               a: Int64, b: Int64, c: Int64)
    requires |outs| == |targets|
    ensures Lookup(ForwardEffect(ids, src, targets, outs).ids, a, b, c) ==
            if a == src.chatId && b == src.id && LastRecordedIn(outs, c).Some?
            then LastRecordedIn(outs, c).value
            else Lookup(ids, a, b, c)
    decreases |targets|
  {
    if targets != [] {
      var n := |targets| - 1;
      assert outs[..n] == outs[..|outs| - 1];
      ForwardEffectLookup(ids, src, targets[..n], outs[..n], a, b, c);
      var prev := ForwardEffect(ids, src, targets[..n], outs[..n]);
      var r := Recorded(outs[n]);
      if r.Some? {
        LookupStore(prev.ids, src.chatId, src.id, r.value.chatId, r.value.id, a, b, c);
      }
    }
  }

  /** When no forward succeeds with exactly one message, the table is unchanged. */
  lemma {:induction false} ForwardFailuresKeepTable(ids: Table, src: Message, targets: seq<Int64>, outs: seq<ForwardAnswer>)
    requires |outs| == |targets|
    requires forall k :: 0 <= k < |outs| ==> !(outs[k].Forwarded? && outs[k].totalCount == 1)
    ensures ForwardEffect(ids, src, targets, outs).ids == ids
    decreases |targets|
  {
    if targets != [] {
      var n := |targets| - 1;
      ForwardFailuresKeepTable(ids, src, targets[..n], outs[..n]);
    }
  }

  /* ---------------- edited messages (forwardMessageEdited) ---------------- */

  /** The text an edit resends: a text message's text or a photo's caption. */
  function EditText(content: Content): Option<string> {
    match content
    case MessageText(text) => Some(text)
    case MessagePhoto(caption) => Some(caption)
    case OtherContent(_) => None
  }

  /** One destination of `forwardMessageEdited`: send the text as a reply to
      the copy the table holds now, then record the new copy on success. */
  function EditStep(prev: Effect, src: Message, text: string, to: Int64, out: SendOutcome): Effect {
    var calls := prev.calls + [SendMessage(to, text, Lookup(prev.ids, src.chatId, src.id, to))];
    match out
    case Sent(dsc) => Effect(calls, Store(prev.ids, src.chatId, src.id, dsc.chatId, dsc.id))
    case SendFailed => Effect(calls, prev.ids)
  }

  /** Resending `text` to each of `targets` in turn, each call threaded onto
      the copy the table holds at that moment, the k-th call answered by `outs[k]`. */
  function EditEffect(ids: Table, src: Message, text: string, targets: seq<Int64>, outs: seq<SendOutcome>): (e: Effect)
    requires |outs| == |targets|
    ensures |e.calls| == |targets|
    ensures ids.Keys <= e.ids.Keys
    decreases |targets|
  {
    if targets == [] then Effect([], ids)
    else
      var n := |targets| - 1;
      EditStep(EditEffect(ids, src, text, targets[..n], outs[..n]), src, text, targets[n], outs[n])
  }

  /** One send is issued per destination, in order, each carrying the text. */
  lemma {:induction false} EditEffectCalls(ids: Table, src: Message, text: string, targets: seq<Int64>, outs: seq<SendOutcome>)
    requires |outs| == |targets|
    ensures forall k :: 0 <= k < |targets| ==>
              var c := EditEffect(ids, src, text, targets, outs).calls[k];
              c.SendMessage? && c.chatId == targets[k] && c.text == text
    decreases |targets|
  {
    if targets != [] {
      var n := |targets| - 1;
      EditEffectCalls(ids, src, text, targets[..n], outs[..n]);
    }
  }

  lemma EditEffectSnoc(ids: Table, src: Message, text: string, targets: seq<Int64>, outs: seq<SendOutcome>,
                       to: Int64, out: SendOutcome)
    requires |outs| == |targets|
    ensures EditEffect(ids, src, text, targets + [to], outs + [out]) ==
            EditStep(EditEffect(ids, src, text, targets, outs), src, text, to, out)
  {
  }

  /** Sending to one list of destinations and then to another is sending
      to the two lists one after the other. */
  lemma {:induction false} EditEffectAppend(ids: Table, src: Message, text: string, t1: seq<Int64>, o1: seq<SendOutcome>,
                                            t2: seq<Int64>, o2: seq<SendOutcome>)
    requires |o1| == |t1| && |o2| == |t2|
    ensures EditEffect(ids, src, text, t1 + t2, o1 + o2) ==
            var e1 := EditEffect(ids, src, text, t1, o1);
            var e2 := EditEffect(e1.ids, src, text, t2, o2);
            Effect(e1.calls + e2.calls, e2.ids)
    decreases |t2|
  {
    var e1 := EditEffect(ids, src, text, t1, o1);
    if t2 == [] {
      assert t1 + t2 == t1 && o1 + o2 == o1;
      assert e1.calls + [] == e1.calls;
    } else {
      var n := |t2| - 1;
      EditEffectAppend(ids, src, text, t1, o1, t2[..n], o2[..n]);
      assert t1 + t2 == (t1 + t2[..n]) + [t2[n]];
      assert o1 + o2 == (o1 + o2[..n]) + [o2[n]];
      EditEffectSnoc(ids, src, text, t1 + t2[..n], o1 + o2[..n], t2[n], o2[n]);
      var e2 := EditEffect(e1.ids, src, text, t2[..n], o2[..n]);
      var call := SendMessage(t2[n], text, Lookup(e2.ids, src.chatId, src.id, t2[n]));
      assert e1.calls + (e2.calls + [call]) == (e1.calls + e2.calls) + [call];
    }
  }

  /** An entry no successful send wrote to is left as it was. */
  lemma {:induction false} EditEffectFrame(ids: Table, src: Message, text: string, targets: seq<Int64>, outs: seq<SendOutcome>,
                                           a: Int64, b: Int64, c: Int64)
    requires |outs| == |targets|
    requires (a == src.chatId && b == src.id) ==>
             forall k :: 0 <= k < |outs| && outs[k].Sent? ==> outs[k].message.chatId != c
    ensures Lookup(EditEffect(ids, src, text, targets, outs).ids, a, b, c) == Lookup(ids, a, b, c)
    decreases |targets|
  {
    if targets != [] {
      var n := |targets| - 1;
      var os := outs[..n];
      var prev := EditEffect(ids, src, text, targets[..n], os);
      assert forall k :: 0 <= k < n ==> os[k] == outs[k];
      EditEffectFrame(ids, src, text, targets[..n], os, a, b, c);
      if outs[n].Sent? {
        var dsc := outs[n].message;
        assert EditEffect(ids, src, text, targets, outs).ids == Store(prev.ids, src.chatId, src.id, dsc.chatId, dsc.id);
        LookupStore(prev.ids, src.chatId, src.id, dsc.chatId, dsc.id, a, b, c);
      } else {
        assert EditEffect(ids, src, text, targets, outs).ids == prev.ids;
      }
    }
  }

  /** Independent reference: the id of the last successful send that
      landed in chat `dstChatId`, if any. */
  function LastSentIn(outs: seq<SendOutcome>, dstChatId: Int64): Option<Int64>
    decreases |outs|
  {
    if outs == [] then None
    else
      var out := outs[|outs| - 1];
      if out.Sent? && out.message.chatId == dstChatId then Some(out.message.id)
      else LastSentIn(outs[..|outs| - 1], dstChatId)
  }

  /** After resending, the entry for (source chat, source message, d) holds
      the id of the last successful send that landed in d; every other
      entry, including those for chats whose sends all failed, is as before.
      Repeated destinations are covered: the last send wins. */
  lemma {:induction false} EditEffectLookup(ids: Table, src: Message, text: string, targets: seq<Int64>, outs: seq<SendOutcome>,
                                            a: Int64, b: Int64, c: Int64)
    requires |outs| == |targets|
    ensures Lookup(EditEffect(ids, src, text, targets, outs).ids, a, b, c) ==
            if a == src.chatId && b == src.id && LastSentIn(outs, c).Some?
            then LastSentIn(outs, c).value
            else Lookup(ids, a, b, c)
    decreases |targets|
  {
    if targets != [] {
      var n := |targets| - 1;
      assert outs[..n] == outs[..|outs| - 1];
      EditEffectLookup(ids, src, text, targets[..n], outs[..n], a, b, c);
      var prev := EditEffect(ids, src, text, targets[..n], outs[..n]);
      if outs[n].Sent? {
        var dsc := outs[n].message;
        LookupStore(prev.ids, src.chatId, src.id, dsc.chatId, dsc.id, a, b, c);
      }
    }
  }

  /** The k-th resend replies to what the table holds for its destination at
      that moment: the copy an earlier send of this same edit put in that
      chat, if any, and otherwise the copy recorded before the edit (0 when
      there is none). */
  lemma {:induction false} EditReplyTarget(ids: Table, src: Message, text: string, targets: seq<Int64>, outs: seq<SendOutcome>)
    requires |outs| == |targets|
    ensures forall k :: 0 <= k < |targets| ==>
              EditEffect(ids, src, text, targets, outs).calls[k] ==
              SendMessage(targets[k], text,
                          if LastSentIn(outs[..k], targets[k]).Some? then LastSentIn(outs[..k], targets[k]).value
                          else Lookup(ids, src.chatId, src.id, targets[k]))
    decreases |targets|
  {
    if targets != [] {
      var n := |targets| - 1;
      var ts, os := targets[..n], outs[..n];
      EditReplyTarget(ids, src, text, ts, os);
      EditEffectLookup(ids, src, text, ts, os, src.chatId, src.id, targets[n]);
      var prev := EditEffect(ids, src, text, ts, os);
      var e := EditEffect(ids, src, text, targets, outs);
      forall k | 0 <= k < |targets|
        ensures e.calls[k] ==
                SendMessage(targets[k], text,
                            if LastSentIn(outs[..k], targets[k]).Some? then LastSentIn(outs[..k], targets[k]).value
                            else Lookup(ids, src.chatId, src.id, targets[k]))
      {
        if k < n {
          assert e.calls[k] == prev.calls[k];
          assert ts[k] == targets[k] && os[..k] == outs[..k];
        }
      }
    }
  }

  predicate Distinct(targets: seq<Int64>) {
    forall i, j :: 0 <= i < j < |targets| ==> targets[i] != targets[j]
  }

  /** The platform puts a sent message in the chat it was sent to. */
  predicate LandsInTarget(targets: seq<Int64>, outs: seq<SendOutcome>)
    requires |outs| == |targets|
  {
    forall k :: 0 <= k < |outs| && outs[k].Sent? ==> outs[k].message.chatId == targets[k]
  }

  /** With distinct destinations, every resend replies to the copy recorded
      for its destination before the edit (0, no threading, when there is
      none), and afterwards the entry holds the new copy on success and the
      old value on failure. */
  lemma {:induction false} EditThreadsOntoRecordedCopy(ids: Table, src: Message, text: string,
                                                       targets: seq<Int64>, outs: seq<SendOutcome>)
    requires |outs| == |targets| && Distinct(targets) && LandsInTarget(targets, outs)
    ensures forall k :: 0 <= k < |targets| ==>
              EditEffect(ids, src, text, targets, outs).calls[k] ==
              SendMessage(targets[k], text, Lookup(ids, src.chatId, src.id, targets[k]))
    ensures forall k :: 0 <= k < |targets| ==>
              Lookup(EditEffect(ids, src, text, targets, outs).ids, src.chatId, src.id, targets[k]) ==
              (if outs[k].Sent? then outs[k].message.id else Lookup(ids, src.chatId, src.id, targets[k]))
    decreases |targets|
  {
    if targets != [] {
      var n := |targets| - 1;
      var ts, os := targets[..n], outs[..n];
      EditThreadsOntoRecordedCopy(ids, src, text, ts, os);
      var prev := EditEffect(ids, src, text, ts, os);
      var e := EditEffect(ids, src, text, targets, outs);
      var to := targets[n];
      EditEffectFrame(ids, src, text, ts, os, src.chatId, src.id, to);
      forall k | 0 <= k < |targets|
        ensures e.calls[k] == SendMessage(targets[k], text, Lookup(ids, src.chatId, src.id, targets[k]))
        ensures Lookup(e.ids, src.chatId, src.id, targets[k]) ==
                (if outs[k].Sent? then outs[k].message.id else Lookup(ids, src.chatId, src.id, targets[k]))
      {
        if k < n {
          assert e.calls[k] == prev.calls[k];
          assert ts[k] == targets[k] && os[k] == outs[k];
          if outs[n].Sent? {
            LookupStore(prev.ids, src.chatId, src.id, outs[n].message.chatId, outs[n].message.id,
                        src.chatId, src.id, targets[k]);
          }
        } else if outs[n].Sent? {
          LookupStore(prev.ids, src.chatId, src.id, to, outs[n].message.id, src.chatId, src.id, to);
        }
      }
    }
  }

  /** A second edit of the same message threads onto the copies the first
      edit sent, not onto the original forwards. */
  lemma SecondEditThreadsOntoLatestCopy(ids: Table, src: Message, text1: string, text2: string, targets: seq<Int64>,
                                        outs1: seq<SendOutcome>, outs2: seq<SendOutcome>)
    requires |outs1| == |targets| && |outs2| == |targets| && Distinct(targets)
    requires LandsInTarget(targets, outs1) && LandsInTarget(targets, outs2)
    ensures forall k :: 0 <= k < |targets| && outs1[k].Sent? ==>
              EditEffect(EditEffect(ids, src, text1, targets, outs1).ids, src, text2, targets, outs2)
                .calls[k] == SendMessage(targets[k], text2, outs1[k].message.id)
  {
    var first := EditEffect(ids, src, text1, targets, outs1);
    EditThreadsOntoRecordedCopy(ids, src, text1, targets, outs1);
    EditThreadsOntoRecordedCopy(first.ids, src, text2, targets, outs2);
  }

  /** Number of sends an edit of `src` issues: one per destination when the
      content carries text, none otherwise. */
  function SendCount(forwards: seq<Forward>, src: Message): nat {
    if EditText(src.content).Some? then |Targets(forwards, src.chatId)| else 0
  }

  /** The edit handler as a whole: unsupported content sends nothing and
      leaves the table alone. */
  function MessageEditedEffect(ids: Table, forwards: seq<Forward>, src: Message, outs: seq<SendOutcome>): (e: Effect)
    requires |outs| == SendCount(forwards, src)
    ensures |e.calls| == |outs|
    ensures forall k :: 0 <= k < |e.calls| ==>
              e.calls[k].SendMessage? && EditText(src.content) == Some(e.calls[k].text)
    ensures EditText(src.content).None? ==> e.ids == ids
  {
    match EditText(src.content)
    case Some(text) =>
      EditEffectCalls(ids, src, text, Targets(forwards, src.chatId), outs);
      EditEffect(ids, src, text, Targets(forwards, src.chatId), outs)
    case None => Effect([], ids)
  }

  /* ---------------- the update loop ---------------- */

  /** The client's answers while one update is handled: the fetched content
      of an edited message, then one answer per forward or send. */
  datatype Replies = Replies(fetched: Content, forwarded: seq<ForwardAnswer>, sent: seq<SendOutcome>)

  /** The answers supply exactly one outcome per call the update issues. */
  predicate Fits(forwards: seq<Forward>, u: Update, r: Replies) {
    match u
    case UpdateMessageEdited(chatId, messageId) =>
      |r.sent| == SendCount(forwards, Message(chatId, messageId, r.fetched))
    case UpdateNewMessage(message) =>
      |r.forwarded| == |Targets(forwards, message.chatId)|
    case OtherUpdate(_) => true
  }

  /** One iteration of the update loop: an edit fetches the message and
      resends it, a new message is forwarded, anything else is dropped. */
  function UpdateEffect(ids: Table, forwards: seq<Forward>, u: Update, r: Replies): (e: Effect)
    requires Fits(forwards, u, r)
    ensures ids.Keys <= e.ids.Keys
    ensures u.UpdateMessageEdited? ==> |e.calls| > 0 && e.calls[0] == GetMessage(u.chatId, u.messageId)
    ensures u.UpdateNewMessage? ==> forall k :: 0 <= k < |e.calls| ==> e.calls[k].ForwardMessages?
  {
    match u
    case UpdateMessageEdited(chatId, messageId) =>
      var edited := MessageEditedEffect(ids, forwards, Message(chatId, messageId, r.fetched), r.sent);
      Effect([GetMessage(chatId, messageId)] + edited.calls, edited.ids)
    case UpdateNewMessage(message) =>
      ForwardEffectCalls(ids, message, Targets(forwards, message.chatId), r.forwarded);
      ForwardEffect(ids, message, Targets(forwards, message.chatId), r.forwarded)
    case OtherUpdate(_) =>
      Effect([], ids)
  }

  predicate AllFit(forwards: seq<Forward>, updates: seq<Update>, replies: seq<Replies>) {
    |replies| == |updates| && forall k :: 0 <= k < |updates| ==> Fits(forwards, updates[k], replies[k])
  }

  /** The update loop over a stream of updates, handled one at a time in order. */
  function ServeEffect(ids: Table, forwards: seq<Forward>, updates: seq<Update>, replies: seq<Replies>): (e: Effect)
    requires AllFit(forwards, updates, replies)
    ensures ids.Keys <= e.ids.Keys
    decreases |updates|
  {
    if updates == [] then Effect([], ids)
    else
      var n := |updates| - 1;
      var prev := ServeEffect(ids, forwards, updates[..n], replies[..n]);
      var step := UpdateEffect(prev.ids, forwards, updates[n], replies[n]);
      Effect(prev.calls + step.calls, step.ids)
  }

  /** Updates that are neither new nor edited messages issue no calls and
      leave the table as it was. */
  lemma {:induction false} OtherUpdatesChangeNothing(ids: Table, forwards: seq<Forward>, updates: seq<Update>, replies: seq<Replies>)
    requires AllFit(forwards, updates, replies)
    requires forall k :: 0 <= k < |updates| ==> updates[k].OtherUpdate?
    ensures ServeEffect(ids, forwards, updates, replies) == Effect([], ids)
    decreases |updates|
  {
    if updates != [] {
      var n := |updates| - 1;
      OtherUpdatesChangeNothing(ids, forwards, updates[..n], replies[..n]);
    }
  }

  /** The forward half of the worked scenario below. */
  lemma ScenarioForward(src: Message, idA: Int64, idB: Int64)
    requires src.chatId == 100 && src.id == 1
    ensures ForwardEffect(map[], src, [200, 300], [Forwarded(1, [MessageRef(200, idA)]), Forwarded(1, [MessageRef(300, idB)])]) ==
            Effect([ForwardMessages(200, 100, 1), ForwardMessages(300, 100, 1)],
                   map[Key(100, 1, 200) := idA, Key(100, 1, 300) := idB])
  {
    var o0, o1: ForwardAnswer := Forwarded(1, [MessageRef(200, idA)]), Forwarded(1, [MessageRef(300, idB)]);
    ForwardEffectSnoc(map[], src, [], [], 200, o0);
    ForwardEffectSnoc(map[], src, [200], [o0], 300, o1);
    assert [200] + [300] == [200, 300] && [o0] + [o1] == [o0, o1];
  }

  /** The edit half of the worked scenario below. */
  lemma ScenarioEdit(src: Message, text: string, idA: Int64, idB: Int64, idC: Int64, idD: Int64)
    requires src.chatId == 100 && src.id == 1
    ensures EditEffect(map[Key(100, 1, 200) := idA, Key(100, 1, 300) := idB], src, text, [200, 300],
                       [Sent(MessageRef(200, idC)), Sent(MessageRef(300, idD))]) ==
            Effect([SendMessage(200, text, idA), SendMessage(300, text, idB)],
                   map[Key(100, 1, 200) := idC, Key(100, 1, 300) := idD])
  {
    var ids: Table := map[Key(100, 1, 200) := idA, Key(100, 1, 300) := idB];
    var o0, o1 := Sent(MessageRef(200, idC)), Sent(MessageRef(300, idD));
    EditEffectSnoc(ids, src, text, [], [], 200, o0);
    EditEffectSnoc(ids, src, text, [200], [o0], 300, o1);
    assert [200] + [300] == [200, 300] && [o0] + [o1] == [o0, o1];
    assert ids[Key(100, 1, 200) := idC][Key(100, 1, 300) := idD] == map[Key(100, 1, 200) := idC, Key(100, 1, 300) := idD];
  }

  /** Two updates are handled one after the other. */
  lemma ServeTwo(ids: Table, forwards: seq<Forward>, u0: Update, u1: Update, r0: Replies, r1: Replies)
    requires Fits(forwards, u0, r0) && Fits(forwards, u1, r1)
    ensures AllFit(forwards, [u0, u1], [r0, r1])
    ensures ServeEffect(ids, forwards, [u0, u1], [r0, r1]) ==
            var e0 := UpdateEffect(ids, forwards, u0, r0);
            var e1 := UpdateEffect(e0.ids, forwards, u1, r1);
            Effect(e0.calls + e1.calls, e1.ids)
  {
    assert [u0, u1][..1] == [u0] && [r0, r1][..1] == [r0];
    assert [u0][..0] == [] && [r0][..0] == [];
    var e0 := UpdateEffect(ids, forwards, u0, r0);
    assert ServeEffect(ids, forwards, [u0], [r0]) == e0 by {
      assert ServeEffect(ids, forwards, [], []) == Effect([], ids);
      assert [] + e0.calls == e0.calls;
    }
  }

  /** The worked scenario: one rule from chat 100 to chats 200 and 300; a
      new text message 100/1 is forwarded to both, then an edit of it is
      resent to both as replies to the forwarded copies, and the table ends
      up pointing at the resent copies. */
  lemma ForwardThenEditScenario(text: string, editedText: string, idA: Int64, idB: Int64, idC: Int64, idD: Int64)
    ensures
      var forwards := [Forward(100, [200, 300])];
      var updates := [UpdateNewMessage(Message(100, 1, MessageText(text))), UpdateMessageEdited(100, 1)];
      var replies := [Replies(MessageText(text), [Forwarded(1, [MessageRef(200, idA)]), Forwarded(1, [MessageRef(300, idB)])], []),
                      Replies(MessageText(editedText), [], [Sent(MessageRef(200, idC)), Sent(MessageRef(300, idD))])];
      AllFit(forwards, updates, replies) &&
      var e := ServeEffect(map[], forwards, updates, replies);
      e.calls == [ForwardMessages(200, 100, 1), ForwardMessages(300, 100, 1), GetMessage(100, 1),
                  SendMessage(200, editedText, idA), SendMessage(300, editedText, idB)] &&
      Lookup(e.ids, 100, 1, 200) == idC && Lookup(e.ids, 100, 1, 300) == idD
  {
    var forwards := [Forward(100, [200, 300])];
    assert forwards[..0] == [];
    assert Targets(forwards, 100) == [200, 300];
    var src := Message(100, 1, MessageText(text));
    var edited := Message(100, 1, MessageText(editedText));
    ScenarioForward(src, idA, idB);
    ScenarioEdit(edited, editedText, idA, idB, idC, idD);
    var u0, u1 := UpdateNewMessage(src), UpdateMessageEdited(100, 1);
    var r0 := Replies(MessageText(text), [Forwarded(1, [MessageRef(200, idA)]), Forwarded(1, [MessageRef(300, idB)])], []);
    var r1 := Replies(MessageText(editedText), [], [Sent(MessageRef(200, idC)), Sent(MessageRef(300, idD))]);
    ServeTwo(map[], forwards, u0, u1, r0, r1);
  }
}
