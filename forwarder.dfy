/** The forwarder's state and its handlers, written as the loops the
    program runs: the routing rules loaded at start-up, the correlation
    table `messageIds` that the handlers update in place, and one method
    per handler. Client calls are not performed: each method returns the
    calls it issues, in order, and takes the client's answers as inputs. */
module Forwarding {
  import opened Types
  import opened CorrelationStore
  import opened Routing
  import opened Handlers

  class Forwarder {
    /** `account.Config.Forwards`, read once and never changed. */
    const forwards: seq<Forward>
    /** The correlation table; entries are written and overwritten, never removed. */
    var messageIds: Table

    constructor (forwards: seq<Forward>)
      ensures this.forwards == forwards && messageIds == map[]
    {
      this.forwards := forwards;
      messageIds := map[];
    }

    /** `getMessageId`: the stored copy's id, or 0 when there is none. */
    function GetMessageId(srcChatId: Int64, srcMessageId: Int64, dstChatId: Int64): Int64
      reads this
    {
      Lookup(messageIds, srcChatId, srcMessageId, dstChatId)
    }

    /** `setMessageId`: unconditional upsert of one entry. */
    method SetMessageId(srcChatId: Int64, srcMessageId: Int64, dstChatId: Int64, dstMessageId: Int64)
      modifies this
      ensures messageIds == Store(old(messageIds), srcChatId, srcMessageId, dstChatId, dstMessageId)
      ensures GetMessageId(srcChatId, srcMessageId, dstChatId) == dstMessageId
    {
      messageIds := messageIds[Key(srcChatId, srcMessageId, dstChatId) := dstMessageId];
    }

    /** `forwardNewMessage`: copy `src` to every destination of every rule
        for its chat; record the copy when the call succeeds with exactly
        one message. `outs[k]` answers the k-th `ForwardMessages` call. */
    method ForwardNewMessage(src: Message, outs: seq<ForwardAnswer>) returns (calls: seq<Call>)
      requires |outs| == |Targets(forwards, src.chatId)|
      modifies this
      ensures Effect(calls, messageIds) == ForwardEffect(old(messageIds), src, Targets(forwards, src.chatId), outs)
    {
      calls := [];
      var issued := 0;
      for i := 0 to |forwards|
        invariant issued == |Targets(forwards[..i], src.chatId)| <= |outs|
        invariant Effect(calls, messageIds) ==
                  ForwardEffect(old(messageIds), src, Targets(forwards[..i], src.chatId), outs[..issued])
      {
        var forward := forwards[i];
        ghost var done := Targets(forwards[..i], src.chatId);
        TargetsOfNextRule(forwards, i, src.chatId);
        if src.chatId == forward.from {
          var next := issued + |forward.to|;
          var forwarded := ForwardToDestinations(src, forward.to, outs[issued..next]);
          ForwardEffectAppend(old(messageIds), src, done, outs[..issued], forward.to, outs[issued..next]);
          assert outs[..issued] + outs[issued..next] == outs[..next];
          calls := calls + forwarded;
          issued := next;
        } else {
          assert done + [] == done;
        }
      }
      assert forwards[..|forwards|] == forwards;
      assert outs[..issued] == outs;
    }

    /** The inner loop of `forwardNewMessage`: one rule's destinations in order. */
    method ForwardToDestinations(src: Message, to: seq<Int64>, outs: seq<ForwardAnswer>) returns (calls: seq<Call>)
      requires |outs| == |to|
      modifies this
      ensures Effect(calls, messageIds) == ForwardEffect(old(messageIds), src, to, outs)
    {
      calls := [];
      for j := 0 to |to|
        invariant Effect(calls, messageIds) == ForwardEffect(old(messageIds), src, to[..j], outs[..j])
      {
        calls := calls + [ForwardMessages(to[j], src.chatId, src.id)];
        var out := outs[j];
        if out.ForwardFailed? {
          // the error is only logged
        } else if out.totalCount != 1 {
          // "Invalid TotalCount" is only logged
        } else {
          var dsc := out.messages[0];
          SetMessageId(src.chatId, src.id, dsc.chatId, dsc.id);
        }
        ForwardEffectSnoc(old(messageIds), src, to[..j], outs[..j], to[j], out);
        assert to[..j + 1] == to[..j] + [to[j]];
        assert outs[..j + 1] == outs[..j] + [out];
      }
      assert to[..|to|] == to && outs[..|to|] == outs;
    }

    /** `forwardMessageEdited`: resend the text of `src` to every
        destination, replying to the copy the table holds for it, and
        record the new copy on success. Content that is neither text nor
        a captioned photo is skipped at every destination. `outs[k]`
        answers the k-th `SendMessage` call. */
    method ForwardMessageEdited(src: Message, outs: seq<SendOutcome>) returns (calls: seq<Call>)
      requires |outs| == SendCount(forwards, src)
      modifies this
      ensures Effect(calls, messageIds) == MessageEditedEffect(old(messageIds), forwards, src, outs)
    {
      calls := [];
      var issued := 0;
      ghost var text := EditText(src.content);
      ghost var sent := if text.Some? then text.value else [];
      ghost var visited: seq<Int64> := [];
      for i := 0 to |forwards|
        invariant issued == |visited| <= |outs|
        invariant text.Some? ==> visited == Targets(forwards[..i], src.chatId)
        invariant text.None? ==> visited == []
        invariant Effect(calls, messageIds) == EditEffect(old(messageIds), src, sent, visited, outs[..issued])
      {
        var forward := forwards[i];
        TargetsOfNextRule(forwards, i, src.chatId);
        if src.chatId == forward.from {
          // the answers this rule's sends consume: none when the content has no text
          var next := issued + (if EditText(src.content).Some? then |forward.to| else 0);
          var resent := SendToDestinations(src, forward.to, outs[issued..next]);
          ghost var tail := if text.Some? then forward.to else [];
          EditEffectAppend(old(messageIds), src, sent, visited, outs[..issued], tail, outs[issued..next]);
          assert outs[..issued] + outs[issued..next] == outs[..next];
          assert text.None? ==> visited + tail == visited && resent == [];
          calls := calls + resent;
          visited := visited + tail;
          issued := next;
        } else {
          assert visited + [] == visited;
        }
      }
      assert forwards[..|forwards|] == forwards;
      assert outs[..issued] == outs;
    }

    /** The inner loop of `forwardMessageEdited`: one rule's destinations in
        order, each first checked for forwardable text. */
    method SendToDestinations(src: Message, to: seq<Int64>, outs: seq<SendOutcome>) returns (calls: seq<Call>)
      requires |outs| == if EditText(src.content).Some? then |to| else 0
      modifies this
      ensures EditText(src.content).Some? ==>
                Effect(calls, messageIds) == EditEffect(old(messageIds), src, EditText(src.content).value, to, outs)
      ensures EditText(src.content).None? ==> calls == [] && messageIds == old(messageIds)
    {
      calls := [];
      for j := 0 to |to|
        invariant EditText(src.content).Some? ==>
                    Effect(calls, messageIds) == EditEffect(old(messageIds), src, EditText(src.content).value, to[..j], outs[..j])
        invariant EditText(src.content).None? ==> calls == [] && messageIds == old(messageIds)
      {
        var formattedText := EditText(src.content);
        if formattedText.None? {
          // "Unsupported Content" is only logged
        } else {
          calls := calls + [SendMessage(to[j], formattedText.value, GetMessageId(src.chatId, src.id, to[j]))];
          var out := outs[j];
          if out.SendFailed? {
            // the error is only logged
          } else {
            SetMessageId(src.chatId, src.id, out.message.chatId, out.message.id);
          }
          EditEffectSnoc(old(messageIds), src, formattedText.value, to[..j], outs[..j], to[j], out);
          assert to[..j + 1] == to[..j] + [to[j]];
          assert outs[..j + 1] == outs[..j] + [out];
        }
      }
      assert to[..|to|] == to && outs[..|outs|] == outs;
    }

    /** One iteration of the update loop. An edited message is fetched
        first; the client's answer is `r.fetched`, the content of the
        message with the update's chat and id. */
    method HandleUpdate(u: Update, r: Replies) returns (calls: seq<Call>)
      requires Fits(forwards, u, r)
      modifies this
      ensures Effect(calls, messageIds) == UpdateEffect(old(messageIds), forwards, u, r)
    {
      match u
      case UpdateMessageEdited(chatId, messageId) =>
        var src := Message(chatId, messageId, r.fetched);
        var sent := ForwardMessageEdited(src, r.sent);
        calls := [GetMessage(chatId, messageId)] + sent;
      case UpdateNewMessage(message) =>
        calls := ForwardNewMessage(message, r.forwarded);
      case OtherUpdate(_) =>
        calls := [];
    }

    /** The update loop: every update, in arrival order, with `replies[k]`
        the client's answers while `updates[k]` is handled. */
    method Serve(updates: seq<Update>, replies: seq<Replies>) returns (calls: seq<Call>)
      requires AllFit(forwards, updates, replies)
      modifies this
      ensures Effect(calls, messageIds) == ServeEffect(old(messageIds), forwards, updates, replies)
    {
      calls := [];
      for k := 0 to |updates|
        invariant AllFit(forwards, updates[..k], replies[..k])
        invariant Effect(calls, messageIds) == ServeEffect(old(messageIds), forwards, updates[..k], replies[..k])
      {
        var handled := HandleUpdate(updates[k], replies[k]);
        calls := calls + handled;
        assert updates[..k + 1][..k] == updates[..k];
        assert replies[..k + 1][..k] == replies[..k];
      }
      assert updates[..|updates|] == updates;
      assert replies[..|updates|] == replies;
    }
  }
}
