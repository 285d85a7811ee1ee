/** The routing table `account.Config.Forwards`: an ordered list of rules,
    each from one source chat to an ordered list of destination chats. */
module Routing {
  import opened Types

  datatype Forward = Forward(from: Int64, to: seq<Int64>)

  /** Destinations a message from `chatId` is sent to, in the order the
      handlers visit them: rule order, then destination order within a
      rule. Every matching rule contributes, so nothing is deduplicated. */
  function Targets(forwards: seq<Forward>, chatId: Int64): seq<Int64>
    decreases |forwards|
  {
    if forwards == [] then []
    else
      var last := forwards[|forwards| - 1];
      Targets(forwards[..|forwards| - 1], chatId) + (if last.from == chatId then last.to else [])
  }

  /** Rules are evaluated independently: the destinations of two rule
      lists placed one after the other are the two lists of destinations
      one after the other (so a repeated rule repeats its destinations). */
  lemma {:induction false} TargetsAppend(f1: seq<Forward>, f2: seq<Forward>, chatId: Int64)
    ensures Targets(f1 + f2, chatId) == Targets(f1, chatId) + Targets(f2, chatId)
    decreases |f2|
  {
    if f2 == [] {
      assert f1 + f2 == f1;
    } else {
      var f2' := f2[..|f2| - 1];
      assert (f1 + f2)[..|f1 + f2| - 1] == f1 + f2';
      TargetsAppend(f1, f2', chatId);
    }
  }

  /** A destination is visited exactly when some rule for the chat lists it. */
  lemma {:induction false} InTargets(forwards: seq<Forward>, chatId: Int64, to: Int64)
    ensures to in Targets(forwards, chatId) <==>
            exists i :: 0 <= i < |forwards| && forwards[i].from == chatId && to in forwards[i].to
    decreases |forwards|
  {
    if forwards != [] {
      var init := forwards[..|forwards| - 1];
      InTargets(init, chatId, to);
      if exists i :: 0 <= i < |init| && init[i].from == chatId && to in init[i].to {
        var i :| 0 <= i < |init| && init[i].from == chatId && to in init[i].to;
        assert forwards[i] == init[i];
      }
      if exists i :: 0 <= i < |forwards| && forwards[i].from == chatId && to in forwards[i].to {
        var i :| 0 <= i < |forwards| && forwards[i].from == chatId && to in forwards[i].to;
        if i < |init| {
          assert init[i] == forwards[i];
        }
      }
    }
  }

  /** A chat that no rule names as its source has no destinations. */
  lemma {:induction false} NoRuleNoTargets(forwards: seq<Forward>, chatId: Int64)
    requires forall i :: 0 <= i < |forwards| ==> forwards[i].from != chatId
    ensures Targets(forwards, chatId) == []
    decreases |forwards|
  {
    if forwards != [] {
      NoRuleNoTargets(forwards[..|forwards| - 1], chatId);
    }
  }

  /** Taking one more rule adds that rule's destinations (when it matches)
      and stays within the destinations of all the rules. */
  lemma TargetsOfNextRule(forwards: seq<Forward>, i: nat, chatId: Int64)
    requires i < |forwards|
    ensures Targets(forwards[..i + 1], chatId) ==
            Targets(forwards[..i], chatId) + (if forwards[i].from == chatId then forwards[i].to else [])
    ensures |Targets(forwards[..i + 1], chatId)| <= |Targets(forwards, chatId)|
  {
    assert forwards[..i + 1][..i] == forwards[..i];
    assert forwards[..i + 1] + forwards[i + 1..] == forwards;
    TargetsAppend(forwards[..i + 1], forwards[i + 1..], chatId);
  }
}
