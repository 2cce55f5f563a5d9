/**
 * `confirm` in install.py and the gate in step 9 of `main`: the yes/no
 * prompt that is repeated until the answer is recognised.
 */
module Confirmation {
  import opened Text
  import Options

  /** What one response to the prompt means. */
  datatype Reply = Yes | No | AskAgain

  /** One response after `.strip().lower()`: `y`/`yes` accept, `n`/`no`
      decline, anything else prints a hint and asks again. */
  function DecodeReply(response: string): (r: Reply)
    ensures r == Yes <==> Normalize(response) in {"y", "yes"}
    ensures r == No <==> Normalize(response) in {"n", "no"}
  {
    var v := Normalize(response);
    if v == "y" || v == "yes" then Yes
    else if v == "n" || v == "no" then No
    else AskAgain
  }

  /** Every response decoded, in the order given. */
  function DecodeAll(responses: seq<string>): (replies: seq<Reply>)
    ensures |replies| == |responses|
    ensures forall i :: 0 <= i < |responses| ==> replies[i] == DecodeReply(responses[i])
  {
    if |responses| == 0 then []
    else [DecodeReply(responses[0])] + DecodeAll(responses[1..])
  }

  /** The end of the prompt loop: the answer and how many responses were
      read, or the responses ran out while it kept asking. */
  datatype Outcome = Decided(answer: bool, asked: nat) | Exhausted

  /** The prompt loop of `confirm` over the user's successive decoded
      responses: it stops at the first recognised one and never before. */
  function Confirm(replies: seq<Reply>): (o: Outcome)
    ensures o.Exhausted? <==> forall i :: 0 <= i < |replies| ==> replies[i] == AskAgain
    ensures o.Decided? ==>
      && 1 <= o.asked <= |replies|
      && replies[o.asked - 1] != AskAgain
      && (o.answer <==> replies[o.asked - 1] == Yes)
      && forall i :: 0 <= i < o.asked - 1 ==> replies[i] == AskAgain
  {
    if |replies| == 0 then Exhausted
    else if replies[0] == Yes then Decided(true, 1)
    else if replies[0] == No then Decided(false, 1)
    else
      assert replies[0] == AskAgain;
      var rest := Confirm(replies[1..]);
      assert forall i :: 1 <= i < |replies| ==> replies[i] == replies[1..][i - 1];
      match rest
      case Exhausted => Exhausted
      case Decided(a, n) => Decided(a, n + 1)
  }

  /** `confirm` fed raw responses. */
  function ConfirmResponses(responses: seq<string>): Outcome {
    Confirm(DecodeAll(responses))
  }

  /** Unrecognised responses can be given any number of times without
      ending the prompt; the first recognised one decides it, whatever
      follows. */
  lemma {:induction false} RepromptsUntilRecognised(noise: seq<Reply>, reply: Reply, later: seq<Reply>)
    requires forall i :: 0 <= i < |noise| ==> noise[i] == AskAgain
    requires reply != AskAgain
    ensures Confirm(noise + [reply] + later) == Decided(reply == Yes, |noise| + 1)
    decreases |noise|
  {
    var all := noise + [reply] + later;
    if |noise| == 0 {
      assert all[0] == reply;
    } else {
      assert all[0] == noise[0];
      assert all[1..] == noise[1..] + [reply] + later;
      RepromptsUntilRecognised(noise[1..], reply, later);
    }
  }

  /** Decoding distributes over concatenation. */
  lemma DecodeAllConcat(a: seq<string>, b: seq<string>)
    ensures DecodeAll(a + b) == DecodeAll(a) + DecodeAll(b)
  {
    var ab := a + b;
    forall i | |a| <= i < |ab|
      ensures ab[i] == b[i - |a|]
    {
    }
  }

  /** The same over the user's raw responses: responses `confirm` does not
      recognise, however many, are followed by a new prompt, and the first
      recognised response decides. */
  lemma ResponsesRepromptUntilRecognised(noise: seq<string>, response: string, later: seq<string>)
    requires forall i :: 0 <= i < |noise| ==> DecodeReply(noise[i]) == AskAgain
    requires DecodeReply(response) != AskAgain
    ensures ConfirmResponses(noise + [response] + later)
            == Decided(DecodeReply(response) == Yes, |noise| + 1)
  {
    var all := noise + [response] + later;
    var r := DecodeReply(response);
    DecodeAllConcat(noise, [response]);
    DecodeAllConcat(noise + [response], later);
    assert DecodeAll([response]) == [r];
    assert DecodeAll(all) == DecodeAll(noise) + [r] + DecodeAll(later);
    RepromptsUntilRecognised(DecodeAll(noise), DecodeReply(response), DecodeAll(later));
  }

  /** Whether `main` goes on to install: an interactive run needs a
      recognised yes before any recognised no; a non-interactive run
      proceeds without asking. */
  function Proceeds(interactive: bool, replies: seq<Reply>): (b: bool)
    ensures !interactive ==> b
    ensures interactive ==> (b <==> exists n :: 0 <= n < |replies| && replies[n] == Yes
                                      && forall i :: 0 <= i < n ==> replies[i] == AskAgain)
  {
    var o := Confirm(replies);
    assert interactive && o.Decided? && o.answer ==> replies[o.asked - 1] == Yes;
    !interactive || (o.Decided? && o.answer)
  }

  /** The install-commands question accepts exactly the answers that
      confirm, but treats everything else as no instead of asking again. */
  lemma CommandsQuestionMatchesYes(raw: string)
    ensures Options.DecodeYes(raw) <==> DecodeReply(raw) == Yes
  {
  }
}
