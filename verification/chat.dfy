/**
  The transcript and the quota-gated send step of app.py (lines 101-126):
  a send with the counter at the limit is refused; otherwise the user
  entry is appended, then the chat engine is asked when an image is
  present. The counter goes up by one once the send gets past the engine
  call, whether or not an image was there; a raising engine call leaves
  the user entry behind and the counter as it was.
 */
module Chat {
  import opened Wrappers

  datatype Role = User | Assistant

  /** One `{"role": ..., "content": ...}` entry of `st.session_state.messages`. */
  datatype Message = Message(role: Role, content: string)

  /** The demo's message ceiling per client. */
  const Limit: int := 20

  /**
    How a send ended: refused with the limit notice, counted (lines 125-126
    ran), or stopped by the chat engine raising at line 115.
   */
  datatype Outcome = LimitReached | Counted | ChatRaised

  /** What one send leaves behind: the transcript, the counter, and how it ended. */
  datatype Turn = Turn(transcript: seq<Message>, count: int, outcome: Outcome)

  /** Lines 83-84: a missing transcript is started empty; an existing one is kept. */
  function InitMessages(messages: Option<seq<Message>>): (t: seq<Message>)
    ensures messages.None? ==> t == []
    ensures messages.Some? ==> t == messages.value
  {
    messages.GetOr([])
  }

  /**
    Lines 101-125 once the counter has been read. `reply` is what the chat
    engine's call at line 115 gives for `input`: `Some(answer)`, or `None`
    when the call raises. It is only consulted when an image is present.
   */
  function Send(transcript: seq<Message>, count: int, hasImage: bool, input: string, reply: Option<string>): (t: Turn)
    ensures count >= Limit ==> t == Turn(transcript, count, LimitReached)
    ensures count < Limit && hasImage && reply.None? ==>
              t == Turn(transcript + [Message(User, input)], count, ChatRaised)
    ensures count < Limit && (!hasImage || reply.Some?) ==> t.outcome == Counted && t.count == count + 1
    ensures |t.transcript| == |transcript| +
              (if count >= Limit then 0 else if hasImage && reply.Some? then 2 else 1)
    ensures t.transcript[..|transcript|] == transcript
    ensures count < Limit ==> t.transcript[|transcript|] == Message(User, input)
    ensures count < Limit && hasImage && reply.Some? ==>
              t.transcript[|transcript| + 1] == Message(Assistant, reply.value)
  {
    if count >= Limit then
      Turn(transcript, count, LimitReached)
    else
      var withUser := transcript + [Message(User, input)];
      if !hasImage then
        Turn(withUser, count + 1, Counted)
      else
        match reply
        case None => Turn(withUser, count, ChatRaised)
        case Some(answer) => Turn(withUser + [Message(Assistant, answer)], count + 1, Counted)
  }

  /** Number of user entries in a transcript. */
  function UserCount(ms: seq<Message>): nat
    decreases |ms|
  {
    if |ms| == 0 then 0
    else UserCount(ms[..|ms| - 1]) + (if ms[|ms| - 1].role == User then 1 else 0)
  }

  /**
    Every send that gets past the limit check adds exactly one user entry;
    the counter records it unless the chat engine raised. So the counter's
    rise plus the raised calls equals the user entries added.
   */
  lemma SendCountsUserEntries(transcript: seq<Message>, count: int, hasImage: bool, input: string, reply: Option<string>)
    ensures var t := Send(transcript, count, hasImage, input, reply);
      UserCount(t.transcript) - UserCount(transcript)
      == (t.count - count) + (if t.outcome == ChatRaised then 1 else 0)
  {
  }
}
