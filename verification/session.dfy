/**
  One Streamlit rerun of app.py as a step of a state machine. The state is
  what outlives a rerun: the `messages` key of the session state (absent
  after `clear_chat`), the `message_count` cookie, and whether the upload
  widget currently holds an image. Each rerun is caused by one user action
  and meets the remote services in some way: the caption and chat-engine
  setup at lines 76 and 80 may raise, and so may the chat call at line 115.
 */
module Session {
  import opened Wrappers
  import opened Counter
  import opened Chat

  datatype Client = Client(messages: Option<seq<Message>>, cookie: Option<string>, hasImage: bool)

  /**
    The interaction that triggers a rerun. `Submit` carries the chat
    input, empty when nothing was typed; `Refresh` is any other
    interaction (first load included).
   */
  datatype Action =
    | PressClear
    | ChangeImage(present: bool)
    | Refresh
    | Submit(input: string)

  /**
    One rerun: the user's action, whether the caption and chat-engine
    setup (lines 76 and 80) returned when an image is present, and what
    the chat call at line 115 gives, `None` when it raises.
   */
  datatype Event = Event(action: Action, setupOk: bool, reply: Option<string>)

  /**
    Lines 55-59: the transcript key is dropped; the counter and the upload
    widget are not touched. (The `image_file` key it also deletes is never
    set by app.py, so that deletion changes nothing.)
   */
  function ClearChat(c: Client): (r: Client)
    ensures r.messages.None?
    ensures r.cookie == c.cookie && r.hasImage == c.hasImage
  {
    c.(messages := None)
  }

  /** The setup at lines 76 and 80 runs, and raises, only when an image is present. */
  predicate SetupRaises(hasImage: bool, e: Event) {
    hasImage && !e.setupOk
  }

  /**
    One rerun. The clear button (line 66) or the upload callback (lines
    62-63, 70) clear the chat first. With an image, a raising caption or
    engine setup ends the rerun there. Otherwise lines 83-84 make sure a
    transcript exists, and a non-empty chat input reads the counter
    (lines 95-99, where a cookie `int()` rejects raises), goes through the
    quota-gated send, and has the cookie rewritten only when the send was
    counted (line 126).
   */
  function Run(c: Client, e: Event): (r: Client)
    ensures r.hasImage == (if e.action.ChangeImage? then e.action.present else c.hasImage)
    ensures !e.action.Submit? ==> r.cookie == c.cookie
    ensures SetupRaises(r.hasImage, e) ==>
              r.cookie == c.cookie &&
              r.messages == (if e.action.PressClear? || e.action.ChangeImage? then None else c.messages)
    ensures !SetupRaises(r.hasImage, e) ==> r.messages.Some?
    ensures !SetupRaises(r.hasImage, e) && (e.action.PressClear? || e.action.ChangeImage?) ==>
              r.messages == Some([])
    ensures !SetupRaises(r.hasImage, e) && e.action.Refresh? ==>
              r.messages == Some(InitMessages(c.messages))
    ensures e.action.Submit? &&
            (e.action.input == "" || ReadCount(c.cookie).Failure? || ReadCount(c.cookie).value >= Limit) ==>
              r == c.(messages := if SetupRaises(c.hasImage, e) then c.messages else Some(InitMessages(c.messages)))
  {
    var cleared := match e.action
      case PressClear => ClearChat(c)
      case ChangeImage(present) => ClearChat(c).(hasImage := present)
      case _ => c;
    if SetupRaises(cleared.hasImage, e) then
      cleared
    else
      var msgs := InitMessages(cleared.messages);
      var idle := cleared.(messages := Some(msgs));
      if !e.action.Submit? || e.action.input == "" then
        idle
      else
        match ReadCount(idle.cookie)
        case Failure(_) => idle
        case Success(n) =>
          var t := Send(msgs, n, idle.hasImage, e.action.input, e.reply);
          match t.outcome
          case LimitReached => idle
          case ChatRaised => idle.(messages := Some(t.transcript))
          case Counted => idle.(messages := Some(t.transcript), cookie := Some(Show(t.count)))
  }

  /** The client after a sequence of reruns, oldest first. */
  function RunAll(c: Client, events: seq<Event>): Client
    decreases |events|
  {
    if |events| == 0 then c
    else RunAll(Run(c, events[0]), events[1..])
  }

  /**
    A non-empty submit on a readable counter below the limit, past the
    setup: the user entry is appended to the existing transcript. When the
    send is counted, the reply follows it if an image is present and the
    cookie then reads as one more; when the chat call raises, the user
    entry stays alone and the cookie is as it was.
   */
  lemma SubmitBelowLimit(c: Client, input: string, setupOk: bool, reply: Option<string>)
    requires input != ""
    requires ReadCount(c.cookie).Success? && ReadCount(c.cookie).value < Limit
    requires !SetupRaises(c.hasImage, Event(Submit(input), setupOk, reply))
    ensures var r := Run(c, Event(Submit(input), setupOk, reply));
      var before := InitMessages(c.messages);
      if c.hasImage && reply.None? then
        && r.cookie == c.cookie
        && r.messages == Some(before + [Message(User, input)])
      else
        && r.cookie == Some(Show(ReadCount(c.cookie).value + 1))
        && ReadCount(r.cookie) == Success(ReadCount(c.cookie).value + 1)
        && r.messages == Some(before + [Message(User, input)] +
                                (if c.hasImage then [Message(Assistant, reply.value)] else []))
  {
    var n := ReadCount(c.cookie).value;
    ReadWrittenCount(n + 1);
    var before := InitMessages(c.messages);
    var t := Send(before, n, c.hasImage, input, reply);
    if !(c.hasImage && reply.None?) {
      var expected := before + [Message(User, input)] +
                      (if c.hasImage then [Message(Assistant, reply.value)] else []);
      assert t.transcript == expected;
    }
  }

  /**
    One rerun never lowers a readable counter, raises it by at most one,
    and only raises it from below the limit; an unreadable cookie is left
    as it is.
   */
  lemma RunCount(c: Client, e: Event)
    ensures var r := Run(c, e);
      ReadCount(c.cookie).Success? ==>
        && ReadCount(r.cookie).Success?
        && (ReadCount(r.cookie).value == ReadCount(c.cookie).value
            || (ReadCount(c.cookie).value < Limit
                && ReadCount(r.cookie).value == ReadCount(c.cookie).value + 1))
    ensures ReadCount(c.cookie).Failure? ==> Run(c, e).cookie == c.cookie
  {
    if e.action.Submit? && e.action.input != "" && !SetupRaises(c.hasImage, e)
       && ReadCount(c.cookie).Success? && ReadCount(c.cookie).value < Limit {
      SubmitBelowLimit(c, e.action.input, e.setupOk, e.reply);
    }
  }

  function Max(a: int, b: int): int {
    if a >= b then a else b
  }

  /**
    Over any sequence of reruns the counter never decreases and never goes
    past the limit unless it started there: from a count of at most 20 it
    stays at most 20.
   */
  lemma {:induction false} CountMonotoneBounded(c: Client, events: seq<Event>)
    requires ReadCount(c.cookie).Success?
    ensures var r := RunAll(c, events);
      && ReadCount(r.cookie).Success?
      && ReadCount(c.cookie).value <= ReadCount(r.cookie).value <= Max(ReadCount(c.cookie).value, Limit)
    decreases |events|
  {
    if |events| > 0 {
      RunCount(c, events[0]);
      CountMonotoneBounded(Run(c, events[0]), events[1..]);
    }
  }

  /** A cookie that `int()` rejects is never rewritten, so every later send fails the same way. */
  lemma {:induction false} BadCookieSticks(c: Client, events: seq<Event>)
    requires ReadCount(c.cookie).Failure?
    ensures RunAll(c, events).cookie == c.cookie
    decreases |events|
  {
    if |events| > 0 {
      RunCount(c, events[0]);
      BadCookieSticks(Run(c, events[0]), events[1..]);
    }
  }

  /** Actions that neither clear the chat nor change the image. */
  predicate KeepsChat(a: Action) {
    a.Refresh? || a.Submit?
  }

  /** One rerun that keeps the chat only appends to the transcript, even when a remote call raises. */
  lemma RunAppends(c: Client, e: Event)
    requires KeepsChat(e.action)
    ensures InitMessages(c.messages) <= InitMessages(Run(c, e).messages)
  {
  }

  /**
    Between clears the transcript is append-only: whatever was in it
    before a sequence of reruns is still its prefix afterwards.
   */
  lemma {:induction false} TranscriptAppendOnly(c: Client, events: seq<Event>)
    requires forall i :: 0 <= i < |events| ==> KeepsChat(events[i].action)
    ensures InitMessages(c.messages) <= InitMessages(RunAll(c, events).messages)
    decreases |events|
  {
    if |events| > 0 {
      RunAppends(c, events[0]);
      TranscriptAppendOnly(Run(c, events[0]), events[1..]);
    }
  }

  /**
    In one rerun that keeps the chat, the user entries added exceed the
    counter's rise by at most one, and by none when the chat call returned.
   */
  lemma RunCountsUserEntries(c: Client, e: Event)
    requires KeepsChat(e.action)
    requires ReadCount(c.cookie).Success?
    ensures var r := Run(c, e);
      && ReadCount(r.cookie).Success?
      && var gap := (UserCount(InitMessages(r.messages)) - UserCount(InitMessages(c.messages)))
                    - (ReadCount(r.cookie).value - ReadCount(c.cookie).value);
         0 <= gap <= 1 && (e.reply.Some? ==> gap == 0)
  {
    RunCount(c, e);
    if e.action.Submit? && e.action.input != "" && !SetupRaises(c.hasImage, e) {
      var n := ReadCount(c.cookie).value;
      SendCountsUserEntries(InitMessages(c.messages), n, c.hasImage, e.action.input, e.reply);
      if n < Limit {
        SubmitBelowLimit(c, e.action.input, e.setupOk, e.reply);
      }
    }
  }

  /**
    Between clears, the counter rises by at most the number of user
    entries added: a chat call that raises leaves its user entry
    uncounted. When every chat call returned, the rise is exactly the
    number of user entries added, whether or not replies were appended.
   */
  lemma {:induction false} CountMatchesUserEntries(c: Client, events: seq<Event>)
    requires forall i :: 0 <= i < |events| ==> KeepsChat(events[i].action)
    requires ReadCount(c.cookie).Success?
    ensures var r := RunAll(c, events);
      && ReadCount(r.cookie).Success?
      && ReadCount(r.cookie).value - ReadCount(c.cookie).value
         <= UserCount(InitMessages(r.messages)) - UserCount(InitMessages(c.messages))
      && ((forall i :: 0 <= i < |events| ==> events[i].reply.Some?) ==>
            ReadCount(r.cookie).value - ReadCount(c.cookie).value
            == UserCount(InitMessages(r.messages)) - UserCount(InitMessages(c.messages)))
    decreases |events|
  {
    if |events| > 0 {
      RunCountsUserEntries(c, events[0]);
      var rest := events[1..];
      assert forall i :: 0 <= i < |rest| ==> rest[i] == events[i + 1];
      CountMatchesUserEntries(Run(c, events[0]), rest);
    }
  }

  /**
    Upload an image, send one message, upload another image: the
    transcript starts over but the counter, kept per client, stays at 1.
   */
  lemma NewImageKeepsCount()
    ensures var r := RunAll(Client(None, None, false),
                            [Event(ChangeImage(true), true, None),
                             Event(Submit("what breed?"), true, Some("A Labrador.")),
                             Event(ChangeImage(true), true, None)]);
      r.messages == Some([]) && ReadCount(r.cookie) == Success(1)
  {
  }
}
