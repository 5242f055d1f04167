/** The ChatInterface component: the conversation log (`messages`) and the busy
    flag (`isLoading`) that `handleSendMessage` updates around the call to the
    remote chat service. The call itself is abstracted into its outcome. */
module ChatInterface {

  /** A message of the log. `id` and `timestamp` are clock readings, kept
      opaque: nothing is claimed about them. */
  datatype Message = Message(id: int, text: string, isUser: bool, timestamp: int)

  /** What the awaited remote call does: resolve with a reply, or reject. */
  datatype Outcome = Success(response: string) | Failure

  /** The fixed assistant text appended when the remote call rejects. */
  const FallbackText: string := "ขออภัย เกิดข้อผิดพลาดในการส่งข้อความ กรุณาลองใหม่อีกครั้ง"

  /** A message without its id and timestamp: who said what. */
  datatype Entry = Entry(isUser: bool, text: string)

  /** One completed send: the text the user sent and how the call ended. */
  datatype Exchange = Exchange(text: string, outcome: Outcome)

  /** The text of the assistant message that answers a call with this outcome:
      the service's response when the call resolves, whatever it is (even
      empty), and the fixed fallback text when it rejects. */
  function ReplyText(outcome: Outcome): (r: string)
    ensures outcome.Success? ==> r == outcome.response
    ensures outcome.Failure? ==> r == FallbackText && r != ""
  {
    match outcome
    case Success(response) => response
    case Failure => FallbackText
  }

  function EntryOf(m: Message): Entry
  {
    Entry(m.isUser, m.text)
  }

  /** The log with ids and timestamps dropped. */
  function Entries(log: seq<Message>): (es: seq<Entry>)
  {
    seq(|log|, i requires 0 <= i < |log| => EntryOf(log[i]))
  }

  /** The two entries one completed send contributes: the user's text, then the reply. */
  function Turn(x: Exchange): seq<Entry>
  {
    [Entry(true, x.text), Entry(false, ReplyText(x.outcome))]
  }

  /** The log that a sequence of completed sends produces, oldest first. */
  function Transcript(xs: seq<Exchange>): seq<Entry>
  {
    if xs == [] then [] else Transcript(xs[..|xs| - 1]) + Turn(xs[|xs| - 1])
  }

  /** The shape of the log: two entries per send, the user's text at an even
      position and, right after it, the one reply to it; the reply is the
      response on success and the fallback text on failure. */
  lemma {:induction false} TranscriptShape(xs: seq<Exchange>)
    ensures |Transcript(xs)| == 2 * |xs|
    ensures forall i :: 0 <= i < |xs| ==>
      Transcript(xs)[2 * i] == Entry(true, xs[i].text) &&
      Transcript(xs)[2 * i + 1] == Entry(false, ReplyText(xs[i].outcome))
  {
    if xs != [] {
      var init := xs[..|xs| - 1];
      TranscriptShape(init);
      forall i | 0 <= i < |xs|
        ensures Transcript(xs)[2 * i] == Entry(true, xs[i].text)
        ensures Transcript(xs)[2 * i + 1] == Entry(false, ReplyText(xs[i].outcome))
      {
        if i < |init| {
          assert xs[i] == init[i];
        }
      }
    }
  }

  /** The log is append-only: a later sequence of sends extends the earlier log
      without altering any of its entries. */
  lemma {:induction false} TranscriptGrows(xs: seq<Exchange>, ys: seq<Exchange>)
    ensures Transcript(xs) <= Transcript(xs + ys)
    ensures |Transcript(xs + ys)| == |Transcript(xs)| + 2 * |ys|
    decreases |ys|
  {
    if ys == [] {
      assert xs + ys == xs;
    } else {
      var front := ys[..|ys| - 1];
      assert (xs + ys)[..|xs + ys| - 1] == xs + front;
      TranscriptGrows(xs, front);
    }
  }

  /** The chat view's state. `exchanges` (ghost) records the completed sends and
      `outstanding` the text of the send still awaiting its reply. */
  class Chat {
    var messages: seq<Message>
    var isLoading: bool
    ghost var exchanges: seq<Exchange>
    ghost var outstanding: string

    /** The log is the transcript of the completed sends, followed, while a
        call is awaited, by the user message of the outstanding send. */
    ghost predicate Valid()
      reads this
    {
      Entries(messages) ==
        Transcript(exchanges) + (if isLoading then [Entry(true, outstanding)] else [])
    }

    constructor ()
      ensures Valid() && messages == [] && !isLoading && exchanges == []
    {
      messages := [];
      isLoading := false;
      exchanges := [];
      outstanding := "";
    }

    /** Whether the welcome view replaces the message list, which the view
        decides on an empty `messages`: that is exactly when nothing was ever
        sent. */
    function EmptyStateShown(): (b: bool)
      reads this
      ensures Valid() ==> (b <==> exchanges == [] && !isLoading)
    {
      TranscriptShape(exchanges);
      assert |Entries(messages)| == |messages|;
      |messages| == 0
    }

    /** Whether the typing indicator is rendered: it sits inside the view's
        non-empty branch, after the messages, under `isLoading`. It is shown
        exactly while a call is awaited, since the user message appended first
        keeps the list non-empty. */
    function TypingIndicatorShown(): (b: bool)
      reads this
      ensures Valid() ==> (b <==> isLoading)
    {
      assert |Entries(messages)| == |messages|;
      |messages| != 0 && isLoading
    }

    /** First half of `handleSendMessage`: append the user's message, raise
        the busy flag. The input keeps a second send from starting while one
        is outstanding. */
    method BeginSend(text: string, now: int)
      requires Valid() && !isLoading
      modifies this
      ensures Valid() && isLoading && exchanges == old(exchanges) && outstanding == text
      ensures messages == old(messages) + [Message(now, text, true, now)]
    {
      messages := messages + [Message(now, text, true, now)];
      isLoading := true;
      outstanding := text;
      assert Entries(messages) == Entries(old(messages)) + [Entry(true, text)];
    }

    /** Second half: the awaited call settles. Exactly one assistant message is
        appended, the reply on success and the fallback text on failure, and
        the busy flag is lowered in either case. */
    method FinishSend(outcome: Outcome, now: int)
      requires Valid() && isLoading
      modifies this
      ensures Valid() && !isLoading
      ensures exchanges == old(exchanges) + [Exchange(old(outstanding), outcome)]
      ensures messages == old(messages) + [Message(now + 1, ReplyText(outcome), false, now)]
    {
      var reply := match outcome
        case Success(response) => response
        case Failure => FallbackText;
      messages := messages + [Message(now + 1, reply, false, now)];
      isLoading := false;
      exchanges := exchanges + [Exchange(outstanding, outcome)];
      assert Entries(messages) == Entries(old(messages)) + [Entry(false, reply)];
      assert exchanges[..|exchanges| - 1] == old(exchanges);
    }

    /** A whole send, with the call's outcome given: the log grows by exactly the
        user message and, right after it, its reply; earlier messages are kept. */
    method Send(text: string, outcome: Outcome, sentAt: int, repliedAt: int)
      requires Valid() && !isLoading
      modifies this
      ensures Valid() && !isLoading
      ensures exchanges == old(exchanges) + [Exchange(text, outcome)]
      ensures messages == old(messages) +
        [Message(sentAt, text, true, sentAt), Message(repliedAt + 1, ReplyText(outcome), false, repliedAt)]
    {
      BeginSend(text, sentAt);
      FinishSend(outcome, repliedAt);
    }
  }
}
