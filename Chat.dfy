/**
 * The chat panel of a paper page (frontend/src/components/ChatInterface.jsx):
 * a transcript, the text being typed and a flag for a pending reply.
 * Sending appends the user's message and posts the whole transcript;
 * when the request settles, exactly one assistant message is appended,
 * the reply or a fixed apology, and the flag is cleared.
 *
 * The HTTP request is not part of the model: `HandleSend` returns the
 * transcript it would post, and `Resolve` receives the reply text, or
 * `None` when the request failed. The transcript that `handleSend`'s
 * closure captured is the field `pending`.
 */
module Chat {
  import opened Wrappers

  datatype Role = User | Assistant

  datatype Message = Message(role: Role, content: string)

  const ErrorReply := "Sorry, I encountered an error."

  // ---------------------------------------------------------------------
  // String.prototype.trim
  // ---------------------------------------------------------------------

  /** The characters `trim` removes: white space and line terminators. */
  predicate IsWhitespace(c: char)
  {
    || ('\U{0009}' <= c <= '\U{000D}') || c == ' ' || c == '\U{00A0}' || c == '\U{1680}'
    || ('\U{2000}' <= c <= '\U{200A}') || c == '\U{2028}' || c == '\U{2029}' || c == '\U{202F}'
    || c == '\U{205F}' || c == '\U{3000}' || c == '\U{FEFF}'
  }

  predicate IsBlank(s: string)
  {
    forall i :: 0 <= i < |s| ==> IsWhitespace(s[i])
  }

  function TrimStart(s: string): string
  {
    if s != [] && IsWhitespace(s[0]) then TrimStart(s[1..]) else s
  }

  function TrimEnd(s: string): string
  {
    if s != [] && IsWhitespace(s[|s| - 1]) then TrimEnd(s[..|s| - 1]) else s
  }

  function Trim(s: string): string
  {
    TrimEnd(TrimStart(s))
  }

  lemma {:induction false} TrimStartEmpty(s: string)
    ensures TrimStart(s) == [] <==> IsBlank(s)
  {
    if s != [] && IsWhitespace(s[0]) {
      TrimStartEmpty(s[1..]);
      assert IsBlank(s) <==> IsBlank(s[1..]) by {
        if IsBlank(s[1..]) {
          forall i | 0 <= i < |s| ensures IsWhitespace(s[i]) {
            if i > 0 { assert s[i] == s[1..][i - 1]; }
          }
        }
      }
    }
  }

  /** A non-empty result of `TrimStart` starts with a character that is not white space. */
  lemma {:induction false} TrimStartStops(s: string)
    ensures TrimStart(s) != [] ==> !IsWhitespace(TrimStart(s)[0])
  {
    if s != [] && IsWhitespace(s[0]) {
      TrimStartStops(s[1..]);
    }
  }

  /** Trimming the end of a text that does not start with white space leaves a non-empty text. */
  lemma {:induction false} TrimEndKeepsFirst(s: string)
    requires s != [] && !IsWhitespace(s[0])
    ensures TrimEnd(s) != []
  {
    if IsWhitespace(s[|s| - 1]) {
      TrimEndKeepsFirst(s[..|s| - 1]);
    }
  }

  /** `s.trim()` is empty exactly when `s` is nothing but white space. */
  lemma TrimEmptyIffBlank(s: string)
    ensures Trim(s) == "" <==> IsBlank(s)
  {
    TrimStartEmpty(s);
    TrimStartStops(s);
    if TrimStart(s) != [] {
      TrimEndKeepsFirst(TrimStart(s));
    }
  }

  // ---------------------------------------------------------------------
  // The state machine
  // ---------------------------------------------------------------------

  /** The component's state: `messages`, `input`, `loading`, and the transcript of the request in flight. */
  datatype ChatState = ChatState(messages: seq<Message>, input: string, loading: bool, pending: seq<Message>)

  const Initial := ChatState([], "", false, [])

  /** A send: ignored for blank input or while a reply is pending, otherwise the new transcript is posted. */
  function SendStep(s: ChatState): (ChatState, Option<seq<Message>>)
  {
    if Trim(s.input) == "" || s.loading then (s, None)
    else
      var updated := s.messages + [Message(User, s.input)];
      (ChatState(updated, "", true, updated), Some(updated))
  }

  /** The assistant message for an outcome: the reply, or the apology when the request failed. */
  function ReplyText(outcome: Option<string>): string
  {
    match outcome
    case Some(reply) => reply
    case None => ErrorReply
  }

  /** The request settles: one assistant message after the posted transcript, and no longer loading. */
  function ResolveStep(s: ChatState, outcome: Option<string>): ChatState
    requires s.loading
  {
    s.(messages := s.pending + [Message(Assistant, ReplyText(outcome))], loading := false)
  }

  /** Messages alternate, the user's first. */
  predicate Alternates(messages: seq<Message>)
  {
    forall i :: 0 <= i < |messages| ==> messages[i].role == (if i % 2 == 0 then User else Assistant)
  }

  /**
   * The states the component can reach: the transcript alternates; while
   * loading it is the posted transcript and ends with the user's message,
   * otherwise every question has its answer.
   */
  predicate Consistent(s: ChatState)
  {
    && Alternates(s.messages)
    && (s.loading ==> s.messages == s.pending && |s.messages| % 2 == 1)
    && (!s.loading ==> |s.messages| % 2 == 0)
  }

  /** A send is refused exactly for blank input or while loading, and then changes nothing. */
  lemma SendGuard(s: ChatState)
    ensures SendStep(s).1 == None <==> (IsBlank(s.input) || s.loading)
    ensures SendStep(s).1 == None ==> SendStep(s).0 == s
  {
    TrimEmptyIffBlank(s.input);
  }

  /**
   * An accepted send appends the user's message with the input as typed,
   * posts the whole new transcript, clears the input and starts loading.
   */
  lemma SendAccepted(s: ChatState)
    requires !IsBlank(s.input) && !s.loading
    ensures var (t, request) := SendStep(s);
      && t.messages == s.messages + [Message(User, s.input)]
      && request == Some(t.messages)
      && t.input == "" && t.loading
  {
    TrimEmptyIffBlank(s.input);
  }

  /**
   * A send followed by its outcome adds exactly two messages, the
   * question and the reply (or the apology), and ends not loading.
   */
  lemma SendThenResolve(s: ChatState, outcome: Option<string>)
    requires !IsBlank(s.input) && !s.loading
    ensures SendStep(s).0.loading
    ensures var t := ResolveStep(SendStep(s).0, outcome);
      && t.messages == s.messages + [Message(User, s.input), Message(Assistant, ReplyText(outcome))]
      && !t.loading && t.input == ""
  {
    SendAccepted(s);
  }

  lemma SendKeepsConsistent(s: ChatState)
    requires Consistent(s)
    ensures Consistent(SendStep(s).0)
  {
    var t := SendStep(s).0;
    if t != s {
      assert forall i :: 0 <= i < |s.messages| ==> t.messages[i] == s.messages[i];
    }
  }

  lemma ResolveKeepsConsistent(s: ChatState, outcome: Option<string>)
    requires Consistent(s) && s.loading
    ensures Consistent(ResolveStep(s, outcome))
  {
    var t := ResolveStep(s, outcome);
    assert forall i :: 0 <= i < |s.messages| ==> t.messages[i] == s.messages[i];
  }

  // ---------------------------------------------------------------------
  // Runs of events
  // ---------------------------------------------------------------------

  /** What can happen to the panel: typing, a send, or the pending request settling. */
  datatype Event = Typed(text: string) | Sent | Settled(outcome: Option<string>)

  /** One event; a request settles only while one is pending, so a stray `Settled` is ignored. */
  function Apply(s: ChatState, e: Event): ChatState
  {
    match e
    case Typed(text) => s.(input := text)
    case Sent => SendStep(s).0
    case Settled(outcome) => if s.loading then ResolveStep(s, outcome) else s
  }

  function Run(s: ChatState, events: seq<Event>): ChatState
    decreases |events|
  {
    if events == [] then s else Run(Apply(s, events[0]), events[1..])
  }

  /** One event keeps the state consistent and only ever appends to the transcript. */
  lemma ApplyAppends(s: ChatState, e: Event)
    requires Consistent(s)
    ensures var t := Apply(s, e);
      Consistent(t) && |s.messages| <= |t.messages| && t.messages[..|s.messages|] == s.messages
  {
    match e
    case Typed(_) =>
    case Sent => SendKeepsConsistent(s);
    case Settled(outcome) =>
      if s.loading {
        ResolveKeepsConsistent(s, outcome);
      }
  }

  /** Any run keeps the state consistent, and the transcript is append-only. */
  lemma {:induction false} RunAppends(s: ChatState, events: seq<Event>)
    requires Consistent(s)
    ensures var t := Run(s, events);
      Consistent(t) && |s.messages| <= |t.messages| && t.messages[..|s.messages|] == s.messages
    decreases |events|
  {
    if events != [] {
      var next := Apply(s, events[0]);
      ApplyAppends(s, events[0]);
      RunAppends(next, events[1..]);
      var t := Run(next, events[1..]);
      assert t.messages[..|next.messages|][..|s.messages|] == t.messages[..|s.messages|];
    }
  }

  // ---------------------------------------------------------------------
  // The component
  // ---------------------------------------------------------------------

  class ChatInterface {
    var messages: seq<Message>
    var input: string
    var loading: bool
    var pending: seq<Message>

    function State(): ChatState
      reads this
    {
      ChatState(messages, input, loading, pending)
    }

    ghost predicate Valid()
      reads this
    {
      Consistent(State())
    }

    constructor()
      ensures State() == Initial && Valid()
    {
      messages := [];
      input := "";
      loading := false;
      pending := [];
    }

    /** The text field's change handler. */
    method SetInput(text: string)
      requires Valid()
      modifies this
      ensures State() == Apply(old(State()), Typed(text)) && Valid()
    {
      input := text;
    }

    /** `handleSend` up to the request: returns the transcript it posts, if any. */
    method HandleSend() returns (request: Option<seq<Message>>)
      requires Valid()
      modifies this
      ensures (State(), request) == SendStep(old(State()))
      ensures Valid()
    {
      SendKeepsConsistent(State());
      if Trim(input) == "" || loading {
        return None;
      }
      var newMsg := Message(User, input);
      var updatedMessages := messages + [newMsg];
      messages := updatedMessages;
      input := "";
      loading := true;
      pending := updatedMessages;
      request := Some(updatedMessages);
    }

    /** The rest of `handleSend`: the request settled with a reply, or failed (`None`). */
    method Resolve(outcome: Option<string>)
      requires Valid() && loading
      modifies this
      ensures State() == ResolveStep(old(State()), outcome)
      ensures Valid()
    {
      ResolveKeepsConsistent(State(), outcome);
      var content := ErrorReply;
      if outcome.Some? {
        content := outcome.value;
      }
      messages := pending + [Message(Assistant, content)];
      loading := false;
    }
  }
}
