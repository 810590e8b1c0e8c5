/** `handle_message`: what the bot answers to one message, as an ordered list
    of replies, and the same steps done one `message.answer` at a time against
    a chat that records what it was sent. The outside services (the search
    and joke HTTP APIs, the expression evaluator, the Vertex AI model) are
    parameters. */
module Dispatch {
  import opened Text
  import opened Formatting
  import opened Router

  /** The query string the bot sends to the search API; `num` is the result
      count it asks for. */
  datatype SearchRequest = SearchRequest(q: string, num: nat)

  const SearchResultCount := 3

  /** What a call into outside code gave back: a value, or an exception that
      the handler does not catch (a connection error, a timeout, a body that
      is not JSON, an evaluator error other than a syntax error). Such an
      exception ends `handle_message` after the replies already sent. */
  datatype Outcome<T> = Returned(value: T) | Raised

  /** The outside world as seen from one message: what the search API answers
      to a request, what the joke API answers, what the evaluator makes of an
      expression, and what the AI chat handler returns for a prompt (it
      catches every exception itself). */
  datatype Services = Services(
    searchApi: SearchRequest -> Outcome<SearchResponse>,
    jokeApi: Outcome<JokeResponse>,
    evaluate: string -> Outcome<Evaluation>,
    chatAi: string -> string)

  const Welcome :=
    "👋 Hi! I'm a bot powered by Vertex AI (Gemini).\n\n"
    + "Try:\n"
    + "- search: Python → Google search\n"
    + "- solve: 2+2*5 → Math calculation\n"
    + "- joke → Get a random joke\n"
    + "- chat: Tell me something about AI → Gemini response"
  const HelpText := "Available commands:\n- search:<query>\n- solve:<expression>\n- joke\n- chat:<message>"
  const Searching := "🔍 Searching..."
  const Thinking := "🤖 Thinking..."
  const PromptRequired := "Please enter a message after 'chat:'."
  const UnknownCommand := "Unknown command. Type /help to see available options."

  function SearchRequestFor(query: string): SearchRequest {
    SearchRequest(query, SearchResultCount)
  }

  /** `google_search(query)`: the reply text, or None when it raises. It
      raises when the request or the JSON decoding does, and when a hit of a
      200 answer lacks `title`, `snippet` or `link` (a KeyError). */
  function GoogleSearch(query: string, services: Services): (r: Option<string>)
    ensures var answer := services.searchApi(SearchRequestFor(query));
            r.Some? <==> answer.Returned? && ItemsReadable(answer.value)
  {
    match services.searchApi(SearchRequestFor(query))
    case Raised => None
    case Returned(resp) => if ItemsReadable(resp) then Some(FormatSearch(resp)) else None
  }

  /** `fetch_joke()`: the reply text, or None when the request or the JSON
      decoding raises. */
  function FetchJoke(services: Services): Option<string> {
    match services.jokeApi
    case Raised => None
    case Returned(resp) => Some(FormatJoke(resp))
  }

  /** The `solve:` branch: the reply, or None when the evaluator raises
      something other than SympifyError. */
  function SolveExpression(expression: string, services: Services): Option<string> {
    match services.evaluate(expression)
    case Raised => None
    case Returned(ev) => Some(SolveReply(ev))
  }

  /** The reply a handler result leads to: none when the handler raised. */
  function Sent(reply: Option<string>): seq<string> {
    match reply
    case None => []
    case Some(r) => [r]
  }

  /** The replies to one classified message, in the order they are sent; an
      exception cuts the list short where it is raised. */
  function Replies(cmd: Command, services: Services): seq<string> {
    match cmd
    case Greeting => [Welcome]
    case Help => [HelpText]
    case Search(q) => [Searching] + Sent(GoogleSearch(q, services))
    case Solve(e) => Sent(SolveExpression(e, services))
    case Joke => Sent(FetchJoke(services))
    case Chat(p) => if p == [] then [PromptRequired] else [Thinking, services.chatAi(p)]
    case Unknown => [UnknownCommand]
  }

  // ---------------------------------------------------------------------------
  // Which outside service a message uses

  datatype Call = SearchCall(request: SearchRequest) | JokeCall | EvaluateCall(expression: string) | ChatCall(prompt: string)

  /** The outside calls `handle_message` makes for `cmd`, in order. */
  function Calls(cmd: Command): seq<Call> {
    match cmd
    case Search(q) => [SearchCall(SearchRequestFor(q))]
    case Solve(e) => [EvaluateCall(e)]
    case Joke => [JokeCall]
    case Chat(p) => if p == [] then [] else [ChatCall(p)]
    case _ => []
  }

  /** Two views of the services give the same answers to `call`. */
  predicate AgreeOn(s1: Services, s2: Services, call: Call) {
    match call
    case SearchCall(rq) => s1.searchApi(rq) == s2.searchApi(rq)
    case JokeCall => s1.jokeApi == s2.jokeApi
    case EvaluateCall(e) => s1.evaluate(e) == s2.evaluate(e)
    case ChatCall(p) => s1.chatAi(p) == s2.chatAi(p)
  }

  /** The replies depend on the services only through the calls listed in
      Calls: a service not listed there is never consulted. */
  lemma RepliesUseOnlyCalls(cmd: Command, s1: Services, s2: Services)
    requires forall call :: call in Calls(cmd) ==> AgreeOn(s1, s2, call)
    ensures Replies(cmd, s1) == Replies(cmd, s2)
  {
    match cmd
    case Search(q) => assert SearchCall(SearchRequestFor(q)) in Calls(cmd);
    case Solve(e) => assert EvaluateCall(e) in Calls(cmd);
    case Joke => assert JokeCall in Calls(cmd);
    case Chat(p) => if p != [] { assert ChatCall(p) in Calls(cmd); }
    case _ =>
  }

  /** At most one outside call per message. */
  lemma AtMostOneCall(cmd: Command)
    ensures |Calls(cmd)| <= 1
  {
  }

  // ---------------------------------------------------------------------------
  // Properties of the reply list

  /** The outside call `call` returns instead of raising. */
  predicate Returns(services: Services, call: Call) {
    match call
    case SearchCall(rq) => services.searchApi(rq).Returned? && ItemsReadable(services.searchApi(rq).value)
    case JokeCall => services.jokeApi.Returned?
    case EvaluateCall(e) => services.evaluate(e).Returned?
    case ChatCall(_) => true
  }

  /** A message gets at most two replies. It gets none exactly when a solve
      or a joke raises, and two exactly for a search that returns and for a
      chat with a non-empty prompt. When no outside call raises, every
      message gets at least one reply. */
  lemma ReplyCount(cmd: Command, services: Services)
    ensures |Replies(cmd, services)| <= 2
    ensures |Replies(cmd, services)| == 0 <==>
      (cmd.Solve? && services.evaluate(cmd.expression).Raised?) || (cmd.Joke? && services.jokeApi.Raised?)
    ensures |Replies(cmd, services)| == 2 <==>
      (cmd.Search? && GoogleSearch(cmd.query, services).Some?) || (cmd.Chat? && cmd.prompt != [])
    ensures (forall call :: call in Calls(cmd) ==> Returns(services, call)) ==> 1 <= |Replies(cmd, services)|
  {
    match cmd
    case Solve(e) => assert EvaluateCall(e) in Calls(cmd);
    case Joke => assert JokeCall in Calls(cmd);
    case _ =>
  }

  /** A search is acknowledged before the search runs, so the acknowledgement
      is sent even when the search raises; a chat with a prompt is
      acknowledged and then answered. */
  lemma AcknowledgementFirst(cmd: Command, services: Services)
    ensures cmd.Search? ==> Replies(cmd, services) == [Searching] + Sent(GoogleSearch(cmd.query, services))
    ensures cmd.Chat? && cmd.prompt != [] ==> Replies(cmd, services) == [Thinking, services.chatAi(cmd.prompt)]
  {
  }

  /** A `chat:` with nothing after it gets only the prompt-required reply,
      whatever the services, and makes no outside call. */
  lemma EmptyChatPrompt(services: Services)
    ensures Replies(Chat(""), services) == [PromptRequired]
    ensures Calls(Chat("")) == []
  {
  }

  /** The end-to-end reading of one message. */
  function RepliesTo(text: string, services: Services): seq<string> {
    Replies(Classify(text), services)
  }

  /** A search message is acknowledged, then answered with the search for its
      original-case query. */
  lemma SearchMessageReplies(services: Services)
    ensures Classify("Search:  Python ") == Search("Python")
    ensures RepliesTo("Search:  Python ", services) == [Searching] + Sent(GoogleSearch("Python", services))
  {
    QueryKeepsCase();
  }

  /** Text that matches no rule gets the fixed unknown-command reply. */
  lemma UnknownMessageReplies(services: Services)
    ensures Classify("joke please") == Unknown
    ensures RepliesTo("joke please", services) == [UnknownCommand]
  {
    JokeIsExact();
  }

  // ---------------------------------------------------------------------------
  // The handler, step by step

  /** The chat a message came from, seen as the list of texts the bot has
      sent to it. */
  class Conversation {
    var sent: seq<string>

    constructor ()
      ensures sent == []
    {
      sent := [];
    }

    /** `message.answer(text)`. */
    method Answer(text: string)
      modifies this
      ensures sent == old(sent) + [text]
    {
      sent := sent + [text];
    }
  }

  /** `handle_message`: tests the stripped, lowered text rule by rule and
      answers as soon as one matches. */
  method HandleMessage(chat: Conversation, text: string, services: Services)
    modifies chat
    ensures chat.sent == old(chat.sent) + Replies(Classify(text), services)
  {
    var t := Strip(text);
    var key := Lower(t);
    if key in GreetingWords {
      chat.Answer(Welcome);
      return;
    }
    if key == "/help" {
      chat.Answer(HelpText);
      return;
    }
    if SearchPrefix <= key {
      var query := Strip(t[7..]);
      chat.Answer(Searching);
      var result := GoogleSearch(query, services);
      if result.None? {
        return;
      }
      chat.Answer(result.value);
      return;
    }
    if SolvePrefix <= key {
      var expression := Strip(t[6..]);
      var outcome := services.evaluate(expression);
      match outcome {
        case Raised => return;
        case Returned(Evaluated(value)) => chat.Answer(ResultPrefix + value);
        case Returned(Rejected) => chat.Answer(InvalidExpression);
      }
      return;
    }
    if key == "joke" {
      var joke := FetchJoke(services);
      if joke.None? {
        return;
      }
      chat.Answer(joke.value);
      return;
    }
    if ChatPrefix <= key {
      var prompt := Strip(t[5..]);
      if prompt == [] {
        chat.Answer(PromptRequired);
        return;
      }
      chat.Answer(Thinking);
      var response := services.chatAi(prompt);
      chat.Answer(response);
      return;
    }
    chat.Answer(UnknownCommand);
  }
}
