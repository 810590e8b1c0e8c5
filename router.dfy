/** Classification of one incoming message, as the chain of tests at the top
    of `handle_message` does it: strip the text, lower a copy, and take the
    first rule that the lowered copy meets. */
module Router {
  import opened Text

  /** What one message asks for. Search, Solve and Chat carry the payload cut
      out of the original-case text. */
  datatype Command =
    | Greeting
    | Help
    | Search(query: string)
    | Solve(expression: string)
    | Joke
    | Chat(prompt: string)
    | Unknown

  const SearchPrefix := "search:"
  const SolvePrefix := "solve:"
  const ChatPrefix := "chat:"

  /** The exact texts greeted with the welcome message, in Python's list order. */
  const GreetingWords: seq<string> := ["/start", "hi", "hello"]

  /** The router as written: one test after the other on the lowered text, each
      prefix command slicing its prefix length off the stripped original. */
  function Classify(text: string): Command {
    var t := Strip(text);
    var key := Lower(t);
    if key in GreetingWords then Greeting
    else if key == "/help" then Help
    else if SearchPrefix <= key then Search(Strip(t[|SearchPrefix|..]))
    else if SolvePrefix <= key then Solve(Strip(t[|SolvePrefix|..]))
    else if key == "joke" then Joke
    else if ChatPrefix <= key then Chat(Strip(t[|ChatPrefix|..]))
    else Unknown
  }

  // ---------------------------------------------------------------------------
  // The same router as an ordered rule table

  datatype Kind = GreetingKind | HelpKind | SearchKind | SolveKind | JokeKind | ChatKind

  /** A rule matches the lowered text either exactly (one of a set of words) or
      by a prefix anchored at position 0. */
  datatype Rule = Exact(words: set<string>, kind: Kind) | Prefix(prefix: string, kind: Kind)

  const Rules: seq<Rule> := [
    Exact({"/start", "hi", "hello"}, GreetingKind),
    Exact({"/help"}, HelpKind),
    Prefix(SearchPrefix, SearchKind),
    Prefix(SolvePrefix, SolveKind),
    Exact({"joke"}, JokeKind),
    Prefix(ChatPrefix, ChatKind)
  ]

  predicate Matches(rule: Rule, key: string) {
    match rule
    case Exact(words, _) => key in words
    case Prefix(p, _) => p <= key
  }

  /** The index of the first rule that matches, or |rules| when none does. */
  function FirstMatch(rules: seq<Rule>, key: string): (i: nat)
    ensures i <= |rules|
    ensures forall j :: 0 <= j < i ==> !Matches(rules[j], key)
    ensures i < |rules| ==> Matches(rules[i], key)
  {
    if rules == [] then 0
    else if Matches(rules[0], key) then 0
    else 1 + FirstMatch(rules[1..], key)
  }

  function Build(kind: Kind, payload: string): Command {
    match kind
    case GreetingKind => Greeting
    case HelpKind => Help
    case SearchKind => Search(payload)
    case SolveKind => Solve(payload)
    case JokeKind => Joke
    case ChatKind => Chat(payload)
  }

  /** What a matching rule makes of the stripped text `t`: an exact rule its
      bare command, a prefix rule its command with the rest of `t` stripped. */
  function Apply(rule: Rule, t: string): Command
    requires Matches(rule, Lower(t))
  {
    match rule
    case Exact(_, kind) => Build(kind, "")
    case Prefix(p, kind) => Build(kind, Strip(t[|p|..]))
  }

  /** The table-driven reading of the router: first matching rule wins,
      nothing matching is Unknown. */
  function ClassifyByRules(text: string): Command {
    var t := Strip(text);
    var i := FirstMatch(Rules, Lower(t));
    if i == |Rules| then Unknown else Apply(Rules[i], t)
  }

  /** A text that starts with one of the prefixes is none of the exact words,
      so the exact rules never shadow a prefix rule. */
  lemma PrefixExcludesWords(key: string)
    requires SearchPrefix <= key || SolvePrefix <= key || ChatPrefix <= key
    ensures key !in GreetingWords && key != "/help" && key != "joke"
  {
    assert key[0] == 's' || key[0] == 'c';
    assert "/start"[0] == '/' && "hi"[0] == 'h' && "hello"[0] == 'h';
    assert "/help"[0] == '/' && "joke"[0] == 'j';
  }

  /** The router's if-chain is exactly the first-match reading of the ordered
      rule table: earlier rules take priority, prefixes are anchored at the
      start of the lowered, stripped text, and the payload is the stripped
      original-case rest. */
  lemma ClassifyFollowsRules(text: string)
    ensures Classify(text) == ClassifyByRules(text)
  {
    var t := Strip(text);
    var key := Lower(t);
    var i := FirstMatch(Rules, key);
    assert Matches(Rules[0], key) <==> key in GreetingWords;
    assert Matches(Rules[1], key) <==> key == "/help";
    assert Matches(Rules[2], key) <==> SearchPrefix <= key;
    assert Matches(Rules[3], key) <==> SolvePrefix <= key;
    assert Matches(Rules[4], key) <==> key == "joke";
    assert Matches(Rules[5], key) <==> ChatPrefix <= key;
    if key in GreetingWords {
      assert i == 0;
    } else if key == "/help" {
      assert i == 1;
    } else if SearchPrefix <= key {
      PrefixExcludesWords(key);
      assert i == 2;
    } else if SolvePrefix <= key {
      PrefixExcludesWords(key);
      assert i == 3;
    } else if key == "joke" {
      assert |key| < |SolvePrefix| < |SearchPrefix|;
      assert i == 4;
    } else if ChatPrefix <= key {
      PrefixExcludesWords(key);
      assert i == 5;
    } else {
      assert i == 6;
    }
  }

  // ---------------------------------------------------------------------------
  // Properties of the classification

  /** The same command with its payload, if it has one, lowered. */
  function LowerPayload(cmd: Command): Command {
    match cmd
    case Search(q) => Search(Lower(q))
    case Solve(e) => Solve(Lower(e))
    case Chat(p) => Chat(Lower(p))
    case _ => cmd
  }

  lemma StripLowerSuffix(t: string, n: nat)
    requires n <= |t|
    ensures Strip(Lower(t)[n..]) == Lower(Strip(t[n..]))
  {
    assert Lower(t)[n..] == Lower(t[n..]);
    StripLowerCommute(t[n..]);
  }

  /** Case is ignored when choosing the command: lowering the whole message
      gives the same command, with its payload lowered. (That the payload is
      cut from the original-case text is PayloadAfterPrefix.) */
  lemma ClassifyIgnoresCase(text: string)
    ensures Classify(Lower(text)) == LowerPayload(Classify(text))
  {
    var t := Strip(text);
    var key := Lower(t);
    var u := Lower(text);
    StripLowerCommute(text);
    LowerIdempotent(t);
    assert Strip(u) == key && Lower(Strip(u)) == key;
    if SearchPrefix <= key || SolvePrefix <= key || ChatPrefix <= key {
      if SearchPrefix <= key {
        ClassifyBySearchPrefix(text);
        ClassifyBySearchPrefix(u);
        StripLowerSuffix(t, |SearchPrefix|);
      } else if SolvePrefix <= key {
        ClassifyBySolvePrefix(text);
        ClassifyBySolvePrefix(u);
        StripLowerSuffix(t, |SolvePrefix|);
      } else {
        ClassifyByChatPrefix(text);
        ClassifyByChatPrefix(u);
        StripLowerSuffix(t, |ChatPrefix|);
      }
    } else {
      ClassifyByWord(text);
      ClassifyByWord(u);
    }
  }

  /** Whitespace around a message changes nothing. */
  lemma ClassifyIgnoresPadding(before: string, text: string, after: string)
    requires AllSpace(before) && AllSpace(after)
    ensures Classify(before + text + after) == Classify(text)
  {
    StripIgnoresPadding(before, text, after);
  }

  /** A prefix command's payload is its text after exactly the prefix, cut from
      the stripped original and stripped again; the cut-off part spells the
      prefix in any case. */
  lemma PayloadAfterPrefix(text: string)
    ensures var t := Strip(text);
      match Classify(text)
      case Search(q) => |t| >= 7 && Lower(t[..7]) == "search:" && q == Strip(t[7..])
      case Solve(e) => |t| >= 6 && Lower(t[..6]) == "solve:" && e == Strip(t[6..])
      case Chat(p) => |t| >= 5 && Lower(t[..5]) == "chat:" && p == Strip(t[5..])
      case _ => true
  {
    var t := Strip(text);
    var key := Lower(t);
    assert forall n :: 0 <= n <= |t| ==> Lower(t[..n]) == key[..n];
  }

  /** The payloads a command can carry: already stripped. */
  lemma PayloadsAreStripped(text: string)
    ensures Canonical(Classify(text))
  {
    var t := Strip(text);
    if |t| >= 5 { StripIdempotent(t[5..]); }
    if |t| >= 6 { StripIdempotent(t[6..]); }
    if |t| >= 7 { StripIdempotent(t[7..]); }
  }

  // ---------------------------------------------------------------------------
  // An inverse: a message text for each command

  /** A text the bot reads as `cmd`. */
  function Render(cmd: Command): string {
    match cmd
    case Greeting => "/start"
    case Help => "/help"
    case Search(q) => SearchPrefix + q
    case Solve(e) => SolvePrefix + e
    case Joke => "joke"
    case Chat(p) => ChatPrefix + p
    case Unknown => ""
  }

  /** A command whose payload is stripped, as every classified payload is. */
  predicate Canonical(cmd: Command) {
    match cmd
    case Search(q) => Strip(q) == q
    case Solve(e) => Strip(e) == e
    case Chat(p) => Strip(p) == p
    case _ => true
  }

  lemma StripAfterPrefix(p: string, payload: string)
    requires p != [] && Trimmed(p) && Strip(payload) == payload
    ensures Strip(p + payload) == p + payload
  {
    var s := p + payload;
    assert s[0..|s|] == s;
    if payload != [] {
      assert s[|s| - 1] == payload[|payload| - 1];
    }
    StripUnique(s, 0, |s|);
  }

  /** The stripped text and its lowered key when a lower-case prefix is
      followed by a stripped payload. */
  lemma KeyAfterPrefix(p: string, payload: string)
    requires |p| >= 2 && Trimmed(p) && Lower(p) == p && Strip(payload) == payload
    ensures Strip(p + payload) == p + payload
    ensures Lower(p + payload) == p + Lower(payload)
    ensures (p + payload)[|p|..] == payload
    ensures (p + Lower(payload))[..|p|] == p
    ensures (p + Lower(payload))[0] == p[0] && (p + Lower(payload))[1] == p[1]
  {
    StripAfterPrefix(p, payload);
    LowerAppend(p, payload);
  }

  /** Helpers for ClassifyIgnoresCase: Classify's own branches, each under
      the guard that selects it. The statements of rule priority and of
      payload extraction are ClassifyFollowsRules and PayloadAfterPrefix. */
  lemma ClassifyBySearchPrefix(text: string)
    requires SearchPrefix <= Lower(Strip(text))
    ensures Classify(text) == Search(Strip(Strip(text)[|SearchPrefix|..]))
  {
    PrefixExcludesWords(Lower(Strip(text)));
  }

  lemma ClassifyBySolvePrefix(text: string)
    requires !(SearchPrefix <= Lower(Strip(text))) && SolvePrefix <= Lower(Strip(text))
    ensures Classify(text) == Solve(Strip(Strip(text)[|SolvePrefix|..]))
  {
    PrefixExcludesWords(Lower(Strip(text)));
  }

  lemma ClassifyByChatPrefix(text: string)
    requires var key := Lower(Strip(text));
             !(SearchPrefix <= key) && !(SolvePrefix <= key) && ChatPrefix <= key
    ensures Classify(text) == Chat(Strip(Strip(text)[|ChatPrefix|..]))
  {
    PrefixExcludesWords(Lower(Strip(text)));
  }

  /** Helper for ClassifyIgnoresCase: with no prefix, only the exact words
      count. */
  lemma ClassifyByWord(text: string)
    requires var key := Lower(Strip(text));
             !(SearchPrefix <= key) && !(SolvePrefix <= key) && !(ChatPrefix <= key)
    ensures var key := Lower(Strip(text));
            Classify(text) == if key in GreetingWords then Greeting
                              else if key == "/help" then Help
                              else if key == "joke" then Joke
                              else Unknown
  {
  }

  /** `search:` followed by a stripped query is read as a search for exactly
      that query; likewise for `solve:` and `chat:`. */
  lemma SearchRoundTrip(q: string)
    requires Strip(q) == q
    ensures Classify(SearchPrefix + q) == Search(q)
  {
    assert Lower(SearchPrefix) == SearchPrefix;
    KeyAfterPrefix(SearchPrefix, q);
    ClassifyBySearchPrefix(SearchPrefix + q);
  }

  lemma SolveRoundTrip(e: string)
    requires Strip(e) == e
    ensures Classify(SolvePrefix + e) == Solve(e)
  {
    assert Lower(SolvePrefix) == SolvePrefix;
    KeyAfterPrefix(SolvePrefix, e);
    var key := SolvePrefix + Lower(e);
    assert !(SearchPrefix <= key) by { assert key[1] == 'o' && SearchPrefix[1] == 'e'; }
    ClassifyBySolvePrefix(SolvePrefix + e);
  }

  lemma ChatRoundTrip(p: string)
    requires Strip(p) == p
    ensures Classify(ChatPrefix + p) == Chat(p)
  {
    assert Lower(ChatPrefix) == ChatPrefix;
    KeyAfterPrefix(ChatPrefix, p);
    var key := ChatPrefix + Lower(p);
    assert !(SearchPrefix <= key) && !(SolvePrefix <= key) by {
      assert key[0] == 'c' && SearchPrefix[0] == 's' && SolvePrefix[0] == 's';
    }
    ClassifyByChatPrefix(ChatPrefix + p);
  }

  /** A lower-case word without surrounding whitespace is its own key. */
  lemma WordIsKey(w: string)
    requires Trimmed(w) && Lower(w) == w
    ensures Lower(Strip(w)) == w
  {
    assert w[0..|w|] == w;
    StripUnique(w, 0, |w|);
  }

  /** Classifying the rendered text gives the command back. */
  lemma ClassifyRender(cmd: Command)
    requires Canonical(cmd)
    ensures Classify(Render(cmd)) == cmd
  {
    match cmd
    case Greeting =>
      assert Lower("/start") == "/start";
      WordIsKey("/start");
    case Help =>
      assert Lower("/help") == "/help";
      WordIsKey("/help");
    case Search(q) => SearchRoundTrip(q);
    case Solve(e) => SolveRoundTrip(e);
    case Joke =>
      assert Lower("joke") == "joke";
      WordIsKey("joke");
    case Chat(p) => ChatRoundTrip(p);
    case Unknown =>
      WordIsKey("");
  }

  /** Rendering what the bot understood and sending it again is understood the
      same way. */
  lemma ClassifyRenderClassify(text: string)
    ensures Classify(Render(Classify(text))) == Classify(text)
  {
    PayloadsAreStripped(text);
    ClassifyRender(Classify(text));
  }

  // ---------------------------------------------------------------------------
  // Examples

  /** `joke` must be the whole text: `joke please` is not a joke request. */
  lemma JokeIsExact()
    ensures Classify("joke please") == Unknown
  {
    WordIsKey("joke please");
  }

  /** Prefixes are anchored at the start: `xsearch:y` is not a search. */
  lemma PrefixIsAnchored()
    ensures Classify("xsearch:y") == Unknown
  {
    WordIsKey("xsearch:y");
  }

  /** Matching ignores case: `Hello` greets. */
  lemma GreetingIgnoresCase()
    ensures Classify("Hello") == Greeting
  {
    var w := "Hello";
    assert w[0..|w|] == w;
    StripUnique(w, 0, |w|);
    assert Lower(w) == "hello";
  }

  /** The query keeps its case and loses its surrounding blanks:
      `Search:  Python ` searches for `Python`. */
  lemma QueryKeepsCase()
    ensures Classify("Search:  Python ") == Search("Python")
  {
    var p, q := "Search:", "Python";
    var rest := "  " + q;
    var t := p + rest;
    var w := t + " ";
    assert w == "Search:  Python ";
    assert w[0..|t|] == t;
    StripUnique(w, 0, |t|);
    assert Lower(p) == SearchPrefix;
    LowerAppend(p, rest);
    ClassifyBySearchPrefix(w);
    assert t[|SearchPrefix|..] == rest;
    assert rest[2..|rest|] == q;
    StripUnique(rest, 2, |rest|);
  }

  /** Upper-case prefixes are recognised: `SEARCH: x` searches for `x`. */
  lemma UpperCasePrefix()
    ensures Classify("SEARCH: x") == Search("x")
  {
    var p, rest := "SEARCH:", " x";
    var t := p + rest;
    assert t == "SEARCH: x";
    assert t[0..|t|] == t;
    StripUnique(t, 0, |t|);
    assert Lower(p) == SearchPrefix;
    LowerAppend(p, rest);
    ClassifyBySearchPrefix(t);
    assert t[|SearchPrefix|..] == rest;
    assert rest[1..2] == "x";
    StripUnique(rest, 1, 2);
  }
}
