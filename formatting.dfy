/** The pure parts of the bot's three handlers: how `google_search` turns an
    HTTP status and a decoded JSON body into one reply, how `fetch_joke` does
    the same for the joke API, and how the `solve:` branch words the
    evaluator's outcome. */
module Formatting {

  datatype Option<T> = None | Some(value: T)

  // ---------------------------------------------------------------------------
  // Decimal rendering of a status code (Python's `f"{status}"` on an int)

  function DigitChar(d: nat): (c: char)
    requires d < 10
    ensures '0' <= c <= '9' && c as int - '0' as int == d
  {
    ('0' as int + d) as char
  }

  predicate IsDigits(s: string) {
    forall i :: 0 <= i < |s| ==> '0' <= s[i] <= '9'
  }

  /** The decimal digits of `n`, most significant first, without leading
      zeros. */
  function Decimal(n: nat): (r: string)
    ensures 1 <= |r| && IsDigits(r)
    ensures r[0] == '0' ==> n == 0
  {
    if n < 10 then [DigitChar(n)] else Decimal(n / 10) + [DigitChar(n % 10)]
  }

  /** Reads a string of decimal digits back as a number. */
  function ParseDecimal(s: string): nat
    requires IsDigits(s)
  {
    if s == [] then 0
    else ParseDecimal(s[..|s| - 1]) * 10 + (s[|s| - 1] as int - '0' as int)
  }

  /** Reading back what Decimal wrote gives the number again. */
  lemma {:induction false} ParseDecimalOfDecimal(n: nat)
    ensures ParseDecimal(Decimal(n)) == n
  {
    if n >= 10 {
      var r := Decimal(n);
      assert r[..|r| - 1] == Decimal(n / 10);
      ParseDecimalOfDecimal(n / 10);
    }
  }

  // ---------------------------------------------------------------------------
  // Python's `sep.join(parts)`

  function Join(parts: seq<string>, sep: string): string {
    if parts == [] then ""
    else if |parts| == 1 then parts[0]
    else parts[0] + sep + Join(parts[1..], sep)
  }

  /** Joining one more part appends the separator and that part. */
  lemma {:induction false} JoinAppend(parts: seq<string>, p: string, sep: string)
    requires parts != []
    ensures Join(parts + [p], sep) == Join(parts, sep) + sep + p
  {
    if |parts| == 1 {
      assert parts + [p] == [parts[0], p];
      assert [parts[0], p][1..] == [p];
    } else {
      assert (parts + [p])[1..] == parts[1..] + [p];
      JoinAppend(parts[1..], p, sep);
    }
  }

  // ---------------------------------------------------------------------------
  // google_search: status and decoded body to reply text

  /** A decoded JSON object whose fields are read as strings. */
  type JsonObject = map<string, string>

  /** What the search API answered: the HTTP status and, when the body has a
      non-null `items` field, that list. */
  datatype SearchResponse = SearchResponse(status: nat, items: Option<seq<JsonObject>>)

  const SearchErrorPrefix := "Search error: HTTP "
  const NoResults := "No results found."
  const ResultSeparator := "\n\n"

  predicate HasResultFields(item: JsonObject) {
    "title" in item && "snippet" in item && "link" in item
  }

  /** The formatter reads `title`, `snippet` and `link` of every item only on
      a 200 answer with a non-empty list; a missing field there raises. */
  predicate ItemsReadable(resp: SearchResponse) {
    resp.status == 200 && resp.items.Some? ==>
      forall i :: 0 <= i < |resp.items.value| ==> HasResultFields(resp.items.value[i])
  }

  /** One search hit as three lines: title, snippet, link. */
  function ResultBlock(item: JsonObject): string
    requires HasResultFields(item)
  {
    item["title"] + "\n" + item["snippet"] + "\n" + item["link"]
  }

  function FormatSearch(resp: SearchResponse): string
    requires ItemsReadable(resp)
  {
    if resp.status != 200 then SearchErrorPrefix + Decimal(resp.status)
    else if resp.items.None? || resp.items.value == [] then NoResults
    else
      var items := resp.items.value;
      Join(seq(|items|, i requires 0 <= i < |items| => ResultBlock(items[i])), ResultSeparator)
  }

  /** Any status other than 200 gives the error line, and the status can be
      read back from it. */
  lemma SearchErrorReportsStatus(resp: SearchResponse)
    requires resp.status != 200
    ensures SearchErrorPrefix <= FormatSearch(resp)
    ensures var r := FormatSearch(resp);
            IsDigits(r[|SearchErrorPrefix|..]) && ParseDecimal(r[|SearchErrorPrefix|..]) == resp.status
  {
    var r := FormatSearch(resp);
    assert r[|SearchErrorPrefix|..] == Decimal(resp.status);
    ParseDecimalOfDecimal(resp.status);
  }

  /** A 200 answer without items, or with an empty list, is "No results
      found." whatever else it holds. */
  lemma SearchWithoutItems(status: nat, items: Option<seq<JsonObject>>)
    requires status == 200 && (items.None? || items.value == [])
    ensures FormatSearch(SearchResponse(status, items)) == NoResults
  {
  }

  /** A single hit is exactly its three lines. */
  lemma SearchSingleResult(item: JsonObject)
    requires HasResultFields(item)
    ensures FormatSearch(SearchResponse(200, Some([item]))) == ResultBlock(item)
  {
  }

  /** The hits are rendered in the order the API gave them: one more hit at the
      end of the list adds a blank line and its block at the end of the reply. */
  lemma SearchResultsInOrder(items: seq<JsonObject>, item: JsonObject)
    requires items != [] && HasResultFields(item)
    requires forall i :: 0 <= i < |items| ==> HasResultFields(items[i])
    ensures FormatSearch(SearchResponse(200, Some(items + [item])))
         == FormatSearch(SearchResponse(200, Some(items))) + ResultSeparator + ResultBlock(item)
  {
    var longer := items + [item];
    var blocks := seq(|items|, i requires 0 <= i < |items| => ResultBlock(items[i]));
    var blocks' := seq(|longer|, i requires 0 <= i < |longer| => ResultBlock(longer[i]));
    assert blocks' == blocks + [ResultBlock(item)];
    JoinAppend(blocks, ResultBlock(item), ResultSeparator);
  }

  // ---------------------------------------------------------------------------
  // fetch_joke: status and decoded body to reply text

  /** What the joke API answered: the HTTP status and the `setup` and
      `punchline` fields (None when absent). */
  datatype JokeResponse = JokeResponse(status: nat, setup: Option<string>, punchline: Option<string>)

  const JokeFailed := "❌ Failed to fetch a joke."

  /** Python's f-string rendering of `data.get(key)`: an absent field shows
      as the text "None". */
  function Show(field: Option<string>): string {
    match field
    case None => "None"
    case Some(v) => v
  }

  function FormatJoke(resp: JokeResponse): string {
    if resp.status != 200 then JokeFailed
    else Show(resp.setup) + "\n" + Show(resp.punchline)
  }

  /** The text before the first line break, and the text after it. */
  function SplitFirstLine(s: string): (string, string) {
    if s == [] then ("", "")
    else if s[0] == '\n' then ("", s[1..])
    else
      var (head, tail) := SplitFirstLine(s[1..]);
      ([s[0]] + head, tail)
  }

  lemma {:induction false} SplitFirstLineAppend(head: string, tail: string)
    requires '\n' !in head
    ensures SplitFirstLine(head + "\n" + tail) == (head, tail)
  {
    if head != [] {
      var s := head + "\n" + tail;
      assert s[0] == head[0] && head[0] != '\n';
      assert s[1..] == head[1..] + "\n" + tail;
      SplitFirstLineAppend(head[1..], tail);
      assert [head[0]] + head[1..] == head;
    } else {
      assert head + "\n" + tail == "\n" + tail;
    }
  }

  /** The fixed failure text comes out exactly when the status is not 200:
      every successful joke has a line break, the failure text has none. */
  lemma JokeFailedIffBadStatus(resp: JokeResponse)
    ensures FormatJoke(resp) == JokeFailed <==> resp.status != 200
  {
    if resp.status == 200 {
      var r := FormatJoke(resp);
      assert r[|Show(resp.setup)|] == '\n';
      assert '\n' !in JokeFailed;
    }
  }

  /** A successful joke splits back into its setup and punchline at the first
      line break, as long as the setup is a single line. */
  lemma JokeSplitsBack(resp: JokeResponse)
    requires resp.status == 200 && '\n' !in Show(resp.setup)
    ensures SplitFirstLine(FormatJoke(resp)) == (Show(resp.setup), Show(resp.punchline))
  {
    SplitFirstLineAppend(Show(resp.setup), Show(resp.punchline));
  }

  // ---------------------------------------------------------------------------
  // solve: the evaluator's outcome to reply text

  /** What `sympify(expression).evalf()` did: produced a value (as Python
      prints it) or raised SympifyError. */
  datatype Evaluation = Evaluated(value: string) | Rejected

  const ResultPrefix := "Result: "
  const InvalidExpression := "❌ Invalid mathematical expression."

  function SolveReply(ev: Evaluation): string {
    match ev
    case Evaluated(v) => ResultPrefix + v
    case Rejected => InvalidExpression
  }

  /** How a reader tells the two outcomes apart again. */
  function ReadSolveReply(reply: string): Evaluation {
    if ResultPrefix <= reply then Evaluated(reply[|ResultPrefix|..]) else Rejected
  }

  /** The solve reply loses nothing: the evaluator's outcome can be read back
      from it. */
  lemma SolveReplyRoundTrip(ev: Evaluation)
    ensures ReadSolveReply(SolveReply(ev)) == ev
  {
    match ev
    case Evaluated(v) =>
      assert SolveReply(ev)[|ResultPrefix|..] == v;
    case Rejected =>
      assert InvalidExpression[0] != ResultPrefix[0];
  }
}
