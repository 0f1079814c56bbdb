/** What the extension sends to the chat service: the fenced form of editor
    text and the GraphQL requests it posts. */
module Messages {
  import opened Wrappers

  const API_URL := "https://api.idobata.io/graphql"
  const ROOM_LIST_QUERY := "query { viewer { rooms { edges { node { id name } } } } }"
  const CREATE_MESSAGE_MUTATION :=
    "mutation ($input: CreateMessageInput!) { createMessage(input: $input) { clientMutationId }}"
  const MARKDOWN := "MARKDOWN"

  predicate EndsWithNewline(t: string)
  {
    |t| > 0 && t[|t| - 1] == '\n'
  }

  /** The text between the fences: `text` with a newline added when it has none. */
  function Terminated(text: string): string
  {
    if EndsWithNewline(text) then text else text + "\n"
  }

  /** Editor text as a `~~~` code block. The opening fence is a line of its
      own; the block's text ends in a newline, added only when missing, so
      that the closing fence starts a line and a present newline is never
      doubled. */
  function Pre(text: string): (r: string)
    ensures |r| >= 8 && r[..4] == "~~~\n" && r[|r| - 3..] == "~~~"
    ensures EndsWithNewline(r[4..|r| - 3])
    ensures r[4..|r| - 3] == text <==> EndsWithNewline(text)
    ensures !EndsWithNewline(text) ==> r[4..|r| - 3] == text + "\n"
  {
    var r := "~~~\n" + Terminated(text) + "~~~";
    assert r[4..|r| - 3] == Terminated(text);
    r
  }

  /** Two texts give the same code block exactly when they are equal or one is
      the other with its missing final newline added. */
  lemma PreSameBlock(t: string, u: string)
    ensures Pre(t) == Pre(u) <==>
      t == u || (u == t + "\n" && !EndsWithNewline(t)) || (t == u + "\n" && !EndsWithNewline(u))
  {
    var pt, pu := Pre(t), Pre(u);
    if pt == pu {
      assert pt[4..|pt| - 3] == pu[4..|pu| - 3];
    }
  }

  lemma PreExamples()
    ensures Pre("line1") == "~~~\nline1\n~~~"
    ensures Pre("line1\n") == "~~~\nline1\n~~~"
  {
  }

  /** The variables of a `createMessage` mutation. */
  datatype MessageInput = MessageInput(roomId: string, source: string, format: string)

  /** One HTTP request to the chat service: a JSON POST carrying a GraphQL
      query and, for a mutation, its input. */
  datatype Request = Request(
    httpMethod: string,
    uri: string,
    contentType: string,
    authorization: string,
    query: string,
    input: Option<MessageInput>)

  /** The envelope every query is sent in, authorised by the session's token. */
  function Query(token: string, query: string, input: Option<MessageInput>): Request
  {
    Request("POST", API_URL, "application/json", "Bearer " + token, query, input)
  }

  function RoomListRequest(token: string): Request
  {
    Query(token, ROOM_LIST_QUERY, None)
  }

  function CreateMessageRequest(token: string, roomId: string, text: string): Request
  {
    Query(token, CREATE_MESSAGE_MUTATION, Some(MessageInput(roomId, text, MARKDOWN)))
  }
}
