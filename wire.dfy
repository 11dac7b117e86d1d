// The chat stream's wire protocol, shared by the server (main.py) and the
// browser client (static/script-minimal.js): four kinds of event, each sent
// as one JSON object on a `data: ` line followed by a blank line, the line
// framing of Server-Sent Events (section 9.2 of the HTML Living Standard).
//
// JSON itself is abstract: the server's `json.dumps` is an encoder
// `Event -> string` and the client's `JSON.parse` followed by the dispatch
// on `data.type` is a decoder `string -> Option<Event>` (`None` for a
// payload that does not parse or whose `type` is none of the four).

module Wire {
  import opened Common

  /** The `status` of an `end` event. */
  datatype Status = Success | Limited

  /** `{'type': 'metadata', 'ai_powered': ...}`, `{'type': 'chunk', 'content': ...}`,
      `{'type': 'word', 'content': ..., 'index': ...}` and `{'type': 'end', 'status': ...}`. */
  datatype Event =
    | Metadata(aiPowered: bool)
    | Chunk(content: string)
    | Word(content: string, index: nat)
    | End(status: Status)

  const DataPrefix := "data: "

  /** `f"data: {payload}\n\n"`. */
  function Frame(payload: string): string
  {
    DataPrefix + payload + "\n\n"
  }

  /** The bytes of a whole stream of events, one frame each. */
  function Frames(encode: Event -> string, events: seq<Event>): string
  {
    if events == [] then "" else Frame(encode(events[0])) + Frames(encode, events[1..])
  }

  /** `json.dumps` never puts a raw line break in its output (a newline
      inside a string is written as the escape `\n`), so every event stays
      on its own `data: ` line. */
  ghost predicate OneLine(encode: Event -> string)
  {
    forall e :: '\n' !in encode(e)
  }

  /** `JSON.parse` reads back what `json.dumps` wrote. */
  ghost predicate Inverts(decode: string -> Option<Event>, encode: Event -> string)
  {
    forall e :: decode(encode(e)) == Some(e)
  }
}
