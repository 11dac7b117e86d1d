// main.py: the `/chat/stream` event producer `generate_response` and the
// `gemini_status` rule of `/health`.
//
// The LLM is abstract: whether one is configured, and what its stream did
// (the chunks it delivered, and whether it then completed or raised). An
// exception escaping to the outer handler is a parameter too: it says how
// many of the events already produced had been yielded when it was raised.

module Server {
  import opened Common
  import opened Strings
  import opened Wire

  // ---------------------------------------------------------------------
  // Health status

  /** `llm` is created at start-up exactly when `GOOGLE_API_KEY` is set to a
      non-empty value. */
  function StartupLlm(apiKey: Option<string>): (present: bool)
    ensures present <==> apiKey.Some? && apiKey.value != ""
  {
    match apiKey
    case None => false
    case Some(key) => key != ""
  }

  /** `"available" if llm and GOOGLE_API_KEY else "not_configured"`. */
  function GeminiStatus(llmPresent: bool, apiKey: Option<string>): (status: string)
    ensures status == "available" <==> llmPresent && apiKey.Some? && apiKey.value != ""
    ensures status != "available" ==> status == "not_configured"
  {
    if llmPresent && StartupLlm(apiKey) then "available" else "not_configured"
  }

  /** With the LLM created at start-up, the status depends on the key alone. */
  lemma StatusFollowsKey(apiKey: Option<string>)
    ensures GeminiStatus(StartupLlm(apiKey), apiKey) == (if apiKey.Some? && apiKey.value != "" then "available" else "not_configured")
  {
  }

  // ---------------------------------------------------------------------
  // The event producer

  /** What the LLM's stream did: the chunk contents it delivered, then
      either it finished or it raised. */
  datatype LlmRun = Completed(chunks: seq<string>) | Raised(chunks: seq<string>)

  /** An exception reaching the outer `except`: none, or one raised after
      `yielded` events had been yielded. */
  datatype Fault = NoFault | RaisedAfter(yielded: nat)

  const FallbackOpening := "Cảm ơn bạn đã hỏi về '"
  const FallbackClosing := "'. Tôi là chatbot sức khỏe và khuyến khích bạn tham khảo ý kiến bác sĩ để được tư vấn chính xác nhất về vấn đề sức khỏe."

  /** The fallback text: a thank-you that quotes the question. */
  function FallbackText(question: string): string
  {
    FallbackOpening + question + FallbackClosing
  }

  const ErrorOpening := "Xin chào! Cảm ơn bạn đã hỏi về '"
  const ErrorClosing := "'. Hiện tại tôi đang gặp một chút khó khăn kỹ thuật nhưng vẫn có thể trò chuyện với bạn. Để được tư vấn chính xác về sức khỏe, bạn nên tham khảo ý kiến bác sĩ chuyên khoa nhé!"

  /** The text sent after an unexpected error: an apology that quotes the
      question. */
  function ErrorText(question: string): string
  {
    ErrorOpening + question + ErrorClosing
  }

  /** The chunk contents that are not empty, in order. */
  function NonEmpty(chunks: seq<string>): (kept: seq<string>)
    ensures |kept| <= |chunks|
    ensures forall i :: 0 <= i < |kept| ==> kept[i] != ""
  {
    if chunks == [] then []
    else NonEmpty(chunks[..|chunks| - 1]) + if chunks[|chunks| - 1] != "" then [chunks[|chunks| - 1]] else []
  }

  /** One `chunk` event per chunk with content, in order. */
  function ChunkEvents(chunks: seq<string>): seq<Event>
  {
    var kept := NonEmpty(chunks);
    seq(|kept|, i requires 0 <= i < |kept| => Chunk(kept[i]))
  }

  /** One `word` event per word, numbered from 0. */
  function WordEvents(words: seq<string>): seq<Event>
  {
    seq(|words|, i requires 0 <= i < |words| => Word(words[i], i))
  }

  /** A text sent word by word: `metadata` (not AI), the whitespace-split
      words, and `end` with the given status. */
  function WordStream(text: string, status: Status): seq<Event>
  {
    [Metadata(false)] + WordEvents(PyWords(text)) + [End(status)]
  }

  /** The events of the outer `try` block when nothing reaches the outer
      `except`: the LLM path when an LLM is configured, falling through to
      the fallback path when its stream raises. */
  function TryEvents(question: string, configured: bool, run: LlmRun): seq<Event>
  {
    var fallback := WordStream(FallbackText(question), Success);
    if !configured then fallback
    else
      var llmPart := [Metadata(true)] + ChunkEvents(run.chunks);
      if run.Completed? then llmPart + [End(Success)] else llmPart + fallback
  }

  /** The events `generate_response` yields. An exception reaching the outer
      `except` keeps what was already yielded (never the final `end`, after
      which nothing is left to raise) and appends the error text word by
      word with status `limited`. */
  function Response(question: string, configured: bool, run: LlmRun, fault: Fault): (r: seq<Event>)
    ensures |r| >= 2 && r[0].Metadata?
    ensures r[|r| - 1] == End(if fault.NoFault? then Success else Limited)
  {
    var tried := TryEvents(question, configured, run);
    match fault
    case NoFault => tried
    case RaisedAfter(yielded) =>
      var cut := if yielded < |tried| then yielded else |tried| - 1;
      tried[..cut] + WordStream(ErrorText(question), Limited)
  }

  /** `generate_response`, yielding by appending to `events`. */
  method GenerateResponse(question: string, configured: bool, run: LlmRun, fault: Fault) returns (events: seq<Event>)
    ensures events == Response(question, configured, run, fault)
  {
    events := TryBlock(question, configured, run);
    if fault.RaisedAfter? {
      TryEventsNonEmpty(question, configured, run);
      var cut := if fault.yielded < |events| then fault.yielded else |events| - 1;
      var apology := StreamWords(ErrorText(question), Limited);
      events := events[..cut] + apology;
    }
  }

  /** The body of the outer `try`, with the inner `try` around the LLM. */
  method TryBlock(question: string, configured: bool, run: LlmRun) returns (events: seq<Event>)
    ensures events == TryEvents(question, configured, run)
  {
    events := [];
    if configured {
      events := events + [Metadata(true)];
      var chunks := run.chunks;
      var i := 0;
      while i < |chunks|
        invariant 0 <= i <= |chunks|
        invariant events == [Metadata(true)] + ChunkEvents(chunks[..i])
      {
        if chunks[i] != "" {
          events := events + [Chunk(chunks[i])];
        }
        ChunkEventsSnoc(chunks, i);
        i := i + 1;
      }
      assert chunks[..i] == chunks;
      if run.Completed? {
        events := events + [End(Success)];
        return;
      }
    }
    var fallback := StreamWords(FallbackText(question), Success);
    events := events + fallback;
  }

  /** `metadata`, one `word` event per word of `text` with its index, then
      `end`. */
  method StreamWords(text: string, status: Status) returns (events: seq<Event>)
    ensures events == WordStream(text, status)
  {
    events := [Metadata(false)];
    var words := PyWords(text);
    var i := 0;
    while i < |words|
      invariant 0 <= i <= |words|
      invariant events == [Metadata(false)] + WordEvents(words[..i])
    {
      events := events + [Word(words[i], i)];
      i := i + 1;
    }
    assert words[..i] == words;
    events := events + [End(status)];
  }

  lemma ChunkEventsSnoc(chunks: seq<string>, i: nat)
    requires i < |chunks|
    ensures ChunkEvents(chunks[..i + 1]) == ChunkEvents(chunks[..i]) + if chunks[i] != "" then [Chunk(chunks[i])] else []
  {
    assert chunks[..i + 1][..i] == chunks[..i];
  }

  lemma TryEventsNonEmpty(question: string, configured: bool, run: LlmRun)
    ensures |TryEvents(question, configured, run)| >= 2
  {
  }

  // ---------------------------------------------------------------------
  // Properties of the event stream

  /** How many `metadata` events a sequence holds. */
  function MetadataCount(events: seq<Event>): nat
  {
    if events == [] then 0
    else MetadataCount(events[..|events| - 1]) + if events[|events| - 1].Metadata? then 1 else 0
  }

  lemma {:induction false} MetadataCountAppend(xs: seq<Event>, ys: seq<Event>)
    ensures MetadataCount(xs + ys) == MetadataCount(xs) + MetadataCount(ys)
  {
    if ys != [] {
      assert (xs + ys)[..|xs + ys| - 1] == xs + ys[..|ys| - 1];
      MetadataCountAppend(xs, ys[..|ys| - 1]);
    } else {
      assert xs + ys == xs;
    }
  }

  lemma {:induction false} NoMetadataCount(events: seq<Event>)
    requires forall i :: 0 <= i < |events| ==> !events[i].Metadata?
    ensures MetadataCount(events) == 0
  {
    if events != [] {
      NoMetadataCount(events[..|events| - 1]);
    }
  }

  /** A word stream: `metadata` (not AI), then only `word` events carrying
      the words of the text with their indexes, then `end`. */
  lemma WordStreamShape(text: string, status: Status)
    ensures var ws, words := WordStream(text, status), PyWords(text);
      && |ws| == |words| + 2
      && ws[0] == Metadata(false) && ws[|ws| - 1] == End(status)
      && (forall i :: 0 <= i < |words| ==> ws[i + 1] == Word(words[i], i))
      && (forall i :: 0 <= i < |ws| - 1 ==> !ws[i].End?)
      && (forall i :: 0 <= i < |ws| ==> ws[i] != Metadata(true))
  {
    var ws, words := WordStream(text, status), PyWords(text);
    forall i | 0 <= i < |ws| ensures ws[i] != Metadata(true) && (i < |ws| - 1 ==> !ws[i].End?) {
      if 0 < i < |ws| - 1 {
        assert ws[i] == Word(words[i - 1], i - 1);
      }
    }
  }

  /** The events of the `try` block open with `metadata`, hold no `end`
      but the last one, and carry `ai_powered: true` only first. */
  lemma TryEventsShape(question: string, configured: bool, run: LlmRun)
    ensures var t := TryEvents(question, configured, run);
      && |t| >= 2 && t[0] == Metadata(configured) && t[|t| - 1] == End(Success)
      && (forall i :: 0 <= i < |t| - 1 ==> !t[i].End?)
      && (forall i :: 1 <= i < |t| ==> t[i] != Metadata(true))
  {
    var fallback := WordStream(FallbackText(question), Success);
    WordStreamShape(FallbackText(question), Success);
    if configured {
      var llmPart := [Metadata(true)] + ChunkEvents(run.chunks);
      assert forall i :: 1 <= i < |llmPart| ==> llmPart[i].Chunk?;
    }
  }

  /** Every stream opens with `metadata` and closes with its only `end`. */
  lemma Framed(question: string, configured: bool, run: LlmRun, fault: Fault)
    ensures var r := Response(question, configured, run, fault);
      && |r| >= 2 && r[0].Metadata? && r[|r| - 1].End?
      && forall i :: 0 <= i < |r| - 1 ==> !r[i].End?
  {
    TryEventsShape(question, configured, run);
    if fault.RaisedAfter? {
      var tried := TryEvents(question, configured, run);
      var cut := if fault.yielded < |tried| then fault.yielded else |tried| - 1;
      WordStreamShape(ErrorText(question), Limited);
      Spliced(tried, cut, WordStream(ErrorText(question), Limited));
    }
  }

  /** Events cut short after an opening `metadata` and followed by a whole
      stream form a whole stream. */
  lemma Spliced(tried: seq<Event>, cut: nat, ws: seq<Event>)
    requires cut < |tried| && tried[0].Metadata?
    requires forall i :: 0 <= i < |tried| - 1 ==> !tried[i].End?
    requires |ws| >= 2 && ws[0].Metadata? && ws[|ws| - 1].End?
    requires forall i :: 0 <= i < |ws| - 1 ==> !ws[i].End?
    ensures var r := tried[..cut] + ws;
      && |r| >= 2 && r[0].Metadata? && r[|r| - 1].End?
      && forall i :: 0 <= i < |r| - 1 ==> !r[i].End?
  {
    var r := tried[..cut] + ws;
    forall i | 0 <= i < |r| - 1 ensures !r[i].End? {
      if i < cut {
        assert r[i] == tried[i];
      } else {
        assert r[i] == ws[i - cut];
      }
    }
    assert r[0] == if cut > 0 then tried[0] else ws[0];
  }

  /** The `end` status is `limited` exactly when an exception reached the
      outer handler, and `success` otherwise; an LLM that raises falls
      through to the fallback path, not to the outer handler. */
  lemma StatusTellsFault(question: string, configured: bool, run: LlmRun, fault: Fault)
    ensures var r := Response(question, configured, run, fault);
      && |r| >= 1
      && (r[|r| - 1] == End(Limited) <==> fault.RaisedAfter?)
      && (r[|r| - 1] == End(Success) <==> fault.NoFault?)
  {
    TryEventsShape(question, configured, run);
    if fault.RaisedAfter? {
      var tried, ws := TryEvents(question, configured, run), WordStream(ErrorText(question), Limited);
      var cut := if fault.yielded < |tried| then fault.yielded else |tried| - 1;
      var r := Response(question, configured, run, fault);
      WordStreamShape(ErrorText(question), Limited);
      assert r == tried[..cut] + ws;
      assert r[|r| - 1] == ws[|ws| - 1];
    }
  }

  /** `ai_powered` is true only in the first event, and only when an LLM is
      configured. */
  lemma AiPoweredOnlyFromLlm(question: string, configured: bool, run: LlmRun, fault: Fault)
    ensures var r := Response(question, configured, run, fault);
      forall i :: 0 <= i < |r| && r[i] == Metadata(true) ==> i == 0 && configured
  {
    TryEventsShape(question, configured, run);
    if fault.RaisedAfter? {
      var tried, ws := TryEvents(question, configured, run), WordStream(ErrorText(question), Limited);
      var cut := if fault.yielded < |tried| then fault.yielded else |tried| - 1;
      var r := Response(question, configured, run, fault);
      WordStreamShape(ErrorText(question), Limited);
      assert r == tried[..cut] + ws;
      forall i | 0 <= i < |r| ensures r[i] == Metadata(true) ==> i == 0 && configured {
        if i < cut {
          assert r[i] == tried[i];
        } else {
          assert r[i] == ws[i - cut];
        }
      }
    }
  }

  /** Without a fault there is one `metadata` event, except when the LLM
      raised: then the `ai_powered: true` one already yielded is followed by
      the fallback's `ai_powered: false` one. */
  lemma MetadataEvents(question: string, configured: bool, run: LlmRun)
    ensures MetadataCount(Response(question, configured, run, NoFault)) == if configured && run.Raised? then 2 else 1
  {
    var chunks := ChunkEvents(run.chunks);
    var words := WordEvents(PyWords(FallbackText(question)));
    NoMetadataCount(chunks);
    NoMetadataCount(words);
    NoMetadataCount([End(Success)]);
    MetadataCountAppend([Metadata(false)], words);
    MetadataCountAppend([Metadata(false)] + words, [End(Success)]);
    MetadataCountAppend([Metadata(true)], chunks);
    MetadataCountAppend([Metadata(true)] + chunks, [End(Success)]);
    MetadataCountAppend([Metadata(true)] + chunks, WordStream(FallbackText(question), Success));
  }

  /** On the LLM path the events after `metadata` are one `chunk` per
      non-empty chunk, with the same content, in order; the empty chunks are
      dropped and nothing of the text is lost. */
  lemma LlmChunksForwarded(question: string, run: LlmRun)
    ensures var r := Response(question, true, run, NoFault);
      var kept := NonEmpty(run.chunks);
      && |r| >= |kept| + 2
      && r[0] == Metadata(true)
      && (forall i :: 0 <= i < |kept| ==> r[i + 1] == Chunk(kept[i]))
      && Concat(kept) == Concat(run.chunks)
  {
    NonEmptyKeepsText(run.chunks);
  }

  /** On the fallback path the words of the fallback text are sent with the
      indexes 0, 1, ..., n-1. */
  lemma FallbackWordsIndexed(question: string)
    ensures var r := Response(question, false, Completed([]), NoFault);
      var words := PyWords(FallbackText(question));
      && |r| == |words| + 2
      && r[0] == Metadata(false) && r[|r| - 1] == End(Success)
      && forall i :: 0 <= i < |words| ==> r[i + 1] == Word(words[i], i)
  {
    WordStreamShape(FallbackText(question), Success);
  }

  /** After a fault the stream ends with the error text's words, indexed
      from 0, under a fresh `metadata` and an `end` with status `limited`. */
  lemma ErrorWordsIndexed(question: string, configured: bool, run: LlmRun, yielded: nat)
    ensures var r := Response(question, configured, run, RaisedAfter(yielded));
      var words := PyWords(ErrorText(question));
      var start := |r| - |words| - 2;
      && 0 <= start
      && r[start] == Metadata(false) && r[|r| - 1] == End(Limited)
      && forall i :: 0 <= i < |words| ==> r[start + 1 + i] == Word(words[i], i)
  {
    var r := Response(question, configured, run, RaisedAfter(yielded));
    var ws := WordStream(ErrorText(question), Limited);
    WordStreamShape(ErrorText(question), Limited);
    var prefix := r[..|r| - |ws|];
    assert r == prefix + ws;
  }

  /** Dropping empty chunks loses no text. */
  lemma {:induction false} NonEmptyKeepsText(chunks: seq<string>)
    ensures Concat(NonEmpty(chunks)) == Concat(chunks)
  {
    if chunks != [] {
      var init, last := chunks[..|chunks| - 1], chunks[|chunks| - 1];
      NonEmptyKeepsText(init);
      assert chunks == init + [last];
      ConcatSnoc(init, last);
      if last != "" {
        ConcatSnoc(NonEmpty(init), last);
      } else {
        assert NonEmpty(chunks) == NonEmpty(init);
      }
    }
  }

  /** Each chunk marked with the content it forwards: itself when it is not
      empty, nothing otherwise. */
  function Forwarded(chunks: seq<string>): (marks: seq<Option<string>>)
    ensures |marks| == |chunks|
    ensures forall i :: 0 <= i < |chunks| ==> (marks[i].Some? <==> chunks[i] != "")
  {
    seq(|chunks|, i requires 0 <= i < |chunks| => if chunks[i] != "" then Some(chunks[i]) else None)
  }

  /** The chunks kept are the forwarded marks that are present. */
  lemma {:induction false} NonEmptyIsForwarded(chunks: seq<string>)
    ensures NonEmpty(chunks) == Present(Forwarded(chunks))
    decreases |chunks|
  {
    if chunks != [] {
      var n := |chunks|;
      NonEmptyIsForwarded(chunks[..n - 1]);
      assert Forwarded(chunks)[..n - 1] == Forwarded(chunks[..n - 1]);
    }
  }

  /** The kept chunks are the non-empty ones, each once and in their
      original order: kept chunk `j` is chunk `at[j]`, the positions `at`
      increase, and a chunk is kept exactly when it is not empty. */
  lemma NonEmptyInOrder(chunks: seq<string>)
    ensures var kept, at := NonEmpty(chunks), PresentAt(Forwarded(chunks));
      && |at| == |kept|
      && (forall j :: 0 <= j < |at| ==> at[j] < |chunks| && kept[j] == chunks[at[j]])
      && (forall j, l :: 0 <= j < l < |at| ==> at[j] < at[l])
      && (forall i :: 0 <= i < |chunks| ==> (i in at <==> chunks[i] != ""))
  {
    NonEmptyIsForwarded(chunks);
    PresentInOrder(Forwarded(chunks));
  }
}
