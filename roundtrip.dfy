// The two ends of `/chat/stream` together: the events main.py frames and
// sends, read back by the browser's `streamResponse` fold.
//
// The client does not buffer across reads, so a line cut in two by the
// network is lost; the results here hold when every read carries whole
// frames (any number of them, including none).

module RoundTrip {
  import opened Common
  import opened Strings
  import opened Wire
  import Server
  import opened Client

  /** The only `end` is the last event. */
  predicate EndsOnlyLast(events: seq<Event>)
  {
    forall i :: 0 <= i < |events| - 1 ==> !events[i].End?
  }

  /** The events of several groups, one group after the other. */
  function Flatten(groups: seq<seq<Event>>): seq<Event>
  {
    if groups == [] then [] else groups[0] + Flatten(groups[1..])
  }

  /** The lines of framed events decode to exactly those events: the blank
      line closing each frame carries none. */
  lemma {:induction false} FramesDecode(encode: Event -> string, decode: string -> Option<Event>, events: seq<Event>)
    requires OneLine(encode) && Inverts(decode, encode)
    ensures LineEvents(Split(Frames(encode, events), '\n'), decode) == events
    decreases |events|
  {
    if events == [] {
      assert Split("", '\n') == [""];
      assert !StartsWith("", DataPrefix);
    } else {
      var e := events[0];
      var line := DataPrefix + encode(e);
      var rest := Frames(encode, events[1..]);
      assert '\n' !in encode(e);
      assert '\n' !in line;
      NoSeparatorSplit(line, '\n');
      assert Frames(encode, events) == line + ['\n'] + ([] + ['\n'] + rest);
      SplitAround(line, '\n', [] + ['\n'] + rest);
      SplitAround([], '\n', rest);
      var lines := [line] + ([""] + Split(rest, '\n'));
      assert Split(Frames(encode, events), '\n') == lines;
      assert StartsWith(line, DataPrefix) && line[|DataPrefix|..] == encode(e);
      assert LineEvent(line, decode) == Some(e);
      assert !StartsWith("", DataPrefix);
      assert lines[1..] == [""] + Split(rest, '\n');
      assert lines[1..][1..] == Split(rest, '\n');
      FramesDecode(encode, decode, events[1..]);
    }
  }

  /** Cutting at the first `end` keeps everything when `end` comes only
      last. */
  lemma {:induction false} ThroughEndKeepsAll(events: seq<Event>)
    requires EndsOnlyLast(events)
    ensures ThroughEnd(events) == events
    decreases |events|
  {
    if |events| > 1 {
      ThroughEndKeepsAll(events[1..]);
    }
  }

  /** Reads each carrying whole frames of a stream whose only `end` is last
      deliver the whole stream, in order. */
  lemma {:induction false} ReadsDeliverAll(encode: Event -> string, decode: string -> Option<Event>,
                                           received: seq<string>, groups: seq<seq<Event>>)
    requires OneLine(encode) && Inverts(decode, encode)
    requires |received| == |groups|
    requires forall k :: 0 <= k < |groups| ==> received[k] == Frames(encode, groups[k])
    requires EndsOnlyLast(Flatten(groups))
    ensures ReadEvents(received, decode) == Flatten(groups)
    decreases |groups|
  {
    if groups != [] {
      var g, later := groups[0], Flatten(groups[1..]);
      assert Flatten(groups) == g + later;
      FramesDecode(encode, decode, g);
      assert EndsOnlyLast(g) by {
        forall i | 0 <= i < |g| - 1 ensures !g[i].End? {
          assert (g + later)[i] == g[i];
        }
      }
      ThroughEndKeepsAll(g);
      assert EndsOnlyLast(later) by {
        forall i | 0 <= i < |later| - 1 ensures !later[i].End? {
          assert (g + later)[|g| + i] == later[i];
        }
      }
      ReadsDeliverAll(encode, decode, received[1..], groups[1..]);
    }
  }

  /** Whatever main.py sends reaches the client's fold whole: the client
      ends as if it had applied every event of the response in order. */
  lemma ClientSeesResponse(encode: Event -> string, decode: string -> Option<Event>,
                           question: string, configured: bool, run: Server.LlmRun, fault: Server.Fault,
                           received: seq<string>, groups: seq<seq<Event>>)
    requires OneLine(encode) && Inverts(decode, encode)
    requires Flatten(groups) == Server.Response(question, configured, run, fault)
    requires |received| == |groups|
    requires forall k :: 0 <= k < |groups| ==> received[k] == Frames(encode, groups[k])
    ensures Replay(Start, received, decode) == ApplyAll(Start, Server.Response(question, configured, run, fault))
  {
    Server.Framed(question, configured, run, fault);
    ReadsDeliverAll(encode, decode, received, groups);
    ReplayApplies(Start, received, decode);
  }

  /** A completed LLM answer is shown as the concatenation of its chunks, in
      one AI bubble. */
  lemma AiAnswerRebuilt(question: string, chunks: seq<string>)
    ensures ApplyAll(Start, Server.Response(question, true, Server.Completed(chunks), Server.NoFault))
         == View(1, true, Concat(chunks), true)
  {
    var kept := Server.NonEmpty(chunks);
    var events := Server.ChunkEvents(chunks);
    var bubble := Apply(Start, Metadata(true));
    ApplyAllAppend(Start, [Metadata(true)] + events, [End(Success)]);
    ApplyAllAppend(Start, [Metadata(true)], events);
    Server.NonEmptyKeepsText(chunks);
    if kept != [] {
      ChunksAppend(bubble, events, kept);
    }
  }

  /** Without an LLM the fallback text's words are shown joined by single
      spaces, in one bubble that is not marked as AI. */
  lemma FallbackRebuilt(question: string, run: Server.LlmRun)
    ensures ApplyAll(Start, Server.Response(question, false, run, Server.NoFault))
         == View(1, false, Join(PyWords(Server.FallbackText(question)), " "), true)
  {
    var words := PyWords(Server.FallbackText(question));
    FallbackHasWords(question);
    WordStreamApplies(Start, Server.FallbackText(question), Success);
  }

  /** When the LLM raises part-way, a second bubble opens for the fallback,
      and because `metadata` does not reset `currentContent` it shows the
      partial AI text followed by the fallback words. */
  lemma FailedLlmKeepsPartialText(question: string, chunks: seq<string>)
    ensures ApplyAll(Start, Server.Response(question, true, Server.Raised(chunks), Server.NoFault))
         == View(2, false, Spaced(Concat(chunks), Join(PyWords(Server.FallbackText(question)), " ")), true)
  {
    var kept := Server.NonEmpty(chunks);
    var events := Server.ChunkEvents(chunks);
    var bubble := Apply(Start, Metadata(true));
    var fallback := Server.WordStream(Server.FallbackText(question), Success);
    ApplyAllAppend(Start, [Metadata(true)] + events, fallback);
    ApplyAllAppend(Start, [Metadata(true)], events);
    Server.NonEmptyKeepsText(chunks);
    var afterChunks := ApplyAll(bubble, events);
    if kept != [] {
      ChunksAppend(bubble, events, kept);
    }
    assert afterChunks == View(1, true, Concat(chunks), Concat(chunks) != "" || kept != []);
    FallbackHasWords(question);
    WordStreamApplies(afterChunks, Server.FallbackText(question), Success);
  }

  /** A word stream applied to a view: one more bubble, not AI, and the
      words appended after the content. */
  lemma WordStreamApplies(v: View, text: string, status: Status)
    requires PyWords(text) != []
    ensures ApplyAll(v, Server.WordStream(text, status))
         == View(v.bubbles + 1, false, Spaced(v.content, Join(PyWords(text), " ")), true)
  {
    var words := PyWords(text);
    var events := Server.WordEvents(words);
    var bubble := Apply(v, Metadata(false));
    ApplyAllAppend(v, [Metadata(false)] + events, [End(status)]);
    ApplyAllAppend(v, [Metadata(false)], events);
    WordsAppend(bubble, events, words);
  }

  /** The fallback text starts with a word, so it is never sent empty. */
  lemma FallbackHasWords(question: string)
    ensures PyWords(Server.FallbackText(question)) != []
  {
    var text := Server.FallbackText(question);
    assert text[0] == 'C';
    assert !IsPySpace('C');
  }
}
