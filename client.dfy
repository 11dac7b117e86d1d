// static/script-minimal.js without the DOM: the event fold of
// `streamResponse`, the page state `sendMessage` toggles, the send-button
// and character-counter rules, and the text helpers `formatMessage`,
// `getToastIcon` and `getErrorMessage`.
//
// The network is the sequence of texts received (`decoder.decode(value)` of
// each `reader.read()`); the bot bubble the fold writes into is described
// by what it shows, not by DOM nodes.

module Client {
  import opened Common
  import opened Strings
  import opened Wire

  // ---------------------------------------------------------------------
  // The stream fold

  /** The variables of `streamResponse`: how many bot bubbles `metadata`
      events have opened (`streamMessageId` is set exactly when this is
      positive), `aiPowered`, `currentContent`, and whether the current
      bubble shows that content yet (a bubble opens empty). */
  datatype View = View(bubbles: nat, aiPowered: bool, content: string, rendered: bool)

  const Start := View(0, false, "", false)

  /** The HTML of the current bubble. */
  function Shown(v: View): string
  {
    if v.rendered then FormatMessage(v.content) else ""
  }

  /** One decoded event: `metadata` opens a new empty bubble and keeps the
      content; `chunk` appends verbatim; `word` appends after a space unless
      the content is empty; both are ignored while no bubble is open and
      otherwise re-render the bubble; `end` renders the content into the
      open bubble. */
  function Apply(v: View, e: Event): (r: View)
    ensures v.content <= r.content
    ensures r.bubbles == v.bubbles + (if e.Metadata? then 1 else 0)
    ensures e.Metadata? ==> r.aiPowered == e.aiPowered && !r.rendered && r.content == v.content
    ensures !e.Metadata? ==> r.aiPowered == v.aiPowered
    ensures v.bubbles == 0 && !e.Metadata? ==> r == v
    ensures v.bubbles > 0 && !e.Metadata? ==> r.rendered
  {
    match e
    case Metadata(ai) => View(v.bubbles + 1, ai, v.content, false)
    case Chunk(c) =>
      if v.bubbles == 0 then v else v.(content := v.content + c, rendered := true)
    case Word(w, _) =>
      if v.bubbles == 0 then v
      else v.(content := v.content + (if v.content != "" then " " else "") + w, rendered := true)
    case End(_) => if v.bubbles == 0 then v else v.(rendered := true)
  }

  /** The event on one line: `None` unless it starts with `data: ` and the
      rest parses. */
  function LineEvent(line: string, decode: string -> Option<Event>): Option<Event>
  {
    if StartsWith(line, DataPrefix) then decode(line[|DataPrefix|..]) else None
  }

  /** The per-line loop over one read: lines without an event are skipped,
      and the first `end` stops the loop. */
  function ReadLines(v: View, lines: seq<string>, decode: string -> Option<Event>): View
    decreases |lines|
  {
    if lines == [] then v
    else
      match LineEvent(lines[0], decode)
      case None => ReadLines(v, lines[1..], decode)
      case Some(e) => if e.End? then Apply(v, e) else ReadLines(Apply(v, e), lines[1..], decode)
  }

  /** The read loop: every read is split on `\n` and its lines folded in;
      an `end` does not stop later reads. */
  function Replay(v: View, received: seq<string>, decode: string -> Option<Event>): View
    decreases |received|
  {
    if received == [] then v else Replay(ReadLines(v, Split(received[0], '\n'), decode), received[1..], decode)
  }

  /** `streamResponse` from the first read on. */
  method StreamResponse(received: seq<string>, decode: string -> Option<Event>) returns (view: View)
    ensures view == Replay(Start, received, decode)
  {
    view := Start;
    var r := 0;
    while r < |received|
      invariant 0 <= r <= |received|
      invariant Replay(view, received[r..], decode) == Replay(Start, received, decode)
    {
      assert received[r..][1..] == received[r + 1..];
      view := ReadChunk(view, received[r], decode);
      r := r + 1;
    }
  }

  /** The `for (const line of lines)` loop over one read. */
  method ReadChunk(start: View, chunk: string, decode: string -> Option<Event>) returns (view: View)
    ensures view == ReadLines(start, Split(chunk, '\n'), decode)
  {
    view := start;
    var lines := Split(chunk, '\n');
    var j := 0;
    while j < |lines|
      invariant 0 <= j <= |lines|
      invariant ReadLines(view, lines[j..], decode) == ReadLines(start, lines, decode)
    {
      var line := lines[j];
      assert lines[j..][1..] == lines[j + 1..];
      if StartsWith(line, DataPrefix) {
        var data := decode(line[|DataPrefix|..]);
        if data.Some? {
          view := Apply(view, data.value);
          if data.value.End? {
            return;
          }
        }
      }
      j := j + 1;
    }
  }

  /** The events decoded from some lines, in order; lines without one are
      dropped. */
  function LineEvents(lines: seq<string>, decode: string -> Option<Event>): seq<Event>
  {
    if lines == [] then []
    else
      var rest := LineEvents(lines[1..], decode);
      match LineEvent(lines[0], decode)
      case None => rest
      case Some(e) => [e] + rest
  }

  /** The events up to and including the first `end`. */
  function ThroughEnd(events: seq<Event>): (r: seq<Event>)
    ensures r <= events
  {
    if events == [] then []
    else if events[0].End? then [events[0]]
    else [events[0]] + ThroughEnd(events[1..])
  }

  /** Events applied in order. */
  function ApplyAll(v: View, events: seq<Event>): View
    decreases |events|
  {
    if events == [] then v else ApplyAll(Apply(v, events[0]), events[1..])
  }

  /** Reading one chunk applies the events of its lines up to the first
      `end`: lines that are not `data: ` lines, or do not parse, change
      nothing, and whatever follows an `end` in the same read is dropped. */
  lemma {:induction false} ReadLinesApplies(v: View, lines: seq<string>, decode: string -> Option<Event>)
    ensures ReadLines(v, lines, decode) == ApplyAll(v, ThroughEnd(LineEvents(lines, decode)))
    decreases |lines|
  {
    if lines != [] {
      var rest := LineEvents(lines[1..], decode);
      match LineEvent(lines[0], decode)
      case None =>
        ReadLinesApplies(v, lines[1..], decode);
      case Some(e) =>
        assert ([e] + rest)[0] == e && ([e] + rest)[1..] == rest;
        if !e.End? {
          ReadLinesApplies(Apply(v, e), lines[1..], decode);
        }
    }
  }

  /** The events each read contributes: those of its lines up to its first
      `end`. */
  function ReadEvents(received: seq<string>, decode: string -> Option<Event>): seq<Event>
  {
    if received == [] then [] else ThroughEnd(LineEvents(Split(received[0], '\n'), decode)) + ReadEvents(received[1..], decode)
  }

  /** An `end` stops only the read it comes in: the whole stream applies
      every read's events up to that read's own first `end`. */
  lemma {:induction false} ReplayApplies(v: View, received: seq<string>, decode: string -> Option<Event>)
    ensures Replay(v, received, decode) == ApplyAll(v, ReadEvents(received, decode))
    decreases |received|
  {
    if received != [] {
      var first := ThroughEnd(LineEvents(Split(received[0], '\n'), decode));
      ReadLinesApplies(v, Split(received[0], '\n'), decode);
      ReplayApplies(ApplyAll(v, first), received[1..], decode);
      ApplyAllAppend(v, first, ReadEvents(received[1..], decode));
    }
  }

  lemma {:induction false} ApplyAllAppend(v: View, xs: seq<Event>, ys: seq<Event>)
    ensures ApplyAll(v, xs + ys) == ApplyAll(ApplyAll(v, xs), ys)
    decreases |xs|
  {
    if xs != [] {
      assert (xs + ys)[0] == xs[0] && (xs + ys)[1..] == xs[1..] + ys;
      ApplyAllAppend(Apply(v, xs[0]), xs[1..], ys);
    } else {
      assert xs + ys == ys;
    }
  }

  /** `chunk` and `word` events that come before any `metadata` change
      nothing. */
  lemma {:induction false} IgnoredBeforeMetadata(v: View, events: seq<Event>)
    requires v.bubbles == 0
    requires forall i :: 0 <= i < |events| ==> events[i].Chunk? || events[i].Word?
    ensures ApplyAll(v, events) == v
    decreases |events|
  {
    if events != [] {
      IgnoredBeforeMetadata(v, events[1..]);
    }
  }

  /** With a bubble open, `chunk` events append their contents verbatim. */
  lemma {:induction false} ChunksAppend(v: View, events: seq<Event>, contents: seq<string>)
    requires v.bubbles > 0 && |events| == |contents| > 0
    requires forall i :: 0 <= i < |events| ==> events[i] == Chunk(contents[i])
    ensures ApplyAll(v, events) == v.(content := v.content + Concat(contents), rendered := true)
    decreases |events|
  {
    var next := Apply(v, events[0]);
    if |events| > 1 {
      ChunksAppend(next, events[1..], contents[1..]);
    }
  }

  /** With a bubble open, `word` events append their words separated by one
      space, with no space before the first word when the content was
      empty. */
  lemma {:induction false} WordsAppend(v: View, events: seq<Event>, words: seq<string>)
    requires v.bubbles > 0 && |events| == |words| > 0
    requires forall i :: 0 <= i < |events| ==> events[i].Word? && events[i].content == words[i] != ""
    ensures ApplyAll(v, events) == v.(content := Spaced(v.content, Join(words, " ")), rendered := true)
    decreases |events|
  {
    var next := Apply(v, events[0]);
    assert next.content == Spaced(v.content, words[0]);
    if |events| > 1 {
      WordsAppend(next, events[1..], words[1..]);
    }
  }

  /** `a`, then `b` after a space unless `a` is empty. */
  function Spaced(a: string, b: string): string
  {
    if a == "" then b else a + " " + b
  }

  // ---------------------------------------------------------------------
  // formatMessage

  /** What `.` in a JavaScript regular expression does not match. */
  const LineTerminators := {'\n', '\r', '\U{2028}', '\U{2029}'}

  predicate IsLineTerminator(c: char)
  {
    c in LineTerminators
  }

  /** `s.replace(/\n/g, '<br>')`. */
  function ReplaceNewlines(s: string): (r: string)
    ensures '\n' !in r
    decreases |s|
  {
    if s == [] then [] else (if s[0] == '\n' then "<br>" else [s[0]]) + ReplaceNewlines(s[1..])
  }

  /** `d` occurs in `s` at index `k`. */
  predicate OccursAt(s: string, d: string, k: nat)
  {
    k + |d| <= |s| && s[k..k + |d|] == d
  }

  /** Where the lazy `(.*?)` of `D(.*?)D` stops when the group starts at
      `from`: the first `D` it reaches, unless a line terminator comes
      first. */
  function CloseAt(s: string, d: string, from: nat): (r: Option<nat>)
    requires from <= |s|
    ensures r.Some? ==> from <= r.value && r.value + |d| <= |s| && s[r.value..r.value + |d|] == d
    ensures r.Some? ==> forall k :: from <= k < r.value ==> !IsLineTerminator(s[k])
    ensures r.Some? ==> forall k :: from <= k < r.value ==> !OccursAt(s, d, k)
    ensures r.None? ==>
      forall k :: from <= k <= |s| && (forall m :: from <= m < k ==> !IsLineTerminator(s[m])) ==> !OccursAt(s, d, k)
    decreases |s| - from
  {
    if from + |d| <= |s| && s[from..from + |d|] == d then Some(from)
    else if from < |s| && !IsLineTerminator(s[from]) then CloseAt(s, d, from + 1)
    else None
  }

  /** `s.replace(/D(.*?)D/g, open + '$1' + close)` for the delimiter `d`:
      scanning left to right, each match is rewritten and scanning resumes
      after it; where no match starts, the character is kept. */
  function ReplacePairs(s: string, d: string, open: string, close: string): (r: string)
    requires d != []
    ensures forall c :: c in r ==> c in s || c in open || c in close
    decreases |s|
  {
    if s == [] then []
    else if StartsWith(s, d) && CloseAt(s, d, |d|).Some? then
      var j := CloseAt(s, d, |d|).value;
      assert forall k :: 0 <= k < |s[|d|..j]| ==> s[|d|..j][k] in s;
      open + s[|d|..j] + close + ReplacePairs(s[j + |d|..], d, open, close)
    else
      assert forall k :: 0 <= k < |s[1..]| ==> s[1..][k] in s;
      [s[0]] + ReplacePairs(s[1..], d, open, close)
  }

  /** The inline-code tag of script-minimal.js:255, written in four pieces so
      that the verifier can see it holds no newline. */
  const CodeOpen := "<code class=\"" + "bg-gray-100 px-2 py-1" + " rounded text-sm" + "\">"

  lemma CodeOpenOneLine()
    ensures '\n' !in CodeOpen
  {
    assert '\n' !in "<code class=\"";
    assert '\n' !in "bg-gray-100 px-2 py-1";
    assert '\n' !in " rounded text-sm";
    assert '\n' !in "\">";
  }

  /** `formatMessage`: newlines, then bold, then italic, then inline code. */
  function FormatMessage(content: string): (r: string)
    ensures '\n' !in r
  {
    CodeOpenOneLine();
    var lines := ReplaceNewlines(content);
    var bold := ReplacePairs(lines, "**", "<strong>", "</strong>");
    var italic := ReplacePairs(bold, "*", "<em>", "</em>");
    ReplacePairs(italic, "`", CodeOpen, "</code>")
  }

  /** Every newline becomes `<br>`: the lines of the content joined by it. */
  lemma {:induction false} NewlinesBecomeBreaks(s: string)
    ensures ReplaceNewlines(s) == Join(Split(s, '\n'), "<br>")
    decreases |s|
  {
    if s != [] {
      NewlinesBecomeBreaks(s[1..]);
      var rest := Split(s[1..], '\n');
      if s[0] != '\n' {
        JoinConsFirst(s[0], rest, "<br>");
      }
    }
  }

  lemma JoinConsFirst(c: char, parts: seq<string>, sep: string)
    requires |parts| >= 1
    ensures Join([[c] + parts[0]] + parts[1..], sep) == [c] + Join(parts, sep)
  {
  }

  /** A text in which the delimiter never occurs is left as it is. */
  lemma {:induction false} ReplacePairsNoMatch(s: string, d: string, open: string, close: string)
    requires d != []
    requires forall k: nat :: !OccursAt(s, d, k)
    ensures ReplacePairs(s, d, open, close) == s
    decreases |s|
  {
    if s != [] {
      assert !OccursAt(s, d, 0);
      forall k: nat ensures !OccursAt(s[1..], d, k) {
        assert !OccursAt(s, d, k + 1);
        if k + |d| <= |s[1..]| {
          assert s[1..][k..k + |d|] == s[k + 1..k + 1 + |d|];
        }
      }
      ReplacePairsNoMatch(s[1..], d, open, close);
    }
  }

  /** Without its delimiter's first character, a text is left as it is. */
  lemma ReplacePairsUnchanged(s: string, d: string, open: string, close: string)
    requires d != [] && d[0] !in s
    ensures ReplacePairs(s, d, open, close) == s
  {
    forall k: nat ensures !OccursAt(s, d, k) {
      if k + |d| <= |s| {
        assert s[k..k + |d|][0] == s[k];
      }
    }
    ReplacePairsNoMatch(s, d, open, close);
  }

  /** `D x D`, with `x` on one line and free of the delimiter's first
      character, is rewritten to `open x close`. */
  lemma ReplaceOnePair(x: string, d: string, open: string, close: string)
    requires d != [] && d[0] !in x
    requires forall k :: 0 <= k < |x| ==> !IsLineTerminator(x[k])
    ensures ReplacePairs(d + x + d, d, open, close) == open + x + close
  {
    var s := d + x + d;
    var n := |d|;
    assert s[..n] == d;
    forall k | n <= k < n + |x| ensures !IsLineTerminator(s[k]) && s[k] != d[0] {
      assert s[k] == x[k - n];
    }
    assert s[n + |x|..n + |x| + n] == d;
    CloseWithin(s, d, n, n + |x|);
    assert s[n..n + |x|] == x;
    assert s[n + |x| + n..] == [];
  }

  /** Text without newlines, asterisks or backquotes is shown as it is. */
  lemma PlainTextUnchanged(content: string)
    requires '\n' !in content && '*' !in content && '`' !in content
    ensures FormatMessage(content) == content
  {
    ReplaceNewlinesUnchanged(content);
    ReplacePairsUnchanged(content, "**", "<strong>", "</strong>");
    ReplacePairsUnchanged(content, "*", "<em>", "</em>");
    ReplacePairsUnchanged(content, "`", CodeOpen, "</code>");
  }

  lemma {:induction false} ReplaceNewlinesUnchanged(s: string)
    requires '\n' !in s
    ensures ReplaceNewlines(s) == s
    decreases |s|
  {
    if s != [] {
      ReplaceNewlinesUnchanged(s[1..]);
    }
  }

  /** Text fit to sit between markers: one line, no markers of its own. */
  predicate Inline(x: string)
  {
    forall k :: 0 <= k < |x| ==> !IsLineTerminator(x[k]) && x[k] !in {'*', '`'}
  }

  /** `**x**` is bold, not two empty italics around `x`: bold is rewritten
      before italic. */
  lemma BoldMarkup(x: string)
    requires Inline(x)
    ensures FormatMessage("**" + x + "**") == "<strong>" + x + "</strong>"
  {
    var s := "**" + x + "**";
    assert '\n' !in s by { assert forall k :: 0 <= k < |x| ==> x[k] != '\n'; }
    ReplaceNewlinesUnchanged(s);
    assert '*' !in x by { assert forall k :: 0 <= k < |x| ==> x[k] != '*'; }
    ReplaceOnePair(x, "**", "<strong>", "</strong>");
    var bold := "<strong>" + x + "</strong>";
    WrappedAvoids(x, '*', "<strong>", "</strong>");
    WrappedAvoids(x, '`', "<strong>", "</strong>");
    ReplacePairsUnchanged(bold, "*", "<em>", "</em>");
    ReplacePairsUnchanged(bold, "`", CodeOpen, "</code>");
  }

  /** A character absent from an inline text and from both tags is absent
      from the tagged text. */
  lemma WrappedAvoids(x: string, c: char, open: string, close: string)
    requires Inline(x) && c in {'*', '`'} && c !in open && c !in close
    ensures c !in open + x + close
  {
    assert c !in x by { assert forall k :: 0 <= k < |x| ==> x[k] != c; }
  }

  /** `*x*` with some text inside is italic. */
  lemma ItalicMarkup(x: string)
    requires Inline(x) && x != ""
    ensures FormatMessage("*" + x + "*") == "<em>" + x + "</em>"
  {
    var s := "*" + x + "*";
    assert '\n' !in s by { assert forall k :: 0 <= k < |x| ==> x[k] != '\n'; }
    ReplaceNewlinesUnchanged(s);
    NoDoubleStar(x);
    assert '*' !in x by { assert forall k :: 0 <= k < |x| ==> x[k] != '*'; }
    ReplaceOnePair(x, "*", "<em>", "</em>");
    var italic := "<em>" + x + "</em>";
    WrappedAvoids(x, '`', "<em>", "</em>");
    ReplacePairsUnchanged(italic, "`", CodeOpen, "</code>");
  }

  /** `*x*` with some text inside holds no `**`, so the bold pass keeps it. */
  lemma NoDoubleStar(x: string)
    requires x != [] && Inline(x)
    ensures ReplacePairs("*" + x + "*", "**", "<strong>", "</strong>") == "*" + x + "*"
  {
    var s := "*" + x + "*";
    forall k: nat ensures !OccursAt(s, "**", k) {
      if k + 2 <= |s| {
        assert s[k..k + 2][0] == s[k] && s[k..k + 2][1] == s[k + 1];
        if k == 0 {
          assert s[1] == x[0];
        } else {
          assert s[k] == x[k - 1];
        }
      }
    }
    ReplacePairsNoMatch(s, "**", "<strong>", "</strong>");
  }

  /** The lazy group stops at `stop` when the delimiter is there and nothing
      before it, from `from` on, is a line terminator or starts the
      delimiter. */
  lemma {:induction false} CloseWithin(s: string, d: string, from: nat, stop: nat)
    requires d != [] && from <= stop && stop + |d| <= |s| && s[stop..stop + |d|] == d
    requires forall k :: from <= k < stop ==> !IsLineTerminator(s[k]) && s[k] != d[0]
    ensures CloseAt(s, d, from) == Some(stop)
    decreases stop - from
  {
    if from < stop {
      assert s[from..from + |d|][0] == s[from];
      CloseWithin(s, d, from + 1, stop);
    }
  }

  // ---------------------------------------------------------------------
  // Toasts and error messages

  /** The Font Awesome icon of each toast type. */
  const ToastIcons: map<string, string> := map[
    "success" := "check-circle",
    "error" := "exclamation-circle",
    "warning" := "exclamation-triangle",
    "info" := "info-circle"]

  /** `getToastIcon`: the type's icon, or `info-circle` for any other type. */
  function ToastIcon(kind: string): (icon: string)
    ensures kind in ToastIcons ==> icon == ToastIcons[kind]
    ensures kind !in ToastIcons ==> icon == "info-circle"
    ensures icon in ToastIcons.Values
  {
    if kind in ToastIcons then ToastIcons[kind]
    else assert ToastIcons["info"] == "info-circle"; "info-circle"
  }

  const ConnectionHelp := "<strong>Không thể kết nối với server</strong><br>\n                Vui lòng kiểm tra kết nối mạng và thử lại sau.<br><br>\n                <em>💡 Gợi ý: Đảm bảo server đang chạy và ChromaDB đã được khởi động.</em>"
  const ServerTrouble := "<strong>Lỗi server nội bộ</strong><br>\n                Server đang gặp sự cố kỹ thuật. Vui lòng thử lại sau ít phút."
  const UnknownOpening := "<strong>Đã xảy ra lỗi không xác định</strong><br>\n                "
  const UnknownClosing := "<br><br>\n                <em>Vui lòng thử lại hoặc liên hệ quản trị viên nếu lỗi tiếp tục xảy ra.</em>"

  /** `getErrorMessage` on `error.message`. */
  function ErrorMessage(message: string): (html: string)
    ensures Contains(message, "Failed to fetch") ==> html == ConnectionHelp
    ensures !Contains(message, "Failed to fetch") && Contains(message, "500") ==> html == ServerTrouble
    ensures !Contains(message, "Failed to fetch") && !Contains(message, "500") ==> html == UnknownOpening + message + UnknownClosing
  {
    if Contains(message, "Failed to fetch") then ConnectionHelp
    else if Contains(message, "500") then ServerTrouble
    else UnknownOpening + message + UnknownClosing
  }

  /** A message that mentions neither a failed fetch nor a 500 is quoted in
      full in the generic text. */
  lemma UnknownErrorQuoted(message: string)
    requires !Contains(message, "Failed to fetch") && !Contains(message, "500")
    ensures Contains(ErrorMessage(message), message)
  {
    ContainsInfix(UnknownOpening, message, UnknownClosing);
  }

  // ---------------------------------------------------------------------
  // The input box and the send button

  /** `updateSendButton`'s `canSend`: the trimmed input is not empty and no
      reply is loading. */
  function CanSend(input: string, isLoading: bool): (can: bool)
    ensures can <==> HasNonSpace(input, IsJsSpace) && !isLoading
  {
    TrimNonEmpty(input, IsJsSpace);
    JsTrim(input) != "" && !isLoading
  }

  /** `value.length`: JavaScript counts UTF-16 code units, two for a
      character outside the Basic Multilingual Plane. */
  function Utf16Length(s: string): (n: nat)
    ensures |s| <= n <= 2 * |s|
    ensures (forall i :: 0 <= i < |s| ==> s[i] as int <= 0xFFFF) ==> n == |s|
  {
    if s == [] then 0 else (if s[0] as int > 0xFFFF then 2 else 1) + Utf16Length(s[1..])
  }

  const CharLimit := 500
  const WarnAbove := 450

  /** The counter text `${length}/500`. */
  function CounterText(input: string): string
  {
    NatToString(Utf16Length(input)) + "/" + NatToString(CharLimit)
  }

  /** The counter turns red once the input is longer than 450. */
  predicate CounterWarns(input: string)
  {
    Utf16Length(input) > WarnAbove
  }

  /** The counter shows the input's length, read back from its digits, and
      is red exactly above 450: at 450 code units it is not, at 451 it is. */
  lemma CounterShowsLength(input: string)
    ensures var text := CounterText(input);
      var digits := NatToString(Utf16Length(input));
      && text == digits + "/500"
      && DigitsValue(digits) == Utf16Length(input)
      && (CounterWarns(input) <==> Utf16Length(input) >= 451)
  {
    NatToStringRoundTrip(Utf16Length(input));
    assert NatToString(500) == "500" by {
      assert NatToString(50) == "50" by { assert NatToString(5) == "5"; }
    }
  }

  /** The page state `sendMessage` changes: the input box, `isLoading` and
      `messageCount`. */
  class ChatPage {
    var input: string
    var isLoading: bool
    var messageCount: nat

    constructor()
      ensures input == "" && !isLoading && messageCount == 0
    {
      input := "";
      isLoading := false;
      messageCount := 0;
    }

    /** Whether the send button is enabled. */
    predicate SendEnabled()
      reads this
    {
      CanSend(input, isLoading)
    }

    /** Typing into the box. */
    method Type(text: string)
      modifies this
      ensures input == text && isLoading == old(isLoading) && messageCount == old(messageCount)
    {
      input := text;
    }

    /** `sendMessage` up to `await streamResponse(...)`: it does nothing
        unless sending is enabled; otherwise it takes the trimmed input,
        clears the box and marks a reply as loading. */
    method BeginSend() returns (message: Option<string>)
      modifies this
      ensures old(SendEnabled()) ==> message == Some(JsTrim(old(input))) && input == "" && isLoading && messageCount == old(messageCount)
      ensures !old(SendEnabled()) ==> message == None && input == old(input) && isLoading == old(isLoading) && messageCount == old(messageCount)
    {
      var trimmed := JsTrim(input);
      if trimmed == "" || isLoading {
        return None;
      }
      message := Some(trimmed);
      input := "";
      isLoading := true;
    }

    /** The `finally` block and the count after the `await`: whether the
        stream finished or raised, loading ends and one more message is
        counted. */
    method FinishSend()
      requires isLoading
      modifies this
      ensures !isLoading && messageCount == old(messageCount) + 1 && input == old(input)
    {
      isLoading := false;
      messageCount := messageCount + 1;
    }
  }

  /** While a reply is loading no second message can be sent, whatever is
      typed. */
  lemma NoSendWhileLoading(input: string)
    ensures !CanSend(input, true)
  {
  }
}
