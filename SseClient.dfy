/**
 * The browser's reading of the event stream (static/app.js,
 * `processSSEChunk` and `handleSSEData`): a received text is split at
 * "\n\n" wherever that is followed by "data: " or by the end of the text,
 * the pieces starting "data: " give their payloads, and each payload is
 * classified as completion, error, metadata or translated text.
 *
 * Together with the server's framing (`Orchestrator.Frame`) this gives a
 * round trip: a body made of framed items parses back to exactly those
 * items, newlines included, as long as no item contains "\n\ndata: ".
 */
module SseClient {
  import opened TextOps
  import opened Orchestrator

  const DataPrefix: string := "data: "

  /** The text at which the client would cut inside an item. */
  const FrameBreak: string := "\n\ndata: "

  // ---------------------------------------------------------------------
  // Splitting

  /** The separator `/\n\n(?=data: |$)/` matches at the start of `s`. */
  predicate SepAt(s: string) {
    |s| >= 2 && s[0] == '\n' && s[1] == '\n' && (|s| == 2 || IsPrefix(DataPrefix, s[2..]))
  }

  /** The pieces joined back with the "\n\n" separators the split removed. */
  function JoinPieces(pieces: seq<string>): string
    requires |pieces| >= 1
  {
    if |pieces| == 1 then pieces[0] else pieces[0] + "\n\n" + JoinPieces(pieces[1..])
  }

  /**
   * `split` scanning `s` from left to right with the piece `cur` already
   * begun: at each position either the separator matches (the piece ends
   * and the two newlines are dropped) or the character joins the piece.
   * Nothing is lost: joining the pieces gives back `cur + s`.
   */
  function SplitFrom(cur: string, s: string): (pieces: seq<string>)
    ensures |pieces| >= 1
    ensures JoinPieces(pieces) == cur + s
    decreases |s|
  {
    if s == [] then [cur]
    else if SepAt(s) then
      var rest := SplitFrom("", s[2..]);
      assert s == "\n\n" + s[2..];
      [cur] + rest
    else
      var pieces := SplitFrom(cur + [s[0]], s[1..]);
      assert cur + [s[0]] + s[1..] == cur + s;
      pieces
  }

  /** `chunk.split(/\n\n(?=data: |$)/)`; the empty text gives one empty piece. */
  function SplitMessages(chunk: string): (pieces: seq<string>)
    ensures |pieces| >= 1 && JoinPieces(pieces) == chunk
  {
    SplitFrom("", chunk)
  }

  /** The payloads of the pieces that start with "data: ", prefix removed, in order. */
  function Payloads(messages: seq<string>): (r: seq<string>)
    ensures |r| <= |messages|
  {
    if messages == [] then []
    else
      var m := messages[|messages| - 1];
      Payloads(messages[..|messages| - 1]) + (if IsPrefix(DataPrefix, m) then [m[|DataPrefix|..]] else [])
  }

  lemma {:induction false} PayloadsAppend(a: seq<string>, b: seq<string>)
    ensures Payloads(a + b) == Payloads(a) + Payloads(b)
    decreases |b|
  {
    if b == [] {
      assert a + b == a;
    } else {
      assert (a + b)[..|a + b| - 1] == a + b[..|b| - 1];
      PayloadsAppend(a, b[..|b| - 1]);
    }
  }

  // ---------------------------------------------------------------------
  // The round trip with the server's framing

  /** The concatenation of the events, i.e. the response body. */
  function Concat(parts: seq<string>): string {
    if parts == [] then "" else parts[0] + Concat(parts[1..])
  }

  /** The messages a framed item becomes: "data: " and the item. */
  function Tagged(items: seq<string>): seq<string> {
    if items == [] then [] else [DataPrefix + items[0]] + Tagged(items[1..])
  }

  /** For a text longer than two characters, the separator matches exactly where "\n\ndata: " begins. */
  lemma SepAtLong(t: string)
    requires |t| > 2
    ensures SepAt(t) <==> |t| >= 8 && t[..8] == FrameBreak
  {
    if |t| >= 8 {
      assert t[..8] == t[..2] + t[2..][..6];
    }
  }

  /** A text without a newline contains no frame break. */
  lemma NoNewlineNoBreak(s: string)
    requires forall i :: 0 <= i < |s| ==> s[i] != '\n'
    ensures !Contains(s, FrameBreak)
  {
    forall i | 0 <= i <= |s| ensures !OccursAt(s, FrameBreak, i) {
      if i < |s| {
        assert s[i] != FrameBreak[0];
      }
    }
  }

  /** Dropping the first character cannot create a frame break. */
  lemma NoBreakTail(f: string)
    requires f != [] && !Contains(f, FrameBreak)
    ensures !Contains(f[1..], FrameBreak)
  {
    forall i | 0 <= i <= |f[1..]| ensures !OccursAt(f[1..], FrameBreak, i) {
      assert !OccursAt(f, FrameBreak, i + 1);
      if i + 8 <= |f[1..]| {
        assert f[1..][i..i + 8] == f[i + 1..i + 9];
      }
    }
  }

  /** Putting a newline-free text in front of an item cannot create a frame break. */
  lemma NoBreakPrefixed(p: string, f: string)
    requires forall i :: 0 <= i < |p| ==> p[i] != '\n'
    requires !Contains(f, FrameBreak)
    ensures !Contains(p + f, FrameBreak)
  {
    var t := p + f;
    forall i | 0 <= i <= |t| ensures !OccursAt(t, FrameBreak, i) {
      if i < |p| {
        assert t[i] == p[i] != FrameBreak[0];
      } else {
        assert !OccursAt(f, FrameBreak, i - |p|);
        if i + 8 <= |t| {
          assert t[i..i + 8] == f[i - |p|..i - |p| + 8];
        }
      }
    }
  }

  /** Putting "data: " in front of an item cannot create a frame break. */
  lemma NoBreakTagged(f: string)
    requires !Contains(f, FrameBreak)
    ensures !Contains(DataPrefix + f, FrameBreak)
  {
    NoBreakPrefixed(DataPrefix, f);
  }

  /** No separator matches at the start of a non-empty break-free item followed by a frame end. */
  lemma NotSepAtInside(f: string, rest: string)
    requires f != [] && !Contains(f, FrameBreak)
    requires rest == [] || IsPrefix(DataPrefix, rest)
    ensures !SepAt(f + "\n\n" + rest)
  {
    var t := f + "\n\n" + rest;
    SepAtLong(t);
    if |t| >= 8 {
      if |f| >= 8 {
        assert !OccursAt(f, FrameBreak, 0);
        assert t[..8] == f[..8];
      } else {
        var k := if |f| == 1 then 2 else |f|;
        assert t[k] == '\n';
        assert t[..8][k] != FrameBreak[k];
      }
    }
  }

  /**
   * A break-free item followed by the frame end "\n\n" and then either
   * nothing or another frame ends the current piece exactly there.
   */
  lemma {:induction false} SplitAtFrameEnd(cur: string, f: string, rest: string)
    requires !Contains(f, FrameBreak)
    requires rest == [] || IsPrefix(DataPrefix, rest)
    ensures SplitFrom(cur, f + "\n\n" + rest) == [cur + f] + SplitFrom("", rest)
    decreases |f|
  {
    var t := f + "\n\n" + rest;
    if f == [] {
      assert t == "\n\n" + rest && t[2..] == rest;
      assert SepAt(t);
      assert cur + f == cur;
    } else {
      NotSepAtInside(f, rest);
      NoBreakTail(f);
      assert t[1..] == f[1..] + "\n\n" + rest;
      SplitAtFrameEnd(cur + [f[0]], f[1..], rest);
      assert cur + [f[0]] + f[1..] == cur + f;
    }
  }

  /** The body of framed items splits into one "data: " message per item, then an empty piece. */
  lemma {:induction false} FramesSplit(items: seq<string>)
    requires forall i :: 0 <= i < |items| ==> !Contains(items[i], FrameBreak)
    ensures SplitMessages(Concat(FrameAll(items))) == Tagged(items) + [""]
    decreases |items|
  {
    if items != [] {
      var frames := FrameAll(items);
      var tail := items[1..];
      assert frames[1..] == FrameAll(tail);
      var rest := Concat(FrameAll(tail));
      assert Concat(frames) == DataPrefix + items[0] + "\n\n" + rest;
      if tail != [] {
        assert FrameAll(tail)[0] == Frame(tail[0]);
        assert rest == DataPrefix + (tail[0] + "\n\n" + Concat(FrameAll(tail)[1..]));
      }
      NoBreakTagged(items[0]);
      assert DataPrefix + items[0] + "\n\n" + rest == (DataPrefix + items[0]) + "\n\n" + rest;
      SplitAtFrameEnd("", DataPrefix + items[0], rest);
      FramesSplit(tail);
      assert "" + (DataPrefix + items[0]) == DataPrefix + items[0];
    }
  }

  lemma {:induction false} PayloadsOfTagged(items: seq<string>)
    ensures Payloads(Tagged(items) + [""]) == items
  {
    PayloadsAppend(Tagged(items), [""]);
    assert Payloads([""]) == [];
    if items != [] {
      var m := DataPrefix + items[0];
      PayloadsAppend([m], Tagged(items[1..]));
      assert Payloads([m]) == Payloads([]) + [m[6..]];
      assert m[6..] == items[0];
      PayloadsOfTagged(items[1..]);
      PayloadsAppend(Tagged(items[1..]), [""]);
    }
  }

  /**
   * The round trip: the payloads the client reads from a body of framed
   * items are exactly those items, in order, provided no item contains
   * "\n\ndata: ".
   */
  lemma FramesParseBack(items: seq<string>)
    requires forall i :: 0 <= i < |items| ==> !Contains(items[i], FrameBreak)
    ensures Payloads(SplitMessages(Concat(FrameAll(items)))) == items
  {
    FramesSplit(items);
    PayloadsOfTagged(items);
  }

  /**
   * The limit of the round trip: an item made of two newline-free texts
   * with "\n\ndata: " between them is read back as those two payloads.
   */
  lemma BreakInsideItemSplits(x: string, y: string)
    requires forall i :: 0 <= i < |x| ==> x[i] != '\n'
    requires forall i :: 0 <= i < |y| ==> y[i] != '\n'
    ensures Payloads(SplitMessages(Concat(FrameAll([x + FrameBreak + y])))) == [x, y]
  {
    JoinedFrameIsTwoFrames(x, y);
    NoNewlineNoBreak(x);
    NoNewlineNoBreak(y);
    FramesParseBack([x, y]);
  }

  /** The frame of `x + "\n\ndata: " + y` is the frame of `x` followed by the frame of `y`. */
  lemma JoinedFrameIsTwoFrames(x: string, y: string)
    ensures Concat(FrameAll([x + FrameBreak + y])) == Concat(FrameAll([x, y]))
  {
    var item := x + FrameBreak + y;
    assert FrameAll([item]) == [Frame(item)];
    assert FrameAll([x, y]) == [Frame(x), Frame(y)];
    assert Concat([Frame(item)]) == Frame(item) + Concat([]);
    assert Concat([Frame(y)]) == Frame(y) + Concat([]);
    assert Concat([Frame(x), Frame(y)]) == Frame(x) + Concat([Frame(y)]);
    assert Frame(item) == Frame(x) + Frame(y);
  }

  // ---------------------------------------------------------------------
  // Classification of a payload

  /** What `handleSSEData` makes of one payload. */
  datatype Event = Finished | Failed(message: string) | MetaData(json: string) | TextData(text: string)

  const DefaultError: string := "翻译过程中发生错误"

  /** JavaScript `s.slice(n)`: empty when `n` is past the end. */
  function SliceFrom(s: string, n: nat): (r: string)
    ensures n <= |s| ==> r == s[n..]
    ensures n > |s| ==> r == []
  {
    if n <= |s| then s[n..] else []
  }

  /** The message of an "[ERROR]" payload: `data.slice(8).trim()`, or the default text when that is empty. */
  function ErrorMessage(data: string): (m: string)
    ensures m != []
  {
    var t := Trim(JsSpace, SliceFrom(data, 8));
    if t == [] then DefaultError else t
  }

  /** The JSON text of a "[META]" payload: `data.slice(7).trim()`. */
  function MetaJson(data: string): string {
    Trim(JsSpace, SliceFrom(data, 7))
  }

  /**
   * `handleSSEData`: an exact "[DONE]" finishes; otherwise an "[ERROR]"
   * prefix is an error with its message; otherwise a "[META]" prefix is
   * metadata; anything else is text, kept verbatim.
   */
  function Classify(data: string): (e: Event)
    ensures e.Failed? ==> e.message != []
    ensures e.TextData? ==> e.text == data
  {
    if data == "[DONE]" then Finished
    else if IsPrefix("[ERROR]", data) then Failed(ErrorMessage(data))
    else if IsPrefix("[META]", data) then MetaData(MetaJson(data))
    else TextData(data)
  }

  /** The precedence of the four cases, each in both directions. */
  lemma ClassifyPrecedence(data: string)
    ensures Classify(data) == Finished <==> data == "[DONE]"
    ensures Classify(data).Failed? <==> data != "[DONE]" && IsPrefix("[ERROR]", data)
    ensures Classify(data).MetaData? <==> data != "[DONE]" && !IsPrefix("[ERROR]", data) && IsPrefix("[META]", data)
    ensures Classify(data) == TextData(data) <==>
              data != "[DONE]" && !IsPrefix("[ERROR]", data) && !IsPrefix("[META]", data)
  {
  }

  /** A payload with the "[ERROR]" prefix is an error carrying its trimmed message, or the default text. */
  lemma ClassifyError(data: string)
    requires data != "[DONE]" && IsPrefix("[ERROR]", data)
    ensures Classify(data) == Failed(ErrorMessage(data))
  {
  }

  /** A payload with the "[META]" prefix (and not "[ERROR]") is metadata, its JSON trimmed. */
  lemma ClassifyMeta(data: string)
    requires data != "[DONE]" && !IsPrefix("[ERROR]", data) && IsPrefix("[META]", data)
    ensures Classify(data) == MetaData(MetaJson(data))
  {
  }

  /** A payload with none of the three markers is text. */
  lemma ClassifyPlain(data: string)
    requires data != "[DONE]" && !IsPrefix("[ERROR]", data) && !IsPrefix("[META]", data)
    ensures Classify(data) == TextData(data)
  {
  }

  /** A payload that does not start with "[" is text. */
  lemma ClassifyText(data: string)
    requires data == [] || data[0] != '['
    ensures Classify(data) == TextData(data)
  {
    if |data| >= 6 {
      assert data[..6][0] == data[0];
    }
    if |data| >= 7 {
      assert data[..7][0] == data[0];
    }
  }

  /** The server's completion marker finishes. */
  lemma DoneRead()
    ensures Classify(Translator.Done) == Finished
  {
  }

  /** "[ERROR] " followed by a message with no whitespace at either end shows that message. */
  lemma ErrorTextRead(m: string)
    requires m != [] && !IsSpace(JsSpace, m[0]) && !IsSpace(JsSpace, m[|m| - 1])
    ensures Classify("[ERROR] " + m) == Failed(m)
  {
    var d := "[ERROR] " + m;
    assert d[..7] == "[ERROR]";
    assert d[1] == 'E';
    assert d[8..] == m;
    TrimKeepsTrimmed(JsSpace, m);
    ClassifyError(d);
  }

  /** Each of the server's error texts shows its message. */
  lemma ErrorMarkerRead(f: Translator.Failure)
    ensures Classify(Translator.ErrorMarker(f)) == Failed(Translator.FailureText(f))
  {
    Translator.ErrorMarkersAreErrors(f);
    ErrorTextRead(Translator.FailureText(f));
  }

  /** The server's "[META] " event carries its json, trimmed. */
  lemma MetaRead(json: string)
    ensures Classify("[META] " + json) == MetaData(Trim(JsSpace, json))
  {
    var m := "[META] " + json;
    assert m[..6] == "[META]" && m[7..] == json;
    assert m[..7] != "[ERROR]";
  }
}
