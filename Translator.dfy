/**
 * The streaming translator of src/services/translator.py: it looks up the
 * system prompt for the direction, opens a streamed model call, forwards
 * every non-empty delta in arrival order, and ends with exactly one
 * terminal marker — "[DONE]", or one fixed "[ERROR] …" text chosen by the
 * kind of failure.
 *
 * The model call is an input (`Upstream`): either the call itself raised,
 * or it returned a finite sequence of chunks that was either exhausted or
 * broke off with a failure.
 */
module Translator {
  import opened TextOps

  // ---------------------------------------------------------------------
  // Failures and markers

  /**
   * The exception kinds the `except` clauses distinguish.  `RequestTimeout`
   * is the client library's own timeout error, a subclass of its connection
   * error; `Deadline` is the `asyncio.TimeoutError` of the wait around the
   * call.
   */
  datatype Failure =
    | Authentication
    | RateLimit
    | Connection
    | RequestTimeout
    | Deadline
    | OtherApi
    | Unexpected

  const Done: string := "[DONE]"
  const ErrorPrefix: string := "[ERROR]"

  /** The message of each `except` clause; the first clause that matches the exception's class wins. */
  function FailureText(f: Failure): (m: string)
    ensures '\n' !in m
  {
    match f
    case Authentication => "API Key 无效，请检查配置"
    case RateLimit => "请求过于频繁，请稍后重试"
    case Connection | RequestTimeout => "网络连接异常，请检查网络后重试"
    case Deadline => "AI 服务响应超时，请稍后重试"
    case OtherApi => "AI 服务暂时不可用，请稍后重试"
    case Unexpected => "翻译过程中发生错误，请稍后重试"
  }

  /** The error text yielded for a failure: "[ERROR] " and the clause's message. */
  function ErrorMarker(f: Failure): string {
    "[ERROR] " + FailureText(f)
  }

  /** A terminal marker: the completion marker or one of the error texts. */
  predicate IsTerminal(s: string) {
    s == Done || exists f :: s == ErrorMarker(f)
  }

  /**
   * Every error text starts with "[ERROR]" and is not "[DONE]"; its message
   * is non-empty and has no whitespace at either end.
   */
  lemma ErrorMarkersAreErrors(f: Failure)
    ensures IsPrefix(ErrorPrefix, ErrorMarker(f))
    ensures ErrorMarker(f) != Done
    ensures var m := FailureText(f);
            m != [] && !IsSpace(JsSpace, m[0]) && !IsSpace(JsSpace, m[|m| - 1])
  {
    assert ErrorMarker(f)[..7] == ErrorPrefix;
    assert ErrorMarker(f)[1] == 'E';
  }

  /**
   * The client library's timeout is reported as a network problem (its
   * class derives from the connection error), distinct from the deadline
   * around the call; all other kinds have texts of their own.
   */
  lemma MarkerDistinctions(f: Failure, g: Failure)
    ensures ErrorMarker(RequestTimeout) == ErrorMarker(Connection)
    ensures ErrorMarker(RequestTimeout) != ErrorMarker(Deadline)
    ensures ErrorMarker(f) == ErrorMarker(g) <==> f == g || (f in {Connection, RequestTimeout} && g in {Connection, RequestTimeout})
  {
    MarkerDeterminesText(f, g);
    MarkerDeterminesText(RequestTimeout, Deadline);
    FailureTextsDiffer(f, g);
  }

  /** The messages differ in their second character or their length, except for the two network kinds. */
  lemma FailureTextsDiffer(f: Failure, g: Failure)
    ensures FailureText(f) == FailureText(g) <==> f == g || (f in {Connection, RequestTimeout} && g in {Connection, RequestTimeout})
  {
    if FailureText(f) == FailureText(g) {
      assert FailureText(f)[1] == FailureText(g)[1];
      assert |FailureText(f)| == |FailureText(g)|;
    }
  }

  /** Two error texts are equal exactly when their messages are. */
  lemma MarkerDeterminesText(f: Failure, g: Failure)
    ensures ErrorMarker(f) == ErrorMarker(g) <==> FailureText(f) == FailureText(g)
  {
    if ErrorMarker(f) == ErrorMarker(g) {
      assert ErrorMarker(f)[8..] == FailureText(f);
      assert ErrorMarker(g)[8..] == FailureText(g);
    }
  }

  // ---------------------------------------------------------------------
  // Prompts

  /** Which of the two system prompts is used (their text is not part of this model). */
  datatype Prompt = ProductToDevPrompt | DevToProductPrompt

  /** `get_system_prompt`: defined on the two wire strings, raising ValueError otherwise. */
  function SystemPrompt(token: string): (p: Option<Prompt>)
    ensures p.Some? <==> token == "product_to_dev" || token == "dev_to_product"
  {
    if token == "product_to_dev" then Some(ProductToDevPrompt)
    else if token == "dev_to_product" then Some(DevToProductPrompt)
    else None
  }

  // ---------------------------------------------------------------------
  // The upstream stream

  datatype Delta = Delta(content: Option<string>)

  /** One streamed chunk; only `choices[0].delta.content` matters. */
  datatype Chunk = Chunk(choices: seq<Delta>)

  datatype StreamEnd = Exhausted | Interrupted(failure: Failure)

  /** What the streamed call did. */
  datatype Upstream = CallRaised(failure: Failure) | Opened(chunks: seq<Chunk>, end: StreamEnd)

  /** `chunk.choices and chunk.choices[0].delta.content`: the chunk's text when it has one. */
  function TextOf(c: Chunk): (t: Option<string>)
    ensures t.Some? ==> t.value != []
  {
    if |c.choices| > 0 && c.choices[0].content.Some? && c.choices[0].content.value != "" then
      Some(c.choices[0].content.value)
    else None
  }

  /** The texts of the chunks that have one, in arrival order. */
  function Fragments(chunks: seq<Chunk>): (r: seq<string>)
    ensures |r| <= |chunks|
    ensures forall i :: 0 <= i < |r| ==> r[i] != []
  {
    if chunks == [] then []
    else
      var last := chunks[|chunks| - 1];
      Fragments(chunks[..|chunks| - 1]) + (match TextOf(last) case Some(t) => [t] case None => [])
  }

  /** The fragments of a concatenation are the concatenation of the fragments. */
  lemma {:induction false} FragmentsAppend(a: seq<Chunk>, b: seq<Chunk>)
    ensures Fragments(a + b) == Fragments(a) + Fragments(b)
    decreases |b|
  {
    if b == [] {
      assert a + b == a;
    } else {
      var b' := b[..|b| - 1];
      assert (a + b)[..|a + b| - 1] == a + b';
      FragmentsAppend(a, b');
    }
  }

  /** A chunk's text is forwarded exactly when it has a non-empty content. */
  lemma FragmentsOfOne(c: Chunk)
    ensures Fragments([c]) == if |c.choices| > 0 && c.choices[0].content.Some? && c.choices[0].content.value != ""
                              then [c.choices[0].content.value] else []
  {
    assert [c][..0] == [];
  }

  // ---------------------------------------------------------------------
  // The translator

  /**
   * What `translate_stream` yields: the forwarded fragments followed by one
   * terminal marker; an unknown prompt key yields only the generic error.
   */
  function StreamOutput(token: string, up: Upstream): seq<string> {
    if SystemPrompt(token).None? then [ErrorMarker(Unexpected)]
    else
      match up
      case CallRaised(f) => [ErrorMarker(f)]
      case Opened(chunks, Exhausted) => Fragments(chunks) + [Done]
      case Opened(chunks, Interrupted(f)) => Fragments(chunks) + [ErrorMarker(f)]
  }

  /**
   * `translate_stream`, step by step: look up the prompt, make the call
   * (`called`), append each chunk's text as it arrives, then the marker.
   */
  method TranslateStream(token: string, up: Upstream) returns (out: seq<string>, called: bool)
    ensures called <==> SystemPrompt(token).Some?
    ensures out == StreamOutput(token, up)
  {
    out := [];
    called := false;
    var prompt := SystemPrompt(token);
    if prompt.None? {
      out := out + [ErrorMarker(Unexpected)];
      return;
    }
    called := true;
    match up {
      case CallRaised(f) =>
        out := out + [ErrorMarker(f)];
      case Opened(chunks, end) =>
        var i := 0;
        while i < |chunks|
          invariant 0 <= i <= |chunks|
          invariant out == Fragments(chunks[..i])
        {
          assert chunks[..i + 1][..i] == chunks[..i];
          var text := TextOf(chunks[i]);
          if text.Some? {
            out := out + [text.value];
          }
          i := i + 1;
        }
        assert chunks[..i] == chunks;
        match end {
          case Exhausted => out := out + [Done];
          case Interrupted(f) => out := out + [ErrorMarker(f)];
        }
    }
  }

  // ---------------------------------------------------------------------
  // Properties

  /**
   * Every output ends with exactly one terminal marker: all items before
   * it are the non-empty fragments of the stream (none when the call or
   * the prompt lookup failed), and the marker is "[DONE]" only when the
   * stream was exhausted.
   */
  lemma OutputShape(token: string, up: Upstream)
    ensures var out := StreamOutput(token, up);
            && |out| >= 1
            && IsTerminal(out[|out| - 1])
            && (out[|out| - 1] == Done <==> SystemPrompt(token).Some? && up.Opened? && up.end.Exhausted?)
            && out[..|out| - 1] == (if SystemPrompt(token).Some? && up.Opened? then Fragments(up.chunks) else [])
            && forall i :: 0 <= i < |out| - 1 ==> out[i] != []
  {
    var out := StreamOutput(token, up);
    if SystemPrompt(token).None? || up.CallRaised? {
      assert out[..|out| - 1] == [];
    } else {
      assert out[..|out| - 1] == Fragments(up.chunks);
    }
    if up.Opened? && up.end.Interrupted? {
      ErrorMarkersAreErrors(up.end.failure);
    }
    ErrorMarkersAreErrors(Unexpected);
    if up.CallRaised? {
      ErrorMarkersAreErrors(up.failure);
    }
  }

  /** An exhausted stream yields its fragments then "[DONE]". */
  lemma CompletedStream(d: string, chunks: seq<Chunk>)
    requires SystemPrompt(d).Some?
    ensures StreamOutput(d, Opened(chunks, Exhausted)) == Fragments(chunks) + [Done]
  {
  }

  /**
   * A stream that breaks off keeps every fragment it already yielded and
   * adds one error text: its output agrees with the output of a stream that
   * completes after the same chunks everywhere but in the marker.
   */
  lemma InterruptionKeepsYielded(d: string, chunks: seq<Chunk>, f: Failure)
    requires SystemPrompt(d).Some?
    ensures var broken := StreamOutput(d, Opened(chunks, Interrupted(f)));
            var whole := StreamOutput(d, Opened(chunks, Exhausted));
            && |broken| == |whole|
            && broken[..|broken| - 1] == whole[..|whole| - 1]
            && broken[|broken| - 1] == ErrorMarker(f)
  {
    var broken := StreamOutput(d, Opened(chunks, Interrupted(f)));
    assert broken[..|broken| - 1] == Fragments(chunks);
  }

  /**
   * Chunks arriving later never change what was yielded for earlier ones:
   * the fragments of a prefix of the stream are a prefix of its fragments.
   */
  lemma {:induction false} FragmentsOfPrefix(chunks: seq<Chunk>, k: nat)
    requires k <= |chunks|
    ensures Fragments(chunks[..k]) <= Fragments(chunks)
  {
    assert chunks[..k] + chunks[k..] == chunks;
    FragmentsAppend(chunks[..k], chunks[k..]);
    var a, b := Fragments(chunks[..k]), Fragments(chunks[k..]);
    assert Fragments(chunks) == a + b;
    assert (a + b)[..|a|] == a;
  }

  /** An unknown prompt key gives only the generic error text, before any call. */
  lemma UnknownPromptKey(token: string, up: Upstream)
    requires token != "product_to_dev" && token != "dev_to_product"
    ensures StreamOutput(token, up) == [ErrorMarker(Unexpected)]
  {
  }
}
