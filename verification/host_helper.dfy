/** Request framing between the control panel and the host helper
    (scripts/host-helper/helper.py, control-panel-django/core/host_helper_client.py).

    Bytes are characters: both sides exchange ASCII JSON lines. What `recv` hands
    out before end of stream is a sequence of chunks. */
module HostHelper {
  import opened Text

  const RECV_CHUNK := 4096
  const MAX_REQUEST_BYTES := 4096

  datatype Received = Message(data: string) | TooLarge

  predicate EndsWithNewline(data: string) {
    data != "" && data[|data| - 1] == '\n'
  }

  /** What the server makes of the remaining chunks once it holds `data`. */
  function Receive(data: string, chunks: seq<string>): Received
    decreases |chunks|
  {
    if EndsWithNewline(data) || chunks == [] || chunks[0] == "" then Message(data)
    else if |data + chunks[0]| > MAX_REQUEST_BYTES then TooLarge
    else Receive(data + chunks[0], chunks[1..])
  }

  /** `_recv_request` up to decoding: `recv` returns "" once the chunks are used up. */
  method RecvRequest(chunks: seq<string>) returns (r: Received)
    ensures r == Receive("", chunks)
  {
    var data := "";
    var next := 0;
    while !EndsWithNewline(data)
      invariant next <= |chunks|
      invariant Receive("", chunks) == Receive(data, chunks[next..])
      decreases |chunks| - next
    {
      var chunk := if next < |chunks| then chunks[next] else "";
      if chunk == "" {
        break;
      }
      assert chunks[next..][0] == chunk && chunks[next..][1..] == chunks[next + 1..];
      next := next + 1;
      data := data + chunk;
      if |data| > MAX_REQUEST_BYTES {
        return TooLarge;
      }
    }
    r := Message(data);
  }

  /** The client's read loop: everything up to end of stream. */
  method ReadToEnd(chunks: seq<string>) returns (data: string)
    ensures (forall c | c in chunks :: c != "") ==> data == Concat(chunks)
  {
    data := "";
    var next := 0;
    while true
      invariant next <= |chunks| && data == Concat(chunks[..next])
      decreases |chunks| - next
    {
      var chunk := if next < |chunks| then chunks[next] else "";
      if chunk == "" {
        assert next == |chunks| || chunks[next] in chunks;
        break;
      }
      assert chunks[..next + 1][..next] == chunks[..next];
      data := data + chunk;
      next := next + 1;
    }
    assert chunks[..|chunks|] == chunks;
  }

  /** The one response line of `serve_one`: a refusal, the empty-request answer, or
      what `handle_request` says. */
  function ServeOne(r: Received, handle: string -> string, refused: string, empty: string): string {
    match r
    case TooLarge => refused
    case Message(data) => if Strip(data) == "" then empty else handle(Strip(data))
  }

  // ------------------------------------------------------------ chunkings

  /** A way for the stream to deliver `request`. */
  ghost predicate Chunking(chunks: seq<string>, request: string) {
    Concat(chunks) == request && forall c | c in chunks :: 0 < |c| <= RECV_CHUNK
  }

  /** No newline before position `n`. */
  predicate NoNewlineBefore(s: string, n: int) {
    forall i | 0 <= i < |s| && i < n :: s[i] != '\n'
  }

  lemma {:induction false} ConcatFirst(chunks: seq<string>)
    requires chunks != []
    ensures Concat(chunks) == chunks[0] + Concat(chunks[1..])
  {
    assert chunks == [chunks[0]] + chunks[1..];
    ConcatJoins([chunks[0]], chunks[1..]);
    assert [chunks[0]][..0] == [];
    assert Concat([chunks[0]]) == "" + chunks[0];
  }

  /** Whatever is accepted is a prefix of the stream, and at most 4096 bytes of it. */
  lemma {:induction false} NeverTooMuch(data: string, chunks: seq<string>)
    requires |data| <= MAX_REQUEST_BYTES
    ensures Receive(data, chunks).Message? ==>
              && |Receive(data, chunks).data| <= MAX_REQUEST_BYTES
              && data <= Receive(data, chunks).data <= data + Concat(chunks)
    decreases |chunks|
  {
    if chunks != [] && !EndsWithNewline(data) && |data + chunks[0]| <= MAX_REQUEST_BYTES {
      ConcatFirst(chunks);
      Assoc(data, chunks[0], Concat(chunks[1..]));
      NeverTooMuch(data + chunks[0], chunks[1..]);
    }
  }

  /** Without an early newline the chunk boundaries do not matter. */
  lemma {:induction false} ReceivesAll(data: string, chunks: seq<string>)
    requires |data| <= MAX_REQUEST_BYTES && forall c | c in chunks :: c != ""
    requires var all := data + Concat(chunks); NoNewlineBefore(all, |all| - 1)
    requires |data + Concat(chunks)| <= MAX_REQUEST_BYTES
    ensures Receive(data, chunks) == Message(data + Concat(chunks))
    decreases |chunks|
  {
    if chunks != [] {
      ConcatFirst(chunks);
      Assoc(data, chunks[0], Concat(chunks[1..]));
      assert chunks[0] in chunks;
      var all := data + Concat(chunks);
      assert data != "" ==> all[|data| - 1] == data[|data| - 1];
      assert forall c | c in chunks[1..] :: c in chunks;
      assert data + chunks[0] + Concat(chunks[1..]) == all;
      ReceivesAll(data + chunks[0], chunks[1..]);
    }
  }

  lemma {:induction false} RefusesLong(data: string, chunks: seq<string>)
    requires |data| <= MAX_REQUEST_BYTES && forall c | c in chunks :: c != ""
    requires NoNewlineBefore(data + Concat(chunks), MAX_REQUEST_BYTES)
    requires |data + Concat(chunks)| > MAX_REQUEST_BYTES
    ensures Receive(data, chunks) == TooLarge
    decreases |chunks|
  {
    assert chunks != [];
    ConcatFirst(chunks);
    assert chunks[0] in chunks;
    Assoc(data, chunks[0], Concat(chunks[1..]));
    var all := data + Concat(chunks);
    assert data != "" ==> all[|data| - 1] == data[|data| - 1];
    assert data + chunks[0] + Concat(chunks[1..]) == all;
    if |data + chunks[0]| <= MAX_REQUEST_BYTES {
      assert forall c | c in chunks[1..] :: c in chunks;
      RefusesLong(data + chunks[0], chunks[1..]);
    }
  }

  /** One byte per chunk. */
  function Bytewise(s: string): (r: seq<string>)
    ensures |r| == |s| && forall i | 0 <= i < |r| :: r[i] == [s[i]]
  {
    seq(|s|, i requires 0 <= i < |s| => [s[i]])
  }

  lemma {:induction false} BytewiseConcat(s: string)
    ensures Concat(Bytewise(s)) == s
  {
    if s != "" {
      BytewiseConcat(s[..|s| - 1]);
      assert Bytewise(s)[..|s| - 1] == Bytewise(s[..|s| - 1]);
      assert s == s[..|s| - 1] + [s[|s| - 1]];
    }
  }

  lemma {:induction false} BytewiseChunks(first: string, rest: string)
    requires first != "" && |first| <= RECV_CHUNK
    ensures Chunking([first] + Bytewise(rest), first + rest)
  {
    var chunks := [first] + Bytewise(rest);
    BytewiseConcat(rest);
    ConcatFirst(chunks);
    assert chunks[1..] == Bytewise(rest);
  }

  lemma StopsAtNewline(first: string, rest: seq<string>)
    requires EndsWithNewline(first) && |first| <= MAX_REQUEST_BYTES
    ensures Receive("", [first] + rest) == Message(first)
  {
    assert "" + first == first;
  }

  /** A chunk that ends at an early newline makes the server stop there. */
  lemma CutAtNewline(request: string, j: nat) returns (chunks: seq<string>)
    requires j < |request| && request[j] == '\n' && j < MAX_REQUEST_BYTES
    ensures Chunking(chunks, request)
    ensures Receive("", chunks) == Message(request[..j + 1])
  {
    var first, rest := request[..j + 1], request[j + 1..];
    chunks := [first] + Bytewise(rest);
    BytewiseChunks(first, rest);
    StopsAtNewline(first, Bytewise(rest));
    assert request == first + rest;
  }

  // ------------------------------------------------------------ results

  /** A request of at most 4096 bytes arrives whole under every chunking exactly
      when no byte before its last is a newline. */
  lemma ArrivesWholeIff(request: string)
    requires |request| <= 4096
    ensures (forall chunks | Chunking(chunks, request) :: Receive("", chunks) == Message(request))
            <==> NoNewlineBefore(request, |request| - 1)
  {
    if NoNewlineBefore(request, |request| - 1) {
      forall chunks | Chunking(chunks, request) ensures Receive("", chunks) == Message(request) {
        assert "" + Concat(chunks) == request;
        ReceivesAll("", chunks);
      }
    } else {
      var j :| 0 <= j < |request| - 1 && request[j] == '\n';
      var chunks := CutAtNewline(request, j);
      assert Receive("", chunks) != Message(request);
    }
  }

  /** A longer request is refused under every chunking exactly when its first 4096
      bytes hold no newline. */
  lemma RefusedIff(request: string)
    requires |request| > 4096
    ensures (forall chunks | Chunking(chunks, request) :: Receive("", chunks) == TooLarge)
            <==> NoNewlineBefore(request, 4096)
  {
    if NoNewlineBefore(request, 4096) {
      forall chunks | Chunking(chunks, request) ensures Receive("", chunks) == TooLarge {
        assert "" + Concat(chunks) == request;
        RefusesLong("", chunks);
      }
    } else {
      var j :| 0 <= j < |request| && j < 4096 && request[j] == '\n';
      var chunks := CutAtNewline(request, j);
      assert Receive("", chunks) != TooLarge;
    }
  }

  /** A short request is answered by the handler, applied to the JSON text. */
  lemma ShortIsHandled(json: string, sent: seq<string>, handle: string -> string, refused: string, empty: string)
    requires json != "" && Trimmed(json) && NoNewline(json) && |json| + 1 <= 4096
    requires Chunking(sent, json + "\n")
    ensures ServeOne(Receive("", sent), handle, refused, empty) == handle(json)
  {
    OnlyLastIsNewline(json);
    ArrivesWholeIff(json + "\n");
    assert Receive("", sent) == Message(json + "\n");
    StripBlanks("", json, "\n");
    assert "" + json + "\n" == json + "\n";
  }

  lemma LongIsRefused(json: string, sent: seq<string>, handle: string -> string, refused: string, empty: string)
    requires NoNewline(json) && |json| + 1 > 4096
    requires Chunking(sent, json + "\n")
    ensures ServeOne(Receive("", sent), handle, refused, empty) == refused
  {
    OnlyLastIsNewline(json);
    RefusedIff(json + "\n");
    assert Receive("", sent) == TooLarge;
  }

  lemma OnlyLastIsNewline(json: string)
    requires NoNewline(json)
    ensures |json + "\n"| == |json| + 1 && NoNewlineBefore(json + "\n", |json|)
  {
    forall i | 0 <= i < |json| ensures (json + "\n")[i] != '\n' {
      assert json[i] in json;
    }
  }

  /** One connection, end to end: the client sends a JSON text and a newline, the
      streams cut both directions as they like, and the client reads exactly the
      answer to that JSON text, or the refusal if it is too long. */
  lemma OneActionOneResponse(json: string, sent: seq<string>, handle: string -> string, refused: string,
                             empty: string, received: seq<string>)
    requires json != "" && Trimmed(json) && NoNewline(json)
    requires Chunking(sent, json + "\n")
    requires Chunking(received, ServeOne(Receive("", sent), handle, refused, empty))
    ensures Concat(received) == if |json| + 1 <= 4096 then handle(json) else refused
  {
    if |json| + 1 <= 4096 {
      ShortIsHandled(json, sent, handle, refused, empty);
    } else {
      LongIsRefused(json, sent, handle, refused, empty);
    }
  }

  /** A request of blanks alone, however it is cut, gets the empty-request answer and never
      reaches the handler. */
  lemma BlankIsEmpty(request: string, sent: seq<string>, handle: string -> string, refused: string, empty: string)
    requires |request| <= 4096 && Chunking(sent, request)
    requires forall k | 0 <= k < |request| :: request[k] == ' ' || request[k] == '\t' || request[k] == '\n'
    ensures ServeOne(Receive("", sent), handle, refused, empty) == empty
  {
    NeverTooMuch("", sent);
    ShortIsAccepted("", sent);
    var data := Receive("", sent).data;
    assert "" + Concat(sent) == request;
    forall k | 0 <= k < |data| ensures IsSpace(data[k]) {
      assert data[k] == request[k];
    }
    StripBlanks(data, "", "");
    assert data + "" + "" == data;
  }

  lemma {:induction false} ShortIsAccepted(data: string, chunks: seq<string>)
    requires |data + Concat(chunks)| <= 4096
    ensures Receive(data, chunks).Message?
    decreases |chunks|
  {
    if chunks != [] && !EndsWithNewline(data) {
      ConcatFirst(chunks);
      Assoc(data, chunks[0], Concat(chunks[1..]));
      ShortIsAccepted(data + chunks[0], chunks[1..]);
    }
  }
}
