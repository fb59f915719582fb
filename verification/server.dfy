/**
 * The detection server of easy_cozmo/server.py: `detect_ball`, which
 * turns the detector's first box into a reply record, and the per-client
 * session of `handle_client`, which buffers received text, frames it at
 * '\n' and answers every non-blank line in order.
 */
module Server {
  import opened Detections
  import opened LineFraming

  const DefaultConfThresh: real := 0.7
  /** The accepted radius is strictly above this; there is no upper bound. */
  const MinRadius: int := 17
  const UnreadableMessage: string := "Image not found or unreadable."

  /**
   * What the server can find out about a request line: whether the image
   * it names can be read, and what the detector makes of it.
   */
  datatype Backend = Backend(readable: string -> bool, infer: string -> Inference)

  /** The `'results'` dictionary; `None` stands for Python's `None`. */
  datatype DetectionRecord = DetectionRecord(
    detected: bool,
    cx: Option<int>, cy: Option<int>,
    x1: Option<real>, y1: Option<real>, x2: Option<real>, y2: Option<real>,
    radius: Option<int>)

  /**
   * One response: `{'results': ...}`, `{"success": False, "error": ...}`,
   * or the `None` that `detect_ball` falls through to on zero boxes.
   */
  datatype Reply = Results(results: DetectionRecord) | Failure(error: string) | Null

  const NotDetectedRecord := DetectionRecord(false, None, None, None, None, None, None, None)

  /** Either every field is set (detected) or none is (not detected). */
  predicate WellFormed(d: DetectionRecord)
  {
    if d.detected then
      d.cx.Some? && d.cy.Some? && d.x1.Some? && d.y1.Some? && d.x2.Some? && d.y2.Some? && d.radius.Some?
    else
      d == NotDetectedRecord
  }

  /** The server's acceptance test on one box. */
  predicate Accepts(b: Box, confThresh: real)
  {
    b.conf >= confThresh && Radius(b) > MinRadius
  }

  /** The record for an accepted box: every field set. */
  function Found(b: Box): (d: DetectionRecord)
    ensures WellFormed(d) && d.detected
  {
    var c := Center(b);
    DetectionRecord(true, Some(c.0), Some(c.1), Some(b.x1), Some(b.y1), Some(b.x2), Some(b.y2), Some(Radius(b)))
  }

  /**
   * `detect_ball(image_path, model, conf_thresh)`: an unreadable image or
   * a raising detector gives a failure record; otherwise only the first
   * box is looked at.
   */
  function DetectBall(path: string, backend: Backend, confThresh: real): (r: Reply)
    ensures r.Failure? <==> !backend.readable(path) || backend.infer(path).Raised?
    ensures !backend.readable(path) ==> r == Failure(UnreadableMessage)
    ensures backend.readable(path) && backend.infer(path).Raised? ==> r == Failure(backend.infer(path).message)
    ensures r.Null? <==> backend.readable(path) && backend.infer(path) == Boxes([])
    ensures r.Results? ==> WellFormed(r.results)
    ensures r.Results? && r.results.detected ==> r.results.radius.value > MinRadius
  {
    if !backend.readable(path) then Failure(UnreadableMessage)
    else
      match backend.infer(path)
      case Raised(message) => Failure(message)
      case Boxes(boxes) =>
        if |boxes| == 0 then Null
        else if Accepts(boxes[0], confThresh) then Results(Found(boxes[0]))
        else Results(NotDetectedRecord)
  }

  /** The test in terms of the box: confidence and a larger side of at least 36. */
  lemma AcceptsIff(b: Box, confThresh: real)
    ensures Accepts(b, confThresh) <==> b.conf >= confThresh && Extent(b) >= 36.0
  {
    RadiusAbove(b, 17);
  }

  /** The outcome for a readable image on which the detector returned boxes. */
  lemma DetectBallOnBoxes(path: string, backend: Backend, confThresh: real)
    requires backend.readable(path) && backend.infer(path).Boxes? && |backend.infer(path).boxes| > 0
    ensures var b := backend.infer(path).boxes[0];
      var r := DetectBall(path, backend, confThresh);
      && r.Results?
      && (r.results.detected <==> b.conf >= confThresh && Extent(b) >= 36.0)
      && (r.results.detected ==>
            && r.results.cx == Some(Trunc((b.x1 + b.x2) / 2.0))
            && r.results.cy == Some(Trunc((b.y1 + b.y2) / 2.0))
            && r.results.x1 == Some(b.x1) && r.results.y1 == Some(b.y1)
            && r.results.x2 == Some(b.x2) && r.results.y2 == Some(b.y2)
            && r.results.radius == Some(Trunc(0.5 * Extent(b))))
  {
    AcceptsIff(backend.infer(path).boxes[0], confThresh);
  }

  /** Whatever follows the first box never changes the reply. */
  lemma FirstBoxDecides(path: string, backend: Backend, b: Box, rest: seq<Box>, rest': seq<Box>, confThresh: real)
    requires backend.readable(path) && backend.infer(path) == Boxes([b] + rest)
    ensures DetectBall(path, backend, confThresh)
         == DetectBall(path, backend.(infer := p => if p == path then Boxes([b] + rest') else backend.infer(p)), confThresh)
  {
  }

  /** `detect_ball(line, model)`: the reply to one request line, with the default threshold. */
  function Responder(backend: Backend): string -> Reply
  {
    line => DetectBall(line, backend, DefaultConfThresh)
  }

  /** The replies that `respond` gives a run of request lines, one each, in order. */
  function Replies(respond: string -> Reply, requests: seq<string>): (rs: seq<Reply>)
    ensures |rs| == |requests|
  {
    if requests == [] then []
    else
      var n := |requests| - 1;
      Replies(respond, requests[..n]) + [respond(requests[n])]
  }

  /** Reply k answers request k. */
  lemma {:induction false} RepliesAt(respond: string -> Reply, requests: seq<string>, k: nat)
    requires k < |requests|
    ensures Replies(respond, requests)[k] == respond(requests[k])
    decreases |requests|
  {
    var n := |requests| - 1;
    if k < n {
      RepliesAt(respond, requests[..n], k);
    }
  }

  /** One more request, one more reply at the end. */
  lemma RepliesSnoc(respond: string -> Reply, requests: seq<string>, line: string)
    ensures Replies(respond, requests + [line]) == Replies(respond, requests) + [respond(line)]
  {
    assert (requests + [line])[..|requests|] == requests;
  }

  /** Replies are made request by request. */
  lemma {:induction false} RepliesAppend(respond: string -> Reply, xs: seq<string>, ys: seq<string>)
    ensures Replies(respond, xs + ys) == Replies(respond, xs) + Replies(respond, ys)
    decreases |ys|
  {
    if ys == [] {
      assert xs + ys == xs;
    } else {
      var n := |ys| - 1;
      assert xs + ys == (xs + ys[..n]) + [ys[n]];
      RepliesSnoc(respond, xs + ys[..n], ys[n]);
      RepliesAppend(respond, xs, ys[..n]);
    }
  }

  /** The replies to a prefix of the requests are a prefix of the replies. */
  lemma RepliesPrefix(respond: string -> Reply, requests: seq<string>, n: nat)
    requires n <= |requests|
    ensures Replies(respond, requests[..n]) == Replies(respond, requests)[..n]
  {
    assert requests == requests[..n] + requests[n..];
    RepliesAppend(respond, requests[..n], requests[n..]);
  }

  /**
   * Taking the first complete line off the buffer, as `split('\n', 1)`
   * does: the requests of the buffer are that line's, if it is not blank,
   * then those of the remainder; the unterminated tail stays the same.
   */
  lemma TakeLine(buffer: string)
    requires '\n' in buffer
    ensures var p := SplitOnce(buffer);
      && Split(p.1).rest == Split(buffer).rest
      && Requests(Split(buffer).lines)
           == (if Strip(p.0) == [] then [] else [Strip(p.0)]) + Requests(Split(p.1).lines)
  {
    var p := SplitOnce(buffer);
    SplitFirstLine(buffer);
    RequestsCons(p.0, Split(p.1).lines);
  }

  lemma AppendAssoc<T>(a: seq<T>, b: seq<T>, c: seq<T>)
    ensures a + (b + c) == (a + b) + c
  {
  }

  /** When the requests answered are followed by more, they are a proper prefix of the replies. */
  lemma AnsweredPrefix(respond: string -> Reply, all: seq<string>, done: seq<string>, more: seq<string>)
    requires all == done + more
    ensures Replies(respond, all)[..|done|] == Replies(respond, done)
  {
    assert all[..|done|] == done;
    RepliesPrefix(respond, all, |done|);
  }

  /**
   * Appending a chunk to what was received: the new requests are the old
   * ones followed by those framed from the old tail plus the chunk.
   */
  lemma ReceiveMore(before: string, chunk: string)
    ensures var tail := Split(before).rest + chunk;
      && Split(before + chunk).rest == Split(tail).rest
      && Requests(Split(before + chunk).lines) == Requests(Split(before).lines) + Requests(Split(tail).lines)
  {
    SplitAppend(before, chunk);
    RequestsAppend(Split(before).lines, Split(Split(before).rest + chunk).lines);
  }

  /**
   * A session that has answered every request of `before` and keeps its
   * tail, fed `chunk`, has answered a prefix of the requests of
   * `before + chunk`, and all of them if it is still open.
   */
  lemma FeedKeepsValid(respond: string -> Reply, before: string, chunk: string, accepted: nat,
                       sent: seq<Reply>, open: bool, buffer: string)
    requires var tail := Split(before).rest + chunk;
      var reqs := Requests(Split(tail).lines);
      && (open <==> accepted >= |reqs|)
      && sent == Replies(respond, Requests(Split(before).lines)) + Replies(respond, reqs)[..if accepted < |reqs| then accepted else |reqs|]
      && (open ==> buffer == Split(tail).rest)
    ensures var expected := Replies(respond, Requests(Split(before + chunk).lines));
      && |sent| <= |expected| && sent == expected[..|sent|]
      && (open ==> buffer == Split(before + chunk).rest && sent == expected)
  {
    var all := Requests(Split(Split(before).rest + chunk).lines);
    ReceiveMore(before, chunk);
    RepliesGlue(respond, Requests(Split(before).lines), all, if accepted < |all| then accepted else |all|, sent);
  }

  /**
   * The replies to the earlier requests followed by the first `n` replies
   * to the later ones are the first replies to them all.
   */
  lemma RepliesGlue(respond: string -> Reply, earlier: seq<string>, later: seq<string>, n: nat, sent: seq<Reply>)
    requires n <= |later|
    requires sent == Replies(respond, earlier) + Replies(respond, later)[..n]
    ensures var expected := Replies(respond, earlier + later);
      && |sent| <= |expected| && sent == expected[..|sent|]
      && (n == |later| ==> sent == expected)
  {
    RepliesPrefix(respond, earlier + later, |earlier| + n);
    assert (earlier + later)[..|earlier| + n] == earlier + later[..n];
    RepliesPrefix(respond, later, n);
    RepliesAppend(respond, earlier, later[..n]);
  }

  /**
   * One client connection of `handle_client`. `buffer` holds text after
   * the last '\n' seen, `sent` the responses delivered so far, `open`
   * whether the loop still runs; `received` is everything read.
   */
  class Session {
    const backend: Backend
    var buffer: string
    var sent: seq<Reply>
    var open: bool
    ghost var received: string

    /**
     * Every response sent answers, in order, the non-blank lines received;
     * while the session runs, all of them are answered and the buffer
     * holds exactly the unterminated tail.
     */
    ghost predicate Valid()
      reads this
    {
      var f := Split(received);
      var expected := Replies(Responder(backend), Requests(f.lines));
      |sent| <= |expected| && sent == expected[..|sent|] &&
      (open ==> buffer == f.rest && sent == expected)
    }

    constructor(backend: Backend)
      ensures Valid()
      ensures this.backend == backend
      ensures buffer == [] && sent == [] && open && received == []
    {
      this.backend := backend;
      buffer := [];
      sent := [];
      open := true;
      received := [];
    }

    /**
     * One `recv`: `chunk` is what arrived, and the peer accepts `accepted`
     * more responses before a send fails. An empty chunk ends the session;
     * otherwise each complete non-blank line is answered in order, until a
     * send fails, which ends the session at once.
     */
    method Feed(chunk: string, accepted: nat)
      requires Valid()
      modifies this
      ensures Valid()
      ensures !old(open) ==> unchanged(this)
      ensures old(open) && chunk == [] ==>
        !open && sent == old(sent) && buffer == old(buffer) && received == old(received)
      ensures old(open) && chunk != [] ==>
        var reqs := Requests(Split(old(buffer) + chunk).lines);
        var n := if accepted < |reqs| then accepted else |reqs|;
        && received == old(received) + chunk
        && (open <==> accepted >= |reqs|)
        && sent == old(sent) + Replies(Responder(backend), reqs)[..n]
      ensures open ==> buffer == Split(old(buffer) + chunk).rest
      ensures open ==> '\n' !in buffer
    {
      if !open {
        return;
      }
      if chunk == [] {
        open := false;
        return;
      }
      ghost var before := received;
      buffer := buffer + chunk;
      received := received + chunk;
      var rest, replies, ok := AnswerAll(Responder(backend), buffer, accepted);
      buffer, sent, open := rest, sent + replies, ok;
      FeedKeepsValid(Responder(backend), before, chunk, accepted, sent, open, buffer);
    }
  }

  /**
   * One turn of the inner loop before the reply: `line, buffer =
   * buffer.split('\n', 1)` and `line = line.strip()`. The requests of the
   * buffer are `line`'s, if it is not blank, then those of what is left.
   */
  method NextLine(buffer: string) returns (line: string, rest: string)
    requires '\n' in buffer
    ensures |rest| < |buffer|
    ensures Split(rest).rest == Split(buffer).rest
    ensures line == [] ==> Requests(Split(buffer).lines) == Requests(Split(rest).lines)
    ensures line != [] ==> Requests(Split(buffer).lines) == [line] + Requests(Split(rest).lines)
  {
    TakeLine(buffer);
    var parts := SplitOnce(buffer);
    line, rest := Strip(parts.0), parts.1;
  }

  /**
   * The inner `while '\n' in buffer` loop: answer every complete non-blank
   * line of `buffer` in order, stopping at once when a send fails, which
   * happens after `accepted` successful ones. `ok` tells whether the loop
   * ran out of lines rather than stopping; `rest` is the buffer left then.
   */
  method AnswerAll(respond: string -> Reply, buffer: string, accepted: nat) returns (rest: string, replies: seq<Reply>, ok: bool)
    ensures var reqs := Requests(Split(buffer).lines);
      && (ok <==> accepted >= |reqs|)
      && replies == Replies(respond, reqs)[..if accepted < |reqs| then accepted else |reqs|]
      && (ok ==> rest == Split(buffer).rest)
    ensures ok ==> '\n' !in rest
  {
    var buf := buffer;
    replies := [];
    ghost var all := Requests(Split(buf).lines);
    ghost var reqs: seq<string> := [];
    while '\n' in buf
      invariant Split(buf).rest == Split(buffer).rest
      invariant all == reqs + Requests(Split(buf).lines)
      invariant |reqs| <= accepted
      invariant replies == Replies(respond, reqs)
      decreases |buf|
    {
      var line;
      line, buf := NextLine(buf);
      if line == [] {
        continue;
      }
      AppendAssoc(reqs, [line], Requests(Split(buf).lines));
      var reply := respond(line);
      if |replies| == accepted {
        AnsweredPrefix(respond, all, reqs, [line] + Requests(Split(buf).lines));
        return buf, replies, false;
      }
      RepliesSnoc(respond, reqs, line);
      replies := replies + [reply];
      reqs := reqs + [line];
    }
    SplitNoNewline(buf);
    AnsweredPrefix(respond, all, reqs, []);
    return buf, replies, true;
  }
}
