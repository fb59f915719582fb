# easy_cozmo ball detection: a Dafny model

This project models the core of the easy_cozmo ball-detection code and proves
properties of the model. It covers three pieces:

- **Box acceptance and selection.** `detect_ball` exists in two versions:
  `easy_cozmo/ball_detection_utils.py` on the robot side, and
  `easy_cozmo/server.py` in the detection server. Both take the detector's
  boxes `(x1, y1, x2, y2, conf, cls)` and compute the radius
  `int(0.5 * max(x2 - x1, y2 - y1))` and a truncated center. Only the
  **first** box decides the answer.
  - The robot-side version accepts a box with `conf >= 0.8` and
    `20 < radius < 80`.
  - The server accepts a box with `conf >= 0.7` and `radius > 17`.
  - The server's answer is a `{'results': ...}` record, a
    `{"success": False, "error": ...}` record, or `None`.
- **Line framing in the server session** (`handle_client`). Each received
  chunk is appended to a buffer. While the buffer holds a `'\n'`, the text
  before it is split off and stripped. Blank lines are skipped, and every
  other line gets exactly one reply, in order. An empty receive ends the
  session. So does a failed send, at once, even with complete lines still
  buffered.
- **PnP correspondence construction** (`get_ball_pnp`). From the observed
  circle `(center, rad)` it builds nine 3D points on a sphere and nine
  matching image points, and it picks default or overridden camera
  intrinsics. The model stops before the PnP solve.

Layout:

- `detections.dfy` (module `Detections`): the detector's output, Python's
  truncating `int()`, and the radius and center both `detect_ball`
  functions compute from a box.
- `ball_detection_utils.dfy` (module `BallDetectionUtils`): the robot-side
  `detect_ball`, and `get_ball_pnp` up to the solver.
- `line_framing.dfy` (module `LineFraming`): Python's `str.strip()`, the
  split at the first `'\n'`, and the framing of accumulated text into
  complete lines, a tail and requests.
- `server.dfy` (module `Server`): the server's `detect_ball`, and the class
  `Session` with method `Feed` for one `recv`. The inner
  `while '\n' in buffer` loop is the method `AnswerAll`.

Modelling choices:

- Box coordinates and confidences are reals.
- `int()` is truncation toward zero (`Detections.Trunc`): the code
  truncates; it does not round.
- The server's detector and image reader are the two functions of a
  `Backend`: `readable(path)` stands for `cv2.imread` returning an image, and
  `infer(path)` for the detector, which yields its boxes or raises with a
  message.
- On zero boxes the server's `detect_ball` falls off its loop and returns
  `None`, which goes out as `null`, not a "not detected" record
  (`Reply.Null`).
- A `Feed(chunk, accepted)` call takes `chunk`, the decoded text of one
  `recv`, and `accepted`, how many more sends succeed before one fails with
  a reset or broken pipe.
- `Session.Valid()` is the session invariant. Every reply sent answers, in
  order, the stripped non-blank lines received so far. While the session
  runs, all of them are answered and the buffer is exactly the text after
  the last `'\n'`.
- `get_ball_pnp` uses `math.sin(pi/4)` and `math.cos(pi/4)`. As doubles
  they differ in the last digit, so the model carries them as two constants,
  `Sin45` and `Cos45`, with those values.

## Model

| member | source | states |
|---|---|---|
| Detections.Trunc | easy_cozmo/server.py:25-27 | `int()` on a number drops the fraction toward zero: for x >= 0, n <= x < n + 1 and n >= 0; for x < 0, x <= n < x + 1 and n <= 0 |
| Detections.Radius | easy_cozmo/ball_detection_utils.py:107 | for a box of non-negative larger side E, the radius r satisfies 2r <= E < 2r + 2; a negative side gives a radius <= 0 |
| Detections.Center | easy_cozmo/ball_detection_utils.py:110 | for corners 0 <= x1 <= x2 (resp. y), the truncated midpoint c satisfies x1 - 1 < c <= x2 |
| Detections.RadiusAbove | easy_cozmo/ball_detection_utils.py:107-109 | radius > m exactly when the larger side is at least 2(m + 1) |
| Detections.RadiusBelow | easy_cozmo/ball_detection_utils.py:107-109 | radius < m exactly when the larger side is below 2m |
| BallDetectionUtils.DetectBall | easy_cozmo/ball_detection_utils.py:104-127 | detected exactly when center and radius are both present; a detected radius is strictly between 20 and 80; detection implies there was a first box with conf >= threshold |
| BallDetectionUtils.Accepts | easy_cozmo/ball_detection_utils.py:107-109 | the test on one box, `conf >= conf_thresh and 20 < radius < 80`; `AcceptsIff` states it in terms of the box's sides |
| BallDetectionUtils.AcceptsIff | easy_cozmo/ball_detection_utils.py:90-109 | a box passes exactly when conf >= threshold and its larger side lies in [42, 160), so radius 20 and radius 80 are both rejected |
| BallDetectionUtils.DetectBallOutcome | easy_cozmo/ball_detection_utils.py:104-127 | for every input: detected iff the first box exists and passes; then center and radius are that box's truncated midpoint and radius; otherwise (no box, failing first box, raised exception) the answer is (False, None, None) |
| BallDetectionUtils.FirstBoxDecides | easy_cozmo/ball_detection_utils.py:104-121 | the boxes after the first never change the answer |
| BallDetectionUtils.LaterBoxNeverRescues | easy_cozmo/ball_detection_utils.py:104-121 | a failing first box gives "not detected" even when the next box would pass |
| BallDetectionUtils.BoundaryBoxRejected | easy_cozmo/ball_detection_utils.py:107-109 | a 40-pixel box has radius exactly 20 and is rejected at confidence 0.9 |
| BallDetectionUtils.InteriorBoxAccepted | easy_cozmo/ball_detection_utils.py:107-118 | a 50-pixel box at (100, 100) with confidence 0.9 is detected with center (125, 125) and radius 25 |
| BallDetectionUtils.SpherePoints | easy_cozmo/ball_detection_utils.py:160-170 | there are nine object points |
| BallDetectionUtils.CirclePoints | easy_cozmo/ball_detection_utils.py:171-180 | there are nine image points |
| BallDetectionUtils.BallPnpProblem | easy_cozmo/ball_detection_utils.py:136-180 | nine object and nine image points; the camera matrix and the distortion are each the override when one is passed and the defaults [[fx,0,cx],[0,fy,cy],[0,0,1]] and [k1,k2,0,0] otherwise |
| BallDetectionUtils.ImagePointPattern | easy_cozmo/ball_detection_utils.py:171-180 | image point 0 is the center; points 1-4 are offset by -rad/+rad on x, then on y; points 5-8 by +-rad*cos(pi/4) along one axis only |
| BallDetectionUtils.CorrespondenceIsScaledProjection | easy_cozmo/ball_detection_utils.py:160-180 | the pairing by index is a scaled orthographic view: image point i is the center moved by rad/25 times object point i's (y, -z) |
| BallDetectionUtils.ObjectPointsOnSphere | easy_cozmo/ball_detection_utils.py:160-170 | the five axis points lie exactly on the sphere of radius 25; the four diagonal ones lie on it to within 1e-6 in squared norm |
| BallDetectionUtils.BallRadiusOverrideIgnored | easy_cozmo/ball_detection_utils.py:137-168 | passing `ball_radius` leaves the problem unchanged: point 0 is (25, 0, 0) whatever the override |
| BallDetectionUtils.BallPnpProblemCorrected | easy_cozmo/ball_detection_utils.py:157-168 | without an override it is the problem as written; with override R, object point 0 is (R, 0, 0) |
| BallDetectionUtils.CorrectedProjectionUsesRequestedRadius | easy_cozmo/ball_detection_utils.py:157-180 | with override R > 0, image point i is the center moved by rad/R times the corrected object point's (y, -z) |
| LineFraming.StripBlank | easy_cozmo/server.py:61-63 | a line strips to nothing exactly when it is all whitespace in the sense of `str.isspace` |
| LineFraming.IsSpace | easy_cozmo/server.py:61 | the whitespace set of `str.strip()` and `str.isspace()`: code points 9-13, 28-32, 0x85, 0xA0, 0x1680, 0x2000-0x200A, 0x2028, 0x2029, 0x202F, 0x205F and 0x3000; its properties as used by `strip` are in `StripBlank` and `StripSpec` |
| LineFraming.Strip | easy_cozmo/server.py:61 | `line.strip()`: never longer than the line; `StripBlank`, `StripSpec` and `StripIdempotent` pin the result down |
| LineFraming.StripSpec | easy_cozmo/server.py:61 | a stripped line is the run of the line from its first non-space character, starts and ends with a non-space character, and everything dropped before and after it is whitespace |
| LineFraming.StripIdempotent | easy_cozmo/server.py:61 | stripping twice is stripping once |
| LineFraming.NewlineIndexSpec | easy_cozmo/server.py:60 | the split point is the first '\n': no '\n' before it, and one at it unless it is the end |
| LineFraming.SplitOnce | easy_cozmo/server.py:60 | `split('\n', 1)` gives a head without '\n' and a remainder with head + "\n" + remainder equal to the input |
| LineFraming.Split | easy_cozmo/server.py:59-60 | the effect of repeating `line, buffer = buffer.split('\n', 1)` while a '\n' remains: the complete lines in order and the unterminated tail; `SplitJoin` and `SplitUnique` characterise it in both directions |
| LineFraming.SplitJoin | easy_cozmo/server.py:57-60 | after framing, the tail holds no '\n', no line holds one, and the lines, each followed by '\n', plus the tail rebuild the input exactly |
| LineFraming.SplitNoNewline | easy_cozmo/server.py:59 | text without a '\n' frames no line and stays whole in the buffer |
| LineFraming.SplitUnique | easy_cozmo/server.py:59-60 | any '\n'-free lines and '\n'-free tail that rebuild the input are the framing |
| LineFraming.SplitCons | easy_cozmo/server.py:60 | a complete first line, then the framing of what follows it |
| LineFraming.SplitFirstLine | easy_cozmo/server.py:59-60 | framing a buffer with a '\n' is its `split('\n', 1)` head followed by the framing of the remainder |
| LineFraming.SplitAppend | easy_cozmo/server.py:57-60 | receiving in chunks frames like receiving at once: the lines of a + b are those of a, then those of a's tail followed by b |
| LineFraming.Requests | easy_cozmo/server.py:59-63 | there are at most as many requests as lines, and none is empty |
| LineFraming.RequestsAppend | easy_cozmo/server.py:59-63 | requests are taken line by line, in order: those of xs + ys are those of xs, then those of ys |
| LineFraming.RequestsOfLine | easy_cozmo/server.py:61-63 | one line makes no request if it is whitespace only, and its stripped text otherwise |
| LineFraming.RequestsCons | easy_cozmo/server.py:59-63 | the requests of a first line followed by more lines |
| Server.DetectBall | easy_cozmo/server.py:16-41 | a failure exactly when the image is unreadable or the detector raises; unreadable gives "Image not found or unreadable." and a raising detector its own message; `None` exactly on zero boxes; every results record has all fields set or none; a detected radius is above 17 |
| Server.Accepts | easy_cozmo/server.py:25-26 | the test on one box, `conf >= conf_thresh and radius > 17`; `AcceptsIff` states it in terms of the box's sides |
| Server.Found | easy_cozmo/server.py:27-31 | the record for an accepted box is detected with all seven fields set; `DetectBallOnBoxes` gives their values |
| Server.AcceptsIff | easy_cozmo/server.py:16-26 | a box passes exactly when conf >= threshold and its larger side is at least 36; there is no upper bound |
| Server.DetectBallOnBoxes | easy_cozmo/server.py:22-35 | with a first box: a results record, detected iff that box passes, with cx, cy its truncated midpoint, x1..y2 its corners and radius its truncated half larger side |
| Server.FirstBoxDecides | easy_cozmo/server.py:23-35 | replacing every box after the first leaves the reply unchanged |
| Server.Replies | easy_cozmo/server.py:59-68 | one reply per request |
| Server.RepliesAt | easy_cozmo/server.py:59-68 | reply k answers request k |
| Server.RepliesAppend | easy_cozmo/server.py:59-68 | the replies to xs + ys are those to xs, then those to ys |
| Server.TakeLine | easy_cozmo/server.py:59-63 | taking the first line off the buffer: its requests are that line's, unless it is blank, then the remainder's; the tail is unchanged |
| Server.ReceiveMore | easy_cozmo/server.py:57 | after `buffer += data`, the requests are the earlier ones followed by those framed from the old tail plus the chunk |
| Server.FeedKeepsValid | easy_cozmo/server.py:51-71 | a feed that answers a prefix of the new requests keeps the session invariant: replies sent are a prefix of the replies due, and all of them while open |
| Server.NextLine | easy_cozmo/server.py:60-63 | one inner-loop step shortens the buffer, keeps its tail, and takes off exactly the first request, or none for a blank line |
| Server.AnswerAll | easy_cozmo/server.py:59-71 | the loop answers the buffer's requests in order; it runs to the end exactly when `accepted` covers them all, else it stops after `accepted` replies; at the end the buffer is the framing tail and holds no '\n' |
| Server.Session.constructor | easy_cozmo/server.py:45-49 | a new session is open with empty buffer and nothing received or sent, and satisfies the invariant |
| Server.Session.Feed | easy_cozmo/server.py:51-71 | keeps the invariant; a closed session is unchanged; an empty chunk closes it; otherwise it sends the replies to the new requests in order, stays open exactly when every send succeeded, and then keeps exactly the unterminated tail |

## Left out

- `load_model` in both files and `yolov5.load`, with the Windows `PosixPath` patch: a foreign library call and file I/O.
- `color_segmentation`, `crop_image_for_ball` and `save_image` (easy_cozmo/ball_detection_utils.py:10-72): OpenCV pixel transforms and filesystem I/O outside the modelled core.
- The temporary-file write and delete in the robot-side `detect_ball` and `cv2.imread` in the server: I/O. Readability is the `Backend.readable` predicate. Any exception those steps raise is a `Raised` inference.
- The frame that the robot-side `detect_ball` returns, and the `tag` drawing on it: the model returns `(found, center, radius)` only.
- `cv.solvePnP` and its results: foreign numerics. Object and image points are exact reals, not doubles.
- `start_server`, the accept loop and threading, socket setup, the 1024-byte `recv` size and UTF-8 decoding: I/O and concurrency. A chunk is already-decoded text.
- The JSON text of a reply: a reply is the `Reply` datatype. The `'\n'` appended to each send is not modelled.
- The log lines printed on connect, disconnect and error.
- The outer `except Exception` of `handle_client`: `conn.recv` raising (a reset connection, say), a UTF-8 decoding error, or a send error other than reset or broken pipe ends the session. In the model such an end acts like `Feed` with an empty chunk: the session closes and sends nothing more.
- Server.DetectBall: the image files and the detector are one fixed `Backend` for the whole session, so two requests naming the same path get the same reply. The code re-reads the file on every request, so a file rewritten or deleted between requests can change the reply.
- BallDetectionUtils.DetectBall: an exception raised after the first box is accepted, by the `tag` drawing or the colour conversion, turns an accepted box into `(False, frame, None, None)`. The model has such exceptions only before the loop (`Raised`), so an accepted first box is always reported as detected.
- An idle timeout and the deletion of temporary files by the server: `server.py` has neither (its `recv` has no timeout), so the model has neither.
- Server.Replies: states only the count. What each reply is comes from `RepliesAt`.
- LineFraming.Requests: states only the count bound and non-emptiness. Which lines become requests comes from `RequestsOfLine`, `RequestsCons` and `RequestsAppend`.

## Findings

| source | as written | input that shows it | evidently intended | confidence | as-written member | corrected member |
|---|---|---|---|---|---|---|
| easy_cozmo/ball_detection_utils.py:157-168 | a `ball_radius` keyword is stored in `ball_radius`, but the object points read `ballradius`, which stays 25 | `get_ball_pnp(center, rad, ball_radius=30)`: object point 0 is still (25, 0, 0) | the object points use the requested radius, so that point 0 is (30, 0, 0) | not executed | BallDetectionUtils.BallRadiusOverrideIgnored | BallDetectionUtils.BallPnpProblemCorrected |
