/** One client session of the server: it answers each received chunk with
    one response, in order, until the peer closes or an exception reaches the
    handler's outer `except` (a failing read, bytes that are not UTF-8, JSON
    that is not an object). The chunk that ends the session gets no
    response. */
module Session {
  import opened Base
  import opened Engine

  /** What decoding one received chunk yields. The JSON parser and the UTF-8
      decoder are not modelled; only their verdicts are. */
  datatype Payload =
    | NotUtf8                      // `data.decode("utf-8")` raised
    | NotJson                      // `json.loads` raised `JSONDecodeError`
    | NonObject                    // valid JSON without a `.get` method
    | Object(operation: Option<OpField>, args: Option<ArgList>)

  /** One `recv` on the connection. */
  datatype Received =
    | Eof                          // zero bytes: the peer shut down
    | ReadFault                    // the read raised (connection reset, OS error)
    | Chunk(payload: Payload)

  datatype Outcome = Reply(response: Response) | Close

  const InvalidFormatMessage := "Format request tidak valid (bukan JSON)!"

  /** The receives after which the handler leaves its loop without replying. */
  predicate Ends(m: Received)
  {
    || m.Eof?
    || m.ReadFault?
    || (m.Chunk? && (m.payload.NotUtf8? || m.payload.NonObject?))
  }

  /** One pass of the handler's loop. */
  function Step(m: Received): (o: Outcome)
    ensures o.Close? <==> Ends(m)
    ensures m == Chunk(NotJson) ==> o == Reply(Error(InvalidFormatMessage))
    ensures m.Chunk? && m.payload.Object? && m.payload.args.None? ==> o == Reply(Error(ArityMessage))
  {
    match m
    case Eof => Close
    case ReadFault => Close
    case Chunk(p) =>
      match p
      case NotUtf8 => Close
      case NotJson => Reply(Error(InvalidFormatMessage))
      case NonObject => Close
      case Object(op, args) => Reply(Calculate(op.GetOr(Named("")), args.GetOr(Items([]))))
  }

  /** A request object is answered exactly as the engine answers its fields,
      an absent `operation` reading as the empty name and absent `args` as
      the empty list. */
  lemma ObjectIsCalculated(op: Option<OpField>, args: Option<ArgList>)
    ensures Step(Chunk(Object(op, args))) ==
              Reply(Calculate(if op.Some? then op.value else Named(""),
                              if args.Some? then args.value else Items([])))
  {
  }

  /** The responses a session sends for the receives `ms`: one per receive,
      up to the first receive that ends it. */
  function Transcript(ms: seq<Received>): (sent: seq<Response>)
    ensures |sent| <= |ms|
    ensures forall i | 0 <= i < |sent| :: Step(ms[i]) == Reply(sent[i])
  {
    if ms == [] then []
    else match Step(ms[0])
      case Close => []
      case Reply(r) => [r] + Transcript(ms[1..])
  }

  /** `k` is the number of receives the session answers: every receive
      before position `k` gets a reply, and the one at `k`, if any, ends it. */
  predicate AnswersUpTo(ms: seq<Received>, k: nat)
  {
    && k <= |ms|
    && (forall i | 0 <= i < k :: !Ends(ms[i]))
    && (k < |ms| ==> Ends(ms[k]))
  }

  /** The transcript holds one reply per answered receive, in arrival order. */
  lemma {:induction false} TranscriptInOrder(ms: seq<Received>, k: nat)
    requires AnswersUpTo(ms, k)
    ensures |Transcript(ms)| == k
    ensures forall i | 0 <= i < k :: Step(ms[i]) == Reply(Transcript(ms)[i])
  {
    if ms != [] && k > 0 {
      assert !Ends(ms[0]);
      assert AnswersUpTo(ms[1..], k - 1) by {
        forall i | 0 <= i < k - 1
          ensures !Ends(ms[1..][i])
        {
          assert ms[1..][i] == ms[i + 1];
        }
      }
      TranscriptInOrder(ms[1..], k - 1);
    }
  }

  /** Receives after the one that ends the session are never answered. */
  lemma {:induction false} NothingAfterClose(ms: seq<Received>, rest: seq<Received>)
    requires exists i | 0 <= i < |ms| :: Ends(ms[i])
    ensures Transcript(ms + rest) == Transcript(ms)
  {
    if Ends(ms[0]) {
    } else {
      assert (ms + rest)[1..] == ms[1..] + rest;
      var i :| 0 <= i < |ms| && Ends(ms[i]);
      assert Ends(ms[1..][i - 1]);
      NothingAfterClose(ms[1..], rest);
    }
  }

  /** While no receive ends it, a session answers consecutive batches
      independently. */
  lemma {:induction false} TranscriptAppend(ms: seq<Received>, rest: seq<Received>)
    requires forall i | 0 <= i < |ms| :: !Ends(ms[i])
    ensures Transcript(ms + rest) == Transcript(ms) + Transcript(rest)
  {
    if ms == [] {
      assert ms + rest == rest;
    } else {
      assert (ms + rest)[1..] == ms[1..] + rest;
      assert !Ends(ms[0]);
      TranscriptAppend(ms[1..], rest);
    }
  }

  /** A payload that is not JSON is answered with the fixed format error and
      the session carries on with the next receive. */
  lemma MalformedKeepsSessionOpen(rest: seq<Received>)
    ensures Transcript([Chunk(NotJson)] + rest) == [Error(InvalidFormatMessage)] + Transcript(rest)
  {
    assert ([Chunk(NotJson)] + rest)[1..] == rest;
  }

  /** The handler's `while True` loop over the receives of one connection,
      returning what it sends. */
  method Serve(ms: seq<Received>) returns (sent: seq<Response>)
    ensures AnswersUpTo(ms, |sent|)
    ensures forall i | 0 <= i < |sent| :: Step(ms[i]) == Reply(sent[i])
  {
    sent := [];
    var i := 0;
    while i < |ms|
      invariant i == |sent| <= |ms|
      invariant forall j | 0 <= j < i :: !Ends(ms[j]) && Step(ms[j]) == Reply(sent[j])
    {
      var outcome := Step(ms[i]);
      if outcome.Close? {
        return;
      }
      sent := sent + [outcome.response];
      i := i + 1;
    }
  }

  /** The loop sends exactly the transcript. */
  lemma ServeIsTranscript(ms: seq<Received>, sent: seq<Response>)
    requires AnswersUpTo(ms, |sent|)
    requires forall i | 0 <= i < |sent| :: Step(ms[i]) == Reply(sent[i])
    ensures sent == Transcript(ms)
  {
    TranscriptInOrder(ms, |sent|);
  }
}
