/** Streaming a task's file while the task still writes it
    (convoy/batch.py:3289-3358). */
module Streaming {
  import opened Common

  const MAX_NOT_FOUND: nat := 20

  datatype Phase = Polling | Done | Raised

  /** The loop's variables and the bytes written so far. */
  datatype State = State(curr: nat, out: Bytes, finalCheck: bool, notFound: nat, phase: Phase)

  const START := State(0, [], false, 0, Polling)

  /** What one iteration hears from the service: the node is not ready, the file
      does not exist, any other error, or a size; then the bytes sent for a
      range request and whether the task is completed, where it asks for them. */
  datatype Poll = NotReady | NotFound | OtherError | Found(size: nat, sent: Bytes, completed: bool)

  /** An iteration, with the file when its size was read and when its bytes were
      sent or the state of the task was read. */
  datatype Moment = Moment(poll: Poll, atSize: Bytes, atRead: Bytes)

  function Step(s: State, poll: Poll): State {
    if s.phase != Polling then s
    else
      match poll
      case NotReady => s
      case NotFound =>
        s.(notFound := s.notFound + 1, phase := if s.notFound + 1 > MAX_NOT_FOUND then Raised else Polling)
      case OtherError => s.(phase := Raised)
      case Found(size, sent, completed) =>
        if s.curr < size then s.(curr := s.curr + |sent|, out := s.out + sent)
        else if s.curr == size && completed then
          if s.finalCheck then s.(phase := Done) else s.(finalCheck := true)
        else s
  }

  function Run(ms: seq<Moment>): State {
    if ms == [] then START else Step(Run(Front(ms)), Last(ms).poll)
  }

  // ---- the file ----------------------------------------------------------

  /** The bytes of an inclusive byte range, as section 2.1 of RFC 7233 has it:
      a last position past the end means the end. */
  function ByteRange(content: Bytes, first: nat, last: nat): Bytes {
    var end := Min(last + 1, |content|);
    if first <= end then content[first..end] else []
  }

  function LastContent(ms: seq<Moment>): Bytes {
    if ms == [] then [] else Last(ms).atRead
  }

  predicate SeenCompleted(ms: seq<Moment>) {
    ms != [] && (SeenCompleted(Front(ms)) || (Last(ms).poll.Found? && Last(ms).poll.completed))
  }

  /** The file only grows, up to `final`, where it stays once the task is
      completed; a range request for curr-size is answered with some prefix of
      that range. */
  ghost predicate Legal(ms: seq<Moment>, final: Bytes) {
    ms == [] ||
    (var m, before := Last(ms), Front(ms);
     && Legal(before, final)
     && LastContent(before) <= m.atSize <= m.atRead <= final
     && (SeenCompleted(before) ==> m.atSize == final)
     && (m.poll.Found? ==>
           m.poll.size == |m.atSize| && m.poll.sent <= ByteRange(m.atRead, Run(before).curr, m.poll.size)))
  }

  // ---- what is streamed ----------------------------------------------------

  lemma RangeContinues(final: Bytes, content: Bytes, sent: Bytes, curr: nat, size: nat)
    requires curr <= |content| && content <= final && sent <= ByteRange(content, curr, size)
    ensures curr + |sent| <= |content|
    ensures final[..curr] + sent == final[..curr + |sent|]
  {
    var range := ByteRange(content, curr, size);
    forall i | 0 <= i < |sent| ensures sent[i] == final[curr + i] {
      assert sent[i] == range[i] && range[i] == content[curr + i];
    }
    assert final[curr..curr + |sent|] == sent;
    assert final[..curr + |sent|] == final[..curr] + final[curr..curr + |sent|];
  }

  /** However slowly the file grows and however short the reads are, the output
      is the file's first curr bytes, and all of the final file once the loop has
      ended normally. */
  lemma {:induction false} OutputIsPrefix(ms: seq<Moment>, final: Bytes)
    requires Legal(ms, final)
    ensures var s := Run(ms);
      && s.curr <= |LastContent(ms)| <= |final| && s.out == final[..s.curr]
      && (s.finalCheck ==> SeenCompleted(ms))
      && (s.phase == Done ==> s.out == final)
  {
    if ms != [] {
      var s, m := Run(Front(ms)), Last(ms);
      OutputIsPrefix(Front(ms), final);
      if m.poll.Found? && s.phase == Polling && s.curr < m.poll.size {
        RangeContinues(final, m.atRead, m.poll.sent, s.curr, m.poll.size);
      }
    }
  }

  /** The second look is needed: when the task is first seen completed, bytes
      that it wrote after the size was read can be missing from the output. */
  lemma FirstLookMisses(b: Byte)
    ensures var ms := [Moment(Found(0, [], true), [], [b])];
      Legal(ms, [b]) && Run(ms).finalCheck && Run(ms).phase == Polling && Run(ms).out != [b]
  {
    var m := Moment(Found(0, [], true), [], [b]);
    var ms := [m];
    assert Front(ms) == [] && Last(ms) == m;
    assert Run(ms) == Step(START, m.poll);
    assert Legal(Front(ms), [b]) && LastContent(Front(ms)) == [] && !SeenCompleted(Front(ms));
    assert LastContent(Front(ms)) <= m.atSize <= m.atRead <= [b];
    assert m.poll.sent <= ByteRange(m.atRead, Run(Front(ms)).curr, m.poll.size);
  }

  /** An inclusive range can bring one byte more than the size that was read. */
  lemma OneByteMore(ms: seq<Moment>, final: Bytes)
    requires ms != [] && Legal(ms, final) && Last(ms).poll.Found? && Run(Front(ms)).curr < Last(ms).poll.size
    ensures Run(ms).curr <= Last(ms).poll.size + 1
    ensures Run(ms).curr == Last(ms).poll.size + 1 ==> |Last(ms).atRead| > |Last(ms).atSize|
  {
    OutputIsPrefix(Front(ms), final);
  }

  /** It does so when the file has grown by then. */
  lemma OneByteMoreHappens(a: Byte, b: Byte)
    ensures var ms := [Moment(Found(1, [a, b], false), [a], [a, b])];
      Legal(ms, [a, b]) && Run(ms).curr == Last(ms).poll.size + 1
  {
    var m := Moment(Found(1, [a, b], false), [a], [a, b]);
    var ms := [m];
    assert Front(ms) == [] && Last(ms) == m;
    assert Run(ms) == Step(START, m.poll);
    assert Legal(Front(ms), [a, b]) && LastContent(Front(ms)) == [] && !SeenCompleted(Front(ms));
    assert LastContent(Front(ms)) <= m.atSize <= m.atRead <= [a, b];
    assert m.poll.sent <= ByteRange(m.atRead, Run(Front(ms)).curr, m.poll.size);
  }

  /** Bytes once written stay written, and a poll of a node that is not ready, or of a
      file that is not there, writes none. */
  lemma {:induction false} OutputStays(ms: seq<Moment>, k: nat)
    requires k <= |ms|
    ensures Run(ms[..k]).out <= Run(ms).out && Run(ms[..k]).curr <= Run(ms).curr
    ensures ms != [] && !Last(ms).poll.Found? ==> Run(ms).out == Run(Front(ms)).out && Run(ms).curr == Run(Front(ms)).curr
    decreases |ms| - k
  {
    if k < |ms| {
      OutputStays(ms, k + 1);
      assert Front(ms[..k + 1]) == ms[..k];
    } else {
      assert ms[..k] == ms;
    }
  }

  // ---- how it ends -----------------------------------------------------

  function NotFounds(ms: seq<Moment>): nat {
    if ms == [] then 0 else NotFounds(Front(ms)) + if Last(ms).poll.NotFound? then 1 else 0
  }

  predicate AnyOtherError(ms: seq<Moment>) {
    ms != [] && (AnyOtherError(Front(ms)) || Last(ms).poll.OtherError?)
  }

  /** While the loop goes on, and when it raises: at the first other error or at
      the twenty-first missing file, however far apart they are. */
  lemma {:induction false} RaisesWhen(ms: seq<Moment>)
    ensures Run(ms).phase == Polling ==> !AnyOtherError(ms) && NotFounds(ms) == Run(ms).notFound <= 20
    ensures Run(ms).phase != Done ==>
      (Run(ms).phase == Raised <==> AnyOtherError(ms) || NotFounds(ms) > 20)
  {
    if ms != [] {
      RaisesWhen(Front(ms));
    }
  }

  /** The last n iterations hear of the completed task and its final file, and
      get at least a byte where they ask for some. */
  ghost predicate Serving(ms: seq<Moment>, final: Bytes, n: nat)
    requires n <= |ms|
    decreases n
  {
    n == 0 ||
    (var m, s := Last(ms), Run(Front(ms));
     && m.atSize == final && m.poll.Found? && m.poll.completed && (s.curr < |final| ==> m.poll.sent != [])
     && Serving(Front(ms), final, n - 1))
  }

  /** What the loop still has to do. */
  function ToDo(s: State, final: Bytes): nat
    requires s.curr <= |final|
  {
    if s.phase != Polling then 0 else |final| - s.curr + if s.finalCheck then 1 else 2
  }

  lemma ServedPollCounts(s: State, poll: Poll, final: Bytes)
    requires s.phase == Polling && s.curr <= |final| && Step(s, poll).curr <= |final|
    requires poll.Found? && poll.completed && poll.size == |final| && (s.curr < |final| ==> poll.sent != [])
    ensures Step(s, poll).phase == Polling ==> ToDo(Step(s, poll), final) + 1 <= ToDo(s, final)
  {
  }

  lemma ServedStep(ms: seq<Moment>, final: Bytes, n: nat)
    requires Legal(ms, final) && 0 < n <= |ms| && Serving(ms, final, n)
    ensures Legal(Front(ms), final) && Serving(Front(ms), final, n - 1)
    ensures Run(ms) == Step(Run(Front(ms)), Last(ms).poll)
    ensures var poll := Last(ms).poll;
      && poll.Found? && poll.completed && poll.size == |final|
      && (Run(Front(ms)).curr < |final| ==> poll.sent != [])
    ensures Run(ms).curr <= |final| && Run(Front(ms)).curr <= |final|
  {
    OutputIsPrefix(ms, final);
    OutputIsPrefix(Front(ms), final);
  }

  lemma {:induction false} EachServedPollCounts(ms: seq<Moment>, final: Bytes, n: nat)
    requires Legal(ms, final) && n <= |ms| && Serving(ms, final, n)
    ensures Run(ms).curr <= |final|
    ensures Run(ms).phase == Polling ==> ToDo(Run(ms), final) + n <= |final| + 2
    decreases n
  {
    if n == 0 {
      OutputIsPrefix(ms, final);
    } else {
      ServedStep(ms, final, n);
      EachServedPollCounts(Front(ms), final, n - 1);
      var s := Run(Front(ms));
      if s.phase == Polling {
        ServedPollCounts(s, Last(ms).poll, final);
      }
    }
  }

  /** Once the task is completed, as many polls as the file has bytes and two
      more end the loop, with the whole file unless it had raised. */
  lemma StreamingEnds(ms: seq<Moment>, final: Bytes)
    requires Legal(ms, final) && |final| + 2 <= |ms| && Serving(ms, final, |final| + 2)
    ensures Run(ms).phase != Polling
    ensures Run(ms).phase == Done ==> Run(ms).out == final
  {
    OutputIsPrefix(ms, final);
    EachServedPollCounts(ms, final, |final| + 2);
  }

  // ---- the loop ----------------------------------------------------------

  /** The polling loop of stream_file_and_wait_for_task, on the iterations of an
      environment; `used` of them happen. */
  method StreamFile(ms: seq<Moment>) returns (out: Bytes, phase: Phase, used: nat)
    ensures used <= |ms| && out == Run(ms[..used]).out && phase == Run(ms[..used]).phase
    ensures if phase == Polling then used == |ms| else used > 0 && Run(ms[..used - 1]).phase == Polling
    ensures forall final :: Legal(ms[..used], final) && phase == Done ==> out == final
  {
    var curr: nat, notFound: nat, completed, finalCheck, k := 0, 0, false, false, 0;
    out := [];
    while !completed && k < |ms|
      invariant k <= |ms|
      invariant Run(ms[..k]) == State(curr, out, finalCheck, notFound, if completed then Done else Polling)
      invariant completed ==> k > 0 && Run(ms[..k - 1]).phase == Polling
    {
      assert Front(ms[..k + 1]) == ms[..k] && Last(ms[..k + 1]) == ms[k];
      var poll := ms[k].poll;
      k := k + 1;
      match poll {
        case NotReady =>
        case NotFound =>
          notFound := notFound + 1;
          if notFound > MAX_NOT_FOUND {
            return out, Raised, k;
          }
        case OtherError =>
          return out, Raised, k;
        case Found(size, sent, taskCompleted) =>
          var received := 0;
          if curr < size {
            received := |sent|;
            out := out + sent;
          } else if curr == size {
            if taskCompleted {
              if !finalCheck {
                finalCheck := true;
              } else {
                completed := true;
              }
            }
          }
          curr := curr + received;
      }
    }
    forall final | Legal(ms[..k], final) && completed ensures out == final {
      OutputIsPrefix(ms[..k], final);
    }
    return out, if completed then Done else Polling, k;
  }
}
