/**
 * The decision rule of FaceAuthenticator.authenticate, stated on the stream of
 * per-frame outcomes it sees: two counters (mismatched attempts and consecutive
 * matches), an attempt cap, a strict timeout checked before every frame, and
 * acceptance at the moment the consecutive matches reach three.
 */
module AuthLoop {
  import Disk

  /** required_matches in authenticate. */
  const RequiredMatches: int := 3

  /** The max_attempts and timeout_seconds a FaceAuthenticator starts with. */
  const DefaultMaxAttempts: int := 3
  const DefaultTimeoutSeconds: int := 10

  /** What one pass of the loop learned from the camera. */
  datatype Outcome =
    | Unreadable  // cap.read() returned no frame
    | NoFace      // detect_and_encode_face found no encodable face
    | Match       // verify_face accepted the faces in the frame
    | Mismatch    // verify_face rejected them

  /** One pass of the loop: the clock reading taken at its timeout check, and the frame's outcome. */
  datatype Sample = Sample(clock: int, outcome: Outcome)

  datatype Counters = Counters(attempts: int, consecutive: int)

  const Fresh: Counters := Counters(0, 0)

  datatype Verdict = Accept | RejectMaxAttempts | RejectTimeout

  /** How the loop ended: the verdict, how many samples it consumed, and its counters then. */
  datatype Exit = Exit(verdict: Verdict, at: nat, counters: Counters)

  /** The counter updates of one frame, made before the loop tests for three matches. */
  function Tick(c: Counters, o: Outcome): (next: Counters)
    ensures o == Unreadable ==> next == c
    ensures next.attempts == c.attempts || (o == Mismatch && next.attempts == c.attempts + 1)
    ensures next.attempts != c.attempts <==> o == Mismatch
    ensures o == Match ==> next.consecutive == c.consecutive + 1
    ensures o == NoFace || o == Mismatch ==> next.consecutive == 0
  {
    match o
    case Unreadable => c
    case NoFace => c.(consecutive := 0)
    case Match => c.(consecutive := c.consecutive + 1)
    case Mismatch => Counters(c.attempts + 1, 0)
  }

  /** `time.time() - start_time > self.timeout_seconds`: strictly later than the deadline. */
  predicate TimedOut(clock: int, start: int, timeout: int): (late: bool)
    ensures clock == start + timeout ==> !late
    ensures clock == start + timeout + 1 ==> late
  {
    clock - start > timeout
  }

  /** Once a clock reading is past the deadline, every later reading is too. */
  lemma TimedOutPersists(clock: int, later: int, start: int, timeout: int)
    requires TimedOut(clock, start, timeout) && clock <= later
    ensures TimedOut(later, start, timeout)
  {
  }

  /** Some sample from position i on is read after the deadline, so the loop cannot outrun the stream. */
  predicate DeadlineAhead(samples: seq<Sample>, i: nat, start: int, timeout: int) {
    exists k :: i <= k < |samples| && TimedOut(samples[k].clock, start, timeout)
  }

  /** The loop of authenticate from sample i on, with counters c. */
  function Decide(samples: seq<Sample>, i: nat, start: int, timeout: int, maxAttempts: int, c: Counters): (e: Exit)
    requires i <= |samples| && DeadlineAhead(samples, i, start, timeout)
    ensures i <= e.at <= |samples|
    ensures e.verdict == RejectTimeout ==> e.at < |samples| && TimedOut(samples[e.at].clock, start, timeout)
    ensures e.verdict == Accept ==> i < e.at && samples[e.at - 1].outcome == Match
    decreases |samples| - i
  {
    if c.attempts >= maxAttempts then Exit(RejectMaxAttempts, i, c)
    else if TimedOut(samples[i].clock, start, timeout) then Exit(RejectTimeout, i, c)
    else
      var next := Tick(c, samples[i].outcome);
      if samples[i].outcome == Match && next.consecutive >= RequiredMatches then Exit(Accept, i + 1, next)
      else Decide(samples, i + 1, start, timeout, maxAttempts, next)
  }

  function Outcomes(samples: seq<Sample>): (outs: seq<Outcome>)
    ensures |outs| == |samples|
    ensures forall k :: 0 <= k < |samples| ==> outs[k] == samples[k].outcome
  {
    seq(|samples|, k requires 0 <= k < |samples| => samples[k].outcome)
  }

  /** The counters after applying Tick to each outcome in turn. */
  function Replay(c: Counters, outs: seq<Outcome>): Counters
    decreases |outs|
  {
    if outs == [] then c else Replay(Tick(c, outs[0]), outs[1..])
  }

  /** The number of mismatched frames in a history. */
  function Mismatches(outs: seq<Outcome>): nat {
    if outs == [] then 0
    else Mismatches(outs[..|outs| - 1]) + (if outs[|outs| - 1] == Mismatch then 1 else 0)
  }

  /** The matches at the end of a history, not counting unreadable frames between them. */
  function TrailingMatches(outs: seq<Outcome>): nat {
    if outs == [] then 0
    else match outs[|outs| - 1]
      case Match => TrailingMatches(outs[..|outs| - 1]) + 1
      case Unreadable => TrailingMatches(outs[..|outs| - 1])
      case _ => 0
  }

  lemma {:induction false} ReplaySnoc(c: Counters, outs: seq<Outcome>, o: Outcome)
    ensures Replay(c, outs + [o]) == Tick(Replay(c, outs), o)
    decreases |outs|
  {
    if outs != [] {
      assert (outs + [o])[1..] == outs[1..] + [o];
      ReplaySnoc(Tick(c, outs[0]), outs[1..], o);
    }
  }

  /** Started from zero, the counters are the number of mismatches and the trailing run of matches. */
  lemma {:induction false} ReplayCounts(outs: seq<Outcome>)
    ensures Replay(Fresh, outs) == Counters(Mismatches(outs), TrailingMatches(outs))
    decreases |outs|
  {
    if outs != [] {
      var prefix, last := outs[..|outs| - 1], outs[|outs| - 1];
      assert outs == prefix + [last];
      ReplayCounts(prefix);
      ReplaySnoc(Fresh, prefix, last);
    }
  }

  /** The loop consumes a prefix of the stream, all of it before the deadline, and its counters replay that prefix. */
  lemma {:induction false} DecideTrace(samples: seq<Sample>, i: nat, start: int, timeout: int, maxAttempts: int, c: Counters)
    requires i <= |samples| && DeadlineAhead(samples, i, start, timeout)
    ensures var e := Decide(samples, i, start, timeout, maxAttempts, c);
      && e.counters == Replay(c, Outcomes(samples)[i..e.at])
      && forall j :: i <= j < e.at ==> !TimedOut(samples[j].clock, start, timeout)
    decreases |samples| - i
  {
    var e := Decide(samples, i, start, timeout, maxAttempts, c);
    if c.attempts < maxAttempts && !TimedOut(samples[i].clock, start, timeout) {
      var next := Tick(c, samples[i].outcome);
      var outs := Outcomes(samples)[i..e.at];
      if samples[i].outcome == Match && next.consecutive >= RequiredMatches {
        assert outs == [samples[i].outcome];
      } else {
        DecideTrace(samples, i + 1, start, timeout, maxAttempts, next);
        assert outs[0] == samples[i].outcome;
        assert outs[1..] == Outcomes(samples)[i + 1..e.at];
      }
    }
  }

  /** The loop reports "Maximum attempts exceeded" exactly when the attempts reached the cap. */
  lemma {:induction false} DecideVerdict(samples: seq<Sample>, i: nat, start: int, timeout: int, maxAttempts: int, c: Counters)
    requires i <= |samples| && DeadlineAhead(samples, i, start, timeout)
    ensures var e := Decide(samples, i, start, timeout, maxAttempts, c);
      e.verdict == RejectMaxAttempts <==> e.counters.attempts >= maxAttempts
    decreases |samples| - i
  {
    if c.attempts < maxAttempts && !TimedOut(samples[i].clock, start, timeout) {
      var next := Tick(c, samples[i].outcome);
      if !(samples[i].outcome == Match && next.consecutive >= RequiredMatches) {
        DecideVerdict(samples, i + 1, start, timeout, maxAttempts, next);
      }
    }
  }

  /**
   * The loop invariant of authenticate: attempts never pass the cap and the consecutive
   * matches stay below three, except at the moment of acceptance, when they are exactly three.
   */
  lemma {:induction false} DecideBounds(samples: seq<Sample>, i: nat, start: int, timeout: int, maxAttempts: int, c: Counters)
    requires i <= |samples| && DeadlineAhead(samples, i, start, timeout)
    requires 0 <= c.attempts && 0 <= c.consecutive < RequiredMatches
    ensures var e := Decide(samples, i, start, timeout, maxAttempts, c);
      && 0 <= e.counters.attempts <= Disk.Max(maxAttempts, c.attempts)
      && 0 <= e.counters.consecutive
      && (e.verdict == Accept <==> e.counters.consecutive == RequiredMatches)
      && (e.verdict != Accept ==> e.counters.consecutive < RequiredMatches)
    decreases |samples| - i
  {
    if c.attempts < maxAttempts && !TimedOut(samples[i].clock, start, timeout) {
      var next := Tick(c, samples[i].outcome);
      if !(samples[i].outcome == Match && next.consecutive >= RequiredMatches) {
        DecideBounds(samples, i + 1, start, timeout, maxAttempts, next);
      }
    }
  }


  /**
   * A fresh session accepts only right after three matching frames with nothing but
   * unreadable frames between them, all read before the deadline.
   */
  lemma AcceptedAfterThreeInARow(samples: seq<Sample>, start: int, timeout: int, maxAttempts: int)
    requires DeadlineAhead(samples, 0, start, timeout)
    ensures var e := Decide(samples, 0, start, timeout, maxAttempts, Fresh);
      e.verdict == Accept ==>
        && TrailingMatches(Outcomes(samples)[..e.at]) == RequiredMatches
        && samples[e.at - 1].outcome == Match
        && Mismatches(Outcomes(samples)[..e.at]) < maxAttempts
        && forall j :: 0 <= j < e.at ==> !TimedOut(samples[j].clock, start, timeout)
  {
    var e := Decide(samples, 0, start, timeout, maxAttempts, Fresh);
    DecideTrace(samples, 0, start, timeout, maxAttempts, Fresh);
    DecideVerdict(samples, 0, start, timeout, maxAttempts, Fresh);
    DecideBounds(samples, 0, start, timeout, maxAttempts, Fresh);
    assert Outcomes(samples)[0..e.at] == Outcomes(samples)[..e.at];
    ReplayCounts(Outcomes(samples)[..e.at]);
  }

  /**
   * A fresh session that stops on attempts has seen exactly max_attempts mismatches (none
   * when the cap is not positive); one that times out has seen fewer, and every frame it
   * consumed was read before the deadline.
   */
  lemma RejectionReason(samples: seq<Sample>, start: int, timeout: int, maxAttempts: int)
    requires DeadlineAhead(samples, 0, start, timeout)
    ensures var e := Decide(samples, 0, start, timeout, maxAttempts, Fresh);
      && (e.verdict == RejectMaxAttempts ==> Mismatches(Outcomes(samples)[..e.at]) == Disk.Max(maxAttempts, 0))
      && (e.verdict == RejectTimeout ==>
            && Mismatches(Outcomes(samples)[..e.at]) < maxAttempts
            && TimedOut(samples[e.at].clock, start, timeout)
            && forall j :: 0 <= j < e.at ==> !TimedOut(samples[j].clock, start, timeout))
  {
    var e := Decide(samples, 0, start, timeout, maxAttempts, Fresh);
    DecideTrace(samples, 0, start, timeout, maxAttempts, Fresh);
    DecideVerdict(samples, 0, start, timeout, maxAttempts, Fresh);
    DecideBounds(samples, 0, start, timeout, maxAttempts, Fresh);
    assert Outcomes(samples)[0..e.at] == Outcomes(samples)[..e.at];
    ReplayCounts(Outcomes(samples)[..e.at]);
  }

  /** Feeds `samples` to a fresh session with the default limits, starting at clock 0. */
  function RunFresh(samples: seq<Sample>): Exit
    requires DeadlineAhead(samples, 0, 0, DefaultTimeoutSeconds)
  {
    Decide(samples, 0, 0, DefaultTimeoutSeconds, DefaultMaxAttempts, Fresh)
  }

  /** MATCH, MATCH, MATCH within the deadline: accepted with no attempt used. */
  lemma ThreeMatchesAccept()
    ensures var s := [Sample(1, Match), Sample(2, Match), Sample(3, Match), Sample(11, Unreadable)];
      DeadlineAhead(s, 0, 0, 10) && RunFresh(s) == Exit(Accept, 3, Counters(0, 3))
  {
    var s := [Sample(1, Match), Sample(2, Match), Sample(3, Match), Sample(11, Unreadable)];
    assert TimedOut(s[3].clock, 0, 10);
  }

  /** MISMATCH three times: rejected for attempts after three frames. */
  lemma ThreeMismatchesReject()
    ensures var s := [Sample(1, Mismatch), Sample(2, Mismatch), Sample(3, Mismatch), Sample(11, Unreadable)];
      DeadlineAhead(s, 0, 0, 10) && RunFresh(s) == Exit(RejectMaxAttempts, 3, Counters(3, 0))
  {
    var s := [Sample(1, Mismatch), Sample(2, Mismatch), Sample(3, Mismatch), Sample(11, Unreadable)];
    assert TimedOut(s[3].clock, 0, 10);
  }

  /** MATCH, MATCH, MISMATCH, MATCH, MATCH, MATCH: accepted with one of three attempts used. */
  lemma InterruptedRunStillAccepts()
    ensures var s := [Sample(1, Match), Sample(2, Match), Sample(3, Mismatch), Sample(4, Match),
                      Sample(5, Match), Sample(6, Match), Sample(11, Unreadable)];
      DeadlineAhead(s, 0, 0, 10) && RunFresh(s) == Exit(Accept, 6, Counters(1, 3))
  {
    var s := [Sample(1, Match), Sample(2, Match), Sample(3, Mismatch), Sample(4, Match),
              Sample(5, Match), Sample(6, Match), Sample(11, Unreadable)];
    assert TimedOut(s[6].clock, 0, 10);
  }

  /** No frame before the deadline: rejected on timeout without consuming anything. */
  lemma NoFramesTimesOut()
    ensures var s := [Sample(11, Match)];
      DeadlineAhead(s, 0, 0, 10) && RunFresh(s) == Exit(RejectTimeout, 0, Fresh)
  {
    var s := [Sample(11, Match)];
    assert TimedOut(s[0].clock, 0, 10);
  }

  /** Frames read exactly at the deadline are still processed: the timeout is strict. */
  lemma DeadlineIsStrict()
    ensures var s := [Sample(10, Match), Sample(10, Match), Sample(10, Match), Sample(11, Unreadable)];
      DeadlineAhead(s, 0, 0, 10) && RunFresh(s) == Exit(Accept, 3, Counters(0, 3))
  {
    var s := [Sample(10, Match), Sample(10, Match), Sample(10, Match), Sample(11, Unreadable)];
    assert TimedOut(s[3].clock, 0, 10);
  }

  /** Unreadable frames leave both counters alone; a frame without a face resets only the run. */
  lemma NoFaceResetsRunButCostsNoAttempt()
    ensures var s := [Sample(1, Match), Sample(2, Unreadable), Sample(3, Match), Sample(4, NoFace),
                      Sample(5, Match), Sample(11, Unreadable)];
      DeadlineAhead(s, 0, 0, 10) && RunFresh(s) == Exit(RejectTimeout, 5, Counters(0, 1))
  {
    var s := [Sample(1, Match), Sample(2, Unreadable), Sample(3, Match), Sample(4, NoFace),
              Sample(5, Match), Sample(11, Unreadable)];
    assert TimedOut(s[5].clock, 0, 10);
  }
}
