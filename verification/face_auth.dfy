/**
 * FaceAuthenticator of neurovault_face_auth.py: enrolment of the reference face,
 * the per-frame match rule and the authentication loop.
 *
 * The face detector and embedding model are opaque: a Recognizer says what the
 * reference image yields (whether it loads, how many faces were located, the
 * encodings computed) and how far apart two encodings are. pickle is an opaque
 * EncodingStore; where a property needs it, it is assumed that loading what was
 * dumped gives back the encodings the recognizer produced. The camera is a stream
 * of timed frames.
 */
module FaceAuth {
  import opened Wrappers
  import opened Disk
  import opened FaceMatch
  import opened AuthLoop

  /** What face_recognition makes of an image file. */
  datatype Detection =
    | Unloadable                                     // load_image_file raises
    | Detected(faceCount: nat, encodings: seq<Encoding>) // face_locations found faceCount faces

  datatype Recognizer = Recognizer(
    analyse: Bytes -> Detection,
    distance: (Encoding, Encoding) -> real)

  datatype EncodingStore = EncodingStore(
    dump: seq<Encoding> -> Bytes,             // pickle.dump
    load: Bytes -> Option<seq<Encoding>>)     // pickle.load; None when it raises

  /** pickle.load gives back what pickle.dump wrote, for every list of encodings the recognizer computes. */
  ghost predicate StoreRoundTrips(store: EncodingStore, recognizer: Recognizer) {
    forall image: Bytes :: recognizer.analyse(image).Detected? ==>
      store.load(store.dump(recognizer.analyse(image).encodings)) == Some(recognizer.analyse(image).encodings)
  }

  /** How create_face_encodings ends: normally, or with the exception it raises. */
  datatype EnrollOutcome = Enrolled | ImageUnreadable | NoFaceFound | CouldNotEncode

  /** The branch create_face_encodings takes on what the detector made of the image. */
  function Enroll(d: Detection): (o: EnrollOutcome)
    ensures o == Enrolled <==> d.Detected? && d.faceCount > 0 && d.encodings != []
  {
    match d
    case Unloadable => ImageUnreadable
    case Detected(faceCount, encodings) =>
      if faceCount == 0 then NoFaceFound
      else if encodings == [] then CouldNotEncode
      else Enrolled
  }

  /** What cap.read() and detect_and_encode_face give for one pass of the loop. */
  datatype Frame =
    | Dropped                             // cap.read() returned ret == False
    | Captured(encodings: seq<Encoding>)  // the encodings found; empty when no face was detected

  /** A frame together with the clock reading of the timeout check that preceded it. */
  datatype TimedFrame = TimedFrame(clock: int, frame: Frame)

  /** The outcome the loop's branches assign to a frame. */
  function Classify(f: Frame, known: seq<Encoding>, distance: (Encoding, Encoding) -> real, tolerance: real): (o: Outcome)
    ensures o == Unreadable <==> f.Dropped?
    ensures o == NoFace <==> f.Captured? && f.encodings == []
    ensures o == Match <==> f.Captured? && IsMatch(known, f.encodings, distance, tolerance)
    ensures o == Mismatch <==> f.Captured? && f.encodings != [] && !IsMatch(known, f.encodings, distance, tolerance)
  {
    match f
    case Dropped => Unreadable
    case Captured(encodings) =>
      if encodings == [] then NoFace
      else if IsMatch(known, encodings, distance, tolerance) then Match
      else Mismatch
  }

  function Observe(frames: seq<TimedFrame>, known: seq<Encoding>, distance: (Encoding, Encoding) -> real, tolerance: real): (samples: seq<Sample>)
    ensures |samples| == |frames|
    ensures forall k :: 0 <= k < |frames| ==>
      samples[k] == Sample(frames[k].clock, Classify(frames[k].frame, known, distance, tolerance))
  {
    seq(|frames|, k requires 0 <= k < |frames| =>
      Sample(frames[k].clock, Classify(frames[k].frame, known, distance, tolerance)))
  }

  datatype AuthResult = AuthResult(success: bool, message: string)

  const NotEnrolledMessage: string := "No reference face found. Please setup face first."
  const NoCameraMessage: string := "Cannot access camera"

  /** The (success, message) pair authenticate returns for each way its loop ends. */
  function Reply(v: Verdict): (r: AuthResult)
    ensures r.success <==> v == Accept
    ensures !r.success ==> |r.message| > 22 && r.message[..22] == "Authentication failed:"
  {
    match v
    case Accept => AuthResult(true, "Authentication successful")
    case RejectMaxAttempts => AuthResult(false, "Authentication failed: Maximum attempts exceeded")
    case RejectTimeout => AuthResult(false, "Authentication failed: Timeout")
  }

  class FaceAuthenticator {
    const referenceImagePath: Path
    const encodingsPath: Path
    const recognizer: Recognizer
    const store: EncodingStore
    var knownFaceEncodings: seq<Encoding>
    var tolerance: real
    var maxAttempts: int
    var timeoutSeconds: int
    var files: Files

    /** What create_face_encodings does with the reference image on `disk`. */
    function Enrollment(disk: Files): (o: EnrollOutcome)
      ensures referenceImagePath !in disk ==> o == ImageUnreadable
      ensures o == Enrolled <==>
        && referenceImagePath in disk
        && recognizer.analyse(disk[referenceImagePath]).Detected?
        && recognizer.analyse(disk[referenceImagePath]).faceCount > 0
        && recognizer.analyse(disk[referenceImagePath]).encodings != []
    {
      if referenceImagePath in disk then Enroll(recognizer.analyse(disk[referenceImagePath]))
      else ImageUnreadable
    }

    /**
     * The enrolled encodings and the files after load_or_create_encodings runs on
     * `disk` with `prior` as the encodings held before.
     */
    function AfterLoadOrCreate(disk: Files, prior: seq<Encoding>): (r: (seq<Encoding>, Files))
      // a readable encodings file becomes the known list, and nothing is written
      ensures encodingsPath in disk && store.load(disk[encodingsPath]).Some? ==>
        r == (store.load(disk[encodingsPath]).value, disk)
      // an encodings file pickle cannot read empties the list
      ensures encodingsPath in disk && store.load(disk[encodingsPath]).None? ==> r == ([], disk)
      // without one, a successful enrolment stores the reference image's encodings and writes them
      ensures encodingsPath !in disk && Enrollment(disk) == Enrolled ==>
        var e := recognizer.analyse(disk[referenceImagePath]).encodings;
        e != [] && r == (e, disk[encodingsPath := store.dump(e)])
      // a failed enrolment empties the list
      ensures encodingsPath !in disk && referenceImagePath in disk && Enrollment(disk) != Enrolled ==>
        r == ([], disk)
      // with neither file nothing changes
      ensures encodingsPath !in disk && referenceImagePath !in disk ==> r == (prior, disk)
    {
      if encodingsPath in disk then
        (match store.load(disk[encodingsPath]) case Some(e) => e case None => [], disk)
      else if referenceImagePath in disk then
        var d := recognizer.analyse(disk[referenceImagePath]);
        if Enroll(d) == Enrolled then (d.encodings, disk[encodingsPath := store.dump(d.encodings)])
        else ([], disk)
      else (prior, disk)
    }

    /** An encodings file written by a successful enrolment is what the next start loads back. */
    lemma EnrollmentSurvivesRestart(disk: Files, prior: seq<Encoding>, later: seq<Encoding>)
      requires StoreRoundTrips(store, recognizer)
      requires encodingsPath !in disk && Enrollment(disk) == Enrolled
      ensures var r := AfterLoadOrCreate(disk, prior);
        r.0 != [] && AfterLoadOrCreate(r.1, later) == r
    {
    }

    /** __init__: the default limits, then load_or_create_encodings. */
    constructor (referenceImagePath: Path, encodingsPath: Path, recognizer: Recognizer, store: EncodingStore, disk: Files)
      ensures this.referenceImagePath == referenceImagePath && this.encodingsPath == encodingsPath
      ensures this.recognizer == recognizer && this.store == store
      ensures tolerance == DefaultTolerance && maxAttempts == DefaultMaxAttempts && timeoutSeconds == DefaultTimeoutSeconds
      ensures (knownFaceEncodings, files) == AfterLoadOrCreate(disk, [])
    {
      this.referenceImagePath := referenceImagePath;
      this.encodingsPath := encodingsPath;
      this.recognizer := recognizer;
      this.store := store;
      knownFaceEncodings := [];
      tolerance := DefaultTolerance;
      maxAttempts := DefaultMaxAttempts;
      timeoutSeconds := DefaultTimeoutSeconds;
      files := disk;
      new;
      LoadOrCreateEncodings();
    }

    method LoadOrCreateEncodings()
      modifies this
      ensures tolerance == old(tolerance) && maxAttempts == old(maxAttempts) && timeoutSeconds == old(timeoutSeconds)
      ensures (knownFaceEncodings, files) == AfterLoadOrCreate(old(files), old(knownFaceEncodings))
    {
      if encodingsPath in files {
        match store.load(files[encodingsPath]) {
          case Some(e) => knownFaceEncodings := e;
          case None => knownFaceEncodings := [];  // pickle.load raised
        }
        return;
      }
      if referenceImagePath in files {
        var outcome := CreateFaceEncodings();
        if outcome != Enrolled {
          knownFaceEncodings := [];
        }
      }
    }

    /** create_face_encodings; any outcome but Enrolled is the exception it raises. */
    method CreateFaceEncodings() returns (outcome: EnrollOutcome)
      modifies this
      ensures tolerance == old(tolerance) && maxAttempts == old(maxAttempts) && timeoutSeconds == old(timeoutSeconds)
      ensures outcome == Enrollment(old(files))
      ensures outcome == Enrolled ==>
        && knownFaceEncodings == recognizer.analyse(old(files)[referenceImagePath]).encodings
        && knownFaceEncodings != []
        && files == old(files)[encodingsPath := store.dump(knownFaceEncodings)]
        && (StoreRoundTrips(store, recognizer) ==> store.load(files[encodingsPath]) == Some(knownFaceEncodings))
      ensures outcome != Enrolled ==> knownFaceEncodings == old(knownFaceEncodings) && files == old(files)
    {
      if referenceImagePath !in files {
        return ImageUnreadable;
      }
      var detection := recognizer.analyse(files[referenceImagePath]);
      outcome := Enroll(detection);
      if outcome != Enrolled {
        return;
      }
      knownFaceEncodings := detection.encodings;
      files := files[encodingsPath := store.dump(knownFaceEncodings)];
    }

    /** The path update_reference_face moves the old reference image to. */
    function ReferenceBackupPath(): (p: Path)
      ensures |p| == |referenceImagePath| + 7 && p[..|referenceImagePath|] == referenceImagePath
      ensures p != referenceImagePath
    {
      referenceImagePath + ".backup"
    }

    /**
     * update_reference_face: move the current image aside, copy the new one in, and
     * enrol it. A failure after the move leaves the files shuffled.
     */
    method UpdateReferenceFace(newImagePath: Path) returns (ok: bool)
      modifies this
      ensures tolerance == old(tolerance) && maxAttempts == old(maxAttempts) && timeoutSeconds == old(timeoutSeconds)
      ensures var moved := if referenceImagePath in old(files)
                           then (old(files) - {referenceImagePath})[ReferenceBackupPath() := old(files)[referenceImagePath]]
                           else old(files);
        && (newImagePath !in moved ==> !ok && files == moved && knownFaceEncodings == old(knownFaceEncodings))
        && (newImagePath in moved ==>
              var placed := moved[referenceImagePath := moved[newImagePath]];
              && (ok <==> Enrollment(placed) == Enrolled)
              && (ok ==> knownFaceEncodings == recognizer.analyse(moved[newImagePath]).encodings
                         && files == placed[encodingsPath := store.dump(knownFaceEncodings)])
              && (!ok ==> knownFaceEncodings == old(knownFaceEncodings) && files == placed))
    {
      if referenceImagePath in files {
        files := (files - {referenceImagePath})[ReferenceBackupPath() := files[referenceImagePath]];
      }
      if newImagePath !in files {
        // shutil.copy2 raises FileNotFoundError
        return false;
      }
      files := files[referenceImagePath := files[newImagePath]];
      var outcome := CreateFaceEncodings();
      ok := outcome == Enrolled;
    }

    /** verify_face, with face_distance and the early return of its loop. */
    method VerifyFace(faceEncodings: seq<Encoding>) returns (matched: bool)
      ensures matched == IsMatch(knownFaceEncodings, faceEncodings, recognizer.distance, tolerance)
    {
      if knownFaceEncodings == [] || faceEncodings == [] {
        return false;
      }
      var j := 0;
      while j < |faceEncodings|
        invariant 0 <= j <= |faceEncodings|
        invariant forall jj, i :: 0 <= jj < j && 0 <= i < |knownFaceEncodings| ==>
          recognizer.distance(knownFaceEncodings[i], faceEncodings[jj]) > tolerance
      {
        var distances := Distances(knownFaceEncodings, faceEncodings[j], recognizer.distance);
        if AnyWithin(distances, tolerance) {
          return true;
        }
        j := j + 1;
      }
      return false;
    }

    /**
     * authenticate. `start` is the clock reading taken before the loop, `cameraOpened`
     * what cap.isOpened() says, and `frames` what the camera delivers, each with the
     * clock reading of the timeout check before it. The clock is assumed to pass the
     * deadline on some frame, as a real clock does.
     */
    method Authenticate(start: int, cameraOpened: bool, frames: seq<TimedFrame>) returns (r: AuthResult)
      requires exists k :: 0 <= k < |frames| && TimedOut(frames[k].clock, start, timeoutSeconds)
      ensures knownFaceEncodings == [] ==> r == AuthResult(false, NotEnrolledMessage)
      ensures knownFaceEncodings != [] && !cameraOpened ==> r == AuthResult(false, NoCameraMessage)
      ensures knownFaceEncodings != [] && cameraOpened ==>
        var samples := Observe(frames, knownFaceEncodings, recognizer.distance, tolerance);
        DeadlineAhead(samples, 0, start, timeoutSeconds)
        && r == Reply(Decide(samples, 0, start, timeoutSeconds, maxAttempts, Fresh).verdict)
    {
      if knownFaceEncodings == [] {
        return AuthResult(false, NotEnrolledMessage);
      }
      if !cameraOpened {
        return AuthResult(false, NoCameraMessage);
      }
      ghost var samples := Observe(frames, knownFaceEncodings, recognizer.distance, tolerance);
      ghost var deadline :| 0 <= deadline < |frames| && TimedOut(frames[deadline].clock, start, timeoutSeconds);
      assert TimedOut(samples[deadline].clock, start, timeoutSeconds);
      ghost var whole := Decide(samples, 0, start, timeoutSeconds, maxAttempts, Fresh);
      var attempts, consecutive := 0, 0;
      var i := 0;
      while attempts < maxAttempts
        invariant 0 <= i <= deadline
        invariant DeadlineAhead(samples, i, start, timeoutSeconds)
        invariant Decide(samples, i, start, timeoutSeconds, maxAttempts, Counters(attempts, consecutive)) == whole
        decreases deadline - i
      {
        if TimedOut(frames[i].clock, start, timeoutSeconds) {
          break;
        }
        match frames[i].frame {
          case Dropped =>
          case Captured(encodings) =>
            if encodings != [] {
              var matched := VerifyFace(encodings);
              if matched {
                consecutive := consecutive + 1;
                if consecutive >= RequiredMatches {
                  return Reply(Accept);
                }
              } else {
                consecutive := 0;
                attempts := attempts + 1;
              }
            } else {
              consecutive := 0;
            }
        }
        i := i + 1;
      }
      if attempts >= maxAttempts {
        r := Reply(RejectMaxAttempts);
      } else {
        r := Reply(RejectTimeout);
      }
    }
  }
}
