/**
 Chunked uploads: chunk files are written in any order into a temporary directory, a session counts them, and finalize
 joins them. One upload is modelled; SHA-256 is a parameter.
 */
module ChunkedUpload {
  import opened ChunkPlan
  import opened Files
  import opened Outcomes
  import opened Runs

  datatype Session = Session(
    totalChunks: int, totalSize: int, checksum: Option<string>, uploadedChunks: seq<int>, uploadedBytes: int)

  /** The session in the cache, the chunk files if the temporary directory exists, and the target file. */
  datatype Upload = Upload(session: Option<Session>, chunks: Option<map<int, Bytes>>, target: Option<Bytes>)

  datatype Error = Expired | Incomplete | Missing(index: int) | Mismatch | NoDirectory

  type Digest = Bytes -> string

  function Initiated(totalSize: int, totalChunks: int, checksum: Option<string>, target: Option<Bytes>): Upload {
    Upload(Some(Session(totalChunks, totalSize, checksum, [], 0)), Some(map[]), target)
  }

  /** A declared checksum is checked unless it is the empty text. */
  predicate Declares(s: Session) {
    s.checksum.Some? && s.checksum.value != ""
  }

  /** One chunk write: the file is overwritten first and removed again if the hash does not match. */
  function Write(u: Upload, sha256: Digest, index: int, hash: string, content: Bytes): (Upload, Result<(), Error>) {
    if u.session == None then (u, Err(Expired))
    else if u.chunks == None then (u, Err(NoDirectory))
    else if sha256(content) != hash then (u.(chunks := Some(u.chunks.value - {index})), Err(Mismatch))
    else
      var s := u.session.value;
      var s' := s.(uploadedChunks := s.uploadedChunks + [index], uploadedBytes := s.uploadedBytes + |content|);
      (u.(session := Some(s'), chunks := Some(u.chunks.value[index := content])), Ok(()))
  }

  predicate Has(u: Upload, index: int) {
    u.chunks.Some? && index in u.chunks.value
  }

  /** The contents of chunk files 0 to n - 1, or the first of them that does not exist. */
  function Joined(u: Upload, n: int): Result<Bytes, Error> {
    if n <= 0 then Ok([])
    else match Joined(u, n - 1)
      case Err(e) => Err(e)
      case Ok(front) => if Has(u, n - 1) then Ok(front + u.chunks.value[n - 1]) else Err(Missing(n - 1))
  }

  /** Finalize: the count gate, the reassembly, and the check of the declared checksum. The value is the target. */
  function Finalize(u: Upload, sha256: Digest): (Upload, Result<Bytes, Error>) {
    if u.session == None then (u, Err(Expired))
    else
      var s := u.session.value;
      if |s.uploadedChunks| < s.totalChunks then (u, Err(Incomplete))
      else match Joined(u, s.totalChunks)
        case Err(e) => (u.(chunks := None, target := None), Err(e))
        case Ok(content) =>
          if Declares(s) && sha256(content) != s.checksum.value
          then (Upload(None, None, None), Err(Mismatch))
          else (Upload(None, None, Some(content)), Ok(content))
  }

  // ---------------------------------------------------------------------------
  // The manager
  // ---------------------------------------------------------------------------

  class ChunkedUploadManager {
    const sha256: Digest
    var session: Option<Session>
    var chunks: Option<map<int, Bytes>>
    var target: Option<Bytes>

    constructor Initiate(
        sha256: Digest, totalSize: int, totalChunks: int, checksum: Option<string>, target: Option<Bytes>)
      ensures this.sha256 == sha256 && Contents() == Initiated(totalSize, totalChunks, checksum, target)
    {
      this.sha256 := sha256;
      session := Some(Session(totalChunks, totalSize, checksum, [], 0));
      chunks := Some(map[]);
      this.target := target;
    }

    ghost function Contents(): Upload
      reads this
    {
      Upload(session, chunks, target)
    }

    method WriteChunkStream(index: int, hash: string, stream: Bytes) returns (r: Result<(), Error>)
      modifies this
      ensures (Contents(), r) == Write(old(Contents()), sha256, index, hash, stream)
    {
      if session == None {
        return Err(Expired);
      }
      if chunks == None {
        return Err(NoDirectory);
      }
      var file: Bytes := [];
      var bytesWritten := 0;
      while |file| < |stream|
        invariant |file| <= |stream| && file == stream[..|file|] && bytesWritten == |file|
      {
        var block := stream[|file|..Min(|file| + BLOCK, |stream|)];
        file := file + block;
        bytesWritten := bytesWritten + |block|;
      }
      assert file == stream;
      chunks := Some(chunks.value[index := file]);
      if sha256(file) != hash {
        chunks := Some(chunks.value - {index});
        assert chunks.value == old(chunks).value - {index};
        return Err(Mismatch);
      }
      var s := session.value;
      s := s.(uploadedChunks := s.uploadedChunks + [index]);
      s := s.(uploadedBytes := s.uploadedBytes + bytesWritten);
      session := Some(s);
      return Ok(());
    }

    /** Appends a chunk file to the output in blocks. */
    method StreamChunkToFile(chunk: Bytes, outfile: Bytes) returns (out: Bytes)
      ensures out == outfile + chunk
    {
      out := outfile;
      var position := 0;
      while position < |chunk|
        invariant 0 <= position <= |chunk| && out == outfile + chunk[..position]
      {
        var block := chunk[position..Min(position + BLOCK, |chunk|)];
        out := out + block;
        position := position + |block|;
      }
      assert chunk[..position] == chunk;
    }

    method ReassembleChunks(totalChunks: int) returns (r: Result<Bytes, Error>)
      modifies this`chunks, this`target
      ensures r == Joined(old(Contents()), totalChunks)
      ensures r.Ok? ==> chunks == old(chunks) && target == Some(r.value)
      ensures r.Err? ==> chunks == None && target == None
    {
      var outfile: Bytes := [];
      var i := 0;
      while i < totalChunks
        invariant 0 <= i && (i <= totalChunks || i == 0)
        invariant chunks == old(chunks) && target == old(target)
        invariant Joined(old(Contents()), i) == Ok(outfile)
      {
        if chunks == None || i !in chunks.value {
          JoinedStops(Contents(), i, totalChunks);
          chunks, target := None, None;
          return Err(Missing(i));
        }
        outfile := StreamChunkToFile(chunks.value[i], outfile);
        i := i + 1;
      }
      target := Some(outfile);
      return Ok(outfile);
    }

    method FinalizeUpload() returns (r: Result<Bytes, Error>)
      modifies this
      ensures (Contents(), r) == Finalize(old(Contents()), sha256)
    {
      if session == None {
        return Err(Expired);
      }
      var s := session.value;
      if |s.uploadedChunks| < s.totalChunks {
        return Err(Incomplete);
      }
      r := ReassembleChunks(s.totalChunks);
      if r.Err? {
        return;
      }
      chunks := None;
      session := None;
      if Declares(s) && sha256(r.value) != s.checksum.value {
        target := None;
        return Err(Mismatch);
      }
    }

    method Cancel()
      modifies this`session, this`chunks
      ensures session == None && chunks == None
    {
      session, chunks := None, None;
    }
  }

  /** Past the first missing chunk nothing more is read. */
  lemma {:induction false} JoinedStops(u: Upload, i: nat, n: int)
    requires Joined(u, i).Ok? && !Has(u, i) && i < n
    ensures Joined(u, n) == Err(Missing(i))
  {
    if n > i + 1 {
      JoinedStops(u, i, n - 1);
    }
  }

  // ---------------------------------------------------------------------------
  // Runs
  // ---------------------------------------------------------------------------

  datatype Event =
    | WriteCall(index: int, hash: string, content: Bytes)
    | FinalizeCall
    | CancelCall
    | SessionExpires

  function Step(u: Upload, e: Event, sha256: Digest): Upload {
    match e
    case WriteCall(index, hash, content) => Write(u, sha256, index, hash, content).0
    case FinalizeCall => Finalize(u, sha256).0
    case CancelCall => u.(session := None, chunks := None)
    case SessionExpires => u.(session := None)
  }

  function After(u: Upload, run: Run<Event>, sha256: Digest): Upload {
    match run
    case Start => u
    case Then(before, e) => Step(After(u, before, sha256), e, sha256)
  }

  /** An upload that was just initiated. */
  ghost predicate Fresh(u: Upload) {
    && u.session.Some? && u.session.value.uploadedChunks == [] && u.session.value.uploadedBytes == 0
    && u.chunks == Some(map[])
  }

  /**
   The bytes of chunk i that the run leaves behind: those of the last attempt at it, unless that attempt's hash failed,
   which loses also what an earlier attempt had stored.
   */
  function Surviving(run: Run<Event>, sha256: Digest, i: int): Option<Bytes> {
    match run
    case Start => None
    case Then(before, e) =>
      if e.WriteCall? && e.index == i
      then (if sha256(e.content) == e.hash then Some(e.content) else None)
      else Surviving(before, sha256, i)
  }

  /** The indices of the accepted attempts, repeated ones as often as they were accepted. */
  function Accepted(run: Run<Event>, sha256: Digest): seq<int> {
    match run
    case Start => []
    case Then(before, e) =>
      if e.WriteCall? && sha256(e.content) == e.hash then Accepted(before, sha256) + [e.index]
      else Accepted(before, sha256)
  }

  /** The upload is still going on: chunks are written, and a finalize may come while n attempts are not accepted. */
  ghost predicate Uploading(run: Run<Event>, sha256: Digest, n: int) {
    match run
    case Start => true
    case Then(before, e) =>
      Uploading(before, sha256, n) && (e.WriteCall? || (e.FinalizeCall? && |Accepted(before, sha256)| < n))
  }

  /** How many bytes the accepted attempts carried together. */
  function AcceptedBytes(run: Run<Event>, sha256: Digest): nat {
    match run
    case Start => 0
    case Then(before, e) =>
      AcceptedBytes(before, sha256) + (if e.WriteCall? && sha256(e.content) == e.hash then |e.content| else 0)
  }

  /** While the upload goes on, the chunk files are the surviving bytes, and the list the accepted indices. */
  lemma {:induction false} FilesAreSurvivors(u: Upload, run: Run<Event>, sha256: Digest, i: int)
    requires Fresh(u) && Uploading(run, sha256, u.session.value.totalChunks)
    ensures var v := After(u, run, sha256);
            && v.session.Some? && v.chunks.Some? && v.target == u.target
            && v.session.value.totalChunks == u.session.value.totalChunks
            && v.session.value.checksum == u.session.value.checksum
            && v.session.value.uploadedChunks == Accepted(run, sha256)
            && v.session.value.uploadedBytes == AcceptedBytes(run, sha256)
            && (Has(v, i) <==> Surviving(run, sha256, i).Some?)
            && (Has(v, i) ==> v.chunks.value[i] == Surviving(run, sha256, i).value)
  {
    match run
    case Start =>
    case Then(before, e) => FilesAreSurvivors(u, before, sha256, i);
  }

  lemma {:induction false} SurvivorsWereAccepted(run: Run<Event>, sha256: Digest, i: int)
    requires Surviving(run, sha256, i).Some?
    ensures i in Accepted(run, sha256)
  {
    match run
    case Then(before, e) =>
      if !(e.WriteCall? && e.index == i) {
        SurvivorsWereAccepted(before, sha256, i);
      }
  }

  /** A list that holds each of 0 to n - 1 has at least n entries. */
  lemma {:induction false} Pigeonhole(list: seq<int>, n: nat)
    requires forall i :: 0 <= i < n ==> i in list
    ensures |list| >= n
  {
    if n > 0 {
      assert n - 1 in list;
      var k :| 0 <= k < |list| && list[k] == n - 1;
      var rest := list[..k] + list[k + 1..];
      forall i | 0 <= i < n - 1
        ensures i in rest
      {
        assert i in list;
        var j :| 0 <= j < |list| && list[j] == i;
        assert rest[if j < k then j else j - 1] == i;
      }
      Pigeonhole(rest, n - 1);
    }
  }

  ghost predicate AllSurvive(run: Run<Event>, sha256: Digest, n: int) {
    forall i :: 0 <= i < n ==> Surviving(run, sha256, i).Some?
  }

  /** The surviving bytes of chunks 0 to n - 1 in order. */
  function Assembled(run: Run<Event>, sha256: Digest, n: int): Bytes {
    if n <= 0 then []
    else
      var last := Surviving(run, sha256, n - 1);
      Assembled(run, sha256, n - 1) + (if last.Some? then last.value else [])
  }

  lemma {:induction false} JoinedIsAssembled(u: Upload, run: Run<Event>, sha256: Digest, n: int)
    requires Fresh(u) && Uploading(run, sha256, u.session.value.totalChunks)
    ensures Joined(After(u, run, sha256), n).Ok? <==> AllSurvive(run, sha256, n)
    ensures AllSurvive(run, sha256, n) ==> Joined(After(u, run, sha256), n) == Ok(Assembled(run, sha256, n))
  {
    if n > 0 {
      JoinedIsAssembled(u, run, sha256, n - 1);
      FilesAreSurvivors(u, run, sha256, n - 1);
    }
  }

  /**
   Soundness and completeness of finalize, for any order, repetition and failure of the chunk writes before it, and with
   any calls of finalize that the gate refused among them: it gets past the gate and the reassembly if and only if every
   chunk survives; then it succeeds exactly if no checksum was declared or the assembled bytes have it, and the target
   is those bytes.
   */
  lemma FinalizeExactly(
      sha256: Digest, totalSize: int, n: int, checksum: Option<string>, target: Option<Bytes>, run: Run<Event>)
    requires Uploading(run, sha256, n)
    ensures var u := After(Initiated(totalSize, n, checksum, target), run, sha256);
            var (v, r) := Finalize(u, sha256);
            var content := Assembled(run, sha256, n);
            var unverified := checksum == None || checksum.value == "";
            && (r.Ok? || r.error == Mismatch <==> AllSurvive(run, sha256, n))
            && (r.Ok? <==> AllSurvive(run, sha256, n) && (unverified || sha256(content) == checksum.value))
            && (r.Ok? ==> r.value == content && v == Upload(None, None, Some(content)))
            && (r.Err? && r.error != Incomplete ==> v.target == None)
            && (r.Err? && r.error == Incomplete ==> v == u)
  {
    var start := Initiated(totalSize, n, checksum, target);
    FilesAreSurvivors(start, run, sha256, 0);
    JoinedIsAssembled(start, run, sha256, n);
    JoinedErrors(After(start, run, sha256), n);
    if AllSurvive(run, sha256, n) && n > 0 {
      forall i | 0 <= i < n
        ensures i in Accepted(run, sha256)
      {
        SurvivorsWereAccepted(run, sha256, i);
      }
      Pigeonhole(Accepted(run, sha256), n);
    }
  }

  // ---------------------------------------------------------------------------
  // What the client is told
  // ---------------------------------------------------------------------------

  /** The answer to a chunk write says whether the chunk was stored, and if not, why. */
  lemma WriteAnswers(u: Upload, sha256: Digest, index: int, hash: string, content: Bytes)
    ensures var (v, r) := Write(u, sha256, index, hash, content);
            && (r == Err(Expired) <==> u.session == None)
            && (r == Err(NoDirectory) <==> u.session.Some? && u.chunks == None)
            && (r == Err(Mismatch) <==> u.session.Some? && u.chunks.Some? && sha256(content) != hash)
            && (r == Ok(()) <==> u.session.Some? && u.chunks.Some? && sha256(content) == hash)
            && (r == Ok(()) ==> Has(v, index) && v.chunks.value[index] == content)
            && (r == Err(Mismatch) ==> !Has(v, index))
            && (r == Err(Expired) || r == Err(NoDirectory) ==> v == u)
  {
  }

  /** The answer to finalize, in the order of the checks. */
  lemma FinalizeAnswers(u: Upload, sha256: Digest)
    ensures var (v, r) := Finalize(u, sha256);
            && (r == Err(Expired) <==> u.session == None)
            && (r == Err(Incomplete) <==>
                  u.session.Some? && |u.session.value.uploadedChunks| < u.session.value.totalChunks)
            && (r == Err(Expired) || r == Err(Incomplete) ==> v == u)
            && (r.Err? && r.error.Missing? ==>
                  v == u.(chunks := None, target := None)
                  && 0 <= r.error.index < u.session.value.totalChunks
                  && !Has(u, r.error.index) && forall i :: 0 <= i < r.error.index ==> Has(u, i))
            && (r == Err(Mismatch) ==> v == Upload(None, None, None))
            && r != Err(NoDirectory)
  {
    if u.session.Some? {
      FirstMissing(u, u.session.value.totalChunks);
    }
  }

  lemma {:induction false} FirstMissing(u: Upload, n: int)
    ensures match Joined(u, n)
            case Ok(_) => forall i :: 0 <= i < n ==> Has(u, i)
            case Err(e) =>
              e.Missing? && 0 <= e.index < n && !Has(u, e.index) && forall i :: 0 <= i < e.index ==> Has(u, i)
  {
    if n > 0 {
      FirstMissing(u, n - 1);
    }
  }

  /** What the client was told about its last attempt at chunk i. */
  function LastAnswer(u: Upload, run: Run<Event>, sha256: Digest, i: int): Option<Result<(), Error>> {
    match run
    case Start => None
    case Then(before, e) =>
      if e.WriteCall? && e.index == i
      then Some(Write(After(u, before, sha256), sha256, i, e.hash, e.content).1)
      else LastAnswer(u, before, sha256, i)
  }

  /** The bytes the client sent with its last attempt at chunk i. */
  function LastSent(run: Run<Event>, i: int): Bytes {
    match run
    case Start => []
    case Then(before, e) => if e.WriteCall? && e.index == i then e.content else LastSent(before, i)
  }

  /** While the upload goes on, the client knows: a chunk survives exactly if its last attempt was answered with Ok. */
  lemma {:induction false} AnswersTellSurvival(u: Upload, run: Run<Event>, sha256: Digest, i: int)
    requires Fresh(u) && Uploading(run, sha256, u.session.value.totalChunks)
    ensures var answer := LastAnswer(u, run, sha256, i);
            && (Surviving(run, sha256, i).Some? <==> answer == Some(Ok(())))
            && (answer == Some(Ok(())) ==> Surviving(run, sha256, i) == Some(LastSent(run, i)))
            && answer in {None, Some(Ok(())), Some(Err(Mismatch))}
  {
    match run
    case Start =>
    case Then(before, e) =>
      AnswersTellSurvival(u, before, sha256, i);
      FilesAreSurvivors(u, before, sha256, i);
  }

  /** What a client sent last for chunks 0 to n - 1, in order. */
  function Sent(run: Run<Event>, n: int): Bytes {
    if n <= 0 then [] else Sent(run, n - 1) + LastSent(run, n - 1)
  }

  lemma {:induction false} AssembledIsSent(u: Upload, run: Run<Event>, sha256: Digest, n: int)
    requires Fresh(u) && Uploading(run, sha256, u.session.value.totalChunks)
    requires forall i :: 0 <= i < n ==> LastAnswer(u, run, sha256, i) == Some(Ok(()))
    ensures AllSurvive(run, sha256, n) && Assembled(run, sha256, n) == Sent(run, n)
  {
    if n > 0 {
      AssembledIsSent(u, run, sha256, n - 1);
      AnswersTellSurvival(u, run, sha256, n - 1);
    }
  }

  /**
   A client whose last attempt at every chunk was answered with Ok gets its upload: finalize gives exactly the bytes it
   sent last, in order, unless they do not have the checksum it declared. And if some last answer was not Ok, finalize
   gives nothing.
   */
  lemma OkForEveryChunkFinalizes(
      sha256: Digest, totalSize: int, n: int, checksum: Option<string>, target: Option<Bytes>, run: Run<Event>)
    requires Uploading(run, sha256, n)
    ensures var start := Initiated(totalSize, n, checksum, target);
            var r := Finalize(After(start, run, sha256), sha256).1;
            var unverified := checksum == None || checksum.value == "";
            if forall i :: 0 <= i < n ==> LastAnswer(start, run, sha256, i) == Some(Ok(()))
            then r == if unverified || sha256(Sent(run, n)) == checksum.value then Ok(Sent(run, n)) else Err(Mismatch)
            else r.Err? && r.error != Mismatch
  {
    var start := Initiated(totalSize, n, checksum, target);
    FinalizeExactly(sha256, totalSize, n, checksum, target, run);
    if forall i :: 0 <= i < n ==> LastAnswer(start, run, sha256, i) == Some(Ok(())) {
      AssembledIsSent(start, run, sha256, n);
    } else {
      var i :| 0 <= i < n && LastAnswer(start, run, sha256, i) != Some(Ok(()));
      AnswersTellSurvival(start, run, sha256, i);
    }
  }

  lemma {:induction false} JoinedErrors(u: Upload, n: int)
    ensures Joined(u, n).Err? ==> Joined(u, n).error.Missing? && n > 0
  {
    if n > 0 {
      JoinedErrors(u, n - 1);
    }
  }

  // ---------------------------------------------------------------------------
  // After a failed reassembly
  // ---------------------------------------------------------------------------

  /** The directory is gone while the session, if any, still asks for chunks. */
  ghost predicate Doomed(u: Upload) {
    u.chunks == None && (u.session.Some? ==> u.session.value.totalChunks > 0)
  }

  lemma DoomedFails(u: Upload, sha256: Digest)
    requires Doomed(u)
    ensures Finalize(u, sha256).1.Err? && Doomed(Finalize(u, sha256).0)
  {
    if u.session.Some? {
      NothingJoins(u, u.session.value.totalChunks);
    }
  }

  lemma {:induction false} NothingJoins(u: Upload, n: int)
    requires u.chunks == None && n > 0
    ensures Joined(u, n) == Err(Missing(0))
  {
    if n > 1 {
      NothingJoins(u, n - 1);
    }
  }

  /** An upload whose finalize failed on a missing chunk never succeeds, whatever is written or finalized later. */
  lemma {:induction false} MissingChunkIsFinal(u: Upload, sha256: Digest, run: Run<Event>)
    requires Finalize(u, sha256).1.Err? && Finalize(u, sha256).1.error.Missing?
    ensures var v := After(Finalize(u, sha256).0, run, sha256);
            Doomed(v) && Finalize(v, sha256).1.Err?
  {
    match run
    case Start =>
      JoinedErrors(u, u.session.value.totalChunks);
      DoomedFails(Finalize(u, sha256).0, sha256);
    case Then(before, e) =>
      MissingChunkIsFinal(u, sha256, before);
      DoomedFails(After(Finalize(u, sha256).0, before, sha256), sha256);
      DoomedFails(After(Finalize(u, sha256).0, run, sha256), sha256);
  }

  /** Cancelling removes session and chunks, expiry only the session; neither touches the target. */
  lemma EndOfSession(u: Upload, sha256: Digest)
    ensures Step(u, CancelCall, sha256) == Upload(None, None, u.target)
    ensures Step(u, SessionExpires, sha256) == Upload(None, u.chunks, u.target)
  {
  }

  /** Without a session every later write and finalize is answered with Expired, and the target stays as it is. */
  lemma {:induction false} NoSessionNoChange(u: Upload, run: Run<Event>, sha256: Digest)
    requires u.session == None
    ensures var v := After(u, run, sha256);
            && v.session == None && v.target == u.target
            && Finalize(v, sha256) == (v, Err(Expired))
            && forall i, hash, content :: Write(v, sha256, i, hash, content) == (v, Err(Expired))
  {
    match run
    case Start =>
    case Then(before, e) => NoSessionNoChange(u, before, sha256);
  }

  // ---------------------------------------------------------------------------
  // From the plan to the file
  // ---------------------------------------------------------------------------

  /** Accepted writes to planned chunks carry the planned slices of the source. */
  ghost predicate Carries(run: Run<Event>, sha256: Digest, source: Bytes, plan: seq<Chunk>)
    requires Fits(plan, |source|)
  {
    match run
    case Start => true
    case Then(before, e) =>
      && Carries(before, sha256, source, plan)
      && (e.WriteCall? && sha256(e.content) == e.hash && 0 <= e.index < |plan|
          ==> e.content == Slice(source, plan[e.index]))
  }

  lemma {:induction false} SurvivorsAreSlices(run: Run<Event>, sha256: Digest, source: Bytes, plan: seq<Chunk>, i: int)
    requires Fits(plan, |source|) && Carries(run, sha256, source, plan)
    requires 0 <= i < |plan| && Surviving(run, sha256, i).Some?
    ensures Surviving(run, sha256, i).value == Slice(source, plan[i])
  {
    match run
    case Then(before, e) =>
      if !(e.WriteCall? && e.index == i) {
        SurvivorsAreSlices(before, sha256, source, plan, i);
      }
  }

  lemma {:induction false} AssembledIsSlices(run: Run<Event>, sha256: Digest, source: Bytes, plan: seq<Chunk>, n: nat)
    requires Fits(plan, |source|) && Carries(run, sha256, source, plan)
    requires n <= |plan| && AllSurvive(run, sha256, |plan|)
    ensures Assembled(run, sha256, n) == Concat(Slices(source, plan)[..n])
  {
    if n > 0 {
      AssembledIsSlices(run, sha256, source, plan, n - 1);
      SurvivorsAreSlices(run, sha256, source, plan, n - 1);
      assert Slices(source, plan)[..n][..n - 1] == Slices(source, plan)[..n - 1];
    }
  }

  /**
   End to end: a client that uploads the planned slices of a file, in any order and with any repeats and failures as
   long as each chunk's last attempt is accepted, gets exactly its file, with whatever checksum the file has declared.
   */
  lemma PlannedUploadRestoresFile(
      sha256: Digest, source: Bytes, chunkSize: int, checksum: Option<string>, target: Option<Bytes>, run: Run<Event>)
    requires chunkSize > 0 && Uploading(run, sha256, TotalChunks(|source|, chunkSize))
    requires checksum.Some? ==> checksum.value == sha256(source)
    requires var plan := Plan(|source|, chunkSize);
             Fits(plan, |source|) && Carries(run, sha256, source, plan) && AllSurvive(run, sha256, |plan|)
    ensures var u := Initiated(|source|, TotalChunks(|source|, chunkSize), checksum, target);
            Finalize(After(u, run, sha256), sha256) == (Upload(None, None, Some(source)), Ok(source))
  {
    var plan := Plan(|source|, chunkSize);
    PlanPartitions(|source|, chunkSize);
    PlanCoversSource(source, chunkSize);
    AssembledIsSlices(run, sha256, source, plan, |plan|);
    assert Slices(source, plan)[..|plan|] == Slices(source, plan);
    hide *;
    FinalizeExactly(sha256, |source|, |plan|, checksum, target, run);
  }
}
