/** Assembling a PDF byte range from daemon replies of bounded size. */
module PdfRange {
  import opened Wrappers
  import opened Framing

  datatype RangeError = NegativeLength | ContractMismatch | LengthMismatch | PrematureEnd

  // One reply; `envelopeOk` stands for the status, schema and request id checks.
  datatype Reply = Reply(envelopeOk: bool, offset: int, totalBytes: int, bytesRead: int, data: Bytes)

  // The daemon: the reply to the k-th request, for an offset and a length.
  type Daemon = (nat, int, int) -> Reply

  function Min(a: int, b: int): int { if a < b then a else b }

  predicate ReplyAccepted(r: Reply, offset: int, length: int, totalBytes: int) {
    && r.envelopeOk && r.offset == offset && r.totalBytes == totalBytes
    && 0 < r.bytesRead <= length && |r.data| == r.bytesRead
  }

  // The k-th request of a delivery that has always been answered in full.
  function RequestOffset(begin: int, rangeBytes: int, k: nat): int {
    begin + k * rangeBytes
  }

  function RequestLength(begin: int, end: int, rangeBytes: int, k: nat): int {
    Min(rangeBytes, end - RequestOffset(begin, rangeBytes, k))
  }

  // Reply k is accepted and as long as asked for.
  ghost predicate FullReply(daemon: Daemon, begin: int, end: int, rangeBytes: int, totalBytes: int, k: nat) {
    var offset, length := RequestOffset(begin, rangeBytes, k), RequestLength(begin, end, rangeBytes, k);
    var r := daemon(k, offset, length);
    ReplyAccepted(r, offset, length, totalBytes) && r.bytesRead == length
  }

  // ceil((end - begin) / rangeBytes)
  function RequestCount(begin: int, end: int, rangeBytes: int): nat
    requires begin <= end && rangeBytes > 0
  {
    (end - begin + rangeBytes - 1) / rangeBytes
  }

  lemma CountMeans(begin: int, end: int, rangeBytes: int, k: nat)
    requires begin <= end && rangeBytes > 0
    ensures k < RequestCount(begin, end, rangeBytes) <==> RequestOffset(begin, rangeBytes, k) < end
  {
    var n := RequestCount(begin, end, rangeBytes);
    var total := end - begin + rangeBytes - 1;
    assert rangeBytes * n <= total < rangeBytes * (n + 1) by {
      assert total == rangeBytes * n + total % rangeBytes;
    }
    if k < n {
      assert rangeBytes * (k + 1) <= rangeBytes * n;
    } else {
      assert rangeBytes * n <= rangeBytes * k;
    }
    assert k * rangeBytes == rangeBytes * k && rangeBytes * (k + 1) == rangeBytes * k + rangeBytes;
    assert rangeBytes * (n + 1) == rangeBytes * n + rangeBytes;
  }

  // A delivery that goes through: every needed reply comes, in full.
  ghost predicate Deliverable(daemon: Daemon, begin: int, end: int, rangeBytes: int, totalBytes: int) {
    begin <= end
    && (begin < end ==>
          && rangeBytes > 0
          && forall k: nat :: k < RequestCount(begin, end, rangeBytes) ==>
               FullReply(daemon, begin, end, rangeBytes, totalBytes, k))
  }

  // The reply to the k-th request has the right envelope, place and total, and all the bytes
  // asked for.
  ghost predicate Answers(daemon: Daemon, begin: int, end: int, rangeBytes: int, totalBytes: int, k: nat) {
    var offset := begin + k * rangeBytes;
    var length := if rangeBytes < end - offset then rangeBytes else end - offset;
    var r := daemon(k, offset, length);
    && r.envelopeOk && r.offset == offset && r.totalBytes == totalBytes
    && r.bytesRead == length && |r.data| == length
  }

  /** A range can be delivered exactly if every chunk that starts before its end is answered
      in full. */
  lemma DeliverableMeans(daemon: Daemon, begin: int, end: int, rangeBytes: int, totalBytes: int)
    ensures Deliverable(daemon, begin, end, rangeBytes, totalBytes) <==>
            begin <= end
            && (begin < end ==>
                  rangeBytes > 0
                  && forall k: nat :: begin + k * rangeBytes < end ==>
                       Answers(daemon, begin, end, rangeBytes, totalBytes, k))
  {
    if begin < end && rangeBytes > 0 {
      forall k: nat
        ensures k < RequestCount(begin, end, rangeBytes) <==> begin + k * rangeBytes < end
        ensures begin + k * rangeBytes < end ==>
                  (FullReply(daemon, begin, end, rangeBytes, totalBytes, k)
                   <==> Answers(daemon, begin, end, rangeBytes, totalBytes, k))
      {
        CountMeans(begin, end, rangeBytes, k);
      }
    }
  }

  // The first k replies joined.
  function Joined(daemon: Daemon, begin: int, end: int, rangeBytes: int, k: nat): Bytes {
    if k == 0 then []
    else Joined(daemon, begin, end, rangeBytes, k - 1)
         + daemon(k - 1, RequestOffset(begin, rangeBytes, k - 1), RequestLength(begin, end, rangeBytes, k - 1)).data
  }

  method SetBytes(assembled: array<Byte>, data: Bytes, at: nat)
    requires at + |data| <= assembled.Length
    modifies assembled
    ensures assembled[..at + |data|] == old(assembled[..at]) + data
  {
    for i := 0 to |data|
      invariant assembled[..at + i] == old(assembled[..at]) + data[..i]
    {
      assembled[at + i] := data[i];
    }
    assert data[..|data|] == data;
  }

  lemma OffsetStep(begin: int, rangeBytes: int, k: nat)
    ensures RequestOffset(begin, rangeBytes, k + 1) == RequestOffset(begin, rangeBytes, k) + rangeBytes
  {}

  /** One request: its reply is used exactly when it is accepted. */
  method Request(daemon: Daemon, k: nat, offset: int, length: int, totalBytes: int)
    returns (r: Result<Bytes, RangeError>)
    ensures r.Success? <==> ReplyAccepted(daemon(k, offset, length), offset, length, totalBytes)
    ensures r.Success? ==> r.value == daemon(k, offset, length).data
    ensures r.Failure? ==> r.error == ContractMismatch || r.error == LengthMismatch
  {
    var reply := daemon(k, offset, length);
    if !reply.envelopeOk || reply.offset != offset || reply.totalBytes != totalBytes
       || reply.bytesRead <= 0 || reply.bytesRead > length
    {
      return Failure(ContractMismatch);
    }
    if |reply.data| != reply.bytesRead { return Failure(LengthMismatch); }
    return Success(reply.data);
  }

  ghost predicate RequestsMade(begin: int, end: int, rangeBytes: int, requests: seq<(int, int)>) {
    forall k :: 0 <= k < |requests| ==>
      requests[k] == (RequestOffset(begin, rangeBytes, k), RequestLength(begin, end, rangeBytes, k))
  }

  // After k full replies.
  ghost predicate Progress(daemon: Daemon, begin: int, end: int, rangeBytes: int, totalBytes: int,
                           offset: int, k: nat, done: Bytes)
  {
    && begin <= offset <= end && |done| == offset - begin
    && (k == 0 ==> offset == begin)
    && (k > 0 ==> rangeBytes > 0 && RequestOffset(begin, rangeBytes, k - 1) < end
                  && offset == Min(RequestOffset(begin, rangeBytes, k), end))
    && (forall j: nat :: j < k ==> FullReply(daemon, begin, end, rangeBytes, totalBytes, j))
    && done == Joined(daemon, begin, end, rangeBytes, k)
  }

  lemma ProgressStep(daemon: Daemon, begin: int, end: int, rangeBytes: int, totalBytes: int,
                     offset: int, k: nat, done: Bytes)
    requires Progress(daemon, begin, end, rangeBytes, totalBytes, offset, k, done) && offset < end
    ensures offset == RequestOffset(begin, rangeBytes, k)
    ensures Min(rangeBytes, end - offset) == RequestLength(begin, end, rangeBytes, k)
    ensures var length := Min(rangeBytes, end - offset);
            var data := daemon(k, offset, length).data;
            FullReply(daemon, begin, end, rangeBytes, totalBytes, k) ==>
              |data| == length
              && Progress(daemon, begin, end, rangeBytes, totalBytes, offset + length, k + 1, done + data)
    ensures !FullReply(daemon, begin, end, rangeBytes, totalBytes, k) ==>
              !Deliverable(daemon, begin, end, rangeBytes, totalBytes)
  {
    OffsetStep(begin, rangeBytes, k);
    if rangeBytes > 0 { CountMeans(begin, end, rangeBytes, k); }
  }

  lemma ProgressDone(daemon: Daemon, begin: int, end: int, rangeBytes: int, totalBytes: int, k: nat, done: Bytes)
    requires Progress(daemon, begin, end, rangeBytes, totalBytes, end, k, done)
    ensures Deliverable(daemon, begin, end, rangeBytes, totalBytes)
    ensures begin < end ==> k == RequestCount(begin, end, rangeBytes)
  {
    if begin < end {
      CountMeans(begin, end, rangeBytes, k);
      CountMeans(begin, end, rangeBytes, k - 1);
    }
  }

  /** Delivers exactly when every reply is accepted and full; then it makes ceil(length /
      rangeBytes) consecutive requests and hands over the joined replies.  It ends for
      every integer `rangeBytes`. */
  method Deliver(daemon: Daemon, totalBytes: int, rangeBytes: int, begin: int, end: int)
    returns (r: Result<Bytes, RangeError>, requests: seq<(int, int)>)
    ensures r.Success? <==> Deliverable(daemon, begin, end, rangeBytes, totalBytes)
    ensures r == Failure(NegativeLength) <==> end < begin
    ensures r.Success? && begin < end ==>
              && |requests| == RequestCount(begin, end, rangeBytes)
              && r.value == Joined(daemon, begin, end, rangeBytes, |requests|)
    ensures r.Success? ==> |r.value| == end - begin
    ensures RequestsMade(begin, end, rangeBytes, requests)
  {
    requests := [];
    if end < begin { return Failure(NegativeLength), []; }
    var assembled := new Byte[end - begin](i => 0);
    var offset := begin;
    while offset < end
      invariant begin <= offset <= end && RequestsMade(begin, end, rangeBytes, requests)
      invariant Progress(daemon, begin, end, rangeBytes, totalBytes, offset, |requests|, assembled[..offset - begin])
      decreases end - offset
    {
      var length := Min(rangeBytes, end - offset);
      ProgressStep(daemon, begin, end, rangeBytes, totalBytes, offset, |requests|, assembled[..offset - begin]);
      var reply := Request(daemon, |requests|, offset, length, totalBytes);
      requests := requests + [(offset, length)];
      if reply.Failure? { return Failure(reply.error), requests; }
      SetBytes(assembled, reply.value, offset - begin);
      offset := offset + |reply.value|;
      if |reply.value| < length && offset < end { return Failure(PrematureEnd), requests; }
    }
    ProgressDone(daemon, begin, end, rangeBytes, totalBytes, |requests|, assembled[..offset - begin]);
    assert assembled[..offset - begin] == assembled[..];
    return Success(assembled[..]), requests;
  }

  // ---------- truthful daemons ----------

  // Whatever is delivered for an offset is what the file holds there.
  ghost predicate Truthful(daemon: Daemon, file: Bytes) {
    forall k: nat, offset: int, length: int ::
      var d := daemon(k, offset, length).data;
      0 <= offset && offset + |d| <= |file| ==> d == file[offset..offset + |d|]
  }

  lemma {:induction false} JoinedIsFile(daemon: Daemon, file: Bytes, begin: int, end: int, rangeBytes: int,
                                        totalBytes: int, k: nat)
    requires Truthful(daemon, file) && 0 <= begin < end <= |file| && rangeBytes > 0
    requires Deliverable(daemon, begin, end, rangeBytes, totalBytes) && k <= RequestCount(begin, end, rangeBytes)
    ensures var stop := Min(RequestOffset(begin, rangeBytes, k), end);
            begin <= stop && Joined(daemon, begin, end, rangeBytes, k) == file[begin..stop]
  {
    if k > 0 {
      JoinedIsFile(daemon, file, begin, end, rangeBytes, totalBytes, k - 1);
      CountMeans(begin, end, rangeBytes, k - 1);
      OffsetStep(begin, rangeBytes, k - 1);
      var offset, length := RequestOffset(begin, rangeBytes, k - 1), RequestLength(begin, end, rangeBytes, k - 1);
      assert FullReply(daemon, begin, end, rangeBytes, totalBytes, k - 1);
      var d := daemon(k - 1, offset, length).data;
      assert d == file[offset..offset + |d|];
      assert file[begin..offset] + file[offset..offset + length] == file[begin..offset + length];
    }
  }

  /** If replies carry the true file bytes, a delivered range is that range of the file. */
  lemma DeliveredIsTheRange(daemon: Daemon, file: Bytes, begin: int, end: int, rangeBytes: int, totalBytes: int)
    requires Truthful(daemon, file) && 0 <= begin < end <= |file| && rangeBytes > 0
    requires Deliverable(daemon, begin, end, rangeBytes, totalBytes)
    ensures Joined(daemon, begin, end, rangeBytes, RequestCount(begin, end, rangeBytes)) == file[begin..end]
  {
    var n := RequestCount(begin, end, rangeBytes);
    JoinedIsFile(daemon, file, begin, end, rangeBytes, totalBytes, n);
    CountMeans(begin, end, rangeBytes, n);
  }
}
