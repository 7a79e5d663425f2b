/** The resident inference worker: fixed-size id and mask tensors come in, one reply goes
    out per pair, until the input ends on a pair boundary. */
module ResidentWorker {
  import opened Wrappers
  import opened Framing

  const TOKENS: nat := 512

  datatype WorkerError = InvalidInput | InvalidOutput

  datatype ReadOutcome = EndOfInput | Block(bytes: Bytes) | Broken

  // The model: a reply, or None when the prediction fails or is not finite.
  type Model = (Bytes, Bytes) -> Option<Bytes>

  /** Reads one block; the end of the input is clean only before the first byte. */
  method ReadBlock(pipe: Pipe, size: nat) returns (r: ReadOutcome)
    requires pipe.patient && size > 0
    modifies pipe
    ensures r.EndOfInput? <==> old(pipe.rest) == []
    ensures r.Broken? <==> 0 < |old(pipe.rest)| < size
    ensures r.Block? ==> |r.bytes| == size && old(pipe.rest) == r.bytes + pipe.rest
    ensures !r.Block? ==> pipe.rest == []
  {
    var result: Bytes := [];
    while |result| < size
      invariant |result| <= size && old(pipe.rest) == result + pipe.rest
      decreases size - |result|
    {
      var ready, chunk := pipe.Read(size - |result|);
      if chunk == [] {
        return if result == [] then EndOfInput else Broken;
      }
      result := result + chunk;
    }
    return Block(result);
  }

  // ---------- what the worker must answer ----------

  // The k-th pair of blocks of an input.
  function Ids(input: Bytes, size: nat, k: nat): Bytes
    requires (2 * k + 2) * size <= |input|
  {
    assert 2 * k * size <= (2 * k + 1) * size <= (2 * k + 2) * size;
    input[2 * k * size..(2 * k + 1) * size]
  }

  function Mask(input: Bytes, size: nat, k: nat): Bytes
    requires (2 * k + 2) * size <= |input|
  {
    assert (2 * k + 1) * size <= (2 * k + 2) * size;
    input[(2 * k + 1) * size..(2 * k + 2) * size]
  }

  // Replies to the pairs at the front of the input, one pair at a time.
  function Replies(input: Bytes, size: nat, model: Model): (seq<Bytes>, Option<WorkerError>)
    requires size > 0
  {
    if input == [] then ([], None)
    else if |input| < 2 * size then ([], Some(InvalidInput))
    else
      var reply := model(input[..size], input[size..2 * size]);
      if reply.None? then ([], Some(InvalidOutput))
      else
        var (rest, end) := Replies(input[2 * size..], size, model);
        ([reply.value] + rest, end)
  }

  /** The worker.  The tensors are overwritten in place for each request. */
  class Worker {
    const ids: array<Byte>
    const mask: array<Byte>
    const size: nat

    ghost predicate Valid() {
      size > 0 && ids.Length == size && mask.Length == size && ids != mask
    }

    constructor (batch: nat)
      requires batch == 1 || batch == 4
      ensures Valid() && size == batch * TOKENS * 4 && fresh(ids) && fresh(mask)
    {
      size := batch * TOKENS * 4;
      ids := new Byte[batch * TOKENS * 4](i => 0);
      mask := new Byte[batch * TOKENS * 4](i => 0);
    }

    method CopyTensor(data: Bytes, tensor: array<Byte>) returns (ok: bool)
      modifies tensor
      ensures ok <==> |data| == tensor.Length
      ensures ok ==> tensor[..] == data
    {
      if |data| != tensor.Length { return false; }
      for i := 0 to |data|
        invariant tensor[..i] == data[..i]
      {
        tensor[i] := data[i];
      }
      return true;
    }

    /** Serves one request from the shared tensors. */
    method Serve(model: Model, idBlock: Bytes, maskBlock: Bytes) returns (reply: Option<Bytes>)
      requires Valid() && |idBlock| == size && |maskBlock| == size
      modifies ids, mask
      ensures reply == model(idBlock, maskBlock)
    {
      var a := CopyTensor(idBlock, ids);
      var b := CopyTensor(maskBlock, mask);
      reply := model(ids[..], mask[..]);
    }

    /** The request loop: answers every complete pair in order, and stops exactly as the
        specification says. */
    method Run(pipe: Pipe, model: Model) returns (output: seq<Bytes>, end: Option<WorkerError>)
      requires Valid() && pipe.patient
      modifies pipe, ids, mask
      ensures (output, end) == Replies(old(pipe.rest), size, model)
    {
      output := [];
      ghost var input := pipe.rest;
      assert [] + Replies(input, size, model).0 == Replies(input, size, model).0;
      while true
        invariant Replies(input, size, model) == Before(output, Replies(pipe.rest, size, model))
        decreases |pipe.rest|
      {
        ghost var before := pipe.rest;
        assert output + [] == output;
        var idBlock := ReadBlock(pipe, size);
        if idBlock.EndOfInput? { return output, None; }
        if idBlock.Broken? { return output, Some(InvalidInput); }
        var maskBlock := ReadBlock(pipe, size);
        if !maskBlock.Block? {
          assert |before| < 2 * size;
          return output, Some(InvalidInput);
        }
        OnePair(before, idBlock.bytes, maskBlock.bytes, pipe.rest, size, model);
        var reply := Serve(model, idBlock.bytes, maskBlock.bytes);
        if reply.None? { return output, Some(InvalidOutput); }
        BeforeAppends(output, reply.value, Replies(pipe.rest, size, model));
        output := output + [reply.value];
      }
    }
  }

  function Before(output: seq<Bytes>, rest: (seq<Bytes>, Option<WorkerError>)): (seq<Bytes>, Option<WorkerError>) {
    (output + rest.0, rest.1)
  }

  lemma BeforeAppends(output: seq<Bytes>, reply: Bytes, rest: (seq<Bytes>, Option<WorkerError>))
    ensures Before(output, ([reply] + rest.0, rest.1)) == Before(output + [reply], rest)
  {
    assert output + ([reply] + rest.0) == output + [reply] + rest.0;
  }

  lemma OnePair(all: Bytes, ids: Bytes, mask: Bytes, rest: Bytes, size: nat, model: Model)
    requires size > 0 && |ids| == |mask| == size && all == ids + (mask + rest)
    ensures model(ids, mask).None? ==> Replies(all, size, model) == ([], Some(InvalidOutput))
    ensures model(ids, mask).Some? ==>
              Replies(all, size, model)
              == ([model(ids, mask).value] + Replies(rest, size, model).0, Replies(rest, size, model).1)
  {
    assert all[..size] == ids && all[size..2 * size] == mask && all[2 * size..] == rest;
  }

  // ---------- what the specification means ----------

  ghost predicate AlwaysAnswers(model: Model) {
    forall a, b :: model(a, b).Some?
  }

  lemma PairCount(length: nat, size: nat)
    requires size > 0 && length >= 2 * size
    ensures length / (2 * size) == (length - 2 * size) / (2 * size) + 1
    ensures length % (2 * size) == (length - 2 * size) % (2 * size)
  {
    var d, rest := 2 * size, length - 2 * size;
    var q, r := rest / d, rest % d;
    assert rest == d * q + r;
    assert length == d * (q + 1) + r;
    Divided(length, d, q + 1, r);
  }

  lemma NextMultiple(d: nat, a: nat, b: nat)
    ensures a < b ==> d * a + d <= d * b
  {
    if a < b {
      assert d * b == d * (a + 1) + d * (b - a - 1);
    }
  }

  lemma Divided(n: nat, d: nat, q: nat, r: nat)
    requires d > 0 && n == d * q + r && r < d
    ensures n / d == q && n % d == r
  {
    var q', r' := n / d, n % d;
    assert n == d * q' + r';
    NextMultiple(d, q', q);
    NextMultiple(d, q, q');
  }

  /** With a model that always answers, the worker gives one reply per complete pair, and
      exits normally exactly when the input is a whole number of pairs. */
  lemma {:induction false} OneReplyPerPair(input: Bytes, size: nat, model: Model)
    requires size > 0 && AlwaysAnswers(model)
    ensures |Replies(input, size, model).0| == |input| / (2 * size)
    ensures Replies(input, size, model).1 == if |input| % (2 * size) == 0 then None else Some(InvalidInput)
  {
    if |input| >= 2 * size {
      OneReplyPerPair(input[2 * size..], size, model);
      PairCount(|input|, size);
    } else {
      Divided(|input|, 2 * size, 0, |input|);
    }
  }

  lemma Offsets(size: nat, k: nat)
    requires k > 0
    ensures 2 * size + 2 * (k - 1) * size == 2 * k * size
    ensures 2 * size + (2 * (k - 1) + 1) * size == (2 * k + 1) * size
    ensures 2 * size + (2 * (k - 1) + 2) * size == (2 * k + 2) * size
  {}

  lemma ShiftPair(input: Bytes, size: nat, k: nat)
    requires k > 0 && (2 * k + 2) * size <= |input|
    ensures 2 * size <= |input| && (2 * (k - 1) + 2) * size <= |input[2 * size..]|
    ensures Ids(input[2 * size..], size, k - 1) == Ids(input, size, k)
    ensures Mask(input[2 * size..], size, k - 1) == Mask(input, size, k)
  {
    Offsets(size, k);
    assert 0 <= 2 * (k - 1) * size <= (2 * (k - 1) + 1) * size <= (2 * (k - 1) + 2) * size;
  }

  /** Reply k is the prediction for pair k of the input, whatever came before it. */
  lemma {:induction false} ReplyIsForItsPair(input: Bytes, size: nat, model: Model, k: nat)
    requires size > 0 && k < |Replies(input, size, model).0|
    ensures (2 * k + 2) * size <= |input|
    ensures Some(Replies(input, size, model).0[k]) == model(Ids(input, size, k), Mask(input, size, k))
  {
    var rest := input[2 * size..];
    if k == 0 {
      assert Ids(input, size, 0) == input[..size] && Mask(input, size, 0) == input[size..2 * size];
    } else {
      ReplyIsForItsPair(rest, size, model, k - 1);
      Offsets(size, k);
      ShiftPair(input, size, k);
    }
  }
}
