// md5_buffer, md5_stream and messages fed in pieces: all of them give the digest of the whole message.

module Md5Stream {
  import opened Md5Spec
  import opened Md5

  method Buffer(message: seq<byte>) returns (digest: seq<byte>)
    requires |message| < WORD
    ensures digest == Digest(message)
  {
    hide Digest;
    var ctx := new Context();
    ctx.ProcessBytes(message);
    assert ctx.Fed() == message;
    digest := ctx.Finish();
  }

  function Concat(pieces: seq<seq<byte>>): seq<byte> {
    if pieces == [] then [] else Concat(pieces[..|pieces| - 1]) + pieces[|pieces| - 1]
  }

  // md5_init_ctx, then md5_process_bytes on any number of pieces of any sizes, then md5_finish_ctx
  method Pieces(pieces: seq<seq<byte>>) returns (digest: seq<byte>)
    requires forall p | p in pieces :: |p| < WORD
    ensures digest == Digest(Concat(pieces))
  {
    hide Digest;
    var ctx := new Context();
    for i := 0 to |pieces|
      invariant ctx.Valid() && fresh(ctx) && fresh(ctx.buffer)
      invariant ctx.Fed() == Concat(pieces[..i])
    {
      ctx.ProcessBytes(pieces[i]);
      assert pieces[..i + 1][..i] == pieces[..i];
    }
    assert pieces[..|pieces|] == pieces;
    digest := ctx.Finish();
  }

  // An input stream, whose reads may stop short anywhere. The error indicator stays set.
  class File {
    var rest: seq<byte>
    var error: bool

    constructor (content: seq<byte>)
      ensures rest == content && !error
    {
      rest, error := content, false;
    }

    // fread
    method Read(size: nat) returns (bytes: seq<byte>)
      requires size > 0
      modifies this
      ensures |bytes| <= size && bytes + rest == old(rest)
      ensures old(error) ==> error
      ensures bytes == [] ==> rest == [] || error
    {
      if * {
        error := true;
      }
      var most := if |rest| < size then |rest| else size;
      var n: nat :| n <= most && (n == 0 ==> rest == [] || error);
      bytes, rest := rest[..n], rest[n..];
    }
  }

  // The inner loop of md5_stream. The last read brought n bytes, all of them sum.
  method ReadBlock(stream: File, buffer: array<byte>) returns (sum: nat, n: nat)
    requires buffer.Length == BLOCKSIZE + 72
    modifies stream, buffer
    ensures sum <= BLOCKSIZE && buffer[..sum] + stream.rest == old(stream.rest)
    ensures old(stream.error) ==> stream.error
    ensures if n == 0 then sum < BLOCKSIZE && (stream.rest == [] || stream.error) else sum == BLOCKSIZE
  {
    sum, n := 0, 0;
    var more := true;
    while more
      invariant sum <= BLOCKSIZE && buffer[..sum] + stream.rest == old(stream.rest)
      invariant old(stream.error) ==> stream.error
      invariant more ==> sum < BLOCKSIZE
      invariant !more ==> if n == 0 then sum < BLOCKSIZE && (stream.rest == [] || stream.error) else sum == BLOCKSIZE
      decreases |stream.rest|, more
    {
      var bytes := stream.Read(BLOCKSIZE - sum);
      n := |bytes|;
      ghost var read := buffer[..sum];
      CopyTo(buffer, sum, bytes);
      sum := sum + n;
      assert read + bytes + stream.rest == read + (bytes + stream.rest);
      more := sum < BLOCKSIZE && n != 0;
    }
  }

  method CopyTo(buffer: array<byte>, at: nat, bytes: seq<byte>)
    requires at + |bytes| <= buffer.Length
    modifies buffer
    ensures buffer[..at + |bytes|] == old(buffer[..at]) + bytes
  {
    for i := 0 to |bytes|
      invariant buffer[..at + i] == old(buffer[..at]) + bytes[..i]
    {
      buffer[at + i] := bytes[i];
    }
  }

  // The digest of the whole content whatever the reads brought, unless an error was seen.
  method Stream(stream: File) returns (failed: bool, digest: seq<byte>)
    modifies stream
    ensures failed == stream.error
    ensures !failed ==> digest == Digest(old(stream.rest))
  {
    hide Digest, Fold, Wrap, Value, Context.Total, Context.Chain;
    var ctx := new Context();
    var buffer := new byte[BLOCKSIZE + 72];
    var sum, n := 0, 1;
    while n != 0
      invariant ctx.Valid() && ctx.buflen == 0 && fresh(ctx) && fresh(ctx.buffer) && ctx.buffer != buffer
      invariant n != 0 ==> ctx.Fed() + stream.rest == old(stream.rest)
      invariant n == 0 ==> sum <= BLOCKSIZE && !stream.error && ctx.Fed() + buffer[..sum] == old(stream.rest)
      decreases |stream.rest|, n
    {
      ghost var fed := ctx.Fed();
      sum, n := ReadBlock(stream, buffer);
      assert fed + (buffer[..sum] + stream.rest) == fed + buffer[..sum] + stream.rest;
      if n == 0 && stream.error {
        return true, [];
      }
      if n != 0 {
        ctx.ProcessBlock(buffer[..BLOCKSIZE]);
      }
    }
    if sum > 0 {
      ctx.ProcessBytes(buffer[..sum]);
    }
    assert ctx.Fed() == old(stream.rest);
    digest := ctx.Finish();
    failed := false;
  }
}
