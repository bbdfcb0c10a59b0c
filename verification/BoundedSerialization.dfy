/** The bounded serializer: a document pulled through a fixed buffer, refused the moment it is too long. */
module BoundedSerialization {
  import opened Wrappers

  const BUFFER_SIZE: nat := 4096

  datatype EncodingError = OutputByteLimitInvalid | EncodedPayloadTooLarge

  /** A serializer that hands out its document in pieces of its own choosing: as much as it likes up to
      the room it is given, and at least one byte until it is done. */
  class ChunkedSource {
    const document: string
    const appetite: (nat, nat) -> nat
    var position: nat

    ghost predicate Valid()
      reads this
    {
      position <= |document|
    }

    predicate Done()
      reads this
    {
      position == |document|
    }

    constructor (document: string, appetite: (nat, nat) -> nat)
      ensures Valid() && this.document == document && this.appetite == appetite && position == 0
    {
      this.document := document;
      this.appetite := appetite;
      position := 0;
    }

    method Read(room: nat) returns (chunk: string)
      requires Valid() && !Done() && room >= 1
      modifies this
      ensures Valid() && 1 <= |chunk| <= room && position == old(position) + |chunk|
      ensures chunk == document[old(position)..position]
    {
      var left, wanted := |document| - position, appetite(position, room);
      var most := if left < room then left else room;
      var size := if wanted < 1 then 1 else if wanted > most then most else wanted;
      chunk := document[position..position + size];
      position := position + size;
    }
  }

  function Least(a: nat, b: nat): nat {
    if a < b then a else b
  }

  /** What serializing under a limit comes to, however the document arrives. */
  function Bounded(document: string, limit: nat, protocolMaximum: nat): Result<string, EncodingError> {
    if limit == 0 || limit > protocolMaximum then Failure(OutputByteLimitInvalid)
    else if |document| > limit then Failure(EncodedPayloadTooLarge)
    else Success(document)
  }

  /** Whatever pieces the source chooses, the answer is the whole document or a refusal and never a
      shorter one; no more than the limit is ever held and no more than one byte past it ever pulled. */
  method SerializeBounded(source: ChunkedSource, limit: nat, protocolMaximum: nat)
    returns (r: Result<string, EncodingError>, ghost peak: nat)
    requires source.Valid() && source.position == 0
    modifies source
    ensures r == Bounded(source.document, limit, protocolMaximum)
    ensures r == Failure(OutputByteLimitInvalid) <==> limit == 0 || limit > protocolMaximum
    ensures r == Success(source.document) <==> 1 <= limit <= protocolMaximum && |source.document| <= limit
    ensures r == Failure(OutputByteLimitInvalid) ==> source.position == 0
    ensures peak <= limit && source.position <= limit + 1
  {
    peak := 0;
    if limit == 0 || limit > protocolMaximum { return Failure(OutputByteLimitInvalid), peak; }
    var output := "";
    while !source.Done()
      invariant source.Valid() && output == source.document[..source.position]
      invariant |output| <= peak <= limit
      decreases |source.document| - source.position
    {
      var remaining := limit - |output|;
      var chunk := source.Read(Least(BUFFER_SIZE, remaining + 1));
      if |chunk| > remaining { return Failure(EncodedPayloadTooLarge), peak; }
      output := output + chunk;
      peak := if |output| > peak then |output| else peak;
    }
    assert source.document[..source.position] == source.document;
    r := Success(output);
  }
}
