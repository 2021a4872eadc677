/** The byte-capped reading loop of malv-controlled-fetch.util.ts. */
module CappedReader {
  import opened Wrappers

  type Byte = n: nat | n < 256

  function Flatten(chunks: seq<seq<Byte>>): seq<Byte> {
    if chunks == [] then [] else Flatten(chunks[..|chunks| - 1]) + chunks[|chunks| - 1]
  }

  /** All bytes of the stream; a read may deliver no value. */
  function StreamBytes(pieces: seq<Option<seq<Byte>>>): seq<Byte> {
    if pieces == [] then [] else StreamBytes(pieces[..|pieces| - 1]) + pieces[|pieces| - 1].GetOr([])
  }

  function Cap(maxBytes: int, total: nat): nat {
    if maxBytes < 0 then 0 else if maxBytes < total then maxBytes else total
  }

  lemma {:induction false} StreamPrefix(pieces: seq<Option<seq<Byte>>>, i: nat)
    requires i <= |pieces|
    ensures StreamBytes(pieces[..i]) <= StreamBytes(pieces)
  {
    if i < |pieces| {
      StreamPrefix(pieces[..|pieces| - 1], i);
      assert pieces[..|pieces| - 1][..i] == pieces[..i];
    } else {
      assert pieces[..i] == pieces;
    }
  }

  /** However the stream is cut into pieces, exactly its first `maxBytes` bytes are collected. */
  method ReadCapped(pieces: seq<Option<seq<Byte>>>, maxBytes: int) returns (chunks: seq<seq<Byte>>)
    ensures Flatten(chunks) == StreamBytes(pieces)[..Cap(maxBytes, |StreamBytes(pieces)|)]
  {
    chunks := [];
    var total := 0;
    var i := 0;
    while i < |pieces|
      invariant 0 <= i <= |pieces|
      invariant total == |StreamBytes(pieces[..i])|
      invariant total <= maxBytes || (total == 0 && chunks == [])
      invariant Flatten(chunks) == StreamBytes(pieces[..i])
    {
      var value := pieces[i];
      i := i + 1;
      assert pieces[..i][..i - 1] == pieces[..i - 1];
      StreamPrefix(pieces, i);
      if value.Some? {
        total := total + |value.value|;
        if total > maxBytes {
          var keep := |value.value| - (total - maxBytes);
          var last := value.value[..if keep < 0 then 0 else keep];
          chunks := chunks + [last];
          assert chunks[..|chunks| - 1] + [last] == chunks;
          ghost var cap := Cap(maxBytes, |StreamBytes(pieces)|);
          assert StreamBytes(pieces)[..cap] == StreamBytes(pieces[..i])[..cap];
          return;
        }
        chunks := chunks + [value.value];
        assert chunks[..|chunks| - 1] + [value.value] == chunks;
      }
    }
    assert pieces[..i] == pieces;
  }
}
