// What every part of the model uses.

module Prelude {
  datatype Option<+T> = None | Some(value: T)

  function Min(a: nat, b: nat): nat {
    if a < b then a else b
  }
}

// A raw stream as the drivers and the encrypted streams see it.
module RawStreams {
  import opened Prelude

  class RawStream<T(==)> {
    var incoming: seq<T>    // what the peer will have sent by the time it closes
    var written: seq<T>
    var isOpen: bool

    constructor (incoming: seq<T>)
      ensures this.incoming == incoming && written == [] && isOpen
    {
      this.incoming, written, isOpen := incoming, [], true;
    }

    // Reads `count` elements, or what is left when the stream ends before that.
    method Read(count: nat) returns (data: seq<T>)
      modifies this`incoming
      ensures data == old(incoming)[..Min(count, |old(incoming)|)]
      ensures old(incoming) == data + incoming
    {
      var n := Min(count, |incoming|);
      data, incoming := incoming[..n], incoming[n..];
    }

    // Some of the next elements, as many as happen to be there, at most max; none only at the end.
    method ReadSome(max: nat) returns (data: seq<T>)
      requires max > 0
      modifies this`incoming
      ensures old(incoming) == data + incoming && |data| <= max
      ensures data == [] <==> old(incoming) == []
    {
      if incoming == [] {
        return [];
      }
      var limit := if max < |incoming| then max else |incoming|;
      var n: nat :| 1 <= n <= limit;
      data, incoming := incoming[..n], incoming[n..];
    }

    method Write(data: seq<T>)
      modifies this`written
      ensures written == old(written) + data
    {
      written := written + data;
    }

    method Close()
      modifies this`isOpen
      ensures !isOpen
    {
      isOpen := false;
    }
  }
}
