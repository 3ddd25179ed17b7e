/**
 `PublicConnect` on the server and `ClientConnect` on the client: the object that moves bytes from its
 own descriptor through a pipe to the proxy stream. The two classes have the same code.
 */
module RelayConnect {
  import opened Bytes
  import opened ProxyConnection
  import opened Handlers

  /** What one call of `handleRead` did: put bytes on the proxy stream, or announce their number. */
  datatype Action = Forward(items: seq<Item>) | Announce(count: nat) | Ignored

  class Relay {
    var closed: bool
    var tranCount: nat
    var pipe: seq<Byte>

    /** What was put on the proxy stream, and what was read from the descriptor. */
    ghost var forwarded: seq<Item>
    ghost var read: seq<Byte>

    ghost predicate Valid()
      reads this
    {
      tranCount == |forwarded| && Wrap(read) == forwarded + Wrap(pipe)
    }

    ghost function View(): Feeder
      reads this
    {
      Feeder(true, closed, tranCount, pipe, forwarded)
    }

    constructor ()
      ensures Valid() && View() == NEW_FEEDER && read == []
    {
      closed, tranCount, pipe, forwarded, read := false, 0, [], [], [];
    }

    /**
     `bytes` is what the first splice read, nothing at the end of the stream, and `push` what the
     second one moved on; a failed second splice moved nothing.
     */
    method HandleRead(bytes: seq<Byte>, push: nat) returns (action: Action)
      requires Valid() && push <= |bytes|
      modifies this
      ensures Valid() && read == old(read) + bytes
      ensures bytes != [] ==> action.Forward? && |action.items| == push && closed == old(closed)
      ensures bytes == [] ==> closed && action == if old(closed) then Ignored else Announce(|forwarded|)
      ensures forwarded == old(forwarded) + if action.Forward? then action.items else []
      ensures forall c: Core :: bytes != [] && c.pub == old(View()) ==>
        PublicData(c, bytes, push).core.pub == View() && PublicData(c, bytes, push).core.down == c.down + action.items
      ensures forall c: Core :: bytes != [] && c.loc == old(View()) ==>
        LocalData(c, bytes, push).core.loc == View() && LocalData(c, bytes, push).core.up == c.up + action.items
    {
      if bytes == [] {
        assert read + bytes == read;
        if closed {
          return Ignored;
        }
        closed := true;
        return Announce(tranCount);
      }
      var filled := pipe + bytes;
      WrapAppend(read, bytes);
      WrapAppend(pipe, bytes);
      WrapAppend(filled[..push], filled[push..]);
      assert filled[..push] + filled[push..] == filled;
      action := Forward(Wrap(filled[..push]));
      pipe := filled[push..];
      tranCount := tranCount + push;
      read := read + bytes;
      forwarded := forwarded + action.items;
    }
  }

  lemma WrapAppend(s: seq<Byte>, t: seq<Byte>)
    ensures Wrap(s + t) == Wrap(s) + Wrap(t)
  {
  }

  /** One call: the bytes that the two splices moved. */
  datatype Call = Call(bytes: seq<Byte>, push: nat)

  function AllRead(calls: seq<Call>): seq<Byte> {
    if calls == [] then [] else AllRead(calls[..|calls| - 1]) + calls[|calls| - 1].bytes
  }

  function Pushed(calls: seq<Call>): nat {
    if calls == [] then 0 else Pushed(calls[..|calls| - 1]) + calls[|calls| - 1].push
  }

  /**
   A whole session of the object, and the end of its descriptor. The proxy stream gets a prefix of what
   was read, and the count announced is its length. It is all that was read if and only if every
   second splice moved as much as its first: whatever is in the pipe at the end is never sent.
   */
  method RelayAll(calls: seq<Call>) returns (stream: seq<Item>, count: nat)
    requires forall i :: 0 <= i < |calls| ==> calls[i].bytes != [] && calls[i].push <= |calls[i].bytes|
    ensures count == |stream| == Pushed(calls) <= |AllRead(calls)|
    ensures stream == Wrap(AllRead(calls)[..count])
    ensures stream == Wrap(AllRead(calls)) <==> forall i :: 0 <= i < |calls| ==> calls[i].push == |calls[i].bytes|
  {
    var relay := new Relay();
    stream := [];
    for i := 0 to |calls|
      invariant relay.Valid() && !relay.closed && fresh(relay)
      invariant stream == relay.forwarded && relay.read == AllRead(calls[..i]) && |stream| == Pushed(calls[..i])
    {
      assert calls[..i + 1][..i] == calls[..i];
      var action := relay.HandleRead(calls[i].bytes, calls[i].push);
      stream := stream + action.items;
    }
    assert calls[..|calls|] == calls;
    var last := relay.HandleRead([], 0);
    count := last.count;
    assert relay.read == AllRead(calls) + [] == AllRead(calls);
    StreamIsPrefix(AllRead(calls), stream, relay.pipe);
    AllPushed(calls);
  }

  lemma StreamIsPrefix(all: seq<Byte>, stream: seq<Item>, rest: seq<Byte>)
    requires Wrap(all) == stream + Wrap(rest)
    ensures |stream| <= |all| && stream == Wrap(all[..|stream|])
    ensures stream == Wrap(all) <==> |stream| == |all|
  {
    var n := |stream|;
    assert |Wrap(all)| == n + |rest|;
    assert forall i :: 0 <= i < n ==> stream[i] == Wrap(all)[i];
  }

  lemma {:induction false} AllPushed(calls: seq<Call>)
    requires forall i :: 0 <= i < |calls| ==> calls[i].push <= |calls[i].bytes|
    ensures Pushed(calls) <= |AllRead(calls)|
    ensures Pushed(calls) == |AllRead(calls)| <==> forall i :: 0 <= i < |calls| ==> calls[i].push == |calls[i].bytes|
  {
    if calls != [] {
      var n := |calls| - 1;
      AllPushed(calls[..n]);
      assert forall i :: 0 <= i < n ==> calls[..n][i] == calls[i];
    }
  }
}
