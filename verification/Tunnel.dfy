/**
 The server's `Tunnel` as the object that keeps the collections of proxy connections and of pending
 public descriptors. Its methods are the moves that the system model makes between them.
 */
module ServerTunnel {
  import opened ProxyConnection
  import opened Handlers
  import opened Network

  /** What the accept loop sent: requests on pooled connections, and notifications. */
  datatype Sent = Sent(requests: seq<(Id, Fd)>, notifies: nat)

  class Tunnel {
    var waitProxyConnectMap: set<Id>
    var proxyConnectMap: set<Id>
    var freeProxyConnects: seq<Id>
    var unhandleFds: seq<Fd>

    /** The part of the server's collections that a tunnel keeps. */
    ghost predicate Keeps(s: Server)
      reads this
    {
      && s.waiting == waitProxyConnectMap && s.active == proxyConnectMap
      && s.pool == freeProxyConnects && s.pending == unhandleFds
    }

    constructor ()
      ensures Keeps(INITIAL.server)
    {
      waitProxyConnectMap, proxyConnectMap := {}, {};
      freeProxyConnects, unhandleFds := [], [];
    }

    method GetAndPopUndealPublicFd() returns (fd: Fd)
      requires unhandleFds != []
      modifies this`unhandleFds
      ensures old(unhandleFds) == unhandleFds + [fd]
    {
      fd := unhandleFds[|unhandleFds| - 1];
      unhandleFds := unhandleFds[..|unhandleFds| - 1];
    }

    method FreeProxyConn(id: Id, isStart: bool)
      modifies this
      ensures forall n: Net :: old(Keeps(n.server)) ==>
        Keeps(MoveIn(n, id, if old(id in proxyConnectMap) && !isStart then Pool else Stay).server)
      ensures if old(id in proxyConnectMap) && !isStart
              then proxyConnectMap == old(proxyConnectMap) - {id} && freeProxyConnects == old(freeProxyConnects) + [id]
              else unchanged(`proxyConnectMap) && unchanged(`freeProxyConnects)
      ensures unchanged(`waitProxyConnectMap) && unchanged(`unhandleFds)
    {
      if id !in proxyConnectMap || isStart {
        return;
      }
      proxyConnectMap := proxyConnectMap - {id};
      freeProxyConnects := freeProxyConnects + [id];
    }

    /** The result is the descriptor bound to the connection. */
    method ClaimProxyConn(id: Id) returns (fd: Fd)
      requires unhandleFds != []
      modifies this
      ensures forall n: Net :: old(Keeps(n.server)) ==>
        Keeps(MoveIn(n, id, Claim).server) && MoveIn(n, id, Claim).bindings == n.bindings + [(fd, id)]
      ensures old(unhandleFds) == unhandleFds + [fd] && proxyConnectMap == old(proxyConnectMap) + {id}
      ensures unchanged(`waitProxyConnectMap) && unchanged(`freeProxyConnects)
    {
      fd := GetAndPopUndealPublicFd();
      proxyConnectMap := proxyConnectMap + {id};
    }

    method HandleStartProxyConnRsp(id: Id, fd: Fd) returns (bound: bool)
      modifies this
      ensures bound <==> old(id in waitProxyConnectMap)
      ensures forall n: Net :: old(Keeps(n.server)) ==>
        Keeps(MoveIn(n, id, if bound then Bind(fd) else Stay).server)
      ensures if bound
              then proxyConnectMap == old(proxyConnectMap) + {id}
                   && waitProxyConnectMap == old(waitProxyConnectMap) - {id}
              else unchanged(`proxyConnectMap) && unchanged(`waitProxyConnectMap)
      ensures unchanged(`freeProxyConnects) && unchanged(`unhandleFds)
    {
      if id !in waitProxyConnectMap {
        return false;
      }
      proxyConnectMap := proxyConnectMap + {id};
      waitProxyConnectMap := waitProxyConnectMap - {id};
      return true;
    }

    method PopFreeProxyConn() returns (isEmpty: bool, id: Id)
      modifies this`freeProxyConnects
      ensures isEmpty <==> old(freeProxyConnects) == []
      ensures old(freeProxyConnects) == if isEmpty then freeProxyConnects else freeProxyConnects + [id]
    {
      if freeProxyConnects == [] {
        return true, 0;
      }
      id := freeProxyConnects[|freeProxyConnects| - 1];
      freeProxyConnects := freeProxyConnects[..|freeProxyConnects| - 1];
      return false, id;
    }

    /**
     The accept loop over the descriptors at hand: the pool is served from its end until it is empty,
     every other descriptor is kept and announced.
     */
    method NewPublicConnHandler(accepted: seq<Fd>) returns (sent: Sent)
      modifies this
      ensures var k := |sent.requests|;
        && k == (if |accepted| < |old(freeProxyConnects)| then |accepted| else |old(freeProxyConnects)|)
        && (forall j :: 0 <= j < k ==>
              sent.requests[j] == (old(freeProxyConnects)[|old(freeProxyConnects)| - 1 - j], accepted[j]))
        && freeProxyConnects == old(freeProxyConnects)[..|old(freeProxyConnects)| - k]
        && waitProxyConnectMap == old(waitProxyConnectMap) + (set r | r in sent.requests :: r.0)
        && unhandleFds == old(unhandleFds) + accepted[k..]
        && sent.notifies == |accepted| - k
      ensures unchanged(`proxyConnectMap)
    {
      var requests, notifies, i := [], 0, 0;
      while i < |accepted|
        invariant i <= |accepted|
        invariant |requests| == if i < |old(freeProxyConnects)| then i else |old(freeProxyConnects)|
        invariant forall j :: 0 <= j < |requests| ==>
          requests[j] == (old(freeProxyConnects)[|old(freeProxyConnects)| - 1 - j], accepted[j])
        invariant freeProxyConnects == old(freeProxyConnects)[..|old(freeProxyConnects)| - |requests|]
        invariant waitProxyConnectMap == old(waitProxyConnectMap) + (set r | r in requests :: r.0)
        invariant unhandleFds == old(unhandleFds) + accepted[|requests|..i]
        invariant notifies == i - |requests|
        invariant unchanged(`proxyConnectMap)
      {
        var freeEmpty, id := PopFreeProxyConn();
        if !freeEmpty {
          requests := requests + [(id, accepted[i])];
          waitProxyConnectMap := waitProxyConnectMap + {id};
        } else {
          unhandleFds := unhandleFds + [accepted[i]];
          notifies := notifies + 1;
        }
        i := i + 1;
      }
      sent := Sent(requests, notifies);
    }
  }
}
