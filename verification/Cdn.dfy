/** Downloading one chunk: rotating over the hosts, dropping those that fail as hosts. */
module Cdn {
  import opened Common

  type Host = string

  /** What one request to a host gives. */
  datatype Response = Data(bytes: Bytes) | HostFailure | RequestFailure

  const CHUNK_RETRIES := 3

  function Max(a: nat, b: nat): nat {
    if a < b then b else a
  }

  ghost predicate SometimesFails(respond: (Host, nat) -> Response, h: Host) {
    exists n: nat :: !respond(h, n).Data?
  }

  /** The hosts that failed as hosts when asked in this order. */
  ghost function FailedHosts(respond: (Host, nat) -> Response, asked: seq<Host>): set<Host> {
    set k | 0 <= k < |asked| && respond(asked[k], k).HostFailure? :: asked[k]
  }

  lemma FailedHostsGrow(respond: (Host, nat) -> Response, asked: seq<Host>, h: Host)
    ensures FailedHosts(respond, asked + [h]) ==
            FailedHosts(respond, asked) + if respond(h, |asked|).HostFailure? then {h} else {}
  {
    var more := asked + [h];
    forall k | 0 <= k < |asked| && respond(asked[k], k).HostFailure? ensures asked[k] in FailedHosts(respond, more) {
      assert more[k] == asked[k];
    }
    if respond(h, |asked|).HostFailure? {
      assert more[|asked|] == h;
    }
    forall x | x in FailedHosts(respond, more)
      ensures x in FailedHosts(respond, asked) || (x == h && respond(h, |asked|).HostFailure?)
    {
      var k :| 0 <= k < |more| && respond(more[k], k).HostFailure? && more[k] == x;
      assert k < |asked| ==> asked[k] == x;
    }
  }

  class CdnClient {
    const hosts: seq<Host>
    var hostIdx: nat
    var blacklist: set<Host>

    constructor (hosts: seq<Host>)
      ensures this.hosts == hosts && hostIdx == 0 && blacklist == {}
    {
      this.hosts := hosts;
      hostIdx, blacklist := 0, {};
    }

    /** The host that turn `k` of the rotation falls on. */
    function HostAt(k: nat): Host
      requires hosts != []
    {
      hosts[k % |hosts|]
    }

    /** Every host comes up within one turn of the rotation. */
    lemma ComesUp(start: nat, h: Host)
      requires h in hosts
      ensures exists j :: start <= j < start + |hosts| && HostAt(j) == h
    {
      var k :| 0 <= k < |hosts| && hosts[k] == h;
      var j := Turn(start, |hosts|, k);
      assert HostAt(j) == h;
    }

    /** The next host that is not blacklisted, looking at every host once. */
    method NextAvailableHost() returns (h: Option<Host>)
      modifies this`hostIdx
      ensures h.None? <==> forall k :: 0 <= k < |hosts| ==> hosts[k] in blacklist
      ensures h.None? ==> hostIdx == old(hostIdx) + |hosts|
      ensures h.Some? ==>
                && old(hostIdx) < hostIdx <= old(hostIdx) + |hosts|
                && h.value == hosts[(hostIdx - 1) % |hosts|] && h.value !in blacklist
                && forall k :: old(hostIdx) <= k < hostIdx - 1 ==> HostAt(k) in blacklist
    {
      for i := 0 to |hosts|
        invariant hostIdx == old(hostIdx) + i
        invariant forall k :: old(hostIdx) <= k < hostIdx && i > 0 ==> HostAt(k) in blacklist
      {
        var host := HostAt(hostIdx);
        hostIdx := hostIdx + 1;
        if host !in blacklist {
          return Some(host);
        }
      }
      forall k | 0 <= k < |hosts| ensures hosts[k] in blacklist {
        ComesUp(old(hostIdx), hosts[k]);
      }
      return None;
    }

    method BlacklistHost(h: Host)
      modifies this`blacklist
      ensures blacklist == old(blacklist) + {h}
    {
      blacklist := blacklist + {h};
    }

    /**
     Download a chunk; `respond` says what each host answers to each attempt. A host that
     is not blacklisted and always serves the chunk is reached whatever the others do.
     `asked` are the hosts asked, in order.
     */
    method DownloadChunk(respond: (Host, nat) -> Response) returns (r: Result<Bytes>, ghost asked: seq<Host>)
      modifies this
      ensures |asked| <= 3 || |asked| <= |hosts|
      ensures forall k :: 0 <= k < |asked| ==>
                && asked[k] in hosts && asked[k] !in old(blacklist)
                && (respond(asked[k], k).Data? ==> k == |asked| - 1)
                && forall j :: 0 <= j < k && respond(asked[j], j).HostFailure? ==> asked[j] != asked[k]
      ensures match r
              case Ok(bytes) => asked != [] && respond(asked[|asked| - 1], |asked| - 1) == Data(bytes)
              case Err =>
                && (forall k :: 0 <= k < |asked| ==> !respond(asked[k], k).Data?)
                && ((|asked| >= 3 && |asked| >= |hosts|) || forall h :: h in hosts ==> h in blacklist)
      // exactly the hosts that failed as hosts are not asked again in this session
      ensures blacklist ==
              old(blacklist) + set k | 0 <= k < |asked| && respond(asked[k], k).HostFailure? :: asked[k]
      ensures (exists h :: h in hosts && h !in old(blacklist) && !SometimesFails(respond, h)) ==> r.Ok?
    {
      asked := [];
      var maxAttempts := Max(CHUNK_RETRIES, |hosts|);
      ghost var start := hostIdx;
      for attempt := 0 to maxAttempts
        invariant start + attempt <= hostIdx && |asked| == attempt
        invariant forall k :: 0 <= k < |asked| ==>
                    && asked[k] in hosts && asked[k] !in old(blacklist) && !respond(asked[k], k).Data?
                    && forall j :: 0 <= j < k && respond(asked[j], j).HostFailure? ==> asked[j] != asked[k]
        invariant blacklist == old(blacklist) + FailedHosts(respond, asked)
        // every host passed over was blacklisted or failed an attempt
        invariant hosts != [] ==>
                    forall k :: start <= k < hostIdx ==> HostAt(k) in blacklist || SometimesFails(respond, HostAt(k))
      {
        var host := NextAvailableHost();
        if host.None? {
          break;
        }
        var response := respond(host.value, attempt);
        ghost var before := asked;
        asked := asked + [host.value];
        FailedHostsGrow(respond, before, host.value);
        match response {
          case Data(bytes) =>
            return Ok(bytes), asked;
          case HostFailure =>
            BlacklistHost(host.value);
          case RequestFailure =>
        }
      }
      forall h | h in hosts && h !in old(blacklist) && !SometimesFails(respond, h)
        ensures false
      {
        if hostIdx >= start + |hosts| {
          ComesUp(start, h);
        }
      }
      return Err, asked;
    }
  }

  /** Counting on from `start`, every residue comes up within one turn. */
  lemma Turn(start: nat, n: nat, k: nat) returns (j: nat)
    requires k < n
    ensures start <= j < start + n && j % n == k
  {
    var base, q := start % n, start / n;
    j := if base <= k then start + (k - base) else start + (k + n - base);
    Distribute(q, 1, n);
    RemainderIs(j, if base <= k then q else q + 1, k, n);
  }
}
