/** Connection tracking and TLS abuse detection (src/security.rs). */
module Security {
  import opened Prelude

  /** TLS failures are counted in a `u32`. */
  const U32: nat := 0x1_0000_0000

  type Word32 = n: nat | n < U32

  datatype Limits = Limits(maxPerIp: nat, blockAbusers: bool, maxTlsFailures: Word32)

  datatype Tables = Tables(connections: map<IpAddr, nat>, tlsFailures: map<IpAddr, nat>, blocked: set<IpAddr>)

  function At(m: map<IpAddr, nat>, ip: IpAddr): nat {
    if ip in m then m[ip] else 0
  }

  /** The count step of an acquisition; an absent entry is created even when it is then refused. */
  function Counted(lim: Limits, t: Tables, ip: IpAddr): (bool, Tables) {
    var n := At(t.connections, ip);
    if n >= lim.maxPerIp then (false, t.(connections := t.connections[ip := n]))
    else (true, t.(connections := t.connections[ip := n + 1]))
  }

  function Acquired(lim: Limits, t: Tables, ip: IpAddr): (bool, Tables) {
    if ip in t.blocked then (false, t) else Counted(lim, t, ip)
  }

  function Released(t: Tables, ip: IpAddr): Tables {
    if At(t.connections, ip) > 0 then t.(connections := t.connections[ip := t.connections[ip] - 1]) else t
  }

  function TlsFailed(lim: Limits, t: Tables, ip: IpAddr): Tables {
    if !lim.blockAbusers then t
    else
      var count := (At(t.tlsFailures, ip) + 1) % U32;
      t.(tlsFailures := t.tlsFailures[ip := count],
         blocked := if count >= lim.maxTlsFailures then t.blocked + {ip} else t.blocked)
  }

  class SecurityChecker {
    const limits: Limits
    var connections: map<IpAddr, nat>
    var tlsFailures: map<IpAddr, nat>
    var blockedIps: set<IpAddr>

    constructor (limits: Limits)
      ensures this.limits == limits && View() == Tables(map[], map[], {})
    {
      this.limits := limits;
      connections, tlsFailures, blockedIps := map[], map[], {};
    }

    ghost function View(): Tables
      reads this
    {
      Tables(connections, tlsFailures, blockedIps)
    }

    method CheckAndAcquireConnection(ip: IpAddr) returns (ok: bool)
      modifies this`connections
      ensures (ok, View()) == Acquired(limits, old(View()), ip)
    {
      if ip in blockedIps {
        return false;
      }
      if ip !in connections {
        connections := connections[ip := 0];
      }
      if connections[ip] >= limits.maxPerIp {
        assert connections == old(connections)[ip := At(old(connections), ip)];
        return false;
      }
      var count := connections[ip] + 1;
      connections := connections[ip := count];
      assert connections == old(connections)[ip := count];
      ok := true;
    }

    method ReleaseConnection(ip: IpAddr)
      modifies this`connections
      ensures View() == Released(old(View()), ip)
    {
      if ip in connections {
        if connections[ip] > 0 {
          connections := connections[ip := connections[ip] - 1];
        }
      }
    }

    method RecordTlsFailure(ip: IpAddr)
      modifies this`tlsFailures, this`blockedIps
      ensures View() == TlsFailed(limits, old(View()), ip)
    {
      if !limits.blockAbusers {
        return;
      }
      if ip !in tlsFailures {
        tlsFailures := tlsFailures[ip := 0];
      }
      tlsFailures := tlsFailures[ip := (tlsFailures[ip] + 1) % U32];
      var count := tlsFailures[ip];
      if count >= limits.maxTlsFailures {
        blockedIps := blockedIps + {ip};
      }
    }
  }
}
