/** Proxy records and their printed form. */
module Proxies {

  /** Nanoseconds since the zero time. */
  type Time = nat

  const SECOND: nat := 1_000_000_000
  const MINUTE: nat := 60 * SECOND
  const HOUR: nat := 60 * MINUTE
  const DAY: nat := 24 * HOUR
  const ZERO_TIME: Time := 0

  datatype Option<+T> = None | Some(value: T)

  /** A row of the `proxies` table, and the record cached for it. */
  datatype Proxy = Proxy(
    id: nat, ip: string, port: string, protocol: string,
    country: string, source: string, delay: int,
    available: bool, lastVerify: Time, lastDeepVerify: Time,
    consecutiveFailures: nat, nextVerifyAt: Option<Time>)

  /** The retry time as it is read from the table: a missing one reads as the zero time. */
  function RetryAt(p: Proxy): (r: Time) {
    if p.nextVerifyAt.None? then ZERO_TIME else p.nextVerifyAt.value
  }

  function Scheme(p: Proxy): (r: string) {
    if p.protocol == "" then "http" else p.protocol
  }

  function URI(p: Proxy): (r: string) {
    Scheme(p) + "://" + p.ip + ":" + p.port
  }

  predicate SameEndpoint(p: Proxy, q: Proxy) {
    p.ip == q.ip && p.port == q.port && p.protocol == q.protocol
  }

  /** Protocol and port hold no colon; the address may be anything, IPv6 included. */
  predicate WellFormed(p: Proxy) {
    ':' !in p.protocol && ':' !in p.port
  }

  /** A printed well-formed endpoint determines its three parts. */
  lemma UriInjective(p: Proxy, q: Proxy)
    requires WellFormed(p) && WellFormed(q)
    requires URI(p) == URI(q)
    ensures Scheme(p) == Scheme(q) && p.ip == q.ip && p.port == q.port
  {
    var u := URI(p);
    SchemeEndsAtFirstColon(p);
    SchemeEndsAtFirstColon(q);
    assert |Scheme(p)| == |Scheme(q)|;
    PortFollowsLastColon(p);
    PortFollowsLastColon(q);
    assert |p.port| == |q.port|;
    assert Scheme(p) == u[..|Scheme(p)|] && Scheme(q) == u[..|Scheme(q)|];
    assert p.port == u[|u| - |p.port|..] && q.port == u[|u| - |q.port|..];
    assert p.ip == u[|Scheme(p)| + 3..|u| - |p.port| - 1];
    assert q.ip == u[|Scheme(q)| + 3..|u| - |q.port| - 1];
  }

  lemma SchemeEndsAtFirstColon(p: Proxy)
    requires WellFormed(p)
    ensures |Scheme(p)| < |URI(p)| && URI(p)[|Scheme(p)|] == ':'
    ensures forall i :: 0 <= i < |Scheme(p)| ==> URI(p)[i] != ':'
  {
    var a, u := Scheme(p), URI(p);
    assert u == a + ("://" + p.ip + ":" + p.port);
    forall i | 0 <= i < |a| ensures u[i] != ':' {
      assert u[i] == a[i] && a[i] in a;
    }
  }

  lemma PortFollowsLastColon(p: Proxy)
    requires WellFormed(p)
    ensures var k := |URI(p)| - |p.port| - 1; 0 <= k < |URI(p)| && URI(p)[k] == ':'
    ensures forall i :: |URI(p)| - |p.port| <= i < |URI(p)| ==> URI(p)[i] != ':'
  {
    var u := URI(p);
    var b := Scheme(p) + "://" + p.ip + ":";
    assert u == b + p.port;
    forall i | |b| <= i < |u| ensures u[i] != ':' {
      assert u[i] == p.port[i - |b|] && u[i] in p.port;
    }
  }
}
