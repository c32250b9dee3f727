/** Node ID cookies: random challenges handed to an endpoint, taken back at most once, limited per IP address. */
module SynCookies {
  import opened Options
  import opened Bytes
  import opened Messages

  type Cookie = Bytes32

  datatype CookieInfo = CookieInfo(cookie: Cookie, createdAt: nat)

  predicate ExceedsCutoff(info: CookieInfo, cutoff: nat, now: nat) {
    now - info.createdAt > cutoff
  }

  function Counted(perIp: map<Bytes16, nat>, ip: Bytes16): nat {
    if ip in perIp then perIp[ip] else 0
  }

  /** The endpoints at one IP address. */
  function At(endpoints: set<Peer>, ip: Bytes16): set<Peer> {
    set e | e in endpoints && e.ip == ip
  }

  lemma AtWith(endpoints: set<Peer>, e: Peer, ip: Bytes16)
    requires e !in endpoints
    ensures |At(endpoints + {e}, ip)| == |At(endpoints, ip)| + if e.ip == ip then 1 else 0
  {
    assert At(endpoints + {e}, ip) == At(endpoints, ip) + if e.ip == ip then {e} else {};
  }

  lemma AtWithout(endpoints: set<Peer>, e: Peer, ip: Bytes16)
    requires e in endpoints
    ensures |At(endpoints - {e}, ip)| == |At(endpoints, ip)| - if e.ip == ip then 1 else 0
  {
    AtWith(endpoints - {e}, e, ip);
    assert endpoints - {e} + {e} == endpoints;
  }

  /** The counters are the numbers of endpoints that have a cookie, and within the limit. */
  ghost predicate CountsMatch(endpoints: set<Peer>, perIp: map<Bytes16, nat>, limit: nat) {
    forall ip: Bytes16 :: Counted(perIp, ip) == |At(endpoints, ip)| <= limit
  }

  lemma CountsAfterInsert(endpoints: set<Peer>, perIp: map<Bytes16, nat>, limit: nat, e: Peer)
    requires CountsMatch(endpoints, perIp, limit) && e !in endpoints && Counted(perIp, e.ip) < limit
    ensures CountsMatch(endpoints + {e}, perIp[e.ip := Counted(perIp, e.ip) + 1], limit)
  {
    var after := perIp[e.ip := Counted(perIp, e.ip) + 1];
    forall ip: Bytes16 ensures Counted(after, ip) == |At(endpoints + {e}, ip)| <= limit {
      AtWith(endpoints, e, ip);
      assert Counted(perIp, ip) == |At(endpoints, ip)|;
    }
  }

  lemma CountsAfterRemove(endpoints: set<Peer>, perIp: map<Bytes16, nat>, limit: nat, e: Peer)
    requires CountsMatch(endpoints, perIp, limit) && e in endpoints
    ensures Counted(perIp, e.ip) > 0
    ensures CountsMatch(endpoints - {e}, perIp[e.ip := Counted(perIp, e.ip) - 1], limit)
  {
    AtWithout(endpoints, e, e.ip);
    assert Counted(perIp, e.ip) == |At(endpoints, e.ip)|;
    var after := perIp[e.ip := Counted(perIp, e.ip) - 1];
    forall ip: Bytes16 ensures Counted(after, ip) == |At(endpoints - {e}, ip)| <= limit {
      AtWithout(endpoints, e, ip);
      assert Counted(perIp, ip) == |At(endpoints, ip)|;
    }
  }

  lemma CountsUntouched(endpoints: set<Peer>, perIp: map<Bytes16, nat>, limit: nat, ip: Bytes16)
    requires CountsMatch(endpoints, perIp, limit)
    ensures CountsMatch(endpoints, perIp[ip := Counted(perIp, ip)], limit)
  {
    forall other: Bytes16 ensures Counted(perIp[ip := Counted(perIp, ip)], other) == Counted(perIp, other) {
    }
  }

  predicate NoRepeats(s: seq<nat>) {
    forall i, j :: 0 <= i < j < |s| ==> s[i] != s[j]
  }

  /** Every cookie in the table is an issued one that has not been taken back; none was taken back twice. */
  ghost predicate LogMatches(cookies: map<Peer, CookieInfo>, issued: seq<(Peer, Cookie)>, live: map<Peer, nat>, used: seq<nat>) {
    && live.Keys == cookies.Keys
    && (forall e :: e in cookies ==> live[e] < |issued| && live[e] !in used && issued[live[e]] == (e, cookies[e].cookie))
    && NoRepeats(used)
    && (forall k :: k in used ==> k < |issued|)
  }

  lemma LogAfterIssue(cookies: map<Peer, CookieInfo>, issued: seq<(Peer, Cookie)>, live: map<Peer, nat>, used: seq<nat>,
                      e: Peer, info: CookieInfo)
    requires LogMatches(cookies, issued, live, used)
    ensures LogMatches(cookies[e := info], issued + [(e, info.cookie)], live[e := |issued|], used)
  {
  }

  lemma LogAfterForget(cookies: map<Peer, CookieInfo>, issued: seq<(Peer, Cookie)>, live: map<Peer, nat>, used: seq<nat>, e: Peer)
    requires LogMatches(cookies, issued, live, used)
    ensures LogMatches(cookies - {e}, issued, live - {e}, used)
  {
  }

  class SynCookies {
    var cookies: map<Peer, CookieInfo>
    var perIp: map<Bytes16, nat>
    const maxPerIp: nat
    /** Every cookie ever handed out, with its endpoint. */
    ghost var issued: seq<(Peer, Cookie)>
    /** Which of the issued cookies an endpoint still has. */
    ghost var live: map<Peer, nat>
    /** The issued cookies that were taken back, in that order. */
    ghost var used: seq<nat>
    /** By whom they were taken back, where that is known. */
    ghost var takenBy: map<nat, object?>

    ghost predicate Valid()
      reads this
    {
      && CountsMatch(cookies.Keys, perIp, maxPerIp)
      && LogMatches(cookies, issued, live, used)
      && forall k :: k in takenBy <==> k in used
    }

    /** The logs only ever grow. */
    twostate predicate Grows()
      reads this
    {
      && old(issued) <= issued
      && old(used) <= used
      && forall k :: k in old(takenBy) ==> k in takenBy && takenBy[k] == old(takenBy[k])
    }

    ghost predicate Outstanding(k: nat)
      reads this
    {
      k < |issued| && k !in used
    }

    /** Cookie number `k` went to the endpoint and has been taken back. */
    ghost predicate UsedBy(k: nat, endpoint: Peer, cookie: Cookie)
      reads this
    {
      k < |issued| && issued[k] == (endpoint, cookie) && k in used
    }

    constructor (maxPerIp: nat)
      ensures Valid() && cookies == map[] && issued == [] && used == []
      ensures this.maxPerIp == maxPerIp
    {
      cookies, perIp, this.maxPerIp, issued, live, used, takenBy := map[], map[], maxPerIp, [], map[], [], map[];
    }

    /** Hands out a cookie exactly when the endpoint has none and its IP address is below the limit. */
    method Assign(endpoint: Peer, random: Cookie, now: nat) returns (cookie: Option<Cookie>)
      requires Valid()
      modifies this
      ensures Valid() && used == old(used) && takenBy == old(takenBy)
      ensures cookie == if endpoint !in old(cookies) && |At(old(cookies).Keys, endpoint.ip)| < maxPerIp then Some(random) else None
      ensures if cookie.None? then cookies == old(cookies) && issued == old(issued)
              else cookies == old(cookies)[endpoint := CookieInfo(random, now)] && issued == old(issued) + [(endpoint, random)]
    {
      hide CountsMatch, LogMatches, At;
      if endpoint in cookies {
        return None;
      }
      assert Counted(perIp, endpoint.ip) == |At(cookies.Keys, endpoint.ip)| by { CountAt(endpoint.ip); }
      perIp := perIp[endpoint.ip := Counted(perIp, endpoint.ip)];
      if perIp[endpoint.ip] < maxPerIp {
        CountsAfterInsert(cookies.Keys, old(perIp), maxPerIp, endpoint);
        perIp := perIp[endpoint.ip := perIp[endpoint.ip] + 1];
        assert perIp == old(perIp)[endpoint.ip := Counted(old(perIp), endpoint.ip) + 1];
        var info := CookieInfo(random, now);
        LogAfterIssue(cookies, issued, live, used, endpoint, info);
        live := live[endpoint := |issued|];
        issued := issued + [(endpoint, random)];
        cookies := cookies[endpoint := info];
        assert cookies.Keys == old(cookies).Keys + {endpoint};
        cookie := Some(random);
      } else {
        CountsUntouched(cookies.Keys, old(perIp), maxPerIp, endpoint.ip);
        cookie := None;
      }
    }

    lemma CountAt(ip: Bytes16)
      requires Valid()
      ensures Counted(perIp, ip) == |At(cookies.Keys, ip)| <= maxPerIp
    {
    }

    /** Taking more cookies back than were handed out would abort the process. */
    method DecCookieCount(ip: Bytes16)
      requires Counted(perIp, ip) > 0
      modifies this`perIp
      ensures perIp == old(perIp)[ip := old(perIp[ip]) - 1]
    {
      perIp := perIp[ip := perIp[ip] - 1];
    }

    method Forget(endpoint: Peer)
      requires Valid() && endpoint in cookies
      modifies this`cookies, this`perIp, this`live
      ensures Valid() && cookies == old(cookies) - {endpoint} && live == old(live) - {endpoint}
    {
      hide CountsMatch, LogMatches, At;
      CountsAfterRemove(cookies.Keys, perIp, maxPerIp, endpoint);
      LogAfterForget(cookies, issued, live, used, endpoint);
      cookies, live := cookies - {endpoint}, live - {endpoint};
      DecCookieCount(endpoint.ip);
      assert cookies.Keys == old(cookies).Keys - {endpoint};
    }

    /** Takes the endpoint's cookie back. It is one that was handed to this very endpoint and never taken back before. */
    method TakeCookie(endpoint: Peer, ghost taker: object?) returns (cookie: Option<Cookie>)
      requires Valid()
      modifies this
      ensures Valid() && issued == old(issued) && Grows()
      ensures cookies == old(cookies) - {endpoint}
      ensures if endpoint in old(cookies)
              then cookie == Some(old(cookies[endpoint].cookie)) && used == old(used + [live[endpoint]]) && old(Outstanding(live[endpoint]))
                   && UsedBy(old(live[endpoint]), endpoint, cookie.value) && takenBy == old(takenBy)[old(live[endpoint]) := taker]
              else cookie.None? && used == old(used) && takenBy == old(takenBy)
    {
      if endpoint in cookies {
        cookie := Some(cookies[endpoint].cookie);
        ghost var k := live[endpoint];
        Forget(endpoint);
        used, takenBy := used + [k], takenBy[k := taker];
      } else {
        assert cookies - {endpoint} == cookies;
        cookie := None;
      }
    }

    /** Unlike the handshake, this accepts an endpoint that has no cookie, and a bad signature does not cost the cookie. */
    method Validate(endpoint: Peer, verifies: Cookie -> bool) returns (ok: bool)
      requires Valid()
      modifies this
      ensures Valid() && issued == old(issued) && Grows()
      ensures ok <==> endpoint !in old(cookies) || verifies(old(cookies[endpoint].cookie))
      ensures if ok then cookies == old(cookies) - {endpoint} else cookies == old(cookies)
      ensures used == if ok && endpoint in old(cookies) then old(used + [live[endpoint]]) else old(used)
    {
      if endpoint in cookies {
        if !verifies(cookies[endpoint].cookie) {
          return false;
        }
        ghost var k := live[endpoint];
        Forget(endpoint);
        used, takenBy := used + [k], takenBy[k := null];
      } else {
        assert cookies - {endpoint} == cookies;
      }
      ok := true;
    }

    /** The endpoints whose cookies are too old, each once. */
    method Expired(cutoff: nat, now: nat) returns (endpoints: seq<Peer>)
      ensures forall e :: e in endpoints <==> e in cookies && ExceedsCutoff(cookies[e], cutoff, now)
      ensures forall i, j :: 0 <= i < j < |endpoints| ==> endpoints[i] != endpoints[j]
    {
      endpoints := [];
      var rest := cookies.Keys;
      while rest != {}
        invariant rest <= cookies.Keys
        invariant forall e :: e in endpoints <==> e in cookies && e !in rest && ExceedsCutoff(cookies[e], cutoff, now)
        invariant forall i, j :: 0 <= i < j < |endpoints| ==> endpoints[i] != endpoints[j]
        decreases |rest|
      {
        var e :| e in rest;
        rest := rest - {e};
        if ExceedsCutoff(cookies[e], cutoff, now) {
          endpoints := endpoints + [e];
        }
      }
    }

    /** Drops exactly the cookies that are too old. They were not taken back, and never will be. */
    method Purge(cutoff: nat, now: nat)
      requires Valid()
      modifies this`cookies, this`perIp, this`live
      ensures Valid()
      ensures cookies == map e | e in old(cookies) && now <= old(cookies)[e].createdAt + cutoff :: old(cookies)[e]
    {
      hide CountsMatch, LogMatches;
      var endpoints := Expired(cutoff, now);
      ghost var gone := {};
      for i := 0 to |endpoints|
        invariant Valid()
        invariant cookies == old(cookies) - gone
        invariant forall e :: e in gone <==> e in endpoints[..i]
      {
        assert endpoints[i] in endpoints && endpoints[i] !in endpoints[..i];
        Forget(endpoints[i]);
        assert endpoints[..i + 1] == endpoints[..i] + [endpoints[i]];
        gone := gone + {endpoints[i]};
      }
      assert endpoints[..|endpoints|] == endpoints;
    }

    /** What other connections and the purge thread may do in between: any `writes` calls. */
    method OtherConnections(writes: nat)
      requires Valid()
      modifies this
      ensures Valid() && Grows()
      ensures writes == 0 ==> cookies == old(cookies) && issued == old(issued) && used == old(used) && takenBy == old(takenBy)
    {
      hide CountsMatch, LogMatches, At;
      for i := 0 to writes
        invariant Valid() && Grows()
        invariant i == 0 ==> cookies == old(cookies) && issued == old(issued) && used == old(used) && takenBy == old(takenBy)
      {
        OtherWrite();
      }
    }

    method OtherWrite()
      requires Valid()
      modifies this
      ensures Valid() && Grows()
    {
      hide CountsMatch, LogMatches, At;
      var e: Peer, random: Cookie, time: nat := *, *, *;
      if
      case true => var _ := Assign(e, random, time);
      case true => var _ := TakeCookie(e, null);
      case true => var ok: bool := *; var _ := Validate(e, _ => ok);
      case true => var now: nat := *; Purge(time, now);
    }
  }
}
