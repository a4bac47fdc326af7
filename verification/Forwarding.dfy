/** Finding the client address behind a chain of trusted proxies. */
module Forwarding {
  import opened Wrappers
  import opened Strings

  const MAX_FORWARDED := 64

  datatype Failure = BadPeer | UntrustedPeer | BadAddress | TooManyAddresses | ShortChain | UntrustedProxy(address: string)

  datatype Resolved = Client(ip: string) | Refused(why: Failure)

  // Address parsing (to canonical text) and membership in the trusted ranges.
  datatype Network = Network(parse: string -> Option<string>, trusted: string -> bool)

  function Items(lines: seq<string>): seq<string> {
    if lines == [] then [] else Items(lines[..|lines| - 1]) + SplitOn(lines[|lines| - 1], ',')
  }

  predicate AllParse(net: Network, items: seq<string>) {
    forall i :: 0 <= i < |items| ==> net.parse(items[i]).Some?
  }

  function Addresses(net: Network, items: seq<string>): (r: seq<string>)
    requires AllParse(net, items)
    ensures |r| == |items| && forall i :: 0 <= i < |r| ==> r[i] == net.parse(items[i]).value
  {
    seq(|items|, i requires 0 <= i < |items| => net.parse(items[i]).value)
  }

  predicate AllTrusted(net: Network, chain: seq<string>) {
    forall i :: 0 <= i < |chain| ==> net.trusted(chain[i])
  }

  function FirstUntrusted(net: Network, chain: seq<string>): (r: string)
    requires !AllTrusted(net, chain)
    ensures r in chain && !net.trusted(r)
  {
    if net.trusted(chain[0]) then FirstUntrusted(net, chain[1..]) else chain[0]
  }

  // Only the first 65 items are ever looked at.
  function Seen(items: seq<string>): seq<string> {
    if |items| > MAX_FORWARDED then items[..MAX_FORWARDED + 1] else items
  }

  function Resolve(net: Network, peer: Option<string>, items: seq<string>, hops: nat): Resolved {
    if peer.None? then Refused(BadPeer)
    else if hops == 0 then Client(peer.value)
    else if !net.trusted(peer.value) then Refused(UntrustedPeer)
    else if !AllParse(net, Seen(items)) then Refused(BadAddress)
    else if |items| > MAX_FORWARDED then Refused(TooManyAddresses)
    else if hops > |items| then Refused(ShortChain)
    else
      var chain := Addresses(net, items) + [peer.value];
      var proxies := chain[|items| - hops + 1..];
      if AllTrusted(net, proxies) then Client(chain[|items| - hops]) else Refused(UntrustedProxy(FirstUntrusted(net, proxies)))
  }

  lemma {:induction false} ItemsSoFar(lines: seq<string>, n: nat)
    requires n <= |lines|
    ensures Items(lines[..n]) <= Items(lines)
    ensures n < |lines| ==> Items(lines[..n + 1]) == Items(lines[..n]) + SplitOn(lines[n], ',')
    decreases |lines| - n
  {
    if n < |lines| {
      assert lines[..n + 1][..n] == lines[..n];
      ItemsSoFar(lines, n + 1);
    } else {
      assert lines[..n] == lines;
    }
  }

  // What scanning `items` from the left comes to.
  ghost predicate Scanned(net: Network, items: seq<string>, chain: seq<string>, failure: Option<Failure>) {
    match failure
    case None => AllParse(net, items) && |items| <= MAX_FORWARDED && chain == Addresses(net, items)
    case Some(BadAddress) => !AllParse(net, Seen(items))
    case Some(TooManyAddresses) => AllParse(net, Seen(items)) && |items| > MAX_FORWARDED
    case Some(_) => false
  }

  lemma ScanStays(net: Network, items: seq<string>, more: seq<string>, chain: seq<string>, failure: Option<Failure>)
    requires Scanned(net, items, chain, failure) && failure.Some? && items <= more
    ensures Scanned(net, more, chain, failure)
  {
    var seen, longer := Seen(items), Seen(more);
    if |items| > MAX_FORWARDED {
      assert longer == seen;
    } else {
      assert forall i :: 0 <= i < |seen| ==> longer[i] == seen[i];
    }
  }

  // One header line, stopping at the first item that does not parse and at the 65th in all.
  method CollectLine(net: Network, ghost before: seq<string>, start: seq<string>, parts: seq<string>)
    returns (chain: seq<string>, failure: Option<Failure>)
    requires Scanned(net, before, start, None)
    ensures Scanned(net, before + parts, chain, failure)
  {
    chain := start;
    assert before + parts[..0] == before;
    for j := 0 to |parts|
      invariant Scanned(net, before + parts[..j], chain, None)
    {
      ghost var next := before + parts[..j + 1];
      assert next == before + parts[..j] + [parts[j]];
      assert next <= before + parts;
      assert Seen(next)[|chain|] == parts[j];
      var ip := net.parse(parts[j]);
      if ip.None? {
        ScanStays(net, next, before + parts, chain, Some(BadAddress));
        return chain, Some(BadAddress);
      }
      chain := chain + [ip.value];
      if |chain| > MAX_FORWARDED {
        ScanStays(net, next, before + parts, chain, Some(TooManyAddresses));
        return chain, Some(TooManyAddresses);
      }
    }
    assert parts[..|parts|] == parts;
    return chain, None;
  }

  method Collect(net: Network, lines: seq<string>) returns (chain: seq<string>, failure: Option<Failure>)
    ensures Scanned(net, Items(lines), chain, failure)
  {
    chain := [];
    for i := 0 to |lines|
      invariant Scanned(net, Items(lines[..i]), chain, None)
    {
      ghost var before := Items(lines[..i]);
      ItemsSoFar(lines, i);
      ItemsSoFar(lines, i + 1);
      chain, failure := CollectLine(net, before, chain, SplitOn(lines[i], ','));
      if failure.Some? {
        ScanStays(net, before + SplitOn(lines[i], ','), Items(lines), chain, failure);
        return;
      }
    }
    assert lines[..|lines|] == lines;
    return chain, None;
  }

  method CanonicalClientIP(net: Network, peer: Option<string>, lines: seq<string>, hops: nat) returns (r: Resolved)
    ensures r == Resolve(net, peer, Items(lines), hops)
  {
    if peer.None? {
      return Refused(BadPeer);
    }
    if hops == 0 {
      return Client(peer.value);
    }
    if !net.trusted(peer.value) {
      return Refused(UntrustedPeer);
    }
    var chain, failure := Collect(net, lines);
    if failure.Some? {
      return Refused(failure.value);
    }
    chain := chain + [peer.value];
    var index := |chain| - 1 - hops;
    if index < 0 {
      return Refused(ShortChain);
    }
    var stray := FindUntrusted(net, chain[index + 1..]);
    if stray.Some? {
      return Refused(UntrustedProxy(stray.value));
    }
    return Client(chain[index]);
  }

  method FindUntrusted(net: Network, proxies: seq<string>) returns (stray: Option<string>)
    ensures stray.None? <==> AllTrusted(net, proxies)
    ensures stray.Some? ==> stray.value == FirstUntrusted(net, proxies)
  {
    for proxy := 0 to |proxies|
      invariant AllTrusted(net, proxies[..proxy])
    {
      if !net.trusted(proxies[proxy]) {
        UntrustedAt(net, proxies, proxy);
        return Some(proxies[proxy]);
      }
      assert proxies[..proxy + 1] == proxies[..proxy] + [proxies[proxy]];
    }
    assert proxies[..|proxies|] == proxies;
    return None;
  }

  lemma {:induction false} UntrustedAt(net: Network, chain: seq<string>, i: nat)
    requires i < |chain| && !net.trusted(chain[i]) && AllTrusted(net, chain[..i])
    ensures !AllTrusted(net, chain) && FirstUntrusted(net, chain) == chain[i]
  {
    if i > 0 {
      assert chain[0] == chain[..i][0];
      assert chain[1..][..i - 1] == chain[..i][1..];
      UntrustedAt(net, chain[1..], i - 1);
    }
  }

  // ------------------------------------------------------------------------------ properties

  /** With at least one hop, resolution succeeds exactly when the peer parses and is trusted, all
      forwarded items parse, there are between `hops` and 64 of them, and the last `hops` entries of
      the chain are trusted; the answer is the entry `hops` from the right. */
  lemma SucceedsExactly(net: Network, peer: Option<string>, items: seq<string>, hops: nat)
    requires hops >= 1
    ensures var r := Resolve(net, peer, items, hops);
            && (r.Client? <==>
                  && peer.Some? && AllParse(net, items) && hops <= |items| <= MAX_FORWARDED && net.trusted(peer.value)
                  && forall i :: |items| - hops < i < |items| ==> net.trusted(net.parse(items[i]).value))
            && (r.Client? ==> Some(r.ip) == net.parse(items[|items| - hops]))
  {
    if peer.Some? && AllParse(net, items) && hops <= |items| {
      TrustedProxies(net, peer.value, items, hops);
      hide AllTrusted, FirstUntrusted;
    }
  }

  // The forwarded items that are looked at: no more than 65.
  ghost predicate AllSeenParse(net: Network, items: seq<string>) {
    forall i :: 0 <= i < |items| && i < 65 ==> net.parse(items[i]).Some?
  }

  // Entry i of the chain is the leftmost of the last `hops` that is not trusted.
  ghost predicate FirstStray(net: Network, items: seq<string>, hops: nat, i: nat) {
    && 1 <= hops <= |items| && AllParse(net, items) && |items| - hops < i < |items| && !net.trusted(net.parse(items[i]).value)
    && forall j :: |items| - hops < j < i ==> net.trusted(net.parse(items[j]).value)
  }

  lemma {:induction false} FirstUntrustedIndex(net: Network, chain: seq<string>) returns (n: nat)
    requires !AllTrusted(net, chain)
    ensures n < |chain| && !net.trusted(chain[n]) && forall j :: 0 <= j < n ==> net.trusted(chain[j])
    decreases |chain|
  {
    n := 0;
    if net.trusted(chain[0]) {
      n := FirstUntrustedIndex(net, chain[1..]);
      n := n + 1;
    }
  }

  // The last `hops` of the forwarded addresses but for the one that would be the answer, and the peer.
  function Proxies(net: Network, peer: string, items: seq<string>, hops: nat): (r: seq<string>)
    requires 1 <= hops <= |items| && AllParse(net, items)
    ensures |r| == hops && r[hops - 1] == peer
    ensures forall j :: 0 <= j < hops - 1 ==> r[j] == net.parse(items[|items| - hops + 1 + j]).value
  {
    (Addresses(net, items) + [peer])[|items| - hops + 1..]
  }

  lemma StrayIsReported(net: Network, peer: string, items: seq<string>, hops: nat, i: nat)
    requires FirstStray(net, items, hops, i)
    ensures var proxies := Proxies(net, peer, items, hops);
            !AllTrusted(net, proxies) && FirstUntrusted(net, proxies) == net.parse(items[i]).value
  {
    hide Proxies;
    var proxies, n: nat := Proxies(net, peer, items, hops), i - (|items| - hops + 1);
    var front := proxies[..n];
    forall j | 0 <= j < |front| ensures net.trusted(front[j]) {
      assert front[j] == net.parse(items[|items| - hops + 1 + j]).value;
    }
    UntrustedAt(net, proxies, n);
  }

  lemma ReportedIsStray(net: Network, peer: string, items: seq<string>, hops: nat) returns (i: nat)
    requires 1 <= hops <= |items| && AllParse(net, items) && net.trusted(peer) && !AllTrusted(net, Proxies(net, peer, items, hops))
    ensures FirstStray(net, items, hops, i)
  {
    hide Proxies;
    var from := |items| - hops + 1;
    var proxies := Proxies(net, peer, items, hops);
    var n := FirstUntrustedIndex(net, proxies);
    i := from + n;
    forall j | from <= j < i ensures net.trusted(net.parse(items[j]).value) {
      assert proxies[j - from] == net.parse(items[from + (j - from)]).value;
    }
  }

  /** Without hops the peer's own address is the answer, or an error if it has none, and no header line
      can change that. Each refusal has its own reason, whatever comes before it being in order: with
      at least one hop an untrusted peer, an item among the first 65 that is no address, more than 64
      addresses, fewer addresses than hops, and an untrusted proxy, of which the leftmost is named. */
  lemma RefusedExactly(net: Network, peer: Option<string>, items: seq<string>, hops: nat)
    ensures var r := Resolve(net, peer, items, hops);
            && (hops == 0 && peer.Some? ==> r == Client(peer.value))
            && (r == Refused(BadPeer) <==> peer.None?)
            && (r == Refused(UntrustedPeer) <==> hops >= 1 && peer.Some? && !net.trusted(peer.value))
            && (r == Refused(BadAddress) <==>
                  hops >= 1 && peer.Some? && net.trusted(peer.value) && !AllSeenParse(net, items))
            && (r == Refused(TooManyAddresses) <==>
                  hops >= 1 && peer.Some? && net.trusted(peer.value) && AllSeenParse(net, items) && |items| > 64)
            && (r == Refused(ShortChain) <==>
                  hops >= 1 && peer.Some? && net.trusted(peer.value) && AllSeenParse(net, items) && |items| <= 64 && |items| < hops)
            && (forall ip :: r == Refused(UntrustedProxy(ip)) <==>
                  && hops >= 1 && peer.Some? && net.trusted(peer.value) && hops <= |items| <= 64
                  && exists i: nat :: FirstStray(net, items, hops, i) && net.parse(items[i]) == Some(ip))
  {
    var r, seen := Resolve(net, peer, items, hops), Seen(items);
    assert AllParse(net, seen) <==> AllSeenParse(net, items);
    if |items| <= 64 {
      assert seen == items;
      if hops >= 1 && peer.Some? && net.trusted(peer.value) && AllParse(net, items) && hops <= |items| {
        if !AllTrusted(net, Proxies(net, peer.value, items, hops)) {
          var i := ReportedIsStray(net, peer.value, items, hops);
        }
        forall i: nat | FirstStray(net, items, hops, i)
          ensures r == Refused(UntrustedProxy(net.parse(items[i]).value))
        {
          StrayIsReported(net, peer.value, items, hops, i);
        }
      }
    }
  }

  lemma TrustedProxies(net: Network, peer: string, items: seq<string>, hops: nat)
    requires 1 <= hops <= |items| && AllParse(net, items)
    ensures AllTrusted(net, (Addresses(net, items) + [peer])[|items| - hops + 1..])
      <==> net.trusted(peer) && forall i :: |items| - hops < i < |items| ==> net.trusted(net.parse(items[i]).value)
  {
    var from := |items| - hops + 1;
    var proxies := (Addresses(net, items) + [peer])[from..];
    assert proxies[hops - 1] == peer;
    if AllTrusted(net, proxies) {
      forall i | from <= i < |items| ensures net.trusted(net.parse(items[i]).value) {
        assert net.trusted(proxies[i - from]);
      }
    } else {
      var j :| 0 <= j < |proxies| && !net.trusted(proxies[j]);
      assert j < hops - 1 ==> proxies[j] == net.parse(items[from + j]).value;
    }
  }

  /** What a client puts in front of the chain, within the cap, never changes the answer. */
  lemma PrependingChangesNothing(net: Network, peer: Option<string>, front: seq<string>, items: seq<string>, hops: nat)
    requires hops >= 1 && Resolve(net, peer, items, hops).Client?
    requires AllParse(net, front) && |front| + |items| <= MAX_FORWARDED
    ensures Resolve(net, peer, front + items, hops) == Resolve(net, peer, items, hops)
  {
    SucceedsExactly(net, peer, items, hops);
    SucceedsExactly(net, peer, front + items, hops);
    hide Resolve;
    var all := front + items;
    forall i | 0 <= i < |all| ensures net.parse(all[i]).Some? {
      assert all[i] == if i < |front| then front[i] else items[i - |front|];
    }
    forall i | |all| - hops < i < |all| ensures net.trusted(net.parse(all[i]).value) {
      assert all[i] == items[i - |front|];
    }
  }

  lemma {:induction false} ItemsOfJoin(lines: seq<string>)
    requires lines != []
    ensures Items(lines) == SplitOn(Join(lines, ','), ',')
  {
    var most, last := lines[..|lines| - 1], lines[|lines| - 1];
    if most == [] {
      assert Items(most) == [];
    } else {
      ItemsOfJoin(most);
      assert lines == most + [last];
      JoinConcat(most, [last], ',');
      SplitAtSeparator(Join(most, ','), last, ',');
    }
  }

  /** Several header lines mean the same as the one line that joins them with commas (section 5.3 of
      RFC 9110), errors included. */
  lemma HeaderLinesCombine(net: Network, peer: Option<string>, lines: seq<string>, hops: nat)
    requires lines != []
    ensures Resolve(net, peer, Items(lines), hops) == Resolve(net, peer, Items([Join(lines, ',')]), hops)
  {
    ItemsOfJoin(lines);
    var joined := [Join(lines, ',')];
    assert joined[..0] == [];
    assert Items(joined) == [] + SplitOn(Join(lines, ','), ',');
    assert Items(joined) == Items(lines);
  }

  /** Without header lines, which is how the `/mcp` route calls it after deleting them, every
      configuration with a hop refuses every request. */
  lemma NoHeaderNoClient(net: Network, peer: Option<string>, hops: nat)
    ensures Resolve(net, peer, Items([]), hops).Client? <==> hops == 0 && peer.Some?
  {
    if hops >= 1 {
      SucceedsExactly(net, peer, [], hops);
    }
  }
}
