/**
 * Choice of the IP address a device announces in its heartbeat: an
 * explicit override, else a private address of an external IPv4
 * interface, else any such address.
 */
module Network {
  import opened Wrappers
  import opened Values

  /** One entry of the operating system's interface table. */
  datatype Iface = Iface(family: string, internal: bool, address: string)

  /** Addresses that are never announced: link-local, loopback and the
      VirtualBox host-only range. */
  predicate Excluded(addr: string) {
    StartsWith(addr, "169.254.") || StartsWith(addr, "127.") || StartsWith(addr, "192.168.56.")
  }

  predicate IsCandidate(iface: Iface) {
    iface.family == "IPv4" && !iface.internal && !Excluded(iface.address)
  }

  /** The addresses of the candidate interfaces, in table order. */
  function Candidates(ifaces: seq<Iface>): (r: seq<string>)
    ensures |r| <= |ifaces|
    ensures forall a :: a in r <==> exists i :: 0 <= i < |ifaces| && IsCandidate(ifaces[i]) && ifaces[i].address == a
    decreases |ifaces|
  {
    if ifaces == [] then []
    else
      var rest := Candidates(ifaces[1..]);
      assert forall i :: 0 < i < |ifaces| ==> ifaces[i] == ifaces[1..][i - 1];
      if IsCandidate(ifaces[0]) then [ifaces[0].address] + rest else rest
  }

  /** The candidates of two runs of interfaces are those of the first run
      followed by those of the second: the table order is kept, and an
      interface is listed once for each time it appears. */
  lemma {:induction false} CandidatesAppend(a: seq<Iface>, b: seq<Iface>)
    ensures Candidates(a + b) == Candidates(a) + Candidates(b)
    decreases |a|
  {
    if a != [] {
      CandidatesAppend(a[1..], b);
      assert (a + b)[1..] == a[1..] + b;
      assert (a + b)[0] == a[0];
    } else {
      assert a + b == b;
    }
  }

  /** The usual private ranges, checked by prefix only. */
  predicate Preferred(addr: string) {
    StartsWith(addr, "192.168.") || StartsWith(addr, "10.") || StartsWith(addr, "172.")
  }

  /** Index of the first preferred address, or -1. */
  function FirstPreferred(addrs: seq<string>): (i: int)
    ensures -1 <= i < |addrs|
    ensures i >= 0 ==> Preferred(addrs[i])
    ensures forall j :: 0 <= j < |addrs| && (i < 0 || j < i) ==> !Preferred(addrs[j])
    decreases |addrs|
  {
    if addrs == [] then -1
    else if Preferred(addrs[0]) then 0
    else
      var k := FirstPreferred(addrs[1..]);
      assert forall j :: 0 < j < |addrs| ==> addrs[j] == addrs[1..][j - 1];
      if k < 0 then -1 else k + 1
  }

  /** detectLocalIp. `override` is the configured address ("" when unset);
      the interface table is given in the order the operating system lists
      it. */
  function DetectLocalIp(override: string, ifaces: seq<Iface>): (r: Option<string>)
    ensures override != "" ==> r == Some(override)
    ensures r.None? <==> override == "" && Candidates(ifaces) == []
    ensures override == "" && r.Some? ==> r.value in Candidates(ifaces)
  {
    if override != "" then Some(override)
    else
      var candidates := Candidates(ifaces);
      var p := FirstPreferred(candidates);
      if p >= 0 then Some(candidates[p])
      else if |candidates| > 0 then Some(candidates[0])
      else None
  }

  /** Without an override, a preferred candidate wins over every other,
      and among preferred ones the first listed wins; only when no
      candidate is preferred is the first candidate taken. */
  lemma DetectPrefersPrivateRanges(ifaces: seq<Iface>)
    ensures var c := Candidates(ifaces);
            var r := DetectLocalIp("", ifaces);
            (exists j :: 0 <= j < |c| && Preferred(c[j])) ==>
              r.Some? && Preferred(r.value)
              && exists i :: 0 <= i < |c| && c[i] == r.value && forall j :: 0 <= j < i ==> !Preferred(c[j])
    ensures var c := Candidates(ifaces);
            (forall j :: 0 <= j < |c| ==> !Preferred(c[j])) && c != [] ==> DetectLocalIp("", ifaces) == Some(c[0])
  {
    var c := Candidates(ifaces);
    var p := FirstPreferred(c);
    if p >= 0 {
      assert c[p] == DetectLocalIp("", ifaces).value;
    }
  }

  /** A loopback, link-local or host-only address is never chosen on its
      own, nor an internal or non-IPv4 interface. */
  lemma DetectNeverPicksExcluded(ifaces: seq<Iface>)
    ensures var r := DetectLocalIp("", ifaces);
            r.Some? ==> !Excluded(r.value)
                        && exists i :: 0 <= i < |ifaces| && ifaces[i].address == r.value
                                       && ifaces[i].family == "IPv4" && !ifaces[i].internal
  {
    var r := DetectLocalIp("", ifaces);
    if r.Some? {
      assert r.value in Candidates(ifaces);
    }
  }
}
