/**
 * The Calico SDN module's address ledger. Subnets are carved, one after the
 * other, out of a configured container network block; addresses within a
 * subnet are handed out at offsets 2, 3, 4, ... The ledger is a subnet counter,
 * a map from network id to subnet, and a map from subnet id to the offset most
 * recently handed out. Each operation is one critical section and is modelled
 * as atomic.
 */
module Calico {
  import opened Wrappers
  import opened Sequences

  /** The number of IPv4 addresses. */
  const AddressSpace: int := 0x1_0000_0000

  /** The largest Java `int`. */
  const IntMax: int := 0x7fff_ffff

  /** An IPv4 address as a 32-bit unsigned number. */
  type Ipv4 = n: int | 0 <= n < AddressSpace

  type PrefixLength = k: int | 0 <= k <= 32

  /** A CIDR block: a base address and a prefix length. */
  datatype Cidr = Cidr(base: Ipv4, length: PrefixLength)

  function Pow2(k: nat): (r: nat)
    ensures r >= 1
  {
    if k == 0 then 1 else 2 * Pow2(k - 1)
  }

  /** The number of addresses a block with this prefix length spans. */
  function Span(length: PrefixLength): nat
  {
    Pow2(32 - length)
  }

  /** `addr` lies inside the block `c`. */
  predicate InBlock(c: Cidr, addr: int)
  {
    c.base <= addr < c.base + Span(c.length)
  }

  /** The address `offset` places after the block's base address. */
  function AddressAtOffset(c: Cidr, offset: int): Ipv4
    requires 0 <= c.base + offset < AddressSpace
  {
    c.base + offset
  }

  /** The configured container network block and the prefix length of each subnet. */
  datatype NetworkConfig = NetworkConfig(block: Cidr, size: PrefixLength)

  /**
   * Subnet number `n` can be computed: `1 << (32 - size)` is a positive Java
   * `int` (prefix at least 2), `n * (1 << (32 - size))` does not overflow, and
   * the resulting base address is an IPv4 address.
   */
  predicate SubnetFits(cfg: NetworkConfig, n: int)
  {
    2 <= cfg.size && 0 <= n && n * Span(cfg.size) <= IntMax && cfg.block.base + n * Span(cfg.size) < AddressSpace
  }

  /** Subnet number `n` of the block. */
  function SubnetAt(cfg: NetworkConfig, n: int): Cidr
    requires SubnetFits(cfg, n)
  {
    Cidr(cfg.block.base + n * Span(cfg.size), cfg.size)
  }

  lemma MulLeq(a: int, b: int, c: nat)
    requires a <= b
    ensures a * c <= b * c
  {
  }

  /**
   * Consecutive subnets are adjacent, and distinct subnet numbers give
   * disjoint subnets.
   */
  lemma {:induction false} SubnetsDisjoint(cfg: NetworkConfig, i: int, j: int, addr: int)
    requires SubnetFits(cfg, i) && SubnetFits(cfg, j) && i < j
    ensures j == i + 1 ==> SubnetAt(cfg, j).base == SubnetAt(cfg, i).base + Span(cfg.size)
    ensures !(InBlock(SubnetAt(cfg, i), addr) && InBlock(SubnetAt(cfg, j), addr))
  {
    var s := Span(cfg.size);
    MulLeq(i + 1, j, s);
    assert (i + 1) * s == i * s + s;
  }

  /** Subnet number `j` shares no address with any subnet numbered below it. */
  lemma SubnetsBeforeDisjoint(cfg: NetworkConfig, j: int)
    requires SubnetFits(cfg, j)
    ensures forall n, addr :: 0 <= n < j && SubnetFits(cfg, n) ==>
              !(InBlock(SubnetAt(cfg, n), addr) && InBlock(SubnetAt(cfg, j), addr))
  {
    forall n, addr | 0 <= n < j && SubnetFits(cfg, n)
      ensures !(InBlock(SubnetAt(cfg, n), addr) && InBlock(SubnetAt(cfg, j), addr))
    {
      SubnetsDisjoint(cfg, n, j, addr);
    }
  }

  // ---------------------------------------------------------------------------
  // The ledger and its operations
  // ---------------------------------------------------------------------------

  /**
   * The allocation state: how many subnets have been carved, the subnet
   * recorded for each network id, and the last address offset handed out for
   * each subnet id.
   */
  datatype Ledger = Ledger(allocatedNetworks: nat, subnets: map<string, Cidr>, allocations: map<string, int>)

  /** An operation's new ledger and its result. */
  datatype Step<T> = Step(ledger: Ledger, value: T)

  /** The ledger right after the module is initialised. */
  function EmptyLedger(): Ledger
  {
    Ledger(0, map[], map[])
  }

  /** Carves the next subnet out of the block. */
  function NextSubnet(cfg: NetworkConfig, l: Ledger): (r: Step<Cidr>)
    requires SubnetFits(cfg, l.allocatedNetworks)
    ensures r.ledger == l.(allocatedNetworks := l.allocatedNetworks + 1)
    ensures r.value.length == cfg.size
    ensures forall n, addr :: 0 <= n < l.allocatedNetworks && SubnetFits(cfg, n) ==>
              !(InBlock(SubnetAt(cfg, n), addr) && InBlock(r.value, addr))
  {
    SubnetsBeforeDisjoint(cfg, l.allocatedNetworks);
    Step(l.(allocatedNetworks := l.allocatedNetworks + 1), SubnetAt(cfg, l.allocatedNetworks))
  }

  /** Records `cidr` as the subnet of `networkId`, replacing any earlier record. */
  function RecordSubnet(l: Ledger, networkId: string, cidr: Cidr): (r: Ledger)
    ensures GetSubnet(r, networkId) == Some(cidr)
    ensures forall other :: other != networkId ==> GetSubnet(r, other) == GetSubnet(l, other)
    ensures r.allocatedNetworks == l.allocatedNetworks && r.allocations == l.allocations
  {
    l.(subnets := l.subnets[networkId := cidr])
  }

  /** Records `cidr` for `networkId` and sets its address counter to `lastOffset`. */
  function RecordSubnetFrom(l: Ledger, networkId: string, cidr: Cidr, lastOffset: int): (r: Ledger)
    ensures GetSubnet(r, networkId) == Some(cidr) && Counter(r, networkId) == lastOffset
    ensures forall other :: other != networkId ==>
              GetSubnet(r, other) == GetSubnet(l, other) && Counter(r, other) == Counter(l, other)
    ensures r.allocatedNetworks == l.allocatedNetworks
  {
    RecordSubnet(l, networkId, cidr).(allocations := l.allocations[networkId := lastOffset])
  }

  /** Carves the next subnet and records it for `networkId`, whether or not it had one. */
  function NextSubnetFor(cfg: NetworkConfig, l: Ledger, networkId: string): (r: Step<Cidr>)
    requires SubnetFits(cfg, l.allocatedNetworks)
    ensures r.value == NextSubnet(cfg, l).value && GetSubnet(r.ledger, networkId) == Some(r.value)
    ensures forall other :: other != networkId ==> GetSubnet(r.ledger, other) == GetSubnet(l, other)
    ensures r.ledger.allocatedNetworks == l.allocatedNetworks + 1 && r.ledger.allocations == l.allocations
  {
    var next := NextSubnet(cfg, l);
    Step(RecordSubnet(next.ledger, networkId, next.value), next.value)
  }

  /** The subnet recorded for `networkId`, if any. */
  function GetSubnet(l: Ledger, networkId: string): (r: Option<Cidr>)
    ensures r.None? <==> networkId !in l.subnets
    ensures r.Some? ==> r.value == l.subnets[networkId]
  {
    if networkId in l.subnets then Some(l.subnets[networkId]) else None
  }

  /**
   * Recording changes only `networkId`'s entry, so a lookup returns the subnet
   * recorded last, and nothing is recorded after `init`.
   */
  lemma RecordThenGet(l: Ledger, networkId: string, cidr: Cidr, other: string)
    ensures GetSubnet(RecordSubnet(l, networkId, cidr), networkId) == Some(cidr)
    ensures other != networkId ==> GetSubnet(RecordSubnet(l, networkId, cidr), other) == GetSubnet(l, other)
    ensures GetSubnet(EmptyLedger(), other) == None
  {
  }

  /** The last offset handed out in `subnetId`; a subnet with no counter counts as 1. */
  function Counter(l: Ledger, subnetId: string): int
  {
    if subnetId in l.allocations then l.allocations[subnetId] else 1
  }

  /**
   * The next address of `subnetId` can be computed: the subnet is recorded
   * (its absence is a null dereference), `counter + 1` fits a Java `int`, and
   * the address is an IPv4 address.
   */
  predicate CanAllocateAddress(l: Ledger, subnetId: string)
  {
    subnetId in l.subnets &&
    Counter(l, subnetId) < IntMax &&
    0 <= l.subnets[subnetId].base + Counter(l, subnetId) + 1 < AddressSpace
  }

  /** Hands out the address after the last one of `subnetId` and advances its counter. */
  function NextAddress(l: Ledger, subnetId: string): (r: Step<Ipv4>)
    requires CanAllocateAddress(l, subnetId)
    ensures r.value == l.subnets[subnetId].base + Counter(l, subnetId) + 1
    ensures Counter(r.ledger, subnetId) == Counter(l, subnetId) + 1
    ensures forall other :: other != subnetId ==> Counter(r.ledger, other) == Counter(l, other)
    ensures r.ledger.subnets == l.subnets && r.ledger.allocatedNetworks == l.allocatedNetworks
    ensures InBlock(l.subnets[subnetId], r.value) <==> 0 <= Counter(l, subnetId) + 1 < Span(l.subnets[subnetId].length)
  {
    var offset := Counter(l, subnetId) + 1;
    Step(l.(allocations := l.allocations[subnetId := offset]), AddressAtOffset(l.subnets[subnetId], offset))
  }

  /** `k` addresses of `subnetId` can be handed out one after the other. */
  predicate CanAllocateAddresses(l: Ledger, subnetId: string, k: nat)
  {
    subnetId in l.subnets &&
    Counter(l, subnetId) + k <= IntMax &&
    0 <= l.subnets[subnetId].base + Counter(l, subnetId) + 1 &&
    l.subnets[subnetId].base + Counter(l, subnetId) + k < AddressSpace
  }

  /** The addresses handed out by `k` successive calls for `subnetId`, and the ledger after them. */
  function NextAddresses(l: Ledger, subnetId: string, k: nat): Step<seq<Ipv4>>
    requires CanAllocateAddresses(l, subnetId, k)
    decreases k
  {
    if k == 0 then Step(l, [])
    else
      var first := NextAddress(l, subnetId);
      var rest := NextAddresses(first.ledger, subnetId, k - 1);
      Step(rest.ledger, [first.value] + rest.value)
  }

  /**
   * `k` successive address requests for one subnet get the consecutive
   * addresses at offsets `counter + 1`, ..., `counter + k`, so no address is
   * handed out twice; the subnet's counter ends at `counter + k` and nothing
   * else in the ledger changes. There is no capacity check: an address lies
   * inside the subnet exactly when its offset is below the subnet's span.
   */
  lemma {:induction false} AddressesConsecutive(l: Ledger, subnetId: string, k: nat)
    requires CanAllocateAddresses(l, subnetId, k)
    ensures var r := NextAddresses(l, subnetId, k);
      && |r.value| == k
      && (forall i :: 0 <= i < k ==> r.value[i] == l.subnets[subnetId].base + Counter(l, subnetId) + 1 + i)
      && (forall i, j :: 0 <= i < j < k ==> r.value[i] < r.value[j])
      && (forall i :: 0 <= i < k ==>
            (InBlock(l.subnets[subnetId], r.value[i]) <==> 0 <= Counter(l, subnetId) + 1 + i < Span(l.subnets[subnetId].length)))
      && r.ledger == l.(allocations := if k == 0 then l.allocations else l.allocations[subnetId := Counter(l, subnetId) + k])
    decreases k
  {
    if k > 0 {
      var first := NextAddress(l, subnetId);
      assert Counter(first.ledger, subnetId) == Counter(l, subnetId) + 1;
      AddressesConsecutive(first.ledger, subnetId, k - 1);
    }
  }

  /**
   * `NextSubnetFor` is not idempotent: a second call for the same network id
   * carves another, disjoint subnet, replaces the recorded one, and advances
   * the counter by two in all.
   */
  lemma {:induction false} NextSubnetForTwice(cfg: NetworkConfig, l: Ledger, networkId: string)
    requires SubnetFits(cfg, l.allocatedNetworks) && SubnetFits(cfg, l.allocatedNetworks + 1)
    ensures var first := NextSubnetFor(cfg, l, networkId);
      var second := NextSubnetFor(cfg, first.ledger, networkId);
      && second.ledger.allocatedNetworks == l.allocatedNetworks + 2
      && second.value.base == first.value.base + Span(cfg.size)
      && (forall addr :: !(InBlock(first.value, addr) && InBlock(second.value, addr)))
      && GetSubnet(second.ledger, networkId) == Some(second.value)
  {
  }

  /**
   * After the three-argument record, the next address of that network is at
   * offset `lastOffset + 1` of the recorded subnet.
   */
  lemma RecordedCounterResumes(l: Ledger, networkId: string, cidr: Cidr, lastOffset: int)
    requires lastOffset < IntMax && 0 <= cidr.base + lastOffset + 1 < AddressSpace
    ensures var l' := RecordSubnetFrom(l, networkId, cidr, lastOffset);
      CanAllocateAddress(l', networkId) && NextAddress(l', networkId).value == cidr.base + lastOffset + 1
  {
  }

  // ---------------------------------------------------------------------------
  // The module entity
  // ---------------------------------------------------------------------------

  /** The SDN module: its configuration and its ledger, kept as three sensors. */
  class CalicoModule {
    const config: NetworkConfig
    var allocatedNetworks: nat
    var subnets: map<string, Cidr>
    var addressAllocations: map<string, int>

    /** The ledger the three sensors hold. */
    function State(): Ledger
      reads this
    {
      Ledger(allocatedNetworks, subnets, addressAllocations)
    }

    /** `init`: no subnet carved, no subnet recorded, no address handed out. */
    constructor (config: NetworkConfig)
      ensures this.config == config
      ensures allocatedNetworks == 0 && subnets == map[] && addressAllocations == map[]
      ensures State() == EmptyLedger()
    {
      this.config := config;
      allocatedNetworks := 0;
      subnets := map[];
      addressAllocations := map[];
    }

    /** The next address of `subnetId`, advancing its counter; other counters are untouched. */
    method GetNextContainerAddress(subnetId: string) returns (address: Ipv4)
      requires CanAllocateAddress(State(), subnetId)
      modifies this
      ensures allocatedNetworks == old(allocatedNetworks) && subnets == old(subnets)
      ensures addressAllocations == old(addressAllocations)[subnetId := Counter(old(State()), subnetId) + 1]
      ensures address == subnets[subnetId].base + Counter(old(State()), subnetId) + 1
      ensures Step(State(), address) == NextAddress(old(State()), subnetId)
    {
      var cidr := subnets[subnetId];
      var lastOffset := if subnetId in addressAllocations then addressAllocations[subnetId] else 1;
      address := AddressAtOffset(cidr, lastOffset + 1);
      addressAllocations := addressAllocations[subnetId := lastOffset + 1];
    }

    /** Carves the next subnet out of the block and advances the subnet counter. */
    method GetNextSubnetCidr() returns (cidr: Cidr)
      requires SubnetFits(config, allocatedNetworks)
      modifies this
      ensures cidr == SubnetAt(config, old(allocatedNetworks))
      ensures allocatedNetworks == old(allocatedNetworks) + 1
      ensures subnets == old(subnets) && addressAllocations == old(addressAllocations)
      ensures Step(State(), cidr) == NextSubnet(config, old(State()))
    {
      var lastOffset := allocatedNetworks;
      var baseAddress := AddressAtOffset(config.block, lastOffset * Span(config.size));
      cidr := Cidr(baseAddress, config.size);
      allocatedNetworks := lastOffset + 1;
    }

    /** Records `cidr` as the subnet of `networkId`; no other entry changes. */
    method RecordSubnetCidr(networkId: string, cidr: Cidr)
      modifies this
      ensures subnets == old(subnets)[networkId := cidr]
      ensures allocatedNetworks == old(allocatedNetworks) && addressAllocations == old(addressAllocations)
      ensures State() == RecordSubnet(old(State()), networkId, cidr)
    {
      subnets := subnets[networkId := cidr];
    }

    /** Records `cidr` for `networkId` and sets its address counter to `lastOffset`. */
    method RecordSubnetCidrFrom(networkId: string, cidr: Cidr, lastOffset: int)
      modifies this
      ensures subnets == old(subnets)[networkId := cidr]
      ensures addressAllocations == old(addressAllocations)[networkId := lastOffset]
      ensures allocatedNetworks == old(allocatedNetworks)
      ensures State() == RecordSubnetFrom(old(State()), networkId, cidr, lastOffset)
    {
      RecordSubnetCidr(networkId, cidr);
      addressAllocations := addressAllocations[networkId := lastOffset];
    }

    /**
     * Carves a fresh subnet and records it for `networkId`, replacing any
     * subnet recorded for it before.
     */
    method GetNextSubnetCidrFor(networkId: string) returns (cidr: Cidr)
      requires SubnetFits(config, allocatedNetworks)
      modifies this
      ensures cidr == SubnetAt(config, old(allocatedNetworks))
      ensures allocatedNetworks == old(allocatedNetworks) + 1
      ensures subnets == old(subnets)[networkId := cidr] && addressAllocations == old(addressAllocations)
      ensures Step(State(), cidr) == NextSubnetFor(config, old(State()), networkId)
    {
      cidr := GetNextSubnetCidr();
      RecordSubnetCidr(networkId, cidr);
    }

    /** The subnet last recorded for `networkId`, or `None` if none was. */
    method GetSubnetCidr(networkId: string) returns (cidr: Option<Cidr>)
      ensures cidr.Some? <==> networkId in subnets
      ensures cidr.Some? ==> cidr.value == subnets[networkId]
      ensures cidr == GetSubnet(State(), networkId)
    {
      cidr := if networkId in subnets then Some(subnets[networkId]) else None;
    }

    /** A snapshot of the recorded subnets. */
    method ListManagedNetworkAddressSpace() returns (snapshot: map<string, Cidr>)
      ensures snapshot.Keys == subnets.Keys
      ensures forall id :: id in snapshot ==> snapshot[id] == subnets[id]
    {
      snapshot := subnets;
    }
  }

  // ---------------------------------------------------------------------------
  // Endpoint id extraction (attachNetwork)
  // ---------------------------------------------------------------------------

  predicate IsLineBreak(ch: char)
  {
    ch == '\r' || ch == '\n'
  }

  /** Splits on every carriage return and every line feed, keeping empty pieces. */
  function SplitLines(s: string): (lines: seq<string>)
    ensures |lines| >= 1
  {
    if s == [] then [""]
    else if IsLineBreak(s[0]) then [""] + SplitLines(s[1..])
    else
      var rest := SplitLines(s[1..]);
      [[s[0]] + rest[0]] + rest[1..]
  }

  /** Joins lines with line feeds. */
  function JoinLines(lines: seq<string>): string
    requires |lines| >= 1
  {
    if |lines| == 1 then lines[0] else lines[0] + "\n" + JoinLines(lines[1..])
  }

  /** No piece contains a line break. */
  lemma {:induction false} SplitLinesHaveNoBreaks(s: string)
    ensures forall i, j :: 0 <= i < |SplitLines(s)| && 0 <= j < |SplitLines(s)[i]| ==> !IsLineBreak(SplitLines(s)[i][j])
  {
    if s != [] {
      SplitLinesHaveNoBreaks(s[1..]);
    }
  }

  /** The text with every carriage return turned into a line feed. */
  function Normalised(s: string): (r: string)
    ensures |r| == |s|
  {
    if s == [] then [] else [if s[0] == '\r' then '\n' else s[0]] + Normalised(s[1..])
  }

  /**
   * Joining the pieces with line feeds gives the text back with each line
   * break as a line feed: so the pieces are exactly the text between
   * consecutive breaks (a `"\r\n"` ending gives an empty piece between the two).
   */
  lemma {:induction false} SplitJoinRoundTrip(s: string)
    ensures JoinLines(SplitLines(s)) == Normalised(s)
  {
    if s != [] {
      SplitJoinRoundTrip(s[1..]);
      var rest := SplitLines(s[1..]);
      if IsLineBreak(s[0]) {
        assert SplitLines(s)[1..] == rest;
      } else {
        var lines := SplitLines(s);
        assert lines[1..] == rest[1..];
        if |rest| == 1 {
          assert JoinLines(lines) == [s[0]] + rest[0];
        } else {
          assert JoinLines(lines) == [s[0]] + rest[0] + "\n" + JoinLines(rest[1..]);
        }
      }
    }
  }

  /** Text without carriage returns is its own normal form, so for it the round trip is exact. */
  lemma {:induction false} NormalisedWithoutCarriageReturns(s: string)
    requires forall i :: 0 <= i < |s| ==> s[i] != '\r'
    ensures Normalised(s) == s
  {
    if s != [] {
      NormalisedWithoutCarriageReturns(s[1..]);
      assert s == [s[0]] + s[1..];
    }
  }

  predicate IsLowerHexDigit(ch: char)
  {
    '0' <= ch <= '9' || 'a' <= ch <= 'f'
  }

  /** A line that matches `[0-9a-f]{32}` as a whole. */
  predicate IsEndpointId(line: string)
  {
    |line| == 32 && forall i :: 0 <= i < |line| ==> IsLowerHexDigit(line[i])
  }

  /**
   * The endpoint id in the output of `calicoctl container ... endpoint-id show`:
   * the first line that is an endpoint id, or a failure carrying the output
   * when no line is.
   */
  function EndpointId(output: string): (r: Result<string, string>)
    ensures r.Success? ==>
              IsEndpointId(r.value) &&
              exists k :: 0 <= k < |SplitLines(output)| && SplitLines(output)[k] == r.value &&
                (forall j :: 0 <= j < k ==> !IsEndpointId(SplitLines(output)[j]))
    ensures r.Success? <==> exists j :: 0 <= j < |SplitLines(output)| && IsEndpointId(SplitLines(output)[j])
    ensures r.Failure? ==> r.error == output
  {
    var lines := SplitLines(output);
    var first := First(lines, IsEndpointId);
    if first.Some? then
      var k := first.value;
      assert 0 <= k < |SplitLines(output)| && IsEndpointId(SplitLines(output)[k]);
      Success(lines[k])
    else
      Failure(output)
  }
}
