/** Host addresses as 32-bit numbers. */
module Addresses {
  import opened Network
  import EcmpHash

  // node_id_to_ip, in the source's 32-bit arithmetic.
  function NodeIdToIp(id: Word): Word {
    (0x0b000001 + (id / 256) * 0x00010000 + (id % 256) * 0x00000100) % 0x1_0000_0000
  }

  // ip_to_node_id: (ip >> 8) & 0xffff.
  function IpToNodeId(ip: Word): Word {
    (ip / 0x100) % 0x1_0000
  }

  lemma IpIsShiftedId(id: Word)
    ensures NodeIdToIp(id) == (0x0b000001 + id * 256) % 0x1_0000_0000
  {
    assert id == (id / 256) * 256 + id % 256;
  }

  lemma IpOfLow24(id: Word)
    ensures NodeIdToIp(id) == (0x0b000001 + (id % 0x100_0000) * 256) % 0x1_0000_0000
  {
    IpIsShiftedId(id);
    var q, low := id / 0x100_0000, id % 0x100_0000;
    assert id * 256 == q * 0x1_0000_0000 + low * 256;
  }

  // Bits 8 to 23 of the base are zero, so adding it changes neither these bits nor carries into them.
  lemma MiddleBits(low: nat)
    requires low < 0x100_0000
    ensures IpToNodeId((0x0b000001 + low * 256) % 0x1_0000_0000) == low % 0x1_0000
  {
    var ip := (0x0b000001 + low * 256) % 0x1_0000_0000;
    assert ip / 0x100 == (0x0b0000 + low) % 0x100_0000;
  }

  lemma AddMultiple(a: nat, r: nat)
    ensures (a * 0x1_0000 + r) % 0x1_0000 == r % 0x1_0000
  {
  }

  lemma LowBits(id: nat)
    ensures id % 0x100_0000 % 0x1_0000 == id % 0x1_0000
  {
    var q, r := id / 0x100_0000, id % 0x100_0000;
    assert id == q * 0x100 * 0x1_0000 + r;
    AddMultiple(q * 0x100, r);
  }

  lemma SixteenBits(id: nat)
    ensures id % 0x1_0000 == id <==> id < 0x1_0000
  {
  }

  // ip_to_node_id recovers the low 16 bits of the id, so it inverts node_id_to_ip exactly on 16-bit ids.
  lemma IpRoundTrip(id: Word)
    ensures IpToNodeId(NodeIdToIp(id)) == id % 0x1_0000
    ensures IpToNodeId(NodeIdToIp(id)) == id <==> id < 0x1_0000
  {
    IpOfLow24(id);
    MiddleBits(id % 0x100_0000);
    hide NodeIdToIp, IpToNodeId;
    LowBits(id);
    SixteenBits(id);
  }

  // Two nodes share an address exactly when their ids agree modulo 2^24.
  lemma AddressesCollide(a: Word, b: Word)
    ensures NodeIdToIp(a) == NodeIdToIp(b) <==> a % 0x100_0000 == b % 0x100_0000
  {
    hide NodeIdToIp;
    IpOfLow24(a);
    IpOfLow24(b);
    ShiftInjective(a % 0x100_0000, b % 0x100_0000);
  }

  lemma ShiftInjective(x: nat, y: nat)
    requires x < 0x100_0000 && y < 0x100_0000
    ensures (0x0b000001 + x * 256) % 0x1_0000_0000 == (0x0b000001 + y * 256) % 0x1_0000_0000 <==> x == y
  {
  }

  lemma AddressesDistinct(a: Word, b: Word)
    requires a < 0x100_0000 && b < 0x100_0000
    ensures NodeIdToIp(a) == NodeIdToIp(b) <==> a == b
  {
    hide NodeIdToIp;
    AddressesCollide(a, b);
  }

  // ---- The same address in the words that are hashed ----

  lemma AddressBytes(id: bv32)
    ensures var s, a := EcmpHash.StoreWord(id), EcmpHash.StoreWord(0x0b000001 + (id << 8));
      a == [1, s[0], s[1], s[2] + 0x0b]
  {
  }

  lemma TopByte(b: bv8)
    ensures (b + 0x0b) as nat == (b as nat + 0x0b) % 0x100
  {
  }

  lemma AddressValue(n: nat, b0: nat, b1: nat, b2: nat, b3: nat)
    requires b0 < 0x100 && b1 < 0x100 && b2 < 0x100 && b3 < 0x100
    requires n == b0 + 0x100 * b1 + 0x1_0000 * b2 + 0x100_0000 * b3
    ensures (0x0b000001 + n * 256) % 0x1_0000_0000 ==
      1 + 0x100 * b0 + 0x1_0000 * b1 + 0x100_0000 * ((b2 + 0x0b) % 0x100)
  {
    var q := (b2 + 0x0b) / 0x100;
    assert 0x0b000001 + n * 256 ==
      1 + 0x100 * b0 + 0x1_0000 * b1 + 0x100_0000 * ((b2 + 0x0b) % 0x100) + 0x1_0000_0000 * (b3 + q);
  }

  lemma AddressNumber(id: bv32)
    ensures var s := EcmpHash.StoreWord(id);
      EcmpHash.Number(EcmpHash.NodeAddress(id)) == EcmpHash.Value(1, s[0], s[1], s[2] + 0x0b)
  {
    EcmpHash.NodeAddressIs(id);
    AddressBytes(id);
    hide EcmpHash.StoreWord, EcmpHash.NodeAddress, EcmpHash.Value;
  }

  lemma ShiftedValue(b0: bv8, b1: bv8, b2: bv8, b3: bv8)
    ensures EcmpHash.Value(1, b0, b1, b2 + 0x0b) == (0x0b000001 + EcmpHash.Value(b0, b1, b2, b3) * 256) % 0x1_0000_0000
  {
    TopByte(b2);
    OneByte();
    AddressValue(EcmpHash.Value(b0, b1, b2, b3), b0 as nat, b1 as nat, b2 as nat, b3 as nat);
  }

  lemma OneByte()
    ensures (1 as bv8) as nat == 1
  {
  }

  // GetFlowHash puts into its key the address that node_id_to_ip computes.
  lemma KeyHoldsAddress(id: bv32)
    ensures EcmpHash.Number(EcmpHash.NodeAddress(id)) == NodeIdToIp(EcmpHash.Number(id))
  {
    hide EcmpHash.StoreWord, EcmpHash.NodeAddress, EcmpHash.Value, NodeIdToIp;
    var s := EcmpHash.StoreWord(id);
    AddressNumber(id);
    IpIsShiftedId(EcmpHash.Number(id));
    ShiftedValue(s[0], s[1], s[2], s[3]);
  }

  // So the key of a flow holds the addresses under which its end nodes are known to the tables.
  lemma KeyHoldsTableAddress(id: Word)
    ensures EcmpHash.Number(EcmpHash.NodeAddress(EcmpHash.WordOf(id))) == NodeIdToIp(id)
  {
    hide *;
    KeyHoldsAddress(EcmpHash.WordOf(id));
    EcmpHash.NumberOfWord(id);
    Small(id);
  }

  lemma Small(id: Word)
    ensures id % 0x1_0000_0000 == id
  {
  }

  lemma BytesOfNumber(w: bv32)
    ensures var s := EcmpHash.StoreWord(w);
      s[0] as nat + 0x100 * s[1] as nat + 0x1_0000 * s[2] as nat + 0x100_0000 * s[3] as nat == EcmpHash.Number(w)
  {
    hide EcmpHash.StoreWord;
  }

  lemma BytesOfPorts(sport: bv16, dport: bv16)
    ensures var s := EcmpHash.StoreWord(EcmpHash.PortWord(sport, dport));
      && (s[0] as bv16) | ((s[1] as bv16) << 8) == sport
      && (s[2] as bv16) | ((s[3] as bv16) << 8) == dport
  {
  }

  // Four bytes of a key, the lowest first, make the number n.
  predicate HoldsNumber(key: seq<bv8>, i: nat, n: nat)
    requires i + 4 <= |key|
  {
    key[i] as nat + 0x100 * key[i + 1] as nat + 0x1_0000 * key[i + 2] as nat + 0x100_0000 * key[i + 3] as nat == n
  }

  // Two bytes of a key, the lowest first, make the port p.
  predicate HoldsPort(key: seq<bv8>, i: nat, p: bv16)
    requires i + 2 <= |key|
  {
    (key[i] as bv16) | ((key[i + 1] as bv16) << 8) == p
  }

  // The twelve bytes of a flow's key: the addresses of source and destination, then the two ports.
  lemma KeyBytes(src: Word, dst: Word, sport: bv16, dport: bv16)
    ensures var key := EcmpHash.FlowKey(EcmpHash.WordOf(src), EcmpHash.WordOf(dst), sport, dport);
      && |key| == 12
      && HoldsNumber(key, 0, (0x0b000001 + src * 256) % 0x1_0000_0000)
      && HoldsNumber(key, 4, (0x0b000001 + dst * 256) % 0x1_0000_0000)
      && HoldsPort(key, 8, sport) && HoldsPort(key, 10, dport)
  {
    hide EcmpHash.StoreWord, EcmpHash.NodeAddress, EcmpHash.PortWord, EcmpHash.WordOf, EcmpHash.Number, NodeIdToIp;
    KeyHoldsTableAddress(src);
    KeyHoldsTableAddress(dst);
    IpIsShiftedId(src);
    IpIsShiftedId(dst);
    BytesOfNumber(EcmpHash.NodeAddress(EcmpHash.WordOf(src)));
    BytesOfNumber(EcmpHash.NodeAddress(EcmpHash.WordOf(dst)));
    BytesOfPorts(sport, dport);
  }
}
