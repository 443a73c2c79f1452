/** Names and addresses a runner's network namespace is made of. */
module NetnsNames {
  import opened Options
  import opened Text
  import opened Decimals

  const PREFIX := "ghars-"

  function NetnsName(instance: string): string {
    PREFIX + instance
  }

  function HostVeth(instance: string): string {
    PREFIX + instance + "-h"
  }

  function RunnerVeth(instance: string): string {
    PREFIX + instance + "-r"
  }

  /** File name of the instance's systemd-resolved drop-in. */
  function DropInName(instance: string): string {
    PREFIX + instance + ".conf"
  }

  lemma SameWrap(a: string, i: string, j: string, z: string)
    requires a + i + z == a + j + z
    ensures i == j
  {
    assert |i| == |j|;
    assert i == (a + i + z)[|a|..|a| + |i|] && j == (a + j + z)[|a|..|a| + |j|];
  }

  /** Two instances share no interface, namespace or drop-in name. */
  lemma NamesAreInjective(i: string, j: string)
    ensures NetnsName(i) == NetnsName(j) <==> i == j
    ensures HostVeth(i) == HostVeth(j) <==> i == j
    ensures RunnerVeth(i) == RunnerVeth(j) <==> i == j
    ensures DropInName(i) == DropInName(j) <==> i == j
    ensures HostVeth(i) != RunnerVeth(j)
  {
    if NetnsName(i) == NetnsName(j) {
      assert PREFIX + i + "" == PREFIX + i && PREFIX + j + "" == PREFIX + j;
      SameWrap(PREFIX, i, j, "");
    }
    if HostVeth(i) == HostVeth(j) { SameWrap(PREFIX, i, j, "-h"); }
    if RunnerVeth(i) == RunnerVeth(j) { SameWrap(PREFIX, i, j, "-r"); }
    if DropInName(i) == DropInName(j) { SameWrap(PREFIX, i, j, ".conf"); }
    var h, r := HostVeth(i), RunnerVeth(j);
    assert h[|h| - 1] == 'h' && r[|r| - 1] == 'r';
  }

  // ---------- Addresses --------------------------------------------------------

  const TWO_TO_32: nat := 0x1_0000_0000

  type Ipv4 = a: nat | a < TWO_TO_32

  datatype IpNet = V4(addr: Ipv4, prefixLen: nat) | V6

  datatype SubnetError = NotIpv4 | NotSlash30

  /** The network of a /30: its address with the last two bits cleared. */
  function Network30(a: Ipv4): Ipv4 {
    a - a % 4
  }

  /** `subnet_addresses`; the additions are those of a `u32`. */
  function SubnetAddresses(subnet: IpNet): (r: Result<(Ipv4, Ipv4), SubnetError>)
    ensures r.Ok? <==> subnet.V4? && subnet.prefixLen == 30
    ensures r.Ok? ==>
      Network30(subnet.addr) < r.value.0 < r.value.1 < Network30(subnet.addr) + 3
      && Network30(r.value.0) == Network30(r.value.1) == Network30(subnet.addr)
  {
    if subnet.V6? then Err(NotIpv4)
    else if subnet.prefixLen != 30 then Err(NotSlash30)
    else
      var base := Network30(subnet.addr);
      NoOverflow(subnet.addr);
      Ok(((base + 1) % TWO_TO_32, (base + 2) % TWO_TO_32))
  }

  /** Adding to the network address of a /30 never wraps. */
  lemma NoOverflow(a: Ipv4)
    ensures Network30(a) % 4 == 0 && Network30(a) + 3 < TWO_TO_32
    ensures Network30(Network30(a) + 1) == Network30(Network30(a) + 2) == Network30(a)
  {}

  /** Different /30s have no address in common; the two addresses of one differ. */
  lemma SubnetsAreDisjoint(s: IpNet, t: IpNet)
    requires s.V4? && t.V4? && s.prefixLen == 30 && t.prefixLen == 30
    ensures var a, b := SubnetAddresses(s).value, SubnetAddresses(t).value;
      && a.0 != a.1
      && (Network30(s.addr) != Network30(t.addr) <==> {a.0, a.1} !! {b.0, b.1})
  {
    hide Network30;
    var a, b := SubnetAddresses(s).value, SubnetAddresses(t).value;
    assert Network30(a.0) == Network30(a.1) == Network30(s.addr);
    assert Network30(b.0) == Network30(b.1) == Network30(t.addr);
    if Network30(s.addr) == Network30(t.addr) {
      assert a.0 in {a.0, a.1} && a.0 in {b.0, b.1};
    }
  }

  /** Dotted-quad text. */
  function Quad(a: Ipv4): string {
    Decimal(a / 0x100_0000) + "." + Decimal(a / 0x1_0000 % 256) + "." + Decimal(a / 256 % 256) + "." + Decimal(a % 256)
  }

  /** The text gives the address back, byte by byte from the top. */
  lemma QuadReads(a: Ipv4)
    ensures var parts := Split(Quad(a), '.');
      && |parts| == 4
      && (forall n | 0 <= n < 4 :: ParseUnsigned(parts[n], 255).Some?)
      && ParseUnsigned(parts[0], 255).value * 0x100_0000 + ParseUnsigned(parts[1], 255).value * 0x1_0000
         + ParseUnsigned(parts[2], 255).value * 256 + ParseUnsigned(parts[3], 255).value == a
  {
    hide Split, Decimal, ParseUnsigned;
    var b0, b1, b2, b3 := FourBytes(a);
    FourNumbers(b0, b1, b2, b3);
  }

  lemma FourBytes(a: Ipv4) returns (b0: nat, b1: nat, b2: nat, b3: nat)
    ensures b0 <= 255 && b1 <= 255 && b2 <= 255 && b3 <= 255
    ensures b0 * 0x100_0000 + b1 * 0x1_0000 + b2 * 256 + b3 == a
    ensures Quad(a) == Decimal(b0) + "." + Decimal(b1) + "." + Decimal(b2) + "." + Decimal(b3)
  {
    hide Decimal;
    b0, b1, b2, b3 := a / 0x100_0000, a / 0x1_0000 % 256, a / 256 % 256, a % 256;
    TopByte(a);
    ByByte(a, 256);
    ByByte(a / 256, 256);
    ByByte(a / 0x1_0000, 256);
    DivTwice(a, 256);
    DivTwice(a, 0x1_0000);
  }

  lemma TopByte(a: Ipv4)
    ensures a / 0x100_0000 <= 255
  {}

  lemma ByByte(n: nat, b: nat)
    requires b > 0
    ensures n == n / b * b + n % b && n % b < b
  {}

  lemma DivTwice(n: nat, d: nat)
    requires d == 256 || d == 0x1_0000
    ensures n / d / 256 == n / (d * 256)
  {}

  lemma FourNumbers(b0: nat, b1: nat, b2: nat, b3: nat)
    requires b0 <= 255 && b1 <= 255 && b2 <= 255 && b3 <= 255
    ensures var parts := Split(Decimal(b0) + "." + Decimal(b1) + "." + Decimal(b2) + "." + Decimal(b3), '.');
      && |parts| == 4 && ParseUnsigned(parts[0], 255) == Some(b0) && ParseUnsigned(parts[1], 255) == Some(b1)
      && ParseUnsigned(parts[2], 255) == Some(b2) && ParseUnsigned(parts[3], 255) == Some(b3)
  {
    hide Split, Decimal, ParseUnsigned, Join;
    var parts := [Decimal(b0), Decimal(b1), Decimal(b2), Decimal(b3)];
    DigitsOnly(b0);
    DigitsOnly(b1);
    DigitsOnly(b2);
    DigitsOnly(b3);
    UnsignedRoundTrip(b0, 255);
    UnsignedRoundTrip(b1, 255);
    UnsignedRoundTrip(b2, 255);
    UnsignedRoundTrip(b3, 255);
    JoinFour(parts);
    SplitJoin(parts, '.');
  }

  lemma DigitsOnly(n: nat)
    ensures '.' !in Decimal(n)
  {}

  lemma JoinFour(parts: seq<string>)
    requires |parts| == 4
    ensures Join(parts, '.') == parts[0] + "." + parts[1] + "." + parts[2] + "." + parts[3]
  {
    assert parts[1..][1..] == parts[2..] && parts[2..][1..] == parts[3..];
    assert Join(parts[3..], '.') == parts[3];
    assert Join(parts[2..], '.') == parts[2] + "." + parts[3];
    assert Join(parts[1..], '.') == parts[1] + "." + (parts[2] + "." + parts[3]);
  }
}
