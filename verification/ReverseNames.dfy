/**
 Reverse-DNS names of networks and addresses (section 3.5 of RFC 1035, section
 2.5 of RFC 3596).  An address is its bits, most significant first; a label
 stands for eight bits of an IPv4 address or four of an IPv6 address.
 */
module ReverseNames {
  import opened Names

  datatype Family = V4 | V6

  type Bits = seq<bool>

  function Width(f: Family): nat {
    if f.V4? then 32 else 128
  }

  function GroupWidth(f: Family): nat {
    if f.V4? then 8 else 4
  }

  /** A network: an address whose bits after the prefix are zero. */
  datatype Network = Network(family: Family, address: Bits, prefix: nat)

  ghost predicate IsNetwork(n: Network) {
    && |n.address| == Width(n.family) && n.prefix <= Width(n.family)
    && forall i :: n.prefix <= i < |n.address| ==> !n.address[i]
  }

  predicate InNetwork(n: Network, a: Bits) {
    |a| == |n.address| && n.prefix <= |a| && a[..n.prefix] == n.address[..n.prefix]
  }

  // ---------- Text of a group ----------

  function Value(bits: Bits): nat {
    if bits == [] then 0 else 2 * Value(bits[..|bits| - 1]) + if bits[|bits| - 1] then 1 else 0
  }

  function HexDigit(n: nat): char
    requires n < 16
  {
    if n < 10 then ('0' as int + n) as char else ('a' as int + n - 10) as char
  }

  lemma {:induction false} ValueBound(bits: Bits, n: nat)
    requires |bits| <= n && n <= 8
    ensures Value(bits) < [1, 2, 4, 8, 16, 32, 64, 128, 256][n]
    decreases n
  {
    if bits != [] {
      ValueBound(bits[..|bits| - 1], n - 1);
    }
  }

  function GroupText(f: Family, bits: Bits): Label
    requires |bits| == GroupWidth(f)
  {
    if f.V4? then DecimalText(Value(bits))
    else
      ValueBound(bits, 4);
      [HexDigit(Value(bits))]
  }

  lemma {:induction false} ValueInjective(x: Bits, y: Bits)
    requires |x| == |y| && Value(x) == Value(y)
    ensures x == y
  {
    if x != [] {
      var n := |x| - 1;
      ValueInjective(x[..n], y[..n]);
      assert x == x[..n] + [x[n]] && y == y[..n] + [y[n]];
    }
  }

  lemma {:induction false} DecimalInjective(m: nat, n: nat)
    requires DecimalText(m) == DecimalText(n)
    ensures m == n
  {
    var s, t := DecimalText(m), DecimalText(n);
    DecimalNonEmpty(m / 10);
    DecimalNonEmpty(n / 10);
    if m >= 10 && n >= 10 {
      assert s[..|s| - 1] == DecimalText(m / 10) && t[..|t| - 1] == DecimalText(n / 10);
      DecimalInjective(m / 10, n / 10);
      assert s[|s| - 1] == t[|t| - 1];
    } else {
      assert s[|s| - 1] == t[|t| - 1];
    }
  }

  lemma DecimalNonEmpty(n: nat)
    ensures |DecimalText(n)| >= 1
  {
  }

  lemma GroupTextInjective(f: Family, x: Bits, y: Bits)
    requires |x| == |y| == GroupWidth(f) && GroupText(f, x) == GroupText(f, y)
    ensures x == y
  {
    if f.V4? {
      DecimalInjective(Value(x), Value(y));
    } else {
      ValueBound(x, 4);
      ValueBound(y, 4);
      assert [HexDigit(Value(x))][0] == [HexDigit(Value(y))][0];
    }
    ValueInjective(x, y);
  }

  // ---------- Names ----------

  function Reverse<T>(s: seq<T>): (r: seq<T>)
    ensures |r| == |s|
  {
    if s == [] then [] else Reverse(s[1..]) + [s[0]]
  }

  /** The labels of whole groups, most significant first. */
  function GroupLabels(f: Family, bits: Bits): Name {
    if |bits| < GroupWidth(f) then []
    else [GroupText(f, bits[..GroupWidth(f)])] + GroupLabels(f, bits[GroupWidth(f)..])
  }

  function Zone(f: Family): Name {
    if f.V4? then ["in-addr", "arpa"] else ["ip6", "arpa"]
  }

  /** How many bits the name of a network shows: its prefix, rounded up to whole groups. */
  function ShownBits(n: Network): nat {
    (n.prefix + GroupWidth(n.family) - 1) / GroupWidth(n.family) * GroupWidth(n.family)
  }

  function NetworkName(n: Network): Name
    requires ShownBits(n) <= |n.address|
  {
    Reverse(GroupLabels(n.family, n.address[..ShownBits(n)])) + Zone(n.family)
  }

  function AddressName(f: Family, a: Bits): Name {
    Reverse(GroupLabels(f, a)) + Zone(f)
  }

  predicate Whole(f: Family, bits: Bits) {
    |bits| % GroupWidth(f) == 0
  }

  lemma ShownBitsBounds(n: Network)
    requires IsNetwork(n)
    ensures n.prefix <= ShownBits(n) <= |n.address| && ShownBits(n) % GroupWidth(n.family) == 0
    ensures ShownBits(n) == n.prefix <==> n.prefix % GroupWidth(n.family) == 0
  {
  }

  lemma {:induction false} GroupLabelsAppend(f: Family, x: Bits, y: Bits)
    requires Whole(f, x)
    ensures GroupLabels(f, x + y) == GroupLabels(f, x) + GroupLabels(f, y)
    decreases |x|
  {
    if x == [] {
      assert x + y == y;
    } else {
      WholeTail(f, x);
      var k := GroupWidth(f);
      var group, rest := x[..k], x[k..];
      GroupLabelsAppend(f, rest, y);
      assert x == group + rest;
      AppendGroup(f, group, rest, y);
    }
  }

  lemma AppendGroup(f: Family, group: Bits, rest: Bits, y: Bits)
    requires |group| == GroupWidth(f) && GroupLabels(f, rest + y) == GroupLabels(f, rest) + GroupLabels(f, y)
    ensures GroupLabels(f, group + rest + y) == GroupLabels(f, group + rest) + GroupLabels(f, y)
  {
    GroupLabelsCons(f, group, rest);
    GroupLabelsCons(f, group, rest + y);
    assert group + rest + y == group + (rest + y);
  }

  lemma WholeTail(f: Family, x: Bits)
    requires Whole(f, x) && x != []
    ensures |x| >= GroupWidth(f) && Whole(f, x[GroupWidth(f)..])
  {
    if f.V4? {
      assert |x| % 8 == 0;
    } else {
      assert |x| % 4 == 0;
    }
  }

  lemma GroupLabelsCons(f: Family, group: Bits, rest: Bits)
    requires |group| == GroupWidth(f)
    ensures GroupLabels(f, group + rest) == [GroupText(f, group)] + GroupLabels(f, rest)
  {
    assert (group + rest)[..GroupWidth(f)] == group && (group + rest)[GroupWidth(f)..] == rest;
  }

  lemma {:induction false} GroupLabelsInjective(f: Family, x: Bits, y: Bits)
    requires Whole(f, x) && |x| == |y|
    ensures |GroupLabels(f, x)| == |GroupLabels(f, y)|
    ensures GroupLabels(f, x) == GroupLabels(f, y) <==> x == y
    decreases |x|
  {
    var k := GroupWidth(f);
    if x != [] {
      WholeTail(f, x);
      GroupLabelsInjective(f, x[k..], y[k..]);
      var a, b := GroupLabels(f, x), GroupLabels(f, y);
      assert a[1..] == GroupLabels(f, x[k..]) && b[1..] == GroupLabels(f, y[k..]);
      if a == b {
        assert a[0] == b[0];
        GroupTextInjective(f, x[..k], y[..k]);
        assert x == x[..k] + x[k..] && y == y[..k] + y[k..];
      }
    }
  }

  lemma {:induction false} ReverseAppend<T>(a: seq<T>, b: seq<T>)
    ensures Reverse(a + b) == Reverse(b) + Reverse(a)
  {
    if a == [] {
      assert a + b == b;
    } else {
      ReverseAppend(a[1..], b);
      assert (a + b)[0] == a[0] && (a + b)[1..] == a[1..] + b;
    }
  }

  lemma {:induction false} ReverseInjective<T>(a: seq<T>, b: seq<T>)
    requires |a| == |b|
    ensures Reverse(a) == Reverse(b) <==> a == b
  {
    if a != [] && Reverse(a) == Reverse(b) {
      var r, s := Reverse(a), Reverse(b);
      assert r[..|r| - 1] == Reverse(a[1..]) && s[..|s| - 1] == Reverse(b[1..]);
      assert r[|r| - 1] == a[0] && s[|s| - 1] == b[0];
      ReverseInjective(a[1..], b[1..]);
      assert a == [a[0]] + a[1..] && b == [b[0]] + b[1..];
    }
  }

  /** The address's name ends in the network's exactly when the bits that the network's name shows agree. */
  lemma SuffixMeansShownBits(n: Network, a: Bits)
    requires IsNetwork(n) && |a| == |n.address|
    ensures ShownBits(n) <= |n.address|
    ensures IsSuffix(NetworkName(n), AddressName(n.family, a)) <==> a[..ShownBits(n)] == n.address[..ShownBits(n)]
  {
    ShownBitsBounds(n);
    var f, m := n.family, ShownBits(n);
    var top, low := GroupLabels(f, a[..m]), GroupLabels(f, a[m..]);
    var net := GroupLabels(f, n.address[..m]);
    assert a == a[..m] + a[m..];
    GroupLabelsAppend(f, a[..m], a[m..]);
    ReverseAppend(top, low);
    GroupLabelsInjective(f, a[..m], n.address[..m]);
    ReverseInjective(top, net);
    SuffixOfSum(Reverse(low), Reverse(top), Reverse(net), Zone(f));
  }

  lemma SuffixOfSum(x: Name, y: Name, z: Name, w: Name)
    requires |y| == |z|
    ensures IsSuffix(z + w, x + y + w) <==> y == z
  {
    var all := x + y + w;
    assert all[|x|..] == y + w;
    if IsSuffix(z + w, all) {
      assert y == (y + w)[..|y|] && z == (z + w)[..|y|];
    }
  }

  /** A name inside the reverse zone of a network belongs to an address of the network. */
  lemma SuffixImpliesInNetwork(n: Network, a: Bits)
    requires IsNetwork(n) && |a| == |n.address| && ShownBits(n) <= |n.address|
    requires IsSuffix(NetworkName(n), AddressName(n.family, a))
    ensures InNetwork(n, a)
  {
    SuffixMeansShownBits(n, a);
    ShownBitsBounds(n);
    assert a[..n.prefix] == a[..ShownBits(n)][..n.prefix];
    assert n.address[..n.prefix] == n.address[..ShownBits(n)][..n.prefix];
  }

  /** The address that differs from the network's in the last bit that its name shows. */
  function LastShownBitSet(n: Network): Bits
    requires 0 < ShownBits(n) <= |n.address|
  {
    n.address[ShownBits(n) - 1 := true]
  }

  /**
   Every address of the network has its name inside the network's reverse zone,
   if and only if the prefix ends at a label boundary.
   */
  lemma NamesCoverNetworkExactly(n: Network)
    requires IsNetwork(n)
    ensures ShownBits(n) <= |n.address|
    ensures (forall a :: InNetwork(n, a) ==> IsSuffix(NetworkName(n), AddressName(n.family, a)))
            <==> n.prefix % GroupWidth(n.family) == 0
  {
    ShownBitsBounds(n);
    if n.prefix % GroupWidth(n.family) == 0 {
      forall a | InNetwork(n, a)
        ensures IsSuffix(NetworkName(n), AddressName(n.family, a))
      {
        SuffixMeansShownBits(n, a);
      }
    } else {
      var a, m := LastShownBitSet(n), ShownBits(n);
      assert InNetwork(n, a);
      assert a[..m][m - 1] && !n.address[..m][m - 1];
      SuffixMeansShownBits(n, a);
      assert !IsSuffix(NetworkName(n), AddressName(n.family, a));
    }
  }

  // ---------- The labels ----------

  /** A digit's character. */
  const DIGITS: string := "0123456789abcdef"

  /** The number whose bits are the group's, written out. */
  function Octet(b: Bits): nat
    requires |b| == 8
  {
    (if b[0] then 128 else 0) + (if b[1] then 64 else 0) + (if b[2] then 32 else 0) + (if b[3] then 16 else 0)
    + Nibble(b[4..])
  }

  function Nibble(b: Bits): nat
    requires |b| == 4
  {
    (if b[0] then 8 else 0) + (if b[1] then 4 else 0) + (if b[2] then 2 else 0) + if b[3] then 1 else 0
  }

  lemma ValueSnoc(b: Bits, bit: bool)
    ensures Value(b + [bit]) == 2 * Value(b) + if bit then 1 else 0
  {
    assert (b + [bit])[..|b|] == b;
  }

  lemma ValueOfFour(x: Bits, b: Bits)
    requires |b| == 4
    ensures Value(x + b) == 16 * Value(x) + Nibble(b)
  {
    ValueOfTwo(x, b[0], b[1]);
    ValueOfTwo(x + [b[0]] + [b[1]], b[2], b[3]);
    FourBits(x, b);
  }

  lemma ValueOfTwo(x: Bits, b: bool, c: bool)
    ensures Value(x + [b] + [c]) == 4 * Value(x) + (if b then 2 else 0) + if c then 1 else 0
  {
    ValueSnoc(x, b);
    ValueSnoc(x + [b], c);
  }

  lemma FourBits(x: Bits, b: Bits)
    requires |b| == 4
    ensures x + [b[0]] + [b[1]] + [b[2]] + [b[3]] == x + b
  {
  }

  lemma ValueOfEight(b: Bits)
    requires |b| == 8
    ensures Value(b) == Octet(b)
  {
    var high, low := b[..4], b[4..];
    ValueOfFour([], high);
    ValueOfFour(high, low);
    assert [] + high == high && high + low == b;
  }

  /** An IPv6 label is the hexadecimal digit of its four bits, an IPv4 label the shortest decimal of its eight. */
  lemma GroupTextExactly(f: Family, b: Bits)
    requires |b| == GroupWidth(f)
    ensures |b| == if f.V6? then 4 else 8
    ensures f.V6? ==> Nibble(b) < 16 && GroupText(f, b) == [DIGITS[Nibble(b)]]
    ensures f.V4? ==>
              && var v := Octet(b);
              && v < 256
              && GroupText(f, b) == (if v >= 100 then [DIGITS[v / 100]] else []) +
                                    (if v >= 10 then [DIGITS[v / 10 % 10]] else []) + [DIGITS[v % 10]]
  {
    if f.V6? {
      ValueOfFour([], b);
      assert [] + b == b;
    } else {
      ValueOfEight(b);
      ByteText(Octet(b));
    }
  }

  lemma ByteText(v: nat)
    requires v < 256
    ensures DecimalText(v) == (if v >= 100 then [DIGITS[v / 100]] else []) +
                              (if v >= 10 then [DIGITS[v / 10 % 10]] else []) + [DIGITS[v % 10]]
  {
    assert v / 10 / 10 == v / 100;
  }

  lemma {:induction false} GroupLabelsAt(f: Family, bits: Bits, i: nat)
    requires (i + 1) * GroupWidth(f) <= |bits|
    ensures |GroupLabels(f, bits)| == |bits| / GroupWidth(f)
    ensures i < |GroupLabels(f, bits)| &&
            GroupLabels(f, bits)[i] == GroupText(f, bits[i * GroupWidth(f)..][..GroupWidth(f)])
    decreases i
  {
    GroupLabelsLength(f, bits);
    if i > 0 {
      GroupLabelsAt(f, bits[GroupWidth(f)..], i - 1);
      assert bits[GroupWidth(f)..][(i - 1) * GroupWidth(f)..] == bits[i * GroupWidth(f)..];
    }
  }

  lemma {:induction false} GroupLabelsLength(f: Family, bits: Bits)
    ensures |GroupLabels(f, bits)| == |bits| / GroupWidth(f)
    decreases |bits|
  {
    if |bits| >= GroupWidth(f) {
      GroupLabelsLength(f, bits[GroupWidth(f)..]);
    }
  }

  lemma {:induction false} ReverseAt<T>(s: seq<T>, i: nat)
    requires i < |s|
    ensures Reverse(s)[i] == s[|s| - 1 - i]
  {
    if i < |s| - 1 {
      ReverseAt(s[1..], i);
    }
  }

  /** The bits of a network's jth group, by its family. */
  function Group(n: Network, j: nat): Bits
    requires |n.address| == Width(n.family) && (if n.family.V4? then j < 4 else j < 32)
  {
    if n.family.V4? then n.address[8 * j..8 * j + 8] else n.address[4 * j..4 * j + 4]
  }

  /** How many labels stand for groups in the network's name. */
  function GroupCount(n: Network): nat {
    if n.family.V4? then (n.prefix + 7) / 8 else (n.prefix + 3) / 4
  }

  lemma GroupCountShown(n: Network)
    requires IsNetwork(n)
    ensures GroupCount(n) * GroupWidth(n.family) == ShownBits(n) <= |n.address|
    ensures ShownBits(n) / GroupWidth(n.family) == GroupCount(n)
  {
    ShownBitsBounds(n);
  }

  /** The name of a network: a label for each shown group, the last group's first, and the family's reverse domain. */
  lemma NetworkNameExactly(n: Network, i: nat)
    requires IsNetwork(n)
    ensures |n.address| == Width(n.family) && GroupCount(n) <= (if n.family.V4? then 4 else 32)
    ensures ShownBits(n) <= |n.address| && |NetworkName(n)| == GroupCount(n) + 2
    ensures NetworkName(n)[GroupCount(n)..] == [if n.family.V4? then "in-addr" else "ip6", "arpa"]
    ensures i < GroupCount(n) ==> NetworkName(n)[i] == GroupText(n.family, Group(n, GroupCount(n) - 1 - i))
  {
    GroupCountShown(n);
    var shown := n.address[..ShownBits(n)];
    var groups := GroupLabels(n.family, shown);
    GroupLabelsLength(n.family, shown);
    if i < GroupCount(n) {
      var j := GroupCount(n) - 1 - i;
      ReverseAt(groups, i);
      ShownGroup(n, j);
    }
  }

  lemma ShownGroup(n: Network, j: nat)
    requires IsNetwork(n) && j < GroupCount(n)
    ensures ShownBits(n) <= |n.address| && j < |GroupLabels(n.family, n.address[..ShownBits(n)])|
    ensures GroupLabels(n.family, n.address[..ShownBits(n)])[j] == GroupText(n.family, Group(n, j))
  {
    GroupCountShown(n);
    var k, m := GroupWidth(n.family), ShownBits(n);
    GroupInside(n.family, j, GroupCount(n));
    GroupLabelsAt(n.family, n.address[..m], j);
    GroupStarts(n, j);
    PartOfPart(n.address, m, j * k, k);
  }

  lemma GroupInside(f: Family, j: nat, count: nat)
    requires j < count
    ensures (j + 1) * GroupWidth(f) == j * GroupWidth(f) + GroupWidth(f) <= count * GroupWidth(f)
  {
  }

  lemma GroupStarts(n: Network, j: nat)
    requires IsNetwork(n) && j < GroupCount(n)
    ensures 0 <= j * GroupWidth(n.family) <= j * GroupWidth(n.family) + GroupWidth(n.family) <= |n.address|
    ensures Group(n, j) == n.address[j * GroupWidth(n.family)..][..GroupWidth(n.family)]
  {
    if n.family.V4? {
      assert Group(n, j) == n.address[j * 8..][..8];
    } else {
      assert Group(n, j) == n.address[j * 4..][..4];
    }
  }

  lemma PartOfPart(bits: Bits, m: nat, i: nat, k: nat)
    requires i + k <= m <= |bits|
    ensures bits[..m][i..][..k] == bits[i..][..k]
  {
  }

  /** An address is named as the network of that address alone. */
  lemma AddressNamed(f: Family, a: Bits)
    requires |a| == Width(f)
    ensures ShownBits(Network(f, a, Width(f))) == |a|
    ensures AddressName(f, a) == NetworkName(Network(f, a, Width(f)))
  {
    assert a[..|a|] == a;
  }
}
