/** IPv4 addresses as 32-bit numbers, their dotted text, and the hosts of a network. */
module IPv4 {
  import opened Common

  type Byte = b: int | 0 <= b < 256
  const WIDTH := 0x1_0000_0000
  type Addr = a: int | 0 <= a < WIDTH

  function Pow2(n: nat): (p: nat)
    ensures p >= 1
  {
    if n == 0 then 1 else 2 * Pow2(n - 1)
  }

  lemma {:induction false} Pow2Adds(m: nat, n: nat)
    ensures Pow2(m + n) == Pow2(m) * Pow2(n)
  {
    if m == 0 {
    } else {
      Pow2Adds(m - 1, n);
      assert Pow2(m + n) == 2 * Pow2(m - 1 + n);
      assert 2 * (Pow2(m - 1) * Pow2(n)) == (2 * Pow2(m - 1)) * Pow2(n);
    }
  }

  // ---- text -------------------------------------------------------------------------

  function Digit(d: int): char
    requires 0 <= d < 10
  {
    ('0' as int + d) as char
  }

  predicate IsDigit(c: char) { '0' <= c <= '9' }

  function DigitValue(c: char): (d: int)
    requires IsDigit(c)
    ensures 0 <= d < 10
  {
    c as int - '0' as int
  }

  lemma DigitExact(c: char, d: int)
    requires 0 <= d < 10
    ensures c == Digit(d) <==> IsDigit(c) && DigitValue(c) == d
    ensures Digit(d) == '0' <==> d == 0
  {
  }

  function Octet(b: Byte): string {
    if b < 10 then [Digit(b)]
    else if b < 100 then [Digit(b / 10), Digit(b % 10)]
    else [Digit(b / 100), Digit(b / 10 % 10), Digit(b % 10)]
  }

  predicate AllDigits(s: string) {
    forall i :: 0 <= i < |s| ==> IsDigit(s[i])
  }

  /** Value of a short run of digits. */
  function DecimalValue(s: string): nat
    requires AllDigits(s)
  {
    if s == "" then 0 else 10 * DecimalValue(s[..|s| - 1]) + DigitValue(s[|s| - 1])
  }

  /** One decimal field: at most three digits, no leading zero, at most 255. */
  function ParseOctet(s: string): Option<Byte> {
    if |s| == 0 || |s| > 3 || !AllDigits(s) || (|s| > 1 && s[0] == '0') || DecimalValue(s) > 255 then None
    else Some(DecimalValue(s))
  }

  lemma ShortDecimal(s: string)
    requires AllDigits(s)
    ensures |s| == 1 ==> DecimalValue(s) == DigitValue(s[0])
    ensures |s| == 2 ==> DecimalValue(s) == 10 * DigitValue(s[0]) + DigitValue(s[1])
    ensures |s| == 3 ==> DecimalValue(s) == 100 * DigitValue(s[0]) + 10 * DigitValue(s[1]) + DigitValue(s[2])
  {
  }

  lemma OctetParses(b: Byte)
    ensures ParseOctet(Octet(b)) == Some(b)
  {
    var s := Octet(b);
    if b < 10 {
      DigitExact(s[0], b);
    } else if b < 100 {
      DigitExact(s[0], b / 10);
      DigitExact(s[1], b % 10);
    } else {
      DigitExact(s[0], b / 100);
      DigitExact(s[1], b / 10 % 10);
      DigitExact(s[2], b % 10);
      Hundreds(b);
    }
    assert AllDigits(s);
    ShortDecimal(s);
    assert DecimalValue(s) == b;
  }

  lemma Hundreds(b: int)
    requires 0 <= b
    ensures b == 100 * (b / 100) + 10 * (b / 10 % 10) + b % 10
  {
  }

  lemma ParsedIsOctet(s: string)
    requires ParseOctet(s).Some?
    ensures s == Octet(ParseOctet(s).value)
  {
    ShortDecimal(s);
    var n := |s|;
    var d0, d1, d2 := DigitValue(s[0]), DigitValue(s[if n > 1 then 1 else 0]), DigitValue(s[n - 1]);
    DigitExact(s[0], d0);
    DigitExact(s[0], 0);
    DigitExact(s[if n > 1 then 1 else 0], d1);
    DigitExact(s[n - 1], d2);
    if n == 3 {
      DigitsOf(d0, d1, d2);
    }
  }

  lemma DigitsOf(x: int, y: int, z: int)
    requires 0 <= x < 10 && 0 <= y < 10 && 0 <= z < 10
    ensures var v := 100 * x + 10 * y + z; v / 100 == x && v / 10 % 10 == y && v % 10 == z
  {
  }

  lemma OctetHasNoDot(b: Byte)
    ensures '.' !in Octet(b)
  {
  }

  function Join(fields: seq<string>): string
    requires fields != []
  {
    if |fields| == 1 then fields[0] else fields[0] + "." + Join(fields[1..])
  }

  function Split(s: string): (fields: seq<string>)
    ensures fields != []
  {
    if s == "" then [""]
    else
      var rest := Split(s[1..]);
      if s[0] == '.' then [""] + rest else [[s[0]] + rest[0]] + rest[1..]
  }

  lemma {:induction false} JoinSplit(s: string)
    ensures Join(Split(s)) == s
  {
    if s == "" {
    } else {
      var rest := Split(s[1..]);
      JoinSplit(s[1..]);
      if s[0] == '.' {
        assert ([""] + rest)[1..] == rest;
      } else if |rest| > 1 {
        assert Split(s)[1..] == rest[1..];
      }
    }
  }

  lemma {:induction false} SplitField(f: string, s: string)
    requires '.' !in f
    ensures Split(f) == [f]
    ensures Split(f + "." + s) == [f] + Split(s)
  {
    if f == "" {
      assert "." + s == ['.'] + s;
      assert ("" + "." + s)[1..] == s;
    } else {
      SplitField(f[1..], s);
      assert (f + "." + s)[1..] == f[1..] + "." + s;
      assert [f[0]] + f[1..] == f;
    }
  }

  lemma {:induction false} SplitJoin(f: seq<string>)
    requires f != [] && forall i :: 0 <= i < |f| ==> '.' !in f[i]
    ensures Split(Join(f)) == f
  {
    if |f| == 1 {
      SplitField(f[0], "");
    } else {
      SplitJoin(f[1..]);
      SplitField(f[0], Join(f[1..]));
    }
  }

  function Octets(b: seq<Byte>): (f: seq<string>)
    ensures |f| == |b|
  {
    if b == [] then [] else [Octet(b[0])] + Octets(b[1..])
  }

  function ParseAll(f: seq<string>): (b: Option<seq<Byte>>)
    ensures b.Some? ==> |b.value| == |f|
  {
    if f == [] then Some([])
    else
      match (ParseOctet(f[0]), ParseAll(f[1..]))
      case (Some(v), Some(rest)) => Some([v] + rest)
      case _ => None
  }

  lemma {:induction false} OctetsParse(b: seq<Byte>)
    ensures ParseAll(Octets(b)) == Some(b)
    ensures forall i :: 0 <= i < |b| ==> '.' !in Octets(b)[i]
  {
    if b == [] {
    } else {
      OctetsParse(b[1..]);
      OctetParses(b[0]);
      OctetHasNoDot(b[0]);
      assert Octets(b)[1..] == Octets(b[1..]);
      assert [b[0]] + b[1..] == b;
    }
  }

  lemma {:induction false} ParsedAreOctets(f: seq<string>)
    requires ParseAll(f).Some?
    ensures f == Octets(ParseAll(f).value)
  {
    if f == [] {
    } else {
      ParsedAreOctets(f[1..]);
      ParsedIsOctet(f[0]);
      assert ParseAll(f).value[1..] == ParseAll(f[1..]).value;
    }
  }

  function Bytes(a: Addr): (b: seq<Byte>)
    ensures |b| == 4
  {
    [a / 0x100_0000, a / 0x1_0000 % 256, a / 256 % 256, a % 256]
  }

  function FromBytes(b: seq<Byte>): Addr
    requires |b| == 4
  {
    Compose(b[0], b[1], b[2], b[3])
  }

  function Compose(w: int, x: int, y: int, z: int): int {
    w * 0x100_0000 + x * 0x1_0000 + y * 256 + z
  }

  lemma BytesExact(b: seq<Byte>, a: Addr)
    requires |b| == 4
    ensures FromBytes(b) == a <==> b == Bytes(a)
  {
    ComposeExact(b[0], b[1], b[2], b[3], a);
  }

  lemma ComposeExact(w: int, x: int, y: int, z: int, a: int)
    requires 0 <= w < 256 && 0 <= x < 256 && 0 <= y < 256 && 0 <= z < 256
    ensures Compose(w, x, y, z) == a <==>
              w == a / 0x100_0000 && x == a / 0x1_0000 % 256 && y == a / 256 % 256 && z == a % 256
  {
    if Compose(w, x, y, z) == a {
      assert a / 256 == w * 0x1_0000 + x * 256 + y;
      assert a / 0x1_0000 == w * 256 + x;
    }
    if w == a / 0x100_0000 && x == a / 0x1_0000 % 256 && y == a / 256 % 256 && z == a % 256 {
      assert a == a / 256 * 256 + z;
      assert a / 256 == a / 256 / 256 * 256 + y;
      assert a / 256 / 256 == a / 0x1_0000;
      assert a / 0x1_0000 == a / 0x1_0000 / 256 * 256 + x;
      assert a / 0x1_0000 / 256 == a / 0x100_0000;
    }
  }

  function Dotted(a: Addr): string {
    Join(Octets(Bytes(a)))
  }

  /** The strict address reader: exactly four decimal fields. */
  function ParseAddr(s: string): Option<Addr> {
    var f := Split(s);
    if |f| != 4 then None
    else
      match ParseAll(f)
      case Some(b) => Some(FromBytes(b))
      case None => None
  }

  /** The reader accepts exactly the canonical text of an address, and returns that address. */
  lemma ParseAddrExact(s: string, a: Addr)
    ensures ParseAddr(s) == Some(a) <==> s == Dotted(a)
  {
    if s == Dotted(a) {
      OctetsParse(Bytes(a));
      SplitJoin(Octets(Bytes(a)));
      BytesExact(Bytes(a), a);
    } else if ParseAddr(s) == Some(a) {
      JoinSplit(s);
      ParsedAreOctets(Split(s));
      BytesExact(ParseAll(Split(s)).value, a);
    }
  }

  lemma DottedInjective(a: Addr, b: Addr)
    requires Dotted(a) == Dotted(b)
    ensures a == b
  {
    ParseAddrExact(Dotted(a), a);
    ParseAddrExact(Dotted(a), b);
  }

  // ---- networks ---------------------------------------------------------------------

  /** A network base with its number of host bits; the base has no host bit set. */
  datatype Net = Net(base: Addr, hostBits: nat) {
    ghost predicate Valid() {
      hostBits <= 32 && base % Pow2(hostBits) == 0
    }

    predicate Contains(a: Addr) {
      a / Pow2(hostBits) == base / Pow2(hostBits)
    }

    function Broadcast(): int {
      base + Pow2(hostBits) - 1
    }

    /** How many addresses lie strictly between the base and the broadcast address. */
    function HostCount(): nat {
      if hostBits == 0 then 0 else Pow2(hostBits) - 2
    }
  }

  lemma Pow2Of32()
    ensures Pow2(32) == WIDTH
  {
    assert Pow2(8) == 256;
    Pow2Adds(8, 8);
    Pow2Adds(16, 16);
  }

  lemma ContainsExact(net: Net, a: Addr)
    requires net.Valid()
    ensures net.Broadcast() < WIDTH
    ensures net.Contains(a) <==> net.base <= a <= net.Broadcast()
  {
    var p := Pow2(net.hostBits);
    Pow2Adds(net.hostBits, 32 - net.hostBits);
    Pow2Of32();
    BlockExact(net.base, p, Pow2(32 - net.hostBits), a);
  }

  lemma BlockExact(base: nat, p: nat, q: nat, a: nat)
    requires p > 0 && base % p == 0 && base < p * q
    ensures base + p <= p * q
    ensures a / p == base / p <==> base <= a < base + p
  {
    var k, j := base / p, a / p;
    DivMod(base, p);
    DivMod(a, p);
    Cancel(k, q, p);
    Cancel(j, k, p);
    Cancel(k, j, p);
    assert (k + 1) * p == k * p + p;
    assert (j + 1) * p == j * p + p;
    assert q * p == p * q;
  }

  lemma DivMod(a: nat, p: nat)
    requires p > 0
    ensures a / p >= 0 && a == a / p * p + a % p && a % p < p
  {
  }

  lemma Cancel(x: nat, y: nat, p: nat)
    requires p > 0
    ensures x * p < y * p ==> (x + 1) * p <= y * p
    ensures x < y ==> (x + 1) * p <= y * p
    ensures x * p < y * p <==> x < y
  {
  }

  /** The first n addresses after the base, leaving out the skipped one. */
  function HostAddrs(base: int, n: nat, skip: Option<Addr>): (h: seq<Addr>)
    requires 0 <= base && base + n < WIDTH
  {
    if n == 0 then []
    else HostAddrs(base, n - 1, skip) + (if skip == Some(base + n) then [] else [base + n])
  }

  function UsableAddrs(net: Net, gateway: string): seq<Addr>
    requires net.Valid()
  {
    ContainsExact(net, net.base);
    HostAddrs(net.base, net.HostCount(), ParseAddr(gateway))
  }

  function Texts(addrs: seq<Addr>): (t: seq<string>)
    ensures |t| == |addrs|
  {
    if addrs == [] then [] else Texts(addrs[..|addrs| - 1]) + [Dotted(addrs[|addrs| - 1])]
  }

  lemma {:induction false} TextsAt(addrs: seq<Addr>, i: nat)
    requires i < |addrs|
    ensures Texts(addrs)[i] == Dotted(addrs[i])
  {
    if i == |addrs| - 1 {
    } else {
      TextsAt(addrs[..|addrs| - 1], i);
    }
  }

  /** The pool list: base+1 up to the address before broadcast, in order, without the gateway. */
  function UsableList(net: Net, gateway: string): seq<string>
    requires net.Valid()
  {
    Texts(UsableAddrs(net, gateway))
  }

  lemma {:induction false} HostAddrsExact(base: int, n: nat, skip: Option<Addr>)
    requires 0 <= base && base + n < WIDTH
    ensures var h := HostAddrs(base, n, skip);
            && (forall a: Addr :: a in h <==> base < a <= base + n && skip != Some(a))
            && (forall i, j :: 0 <= i < j < |h| ==> h[i] < h[j])
  {
    if n == 0 {
    } else {
      HostAddrsExact(base, n - 1, skip);
      var g, h, last: Addr := HostAddrs(base, n - 1, skip), HostAddrs(base, n, skip), base + n;
      assert h == if skip == Some(last) then g else g + [last];
      hide HostAddrs;
      forall i | 0 <= i < |g| ensures g[i] < last {
        assert g[i] in g;
      }
    }
  }

  /** Text of an address strictly inside the network, other than the gateway text. */
  predicate InPool(net: Net, gateway: string, s: string) {
    s != gateway && ParseAddr(s).Some? && net.base < ParseAddr(s).value < net.Broadcast()
  }

  /** What the pool hands out: every address strictly inside the network that the gateway text
      does not denote, in strictly ascending order; nothing for /31 and /32. */
  lemma UsableExact(net: Net, gateway: string)
    requires net.Valid()
    ensures var u := UsableAddrs(net, gateway);
            && (forall a: Addr :: a in u <==> net.base < a < net.Broadcast() && ParseAddr(gateway) != Some(a))
            && (forall i, j :: 0 <= i < j < |u| ==> u[i] < u[j])
            && (net.hostBits <= 1 ==> u == [])
  {
    ContainsExact(net, net.base);
    HostAddrsExact(net.base, net.HostCount(), ParseAddr(gateway));
    assert Pow2(1) == 2;
  }

  /** The same as text: exactly the canonical pool addresses, none twice. */
  lemma UsableTextExact(net: Net, gateway: string)
    requires net.Valid()
    ensures forall s :: s in UsableList(net, gateway) <==> InPool(net, gateway, s)
    ensures NoDup(UsableList(net, gateway))
  {
    UsableExact(net, gateway);
    var u, t := UsableAddrs(net, gateway), UsableList(net, gateway);
    forall i | 0 <= i < |u| ensures t[i] == Dotted(u[i]) {
      TextsAt(u, i);
    }
    forall s ensures s in t <==> InPool(net, gateway, s) {
      if s in t {
        var i :| 0 <= i < |t| && t[i] == s;
        ParseAddrExact(s, u[i]);
        ParseAddrExact(gateway, u[i]);
        assert u[i] in u;
      }
      if InPool(net, gateway, s) {
        var a := ParseAddr(s).value;
        ParseAddrExact(s, a);
        ParseAddrExact(gateway, a);
        var i :| 0 <= i < |u| && u[i] == a;
        assert t[i] == s;
      }
    }
    forall i, j | 0 <= i < j < |t| ensures t[i] != t[j] {
      if t[i] == t[j] {
        DottedInjective(u[i], u[j]);
      }
    }
  }

  /** The gateway address itself is withheld exactly when it is configured in canonical text. */
  lemma GatewayWithheld(net: Net, gateway: string, g: Addr)
    requires net.Valid() && net.base < g < net.Broadcast()
    ensures Dotted(g) !in UsableList(net, gateway) <==> gateway == Dotted(g)
  {
    UsableTextExact(net, gateway);
    ParseAddrExact(Dotted(g), g);
  }

  // ---- the byte-carry loop ------------------------------------------------------------

  /** Add one to a big-endian address held in four bytes, wrapping past 255.255.255.255. */
  method Increment(ip: array<Byte>)
    requires ip.Length == 4
    modifies ip
    ensures FromBytes(ip[..]) == (FromBytes(old(ip[..])) + 1) % WIDTH
  {
    var i := 3;
    while i >= 0
      invariant -1 <= i <= 3
      invariant forall j | 0 <= j <= i :: ip[j] == old(ip[j])
      invariant forall j | i < j < 4 :: ip[j] == 0 && old(ip[j]) == 255
    {
      var byte: int := ip[i];
      ip[i] := (byte + 1) % 256;
      if ip[i] != 0 {
        break;
      }
      i := i - 1;
    }
    CarryExact(old(ip[..]), ip[..], i);
  }

  /** The bytes after position i were 255 and became 0; byte i, if any, grew by one. */
  lemma CarryExact(b: seq<Byte>, c: seq<Byte>, i: int)
    requires |b| == |c| == 4 && -1 <= i <= 3
    requires forall j :: 0 <= j < i ==> c[j] == b[j]
    requires i >= 0 ==> c[i] as int == b[i] as int + 1
    requires forall j :: i < j < 4 ==> c[j] == 0 && b[j] == 255
    ensures FromBytes(c) == (FromBytes(b) + 1) % WIDTH
  {
    hide Compose;
    CarrySum(b[0], b[1], b[2], b[3], c[0], c[1], c[2], c[3], i);
    WrapOne(FromBytes(b));
  }

  lemma CarrySum(w: int, x: int, y: int, z: int, w': int, x': int, y': int, z': int, i: int)
    requires -1 <= i <= 3
    requires w' == (if i < 0 then 0 else if i == 0 then w + 1 else w) && (i < 0 ==> w == 255)
    requires x' == (if i < 1 then 0 else if i == 1 then x + 1 else x) && (i < 1 ==> x == 255)
    requires y' == (if i < 2 then 0 else if i == 2 then y + 1 else y) && (i < 2 ==> y == 255)
    requires z' == (if i < 3 then 0 else z + 1) && (i < 3 ==> z == 255)
    ensures Compose(w', x', y', z') == if i < 0 then 0 else Compose(w, x, y, z) + 1
    ensures i < 0 ==> Compose(w, x, y, z) == WIDTH - 1
  {
  }

  lemma WrapOne(n: int)
    requires 0 <= n < WIDTH
    ensures (n + 1) % WIDTH == if n + 1 == WIDTH then 0 else n + 1
  {
  }

  /** Walk the network from its base and collect the usable addresses. */
  method GenerateAvailable(net: Net, gateway: string) returns (available: seq<string>)
    requires net.Valid()
    ensures available == UsableList(net, gateway)
  {
    forall a: Addr ensures ParseAddr(gateway) == Some(a) <==> Dotted(a) == gateway {
      ParseAddrExact(gateway, a);
    }
    available := Walk(net, gateway, ParseAddr(gateway));
  }

  /** The loop; `skip` is the address the gateway text denotes, if any. */
  method Walk(net: Net, gateway: string, ghost skip: Option<Addr>) returns (available: seq<string>)
    requires net.Valid()
    requires forall a: Addr :: skip == Some(a) <==> Dotted(a) == gateway
    ensures net.base + net.HostCount() < WIDTH
    ensures available == Texts(HostAddrs(net.base, net.HostCount(), skip))
  {
    hide *;
    WalkBegins(net, skip);
    var ip := new Byte[4];
    var b := Bytes(net.base);
    ip[0], ip[1], ip[2], ip[3] := b[0], b[1], b[2], b[3];
    assert ip[..] == b;
    available := [];
    ghost var k: nat := 0;
    while true
      invariant k <= net.HostCount()
      invariant FromBytes(ip[..]) == net.base + k
      invariant available == Texts(HostAddrs(net.base, k, skip))
      decreases net.HostCount() - k
    {
      Increment(ip);
      var value := FromBytes(ip[..]);
      StopsExact(net, k);
      if Stops(net, value) {
        break;
      }
      TextsOfHosts(net.base, k, skip);
      k := k + 1;
      var text := Dotted(value);
      assert skip == Some(value) <==> text == gateway;
      if text != gateway {
        available := available + [text];
      }
    }
  }

  lemma WalkBegins(net: Net, skip: Option<Addr>)
    requires net.Valid()
    ensures net.base + net.HostCount() < WIDTH
    ensures FromBytes(Bytes(net.base)) == net.base
    ensures Texts(HostAddrs(net.base, 0, skip)) == []
  {
    ContainsExact(net, net.base);
    BytesExact(Bytes(net.base), net.base);
  }

  lemma TextsOfHosts(base: Addr, k: nat, skip: Option<Addr>)
    requires base + k + 1 < WIDTH
    ensures Texts(HostAddrs(base, k + 1, skip)) ==
            if skip == Some(base + k + 1) then Texts(HostAddrs(base, k, skip))
            else Texts(HostAddrs(base, k, skip)) + [Dotted(base + k + 1)]
  {
    hide Texts, Dotted;
    var h := HostAddrs(base, k, skip);
    if skip == Some(base + k + 1) {
      assert h + [] == h;
    } else {
      TextsAppend(h, base + k + 1);
    }
  }

  /** Out of the network, or at its broadcast address (compared in 32-bit unsigned arithmetic). */
  predicate Stops(net: Net, value: Addr) {
    !net.Contains(value) || (value - net.base) % WIDTH >= (Pow2(net.hostBits) - 1) % WIDTH
  }

  /** The walk stops exactly after the last host, also where the address would wrap around. */
  lemma StopsExact(net: Net, k: nat)
    requires net.Valid() && k <= net.HostCount()
    ensures Stops(net, (net.base + k + 1) % WIDTH) <==> k == net.HostCount()
    ensures k < net.HostCount() ==> (net.base + k + 1) % WIDTH == net.base + k + 1 < WIDTH
  {
    var p := Pow2(net.hostBits);
    ContainsExact(net, net.base);
    ContainsExact(net, (net.base + k + 1) % WIDTH);
    StopsArithmetic(net.base, p, k);
  }

  lemma StopsArithmetic(base: int, p: int, k: int)
    requires 0 <= base && 1 <= p && base + p <= WIDTH && 0 <= k <= LastHost(p)
    ensures var v := (base + k + 1) % WIDTH;
            && (!(base <= v < base + p) || (v - base) % WIDTH >= (p - 1) % WIDTH <==> k == LastHost(p))
            && (k < LastHost(p) ==> v == base + k + 1)
  {
  }

  function LastHost(p: int): int {
    if p == 1 then 0 else p - 2
  }

  lemma TextsAppend(addrs: seq<Addr>, a: Addr)
    ensures Texts(addrs + [a]) == Texts(addrs) + [Dotted(a)]
  {
  }
}
