/** How the parts of a redirect URI are read, by how they are written: cleaning, the loopback hosts, and ports. */
module RedirectText {
  import opened Common
  import opened Strings
  import opened Uri
  import opened UriCorrect
  import opened Redirect
  import opened RedirectCorrect
  import opened Expansion

  // ---------------------------------------------------------------- what urlsplit drops

  /** Blanks and control characters in front are dropped, tabs and line ends anywhere, and nothing else. */
  lemma CleanExactly(a: string, c: char, b: string)
    ensures c <= ' ' ==> Clean([c] + b) == Clean(b)
    ensures c == '\t' || c == '\r' || c == '\n' ==> Clean(a + [c] + b) == Clean(a + b)
    ensures c > ' ' && (forall i | 0 <= i < |b| :: b[i] != '\t' && b[i] != '\r' && b[i] != '\n') ==>
              Clean([c] + b) == [c] + b
    ensures Clean("") == ""
  {
    assert ([c] + b)[0] == c && ([c] + b)[1..] == b;
    if c == '\t' || c == '\r' || c == '\n' {
      CleanAppend(a, [c] + b);
      CleanAppend(a, b);
      assert a + [c] + b == a + ([c] + b);
      assert Remove([c] + b) == Remove(b);
    }
    if c > ' ' && forall i | 0 <= i < |b| :: b[i] != '\t' && b[i] != '\r' && b[i] != '\n' {
      KeepsUnmarked([c] + b);
    }
    hide Remove;
  }

  lemma {:induction false} KeepsUnmarked(s: string)
    requires forall i | 0 <= i < |s| :: s[i] != '\t' && s[i] != '\r' && s[i] != '\n'
    ensures Remove(s) == s
  {
    if s != "" {
      KeepsUnmarked(s[1..]);
      assert s == [s[0]] + s[1..];
    }
  }

  // ---------------------------------------------------------------- loopback hosts

  /** 127.0.0.1 up to a port, or it or ::1 in brackets; a userinfo may stand before, and urlsplit does not look at
      what is between it and the bracket, or behind the bracket. */
  ghost predicate Loopback(netloc: string) {
    exists userinfo, host :: netloc == userinfo + host && UserinfoPrefix(userinfo) && '@' !in host
                             && (PlainLoopback(host) || BracketedLoopback(host))
  }

  predicate PlainLoopback(host: string) {
    '[' !in host && (host == "127.0.0.1" || StartsWith(host, "127.0.0.1:"))
  }

  ghost predicate BracketedLoopback(host: string) {
    exists left, address, right :: Brackets(host, left, address, right)
  }

  predicate Brackets(host: string, left: string, address: string, right: string) {
    '[' !in left && (address == "127.0.0.1" || address == "::1") && (right == "" || right[0] == ']')
    && host == left + "[" + address + right
  }

  lemma LoweredExactly(raw: string, address: string)
    requires address == "127.0.0.1" || address == "::1"
    ensures LowerToZone(raw) == address <==> raw == address
  {
    hide FirstOf;
    var n := FirstOf(raw, {'%'});
    var lowered := LowerToZone(raw);
    assert n < |raw| ==> lowered[n] == '%';
    if lowered == address {
      assert forall i | 0 <= i < |raw| :: lowered[i] == address[i];
      forall i | 0 <= i < |raw| ensures raw[i] == address[i] {
        assert lowered[i] == LowerChar(raw[i]);
        assert address[i] < 'A';
      }
    }
    if raw == address {
      assert forall i | 0 <= i < |raw| :: raw[i] < 'A' && raw[i] != '%';
    }
  }

  lemma NoMark(s: string, mark: char)
    requires mark !in s
    ensures Partition(s, mark) == (s, "")
  {
    hide FirstOf;
    PartitionRejoins(s, mark);
  }

  /** The address read from a host with a bracket. */
  lemma AddressRead(host: string) returns (left: string, right: string)
    requires '[' in host
    ensures host == left + "[" + SplitHostPort(host).0 + right && '[' !in left && (right == "" || right[0] == ']')
  {
    hide FirstOf, Partition;
    PartitionRejoins(host, '[');
    left := Partition(host, '[').0;
    var behind := Partition(host, '[').1;
    PartitionRejoins(behind, ']');
    right := if ']' in behind then "]" + Partition(behind, ']').1 else "";
    assert behind == SplitHostPort(host).0 + right;
  }

  lemma AddressWritten(host: string, left: string, address: string, right: string)
    requires Brackets(host, left, address, right)
    ensures SplitHostPort(host).0 == address && '[' in host
  {
    hide FirstOf, Partition;
    var behind := address + right;
    assert host == left + ['['] + behind;
    PartitionFresh(left, '[', behind);
    assert host[|left|] == '[';
    if right == "" {
      assert behind == address;
      NoMark(address, ']');
    } else {
      assert behind == address + [']'] + right[1..];
      PartitionFresh(address, ']', right[1..]);
    }
  }

  lemma PlainRead(host: string)
    requires '[' !in host
    ensures SplitHostPort(host).0 == "127.0.0.1" <==> PlainLoopback(host)
    ensures SplitHostPort(host).0 != "::1"
  {
    hide FirstOf, Partition;
    PartitionRejoins(host, ':');
    var name, after := Partition(host, ':').0, Partition(host, ':').1;
    if name == "127.0.0.1" && ':' in host {
      assert host[..10] == "127.0.0.1:";
    }
    assert name != "" ==> name[0] != ':';
    if StartsWith(host, "127.0.0.1:") {
      assert host == "127.0.0.1" + [':'] + host[10..];
      PartitionFresh("127.0.0.1", ':', host[10..]);
    } else if host == "127.0.0.1" {
      NoMark(host, ':');
    }
  }

  lemma HostExactly(host: string)
    ensures LoopbackHost(LowerToZone(SplitHostPort(host).0)) <==> PlainLoopback(host) || BracketedLoopback(host)
  {
    var raw := SplitHostPort(host).0;
    LoweredExactly(raw, "127.0.0.1");
    LoweredExactly(raw, "::1");
    hide LowerToZone, SplitHostPort;
    if '[' in host {
      var left, right := AddressRead(host);
      if raw == "127.0.0.1" || raw == "::1" {
        assert Brackets(host, left, raw, right);
      }
    } else {
      PlainRead(host);
    }
    forall left, address, right | Brackets(host, left, address, right) ensures raw == address && '[' in host {
      AddressWritten(host, left, address, right);
    }
    hide Brackets, PlainLoopback;
  }

  /** A network location names a loopback address exactly when it is written so. */
  lemma LoopbackExactly(netloc: string)
    ensures LoopbackHost(Hostname(netloc)) <==> Loopback(netloc)
  {
    hide LoopbackHost, LowerToZone, SplitHostPort, PlainLoopback, BracketedLoopback, LastOf;
    if LoopbackHost(Hostname(netloc)) {
      var u := UserinfoSplit(netloc);
      HostExactly(AfterUserinfo(netloc));
      assert netloc == u + AfterUserinfo(netloc);
    }
    if Loopback(netloc) {
      var userinfo, host :| netloc == userinfo + host && UserinfoPrefix(userinfo) && '@' !in host
                            && (PlainLoopback(host) || BracketedLoopback(host));
      AfterUserinfoIs(userinfo, host);
      HostExactly(host);
    }
  }

  // ---------------------------------------------------------------- ports

  lemma {:induction false} ValueOfDecimal(n: nat)
    ensures All(Decimal(n), Digit) && DecimalValue(Decimal(n)) == n
  {
    var last := ('0' as int + n % 10) as char;
    if n < 10 {
      assert Decimal(n)[..0] == "" && Decimal(n)[0] == ('0' as int + n) as char;
      assert DecimalValue("") == 0;
    } else {
      ValueOfDecimal(n / 10);
      DecimalDigits(n / 10);
      assert Decimal(n)[..|Decimal(n)| - 1] == Decimal(n / 10) && Decimal(n)[|Decimal(n)| - 1] == last;
    }
  }

  /** A port is in range up to 65535. */
  lemma PortExactly(n: nat)
    ensures PortInRange(Decimal(n)) <==> n <= 65535
  {
    ValueOfDecimal(n);
    DecimalDigits(n);
    hide Decimal, DecimalValue;
  }

  lemma OnlyDigitsArePorts(s: string)
    requires PortInRange(s)
    ensures s != "" && forall i | 0 <= i < |s| :: '0' <= s[i] <= '9'
  {
    hide DecimalValue;
  }
}
