/** Standby broker addresses: splitAltHost and the altHosts normalisation of ParseDSN (cubrid/config.go). */
module AltHost {
  const DEFAULT_PORT := 33000

  // ---------- Package strings, strconv and net ----------

  function IndexOf(s: string, c: char): (i: int)
    ensures i == -1 ==> c !in s
    ensures i != -1 ==> 0 <= i < |s| && s[i] == c && c !in s[..i]
  {
    if s == [] then -1
    else if s[0] == c then 0
    else
      var i := IndexOf(s[1..], c);
      if i == -1 then -1
      else
        assert s[..i + 1] == [s[0]] + s[1..][..i];
        i + 1
  }

  function LastIndexOf(s: string, c: char): (i: int)
    ensures i == -1 ==> c !in s
    ensures i != -1 ==> 0 <= i < |s| && s[i] == c && c !in s[i + 1..]
  {
    if s == [] then -1
    else if s[|s| - 1] == c then |s| - 1
    else
      var t := s[..|s| - 1];
      var i := LastIndexOf(t, c);
      if i == -1 then
        assert s == t + [s[|s| - 1]];
        -1
      else
        assert s[i + 1..] == t[i + 1..] + [s[|s| - 1]];
        i
  }

  predicate IsDigit(c: char) { '0' <= c <= '9' }

  function DigitValue(c: char): (d: nat)
    requires IsDigit(c)
    ensures d < 10
  {
    (c - '0') as int
  }

  predicate AllDigits(s: string) { forall i :: 0 <= i < |s| ==> IsDigit(s[i]) }

  function Decimal(s: string): (n: nat)
    requires AllDigits(s)
  {
    if s == [] then 0 else Decimal(s[..|s| - 1]) * 10 + DigitValue(s[|s| - 1])
  }

  datatype Number = NotANumber | Number(value: int)

  /** strconv.Atoi: an optional sign, then one or more digits. */
  function Atoi(s: string): (n: Number)
  {
    var t := if s != [] && (s[0] == '+' || s[0] == '-') then s[1..] else s;
    if t == [] || !AllDigits(t) then NotANumber
    else
      var n: int := Decimal(t);
      Number(if s[0] == '-' then -n else n)
  }

  function Itoa(n: nat): (s: string)
    ensures s != [] && AllDigits(s) && Decimal(s) == n
  {
    if n < 10 then
      var s := [n as char + '0'];
      assert s[..0] == [];
      s
    else
      var t := Itoa(n / 10);
      var s := t + [(n % 10) as char + '0'];
      assert s[..|s| - 1] == t;
      s
  }

  datatype HostPort = Parts(host: string, port: string) | MissingPort | Malformed

  /** net.SplitHostPort. */
  function SplitHostPort(s: string): (a: HostPort)
  {
    var i := LastIndexOf(s, ':');
    if i < 0 then MissingPort
    else if s[0] == '[' then
      var end := IndexOf(s, ']');
      if end < 0 then Malformed
      else if end + 1 == |s| then MissingPort
      else if end + 1 == i then
        if '[' in s[1..] || ']' in s[end + 1..] then Malformed else Parts(s[1..end], s[i + 1..])
      else if s[end + 1] == ':' then Malformed
      else MissingPort
    else if ':' in s[..i] then Malformed
    else if '[' in s || ']' in s then Malformed
    else Parts(s[..i], s[i + 1..])
  }

  /** net.JoinHostPort: a colon-bearing host is bracketed. */
  function JoinHostPort(host: string, port: string): (s: string)
  {
    if ':' in host then "[" + host + "]:" + port else host + ":" + port
  }

  // ---------- splitAltHost ----------

  datatype Entry = Entry(host: string, port: int) | Rejected

  function SplitAltHost(s: string): (e: Entry)
  {
    match SplitHostPort(s)
    case Malformed => Rejected
    case MissingPort =>
      var host := if |s| >= 2 && s[0] == '[' && s[|s| - 1] == ']' then s[1..|s| - 1] else s;
      if host == [] then Rejected
      else if '[' in host || ']' in host then Rejected
      else Entry(host, DEFAULT_PORT)
    case Parts(host, portText) =>
      if host == [] then Rejected
      else
        match Atoi(portText)
        case NotANumber => Rejected
        case Number(port) => if port <= 0 || port > 65535 then Rejected else Entry(host, port)
  }

  /** The documented forms: host, [host], host:port, [host]:port; an unbracketed host has no colon. */
  predicate IsHost(h: string) { h != [] && '[' !in h && ']' !in h }

  predicate IsPort(text: string, n: int) { Atoi(text) == Number(n) && 1 <= n <= 65535 }

  ghost predicate Denotes(s: string, h: string, n: int)
  {
    IsHost(h) &&
    (|| (s == h && ':' !in h && n == 33000)
     || (s == "[" + h + "]" && n == 33000)
     || (':' !in h && exists p: string :: s == h + ":" + p && IsPort(p, n))
     || (exists p: string :: s == "[" + h + "]:" + p && IsPort(p, n)))
  }

  // ---------- Accepts exactly the documented forms ----------

  /** A port text holds no separator. */
  lemma PortIsPlain(p: string, n: int)
    requires IsPort(p, n)
    ensures ':' !in p && '[' !in p && ']' !in p
  {
    if p[0] == '+' || p[0] == '-' {
      assert p == [p[0]] + p[1..];
    }
  }

  lemma Accepted(s: string)
    requires SplitAltHost(s).Entry?
    ensures Denotes(s, SplitAltHost(s).host, SplitAltHost(s).port)
  {
    if SplitHostPort(s).MissingPort? {
      AcceptedBare(s);
    } else {
      AcceptedWithPort(s);
    }
  }

  lemma AcceptedBare(s: string)
    requires SplitAltHost(s).Entry? && SplitHostPort(s).MissingPort?
    ensures Denotes(s, SplitAltHost(s).host, SplitAltHost(s).port)
  {
    var h := SplitAltHost(s).host;
    if |s| >= 2 && s[0] == '[' && s[|s| - 1] == ']' {
      assert s == "[" + h + "]";
    } else {
      BareHost(s);
    }
  }

  lemma CutAt(s: string, i: nat)
    requires i < |s| && s[i] == ':'
    ensures s == s[..i] + ":" + s[i + 1..]
  {
  }

  lemma AcceptedWithPort(s: string)
    requires SplitAltHost(s).Entry? && SplitHostPort(s).Parts?
    ensures Denotes(s, SplitAltHost(s).host, SplitAltHost(s).port)
  {
    var h, i := SplitAltHost(s).host, LastIndexOf(s, ':');
    var p := s[i + 1..];
    assert IsPort(p, SplitAltHost(s).port);
    if s[0] == '[' {
      BracketParts(s);
      assert s == "[" + h + "]:" + p;
    } else {
      CutAt(s, i);
      assert '[' !in h && ']' !in h;
    }
  }

  /** Without brackets, only a colon-free string is missing its port. */
  lemma BareHost(s: string)
    requires SplitHostPort(s).MissingPort? && '[' !in s && s != []
    ensures ':' !in s
  {
    assert s[0] in s;
  }

  lemma BracketParts(s: string)
    requires SplitHostPort(s).Parts? && s[0] == '['
    ensures var i := LastIndexOf(s, ':');
            i >= 2 && s == "[" + s[1..i - 1] + "]:" + s[i + 1..] && SplitHostPort(s).host == s[1..i - 1]
    ensures '[' !in s[1..LastIndexOf(s, ':') - 1] && ']' !in s[1..LastIndexOf(s, ':') - 1]
  {
    var i, end := LastIndexOf(s, ':'), IndexOf(s, ']');
    assert end == i - 1 && '[' !in s[1..] && ']' !in s[..end];
    Bracketed(s, i);
  }

  lemma Bracketed(s: string, i: nat)
    requires 2 <= i < |s| && s[0] == '[' && s[i - 1] == ']' && s[i] == ':'
    requires '[' !in s[1..] && ']' !in s[..i - 1]
    ensures s == "[" + s[1..i - 1] + "]:" + s[i + 1..]
    ensures '[' !in s[1..i - 1] && ']' !in s[1..i - 1]
  {
    assert s[1..] == s[1..i - 1] + s[i - 1..];
    assert s[..i - 1] == [s[0]] + s[1..i - 1];
  }

  lemma {:induction false} LastColon(a: string, b: string)
    requires ':' !in b
    ensures LastIndexOf(a + ":" + b, ':') == |a|
    decreases |b|
  {
    var s := a + ":" + b;
    if b != [] {
      LastColon(a, b[..|b| - 1]);
      assert s[|s| - 1] == b[|b| - 1] && s[..|s| - 1] == a + ":" + b[..|b| - 1];
    }
  }

  lemma {:induction false} FirstIndex(a: string, c: char, b: string)
    requires c !in a
    ensures IndexOf(a + [c] + b, c) == |a|
    decreases |a|
  {
    var s := a + [c] + b;
    if a != [] {
      FirstIndex(a[1..], c, b);
      assert s[0] == a[0] && s[1..] == a[1..] + [c] + b;
    }
  }

  lemma FirstBracket(h: string, rest: string)
    requires ']' !in h
    ensures IndexOf("[" + h + "]" + rest, ']') == |h| + 1
  {
    FirstIndex("[" + h, ']', rest);
  }

  lemma HostPortForm(h: string, p: string, n: int)
    requires IsHost(h) && ':' !in h && IsPort(p, n)
    ensures SplitAltHost(h + ":" + p) == Entry(h, n)
  {
    var s := h + ":" + p;
    PortIsPlain(p, n);
    LastColon(h, p);
    assert s[0] == h[0] && h[0] in h;
    assert s[..|h|] == h && s[|h| + 1..] == p;
  }

  lemma BracketedForm(h: string)
    requires IsHost(h)
    ensures SplitAltHost("[" + h + "]") == Entry(h, DEFAULT_PORT)
  {
    var s := "[" + h + "]";
    assert s + "" == s;
    FirstBracket(h, "");
    assert s[1..|s| - 1] == h;
  }

  lemma BracketedPortForm(h: string, p: string, n: int)
    requires IsHost(h) && IsPort(p, n)
    ensures SplitAltHost("[" + h + "]:" + p) == Entry(h, n)
  {
    PortIsPlain(p, n);
    SplitBracketed(h, p, "[" + h + "]:" + p);
  }

  lemma Regroup(h: string, p: string)
    ensures "[" + h + "]:" + p == ("[" + h + "]") + ":" + p == "[" + h + "]" + (":" + p)
  {
  }

  lemma SplitBracketed(h: string, p: string, s: string)
    requires IsHost(h) && ':' !in p && '[' !in p && ']' !in p
    requires s == "[" + h + "]:" + p
    ensures SplitHostPort(s) == Parts(h, p)
  {
    Regroup(h, p);
    LastColon("[" + h + "]", p);
    FirstBracket(h, ":" + p);
    BracketedSlices(h, p, s);
  }

  lemma BracketedSlices(h: string, p: string, s: string)
    requires IsHost(h) && '[' !in p && ']' !in p && s == "[" + h + "]:" + p
    ensures s[0] == '[' && |s| == |h| + 3 + |p|
    ensures '[' !in s[1..] && ']' !in s[|h| + 2..]
    ensures s[1..|h| + 1] == h && s[|h| + 3..] == p
  {
    assert s[1..] == h + "]:" + p && s[|h| + 2..] == ":" + p;
  }

  /** splitAltHost accepts exactly the documented forms, with the host and port they spell. */
  lemma AcceptsExactlyTheForms(s: string, h: string, n: int)
    ensures SplitAltHost(s) == Entry(h, n) <==> Denotes(s, h, n)
  {
    if SplitAltHost(s) == Entry(h, n) {
      Accepted(s);
    }
    if Denotes(s, h, n) {
      if s == h && ':' !in h && n == DEFAULT_PORT {
        assert s[0] in s;
      } else if s == "[" + h + "]" && n == DEFAULT_PORT {
        BracketedForm(h);
      } else if ':' !in h && exists p: string :: s == h + ":" + p && IsPort(p, n) {
        var p: string :| s == h + ":" + p && IsPort(p, n);
        HostPortForm(h, p, n);
      } else {
        var p: string :| s == "[" + h + "]:" + p && IsPort(p, n);
        BracketedPortForm(h, p, n);
      }
    }
  }

  // ---------- Parse, join, parse ----------

  lemma ItoaIsPort(n: int)
    requires 1 <= n <= 65535
    ensures IsPort(Itoa(n), n)
  {
    assert IsDigit(Itoa(n)[0]);
  }

  /** The joined form re-parses to the same pair: parse, join, parse is a fixed point on every string. */
  lemma ParseJoinParse(s: string)
    requires SplitAltHost(s).Entry?
    ensures var e := SplitAltHost(s);
            && e.host != [] && '[' !in e.host && ']' !in e.host && 1 <= e.port <= 65535
            && SplitAltHost(JoinHostPort(e.host, Itoa(e.port))) == e
  {
    var e := SplitAltHost(s);
    AcceptsExactlyTheForms(s, e.host, e.port);
    ItoaIsPort(e.port);
    if ':' in e.host {
      BracketedPortForm(e.host, Itoa(e.port), e.port);
    } else {
      HostPortForm(e.host, Itoa(e.port), e.port);
    }
  }

  /** The altHosts loop of ParseDSN: every entry is checked and stored in joined form, or none is. */
  method Normalise(entries: seq<string>) returns (ok: bool, stored: seq<string>)
    ensures ok <==> forall i :: 0 <= i < |entries| ==> SplitAltHost(entries[i]).Entry?
    ensures ok ==> |stored| == |entries|
    ensures ok ==> forall i :: 0 <= i < |entries| ==> Stores(entries[i], stored[i])
    ensures ok ==> forall i :: 0 <= i < |entries| ==> SplitAltHost(stored[i]) == SplitAltHost(entries[i])
  {
    stored := [];
    for i := 0 to |entries|
      invariant |stored| == i
      invariant forall j :: 0 <= j < i ==> Stores(entries[j], stored[j])
    {
      var e := SplitAltHost(entries[i]);
      if e.Rejected? {
        return false, [];
      }
      stored := stored + [JoinHostPort(e.host, Itoa(e.port))];
    }
    ok := true;
    StoredParseAlike(entries, stored);
  }

  lemma StoredParseAlike(entries: seq<string>, stored: seq<string>)
    requires |stored| == |entries| && forall i :: 0 <= i < |entries| ==> Stores(entries[i], stored[i])
    ensures forall i :: 0 <= i < |entries| ==> SplitAltHost(stored[i]) == SplitAltHost(entries[i])
  {
    forall i | 0 <= i < |entries|
      ensures SplitAltHost(stored[i]) == SplitAltHost(entries[i])
    {
      assert Stores(entries[i], stored[i]);
      ParseJoinParse(entries[i]);
    }
  }

  /** The stored form of an accepted entry is its host and port, joined. */
  predicate Stores(entry: string, stored: string)
  {
    var e := SplitAltHost(entry);
    e.Entry? && stored == JoinHostPort(e.host, Itoa(e.port))
  }
}
